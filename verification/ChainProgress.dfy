/** What moves a chain and what stops it: a pump that has failed never moves a byte again, and a chain whose pumps
    all run is never stuck and can always deliver everything that was accepted. */
module ChainProgress {
  import opened Bytes
  import opened Keystream
  import opened LayerStream
  import opened SocketChain

  // ----- a pump that has failed -----

  /** No step inside the chain changes what went in at its top or came out there. */
  lemma EndsUntouched(g: Generator, c: Chain, a: Act)
    requires Enabled(c, a)
    ensures Accepted(Do(g, c, a)) == Accepted(c) && Delivered(Do(g, c, a)) == Delivered(c)
  {
  }

  /** Every pump of `c` that has stopped is still stopped in `e`, and nothing has passed it. */
  ghost predicate StillStopped(c: Chain, e: Chain) {
    && c.Layer? == e.Layer?
    && (c.Layer? ==>
          && (c.fwd.stopped ==> e.fwd == c.fwd && Accepted(e.inner) == Accepted(c.inner))
          && (c.bwd.stopped ==> e.bwd.stopped && Delivered(e.inner) == Delivered(c.inner))
          && StillStopped(c.inner, e.inner))
  }

  lemma {:induction false} StoppedReflexive(c: Chain)
    ensures StillStopped(c, c)
  {
    if c.Layer? {
      StoppedReflexive(c.inner);
    }
  }

  lemma {:induction false} StoppedTransitive(c: Chain, d: Chain, e: Chain)
    requires StillStopped(c, d) && StillStopped(d, e)
    ensures StillStopped(c, e)
  {
    if c.Layer? {
      StoppedTransitive(c.inner, d.inner, e.inner);
    }
  }

  /** Calls on the two ends leave the insides alone. */
  lemma EndsKeepStopped(c: Chain, e: Chain)
    requires c.Layer? == e.Layer?
    requires c.Layer? ==> e.fwd == c.fwd && e.inner == c.inner && e.bwd == c.bwd
    ensures StillStopped(c, e)
  {
    if c.Layer? {
      StoppedReflexive(c.inner);
    }
  }

  lemma {:induction false} ActKeepsStopped(g: Generator, c: Chain, writing: bool, reading: bool, a: Act)
    requires Inv(g, c, writing, reading) && Enabled(c, a)
    ensures StillStopped(c, Do(g, c, a))
    decreases a
  {
    hide TxSent, RxTaken, RxInv, SideOk, Waiting, Matching, Consumed;
    var e := Do(g, c, a);
    match a
    case Inside(b) =>
      ActKeepsStopped(g, c.inner, !c.fwd.stopped, !c.bwd.stopped, b);
      EndsUntouched(g, c.inner, b);
    case FwdWrite(len, r) => EndsKeepStopped(c.inner, e.inner);
    case BwdRead(n) => EndsKeepStopped(c.inner, e.inner);
    case FwdStall(len, works) => EndsKeepStopped(c.inner, e.inner);
    case BwdStall(n, works) => EndsKeepStopped(c.inner, e.inner);
    case HelloOut(n) => StoppedReflexive(c.inner);
    case HelloIn(n) => StoppedReflexive(c.inner);
    case FwdRead(n) => StoppedReflexive(c.inner);
    case BwdWrite(r) => StoppedReflexive(c.inner);
  }

  /** In every run and at every depth: nothing passes a pump once it has stopped. */
  lemma {:induction false} StoppedForGood(g: Generator, s: Session, run: seq<Event>, end: Session)
    requires Inv(g, s.chain, s.writing, s.reading) && Reaches(g, s, run, end)
    ensures StillStopped(s.chain, end.chain)
    decreases |run|
  {
    if run == [] {
      StoppedReflexive(s.chain);
    } else {
      var t := After(g, s, run[0]);
      if run[0].Internal? {
        ActKeepsStopped(g, s.chain, s.writing, s.reading, run[0].act);
      } else {
        EndsKeepStopped(s.chain, t.chain);
      }
      AfterKeepsInv(g, s, run[0]);
      hide Inv, After, Possible, StillStopped;
      StoppedForGood(g, t, run[1..], end);
      StoppedTransitive(s.chain, t.chain, end.chain);
    }
  }

  /** A write that the layer below, the socket pair or the cipher refuses stops its pump, and so does a read the
      cipher spoils; a write that goes through in part does not. */
  lemma FailureStops(g: Generator, c: Chain, a: Act)
    requires Enabled(c, a)
    ensures match a
            case FwdWrite(_, r) => Do(g, c, a).fwd.stopped <==> r <= 0
            case BwdWrite(r) => Do(g, c, a).bwd.stopped <==> r <= 0
            case FwdStall(_, _) => Do(g, c, a).fwd.stopped
            case BwdStall(_, _) => Do(g, c, a).bwd.stopped
            case _ => Do(g, c, a).fwd.stopped == c.fwd.stopped && Do(g, c, a).bwd.stopped == c.bwd.stopped
    ensures a.FwdWrite? ==>
              Accepted(Do(g, c, a).inner) == Accepted(c.inner) + (if a.r > 0 then c.fwd.buf[..a.r] else [])
  {
    if a.FwdWrite? && a.r > 0 {
      assert c.fwd.buf[..a.len][..a.r] == c.fwd.buf[..a.r];
    }
  }

  // ----- a chain whose pumps all run -----

  ghost predicate Running(c: Chain) {
    c.Layer? ==> !c.fwd.stopped && !c.bwd.stopped && c.lost == 0 && Running(c.inner)
  }

  /** A step that moves at least one byte on. */
  predicate Moves(a: Act) {
    match a
    case HelloOut(n) => n > 0
    case HelloIn(n) => n > 0
    case FwdRead(_) => true
    case FwdWrite(_, r) => r > 0
    case BwdRead(_) => true
    case BwdWrite(r) => r > 0
    case FwdStall(_, _) => false
    case BwdStall(_, _) => false
    case Inside(b) => Moves(b)
  }

  /** Until everything is drained there is always a byte to move: inside, or out at the top. */
  lemma {:induction false} NeverStuck(g: Generator, c: Chain) returns (a: Option<Act>)
    requires Inv(g, c, true, true) && Running(c) && !Drained(c)
    ensures if a.Some? then Enabled(c, a.value) && Moves(a.value) else CanRead(c, 1)
  {
    if c.Base? {
      a := None;
    } else if c.tx.pending != [] {
      a := Some(HelloOut(1));
    } else if c.fwd.buf != [] {
      a := SendOn(g, c);
    } else if c.up != [] {
      a := Some(FwdRead(1));
    } else if c.bwd.buf != [] {
      a := Some(BwdWrite(1));
    } else if !Drained(c.inner) {
      var b := NeverStuck(g, c.inner);
      a := Some(if b.Some? then Inside(b.value) else BwdRead(1));
    } else {
      a := TakeOver(g, c);
    }
  }

  /** The pump can write, unless the layer below still has to send its hello. */
  lemma SendOn(g: Generator, c: Chain) returns (a: Option<Act>)
    requires Inv(g, c, true, true) && c.Layer? && !c.fwd.stopped && c.fwd.buf != []
    ensures a.Some? && Enabled(c, a.value) && Moves(a.value)
  {
    if c.inner.Layer? && c.inner.tx.pending != [] {
      a := Some(Inside(HelloOut(1)));
    } else {
      a := Some(FwdWrite(1, 1));
      assert Inv(g, c.inner, true, !c.bwd.stopped);
      Writable(g, c.inner, !c.bwd.stopped);
    }
  }

  lemma Writable(g: Generator, c: Chain, reading: bool)
    requires Inv(g, c, true, reading) && (c.Layer? ==> c.tx.pending == [])
    ensures CanWrite(c)
  {
  }

  /** With everything else drained the receiving half has bytes to take, for its handshake or for its user. */
  lemma TakeOver(g: Generator, c: Chain) returns (a: Option<Act>)
    requires Inv(g, c, true, true) && Running(c) && c.Layer? && c.down != []
    ensures if a.Some? then Enabled(c, a.value) && Moves(a.value) else CanRead(c, 1)
  {
    HelloRoom(g, c);
    hide Inv;
    if Complete(c.rx) {
      NotRefused(g, c);
      a := None;
    } else {
      a := Some(HelloIn(1));
    }
  }

  lemma HelloRoom(g: Generator, c: Chain)
    requires Inv(g, c, true, true) && c.Layer?
    ensures |c.rx.got| <= HelloSize(c.rx.receiver) && UsableMask(RxMasker(c.rx))
  {
    hide Waiting, Consumed, TxSent, SideOk;
  }

  lemma NotRefused(g: Generator, c: Chain)
    requires Inv(g, c, true, true) && c.Layer?
    ensures !c.rx.refused
  {
    hide TxSent, RxTaken, RxInv, SideOk;
    DeliveredIsPrefix(g, c.inner, !c.fwd.stopped, !c.bwd.stopped);
    var wire := Accepted(c.inner) + c.fwd.buf + c.up;
    assert Consumed(c) <= Delivered(c.inner) <= wire;
    HalvesAgree(g, c.tx, wire, c.rx, Consumed(c));
  }

  // ----- and how long it can go on -----

  /** How often a byte accepted at the top is moved before it is delivered at the top of the mirrored chain. */
  ghost function Cost(c: Chain): nat {
    match c
    case Base(_, _) => 1
    case Layer(_, _, _, inner, _, _, _, _) => Cost(inner) + 4
  }

  /** The same for the hello bytes not yet sent, for bytes in the socket pair, and for bytes in the pump. */
  function Owed(k: nat, pending: nat, up: nat, buf: nat): int {
    (k + 5) * pending + (k + 4) * up + (k + 3) * buf
  }

  lemma OwedNotNegative(k: nat, pending: nat, up: nat, buf: nat)
    ensures Owed(k, pending, up, buf) >= 0
  {
    NotNegative(k + 5, pending);
    NotNegative(k + 4, up);
    NotNegative(k + 3, buf);
  }

  lemma OwedMoves(k: nat, pending: nat, up: nat, buf: nat, n: nat)
    ensures Owed(k, pending, up + n, buf) == Owed(k, pending + n, up, buf) - n
    ensures Owed(k, pending, up, buf + n) == Owed(k, pending, up + n, buf) - n
    ensures Owed(k, pending, up, buf) == Owed(k, pending, up, buf + n) - (k * n + 3 * n)
    ensures Owed(k, pending, up + n, buf) == Owed(k, pending, up, buf) + (k + 4) * n
  {
    Distribute(k + 5, pending, n);
    Distribute(k + 4, up, n);
    Distribute(k + 3, buf, n);
    assert (k + 5) * n == (k + 4) * n + n && (k + 4) * n == (k + 3) * n + n && (k + 3) * n == k * n + 3 * n;
  }

  /** How often the bytes now on their way still have to be moved in all. */
  ghost function Todo(c: Chain): int {
    match c
    case Base(sent, taken) => |sent| - taken
    case Layer(tx, up, fwd, inner, bwd, down, _, _) =>
      Owed(Cost(inner), |tx.pending|, |up|, |fwd.buf|)
      + Todo(inner) + 2 * (|Accepted(inner)| - |Delivered(inner)|) + 2 * |bwd.buf| + |down|
  }

  lemma {:induction false} TodoNotNegative(g: Generator, c: Chain, writing: bool, reading: bool)
    requires Inv(g, c, writing, reading)
    ensures Todo(c) >= 0
  {
    if c.Layer? {
      TodoNotNegative(g, c.inner, !c.fwd.stopped, !c.bwd.stopped);
      DeliveredIsPrefix(g, c.inner, !c.fwd.stopped, !c.bwd.stopped);
      OwedNotNegative(Cost(c.inner), |c.tx.pending|, |c.up|, |c.fwd.buf|);
      hide Inv, Owed;
    }
  }

  lemma NotNegative(a: nat, b: nat)
    ensures a * b >= 0
  {
  }

  lemma Distribute(k: nat, a: nat, b: nat)
    ensures k * (a + b) == k * a + k * b
  {
  }

  lemma TodoAfterWrite(g: Generator, c: Chain, data: seq<byte>, r: int)
    requires CanWrite(c) && 0 <= r <= |data| && (c.Base? ==> c.taken <= |c.sent|)
    ensures var e := Write(g, c, data, r);
            && Todo(e) == Todo(c) + Cost(c) * r && Cost(e) == Cost(c)
            && |Accepted(e)| == |Accepted(c)| + r && Delivered(e) == Delivered(c)
  {
    hide Owed, WireOf, SideAfterWrite;
    if c.Layer? {
      OwedMoves(Cost(c.inner), |c.tx.pending|, |c.up|, |c.fwd.buf|, r);
    }
  }

  lemma TodoAfterRead(g: Generator, c: Chain, n: nat)
    requires CanRead(c, n)
    ensures var e := Read(g, c, n);
            && Todo(e) == Todo(c) - n && Cost(e) == Cost(c)
            && Accepted(e) == Accepted(c) && |Delivered(e)| == |Delivered(c)| + n
  {
  }

  lemma RunningAfterEnds(c: Chain, e: Chain)
    requires c.Layer? == e.Layer? && Running(c)
    requires c.Layer? ==> e.fwd == c.fwd && e.inner == c.inner && e.bwd == c.bwd && e.lost == c.lost
    ensures Running(e)
  {
  }

  /** A moving step leaves less to do. */
  lemma {:induction false} MovesOn(g: Generator, c: Chain, writing: bool, reading: bool, a: Act)
    requires Inv(g, c, writing, reading) && Running(c) && Enabled(c, a) && Moves(a)
    ensures var e := Do(g, c, a); Running(e) && Cost(e) == Cost(c) && Todo(e) < Todo(c)
    decreases a
  {
    hide Inv, Owed, Write, Read, CanWrite, CanRead, Sent;
    match a
    case HelloOut(n) => HelloMovesOn(g, c, n);
    case HelloIn(n) =>
    case FwdRead(n) => FwdReadMovesOn(g, c, n);
    case FwdWrite(len, r) =>
      BaseInRange(g, c, writing, reading);
      FwdWriteMovesOn(g, c, len, r);
    case BwdRead(n) => BwdReadMovesOn(g, c, n);
    case BwdWrite(r) => BwdWriteMovesOn(g, c, r);
    case Inside(b) =>
      InsideInv(g, c, writing, reading);
      MovesOn(g, c.inner, !c.fwd.stopped, !c.bwd.stopped, b);
      EndsUntouched(g, c.inner, b);
  }

  lemma HelloMovesOn(g: Generator, c: Chain, n: nat)
    requires Running(c) && Enabled(c, HelloOut(n)) && n > 0
    ensures var e := Do(g, c, HelloOut(n)); Running(e) && Cost(e) == Cost(c) && Todo(e) < Todo(c)
  {
    OwedMoves(Cost(c.inner), |c.tx.pending| - n, |c.up|, |c.fwd.buf|, n);
    hide Owed;
  }

  lemma FwdReadMovesOn(g: Generator, c: Chain, n: nat)
    requires Running(c) && Enabled(c, FwdRead(n))
    ensures var e := Do(g, c, FwdRead(n)); Running(e) && Cost(e) == Cost(c) && Todo(e) < Todo(c)
  {
    OwedMoves(Cost(c.inner), |c.tx.pending|, |c.up| - n, 0, n);
    hide Owed;
  }

  lemma FwdWriteMovesOn(g: Generator, c: Chain, len: nat, r: int)
    requires Running(c) && Enabled(c, FwdWrite(len, r)) && r > 0
    requires c.inner.Base? ==> c.inner.taken <= |c.inner.sent|
    ensures var e := Do(g, c, FwdWrite(len, r)); Running(e) && Cost(e) == Cost(c) && Todo(e) < Todo(c)
  {
    var e := Do(g, c, FwdWrite(len, r));
    RunningAfterEnds(c.inner, e.inner);
    hide Owed, Write, CanWrite;
    TodoAfterWrite(g, c.inner, c.fwd.buf[..len], r);
    OwedMoves(Cost(c.inner), |c.tx.pending|, |c.up|, |c.fwd.buf| - r, r);
    assert |e.fwd.buf| == |c.fwd.buf| - r;
  }

  lemma BwdReadMovesOn(g: Generator, c: Chain, n: nat)
    requires Running(c) && Enabled(c, BwdRead(n))
    ensures var e := Do(g, c, BwdRead(n)); Running(e) && Cost(e) == Cost(c) && Todo(e) < Todo(c)
  {
    var e := Do(g, c, BwdRead(n));
    TodoAfterRead(g, c.inner, n);
    RunningAfterEnds(c.inner, e.inner);
    assert |ReadBytes(g, c.inner, n)| == n;
    hide Owed, Read, ReadBytes;
  }

  lemma BwdWriteMovesOn(g: Generator, c: Chain, r: int)
    requires Running(c) && Enabled(c, BwdWrite(r)) && r > 0
    ensures var e := Do(g, c, BwdWrite(r)); Running(e) && Cost(e) == Cost(c) && Todo(e) < Todo(c)
  {
    hide Owed;
  }

  lemma InsideInv(g: Generator, c: Chain, writing: bool, reading: bool)
    requires Inv(g, c, writing, reading) && c.Layer?
    ensures Inv(g, c.inner, !c.fwd.stopped, !c.bwd.stopped)
  {
  }

  lemma BaseInRange(g: Generator, c: Chain, writing: bool, reading: bool)
    requires Inv(g, c, writing, reading) && c.Layer?
    ensures c.inner.Base? ==> c.inner.taken <= |c.inner.sent|
  {
  }

  /** From every state in which all pumps run and both users are at work there is a way on to a state with nothing
      in flight, in which everything that was accepted at the top has been delivered. */
  lemma {:induction false} AlwaysDrains(g: Generator, s: Session) returns (run: seq<Event>, end: Session)
    requires Inv(g, s.chain, true, true) && Running(s.chain) && s.writing && s.reading
    ensures Reaches(g, s, run, end) && Drained(end.chain)
    ensures Delivered(end.chain) == Accepted(end.chain) == Accepted(s.chain)
    decreases Todo(s.chain)
  {
    if Drained(s.chain) {
      run, end := [], s;
      DrainedDeliversAll(g, s.chain, true, true);
    } else {
      var a := NeverStuck(g, s.chain);
      var e := if a.Some? then Internal(a.value) else TopRead(1);
      var t := After(g, s, e);
      AfterKeepsInv(g, s, e);
      TodoNotNegative(g, s.chain, true, true);
      if a.Some? {
        MovesOn(g, s.chain, true, true, a.value);
        EndsUntouched(g, s.chain, a.value);
      } else {
        TodoAfterRead(g, s.chain, 1);
        RunningAfterEnds(s.chain, t.chain);
      }
      hide Inv, Drained, Todo, Running, After, Possible;
      var rest;
      rest, end := AlwaysDrains(g, t);
      run := [e] + rest;
      assert run[1..] == rest;
    }
  }

  /** Every run of a mirrored chain in which no pump has stopped and both users are still at work can be continued
      until everything accepted so far is delivered, handshakes included. */
  lemma EveryRunCanFinish(g: Generator, layers: seq<(Sender, Receiver)>, run: seq<Event>, mid: Session)
    returns (more: seq<Event>, end: Session)
    requires Mirrored(layers) && Reaches(g, Open(g, layers), run, mid)
    requires Running(mid.chain) && mid.writing && mid.reading
    ensures Reaches(g, mid, more, end) && Drained(end.chain)
    ensures Delivered(end.chain) == Accepted(end.chain) == Accepted(mid.chain)
  {
    hide Inv, Reaches, Mirrored, Running, Drained;
    EveryRunKeepsInv(g, layers, run, mid);
    more, end := AlwaysDrains(g, mid);
  }

  /** A new chain starts that way. */
  lemma {:induction false} NewChainRuns(g: Generator, layers: seq<(Sender, Receiver)>)
    ensures Running(Build(g, layers))
    decreases |layers|
  {
    if layers != [] {
      NewChainRuns(g, layers[..|layers| - 1]);
    }
  }

  /** A running pump takes any read of up to 4096 bytes and no larger one, and passes on any part of what it holds. */
  lemma PumpsTakeAny(c: Chain, n: nat, len: nat, r: int)
    requires c.Layer? && Running(c)
    ensures Enabled(c, FwdRead(n)) || Enabled(c, BwdRead(n)) ==> n <= 4096
    ensures c.fwd.buf == [] && 0 < n <= 4096 && n <= |c.up| ==> Enabled(c, FwdRead(n))
    ensures 0 < len <= |c.fwd.buf| && r <= len && CanWrite(c.inner) ==> Enabled(c, FwdWrite(len, r))
    ensures c.bwd.buf == [] && 0 < n <= 4096 && CanRead(c.inner, n) ==> Enabled(c, BwdRead(n))
    ensures c.bwd.buf != [] && r <= |c.bwd.buf| ==> Enabled(c, BwdWrite(r))
  {
  }
}
