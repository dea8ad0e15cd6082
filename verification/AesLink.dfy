/** Two Socket_Chain_AES endpoints over a full-duplex FIFO transport, from the first handshake byte
    on: every interleaving of the two parties, every fragmentation, every failed or partial write, and
    every call in which the cipher fails. */
module AesLink {
  import opened Bytes
  import opened Keystream
  import opened LayerStream

  /** One direction: everything the transport ever accepted, of which the first `taken` bytes were read.
      `skipped` is the first keystream block the sender failed to generate; `readStalled` says that the
      receiver has lost bytes the same way. */
  datatype Direction = Direction(tx: Tx, rx: Rx, sent: seq<byte>, taken: nat, skipped: Option<nat>, readStalled: bool)

  /** Endpoint A sends on `fwd` and receives on `bwd`; endpoint B the other way round. */
  datatype Link = Link(fwd: Direction, bwd: Direction)

  /** In a stalled call the cipher yields `works` blocks and then fails. */
  datatype Action =
    | SendHello(n: nat)
    | RecvHello(n: nat)
    | Write(data: seq<byte>, r: int)
    | Read(n: nat)
    | StallWrite(data: seq<byte>, works: nat)
    | StallRead(n: nat, works: nat)

  /** A step concerns one direction: A sending or B receiving when `forward`. */
  datatype Step = Step(forward: bool, action: Action)

  function Along(l: Link, forward: bool): Direction { if forward then l.fwd else l.bwd }
  function Against(l: Link, forward: bool): Direction { Along(l, !forward) }

  /** m_initialized of the endpoint that sends on `out` and receives on `back`. */
  predicate Initialized(out: Direction, back: Direction) {
    out.tx.pending == [] && Ready(back.rx)
  }

  predicate CanWrite(d: Direction, o: Direction) {
    Initialized(d, o) && d.tx.sender.AesSender? && d.tx.sender.size > 0
  }

  predicate CanRead(d: Direction, o: Direction, n: nat) {
    Initialized(o, d) && d.rx.receiver.AesReceiver? && d.rx.receiver.size > 0 && d.taken + n <= |d.sent|
  }

  /** The action of a step on the direction d, whose opposite is o. */
  predicate Possible(d: Direction, o: Direction, a: Action) {
    match a
    case SendHello(n) => n <= |d.tx.pending|
    case RecvHello(n) =>
      && o.tx.pending == [] && d.rx.receiver.AesReceiver? && !Complete(d.rx)
      && n <= HelloSize(d.rx.receiver) - |d.rx.got| && d.taken + n <= |d.sent|
    case Write(data, r) => CanWrite(d, o) && r <= |data|
    case Read(n) => CanRead(d, o, n)
    case StallWrite(data, works) => CanWrite(d, o) && |d.tx.side.buf| + works * d.tx.sender.size < |data|
    case StallRead(n, works) => CanRead(d, o, n) && |d.rx.side.buf| + works * d.rx.receiver.size < n
  }

  predicate Enabled(l: Link, s: Step) {
    Possible(Along(l, s.forward), Against(l, s.forward), s.action)
  }

  function Move(g: Generator, d: Direction, o: Direction, a: Action): Direction
    requires Possible(d, o, a)
  {
    match a
    case SendHello(n) =>
      d.(tx := TxHello(d.tx, n), sent := d.sent + d.tx.pending[..n])
    case RecvHello(n) =>
      d.(rx := RxHello(g, d.rx, d.sent[d.taken..d.taken + n]), taken := d.taken + n)
    case Write(data, r) =>
      d.(tx := TxWrite(g, d.tx, data, r),
         sent := d.sent + Sent(WireOf(g, SenderMasker(d.tx.sender), d.tx.side, data), r))
    case Read(n) =>
      d.(rx := RxRead(g, d.rx, d.sent[d.taken..d.taken + n]), taken := d.taken + n)
    case StallWrite(_, works) =>
      var e := ExtendBy(g, SenderMasker(d.tx.sender).sk, d.tx.side, works);
      d.(tx := d.tx.(side := Stalled(e)), skipped := if d.skipped.None? then Some(e.draws) else d.skipped)
    case StallRead(n, works) =>
      var e := ExtendBy(g, RxMasker(d.rx).sk, d.rx.side, works);
      d.(rx := d.rx.(side := Stalled(e)), taken := d.taken + n, readStalled := true)
  }

  function Next(g: Generator, l: Link, s: Step): Link
    requires Enabled(l, s)
  {
    if s.forward then l.(fwd := Move(g, l.fwd, l.bwd, s.action))
    else l.(bwd := Move(g, l.bwd, l.fwd, s.action))
  }

  /** `end` is reached from `start` by taking the steps of `run` in order. */
  ghost predicate Reaches(g: Generator, start: Link, run: seq<Step>, end: Link)
    decreases |run|
  {
    if run == [] then end == start
    else Enabled(start, run[0]) && Reaches(g, Next(g, start, run[0]), run[1..], end)
  }

  function FreshDirection(g: Generator, s: Sender, c: Receiver): Direction {
    Direction(NewTx(g, s), NewRx(c), [], 0, None, false)
  }

  /** What fixes a start state: one phase-1 key and block size, and either endpoint's own IV and header. */
  datatype Setup = Setup(key: seq<byte>, size: nat, ivA: seq<byte>, hA: Header, ivB: seq<byte>, hB: Header)

  ghost predicate ValidSetup(u: Setup) {
    && u.size > 0 && |u.ivA| == HANDSHAKE_IV_SIZE && |u.ivB| == HANDSHAKE_IV_SIZE
    && Magic(u.hA) == MAGIC && Magic(u.hB) == MAGIC
  }

  function Start(g: Generator, u: Setup): Link {
    Link(FreshDirection(g, AesSender(u.key, u.size, u.ivA, u.hA), AesReceiver(u.key, u.size)),
         FreshDirection(g, AesSender(u.key, u.size, u.ivB, u.hB), AesReceiver(u.key, u.size)))
  }

  // ----- the invariant -----

  /** How much payload the sender's keystream was right for when a block was skipped: what had been accepted
      and what was buffered. */
  function Limit(d: Direction): nat
    requires d.skipped.Some? && d.tx.sender.AesSender?
  {
    d.skipped.value * d.tx.sender.size
  }

  /** Nothing was masked beyond that. */
  predicate InTime(d: Direction)
    requires d.tx.sender.AesSender?
  {
    d.skipped.Some? ==> |d.tx.accepted| <= Limit(d)
  }

  ghost predicate SenderInv(g: Generator, d: Direction)
    requires d.tx.sender.AesSender?
  {
    var sk := SenderMasker(d.tx.sender).sk;
    && HelloSent(g, d.tx, d.sent)
    && (InTime(d) ==> TxSent(g, d.tx, d.sent))
    && (d.skipped.Some? ==> d.tx.pending == [])
    && (d.skipped.None? ==> OnStream(g, sk, d.tx.side, |d.tx.accepted|))
    && (d.skipped.Some? && InTime(d) ==> OnStreamUntil(g, sk, d.tx.side, |d.tx.accepted|, Limit(d)))
  }

  ghost predicate ReceiverInv(g: Generator, d: Direction)
    requires d.taken <= |d.sent|
  {
    if d.readStalled then
      && Ready(d.rx) && d.tx.pending == [] && d.tx.sender.AesSender? && d.rx.header == d.tx.sender.header
      && |d.rx.got| + |d.rx.delivered| < d.taken
    else RxInv(g, d.rx, d.sent[..d.taken])
  }

  ghost predicate DirectionInv(g: Generator, d: Direction) {
    && d.taken <= |d.sent|
    && d.tx.sender.AesSender? && Matching(d.tx.sender, d.rx.receiver)
    && SenderInv(g, d) && ReceiverInv(g, d)
  }

  lemma SendersMove(g: Generator, d: Direction, e: Direction, out: seq<byte>)
    requires DirectionInv(g, d) && e.tx.sender == d.tx.sender && SenderInv(g, e)
    requires e == d.(tx := e.tx, sent := d.sent + out, skipped := e.skipped)
    requires d.tx.pending == [] ==> e.tx.pending == []
    ensures DirectionInv(g, e)
  {
    assert e.sent[..d.taken] == d.sent[..d.taken];
    hide SenderInv, RxInv;
  }

  lemma ReceiversMove(g: Generator, d: Direction, e: Direction, n: nat)
    requires DirectionInv(g, d) && d.taken + n <= |d.sent| && e.rx.receiver == d.rx.receiver
    requires e == d.(rx := e.rx, taken := d.taken + n, readStalled := e.readStalled) && ReceiverInv(g, e)
    ensures DirectionInv(g, e)
  {
    hide RxInv, ReceiverInv, HelloSent, TxSent, OnStream, OnStreamUntil;
  }

  lemma SendHelloKeeps(g: Generator, d: Direction, o: Direction, n: nat)
    requires DirectionInv(g, d) && Possible(d, o, SendHello(n))
    ensures DirectionInv(g, Move(g, d, o, SendHello(n)))
  {
    var e := Move(g, d, o, SendHello(n));
    if d.tx.pending == [] {
      assert e.tx.pending == [] && d.tx.pending[..n] == [] && e.sent == d.sent;
      assert e == d;
    } else {
      TxHelloInv(g, d.tx, d.sent, n);
      SendersMove(g, d, e, d.tx.pending[..n]);
    }
  }

  lemma WriteKeepsSender(g: Generator, d: Direction, o: Direction, data: seq<byte>, r: int)
    requires DirectionInv(g, d) && Possible(d, o, Write(data, r))
    ensures SenderInv(g, Move(g, d, o, Write(data, r)))
  {
    var m := SenderMasker(d.tx.sender);
    var e := Move(g, d, o, Write(data, r));
    WriteKeepsHello(g, d.tx, d.sent, data, r);
    if d.skipped.None? {
      TxWriteInv(g, d.tx, d.sent, data, r);
    } else if InTime(e) {
      WriteWithin(g, m.sk, d.tx.side, d.tx.accepted, data, r, Limit(d));
      TxSentExtends(g, d.tx, d.sent, e.tx, Sent(WireOf(g, m, d.tx.side, data), r));
      hide HelloSent, TxSent, OnStream, OnStreamUntil, Masked, WireOf, SideAfterWrite;
    }
  }

  lemma TxSentExtends(g: Generator, tx: Tx, wire: seq<byte>, next: Tx, out: seq<byte>)
    requires TxSent(g, tx, wire) && tx.pending == [] && next.sender == tx.sender && HelloSent(g, next, wire + out)
    requires next.pending == []
    requires Masked(g, SenderMasker(tx.sender), tx.accepted) + out == Masked(g, SenderMasker(tx.sender), next.accepted)
    ensures TxSent(g, next, wire + out)
  {
    var n := |Hello(g, tx.sender)|;
    assert (wire + out)[n..] == wire[n..] + out;
  }

  lemma StallWriteKeepsSender(g: Generator, d: Direction, o: Direction, data: seq<byte>, works: nat)
    requires DirectionInv(g, d) && Possible(d, o, StallWrite(data, works))
    ensures SenderInv(g, Move(g, d, o, StallWrite(data, works)))
  {
    var sk := SenderMasker(d.tx.sender).sk;
    var e := Move(g, d, o, StallWrite(data, works));
    var pos := |d.tx.accepted|;
    if d.skipped.None? {
      StallKeepsBuffered(g, sk, d.tx.side, pos, works);
    } else if InTime(d) {
      ExtendByCounts(g, sk, d.tx.side, works);
      UntilAppend(g, sk, d.tx.side, e.tx.side, pos, Limit(d));
    }
  }

  lemma ReadKeepsReceiver(g: Generator, d: Direction, o: Direction, n: nat)
    requires DirectionInv(g, d) && Possible(d, o, Read(n))
    ensures ReceiverInv(g, Move(g, d, o, Read(n)))
  {
    hide RxInv, WireOf, SideAfterRead, SenderInv;
    if !d.readStalled {
      RxReadInv(g, d.rx, d.sent[..d.taken], d.sent[d.taken..d.taken + n]);
      Slices(d.sent, d.taken, n);
    }
  }

  lemma StallReadKeepsReceiver(g: Generator, d: Direction, o: Direction, n: nat, works: nat)
    requires DirectionInv(g, d) && Possible(d, o, StallRead(n, works))
    ensures ReceiverInv(g, Move(g, d, o, StallRead(n, works)))
  {
    hide ExtendBy, OnStream, OnStreamUntil, Masked;
    if !d.readStalled {
      CompleteHelloAgrees(g, d.tx, d.sent, d.rx, d.sent[..d.taken]);
    }
  }

  lemma RecvHelloKeepsReceiver(g: Generator, d: Direction, o: Direction, n: nat)
    requires DirectionInv(g, d) && Possible(d, o, RecvHello(n))
    ensures ReceiverInv(g, Move(g, d, o, RecvHello(n)))
  {
    RxHelloInv(g, d.rx, d.sent[..d.taken], d.sent[d.taken..d.taken + n]);
    Slices(d.sent, d.taken, n);
    hide RxInv;
  }

  lemma MoveKeepsInv(g: Generator, d: Direction, o: Direction, a: Action)
    requires Possible(d, o, a) && DirectionInv(g, d)
    ensures DirectionInv(g, Move(g, d, o, a))
    ensures Move(g, d, o, a).tx.sender == d.tx.sender
  {
    hide SenderInv, ReceiverInv;
    var e := Move(g, d, o, a);
    match a
    case SendHello(n) =>
      SendHelloKeeps(g, d, o, n);
    case Write(data, r) =>
      WriteKeepsSender(g, d, o, data, r);
      SendersMove(g, d, e, Sent(WireOf(g, SenderMasker(d.tx.sender), d.tx.side, data), r));
    case StallWrite(data, works) =>
      StallWriteKeepsSender(g, d, o, data, works);
      assert d.sent + [] == d.sent;
      SendersMove(g, d, e, []);
    case RecvHello(n) =>
      RecvHelloKeepsReceiver(g, d, o, n);
      ReceiversMove(g, d, e, n);
    case Read(n) =>
      ReadKeepsReceiver(g, d, o, n);
      ReceiversMove(g, d, e, n);
    case StallRead(n, works) =>
      StallReadKeepsReceiver(g, d, o, n, works);
      ReceiversMove(g, d, e, n);
  }

  lemma Slices(s: seq<byte>, k: nat, n: nat)
    requires k + n <= |s|
    ensures s[..k] + s[k..k + n] == s[..k + n]
  {
  }

  ghost predicate LinkInv(g: Generator, l: Link) {
    DirectionInv(g, l.fwd) && DirectionInv(g, l.bwd)
  }

  lemma NextKeepsInv(g: Generator, l: Link, s: Step)
    requires LinkInv(g, l) && Enabled(l, s)
    ensures LinkInv(g, Next(g, l, s))
    ensures Next(g, l, s).fwd.tx.sender == l.fwd.tx.sender && Next(g, l, s).bwd.tx.sender == l.bwd.tx.sender
  {
    hide DirectionInv, Possible, Move;
    MoveKeepsInv(g, Along(l, s.forward), Against(l, s.forward), s.action);
  }

  lemma {:induction false} RunKeepsInv(g: Generator, l: Link, run: seq<Step>, end: Link)
    requires LinkInv(g, l) && Reaches(g, l, run, end)
    ensures LinkInv(g, end)
    ensures end.fwd.tx.sender == l.fwd.tx.sender && end.bwd.tx.sender == l.bwd.tx.sender
    decreases |run|
  {
    if run != [] {
      hide LinkInv, Next, Enabled;
      NextKeepsInv(g, l, run[0]);
      RunKeepsInv(g, Next(g, l, run[0]), run[1..], end);
    }
  }

  lemma StartInv(g: Generator, u: Setup)
    requires ValidSetup(u)
    ensures LinkInv(g, Start(g, u))
  {
    var l := Start(g, u);
    NewTxInv(g, l.fwd.tx.sender);
    NewTxInv(g, l.bwd.tx.sender);
    NewRxInv(g, AesReceiver(u.key, u.size));
    hide RxInv, TxSent, HelloSent;
  }

  // ----- agreement -----

  ghost predicate Agrees(g: Generator, d: Direction) {
    Agreement(g, d.tx, d.sent, d.rx, d.taken)
  }

  /** No read has stalled, and no byte was masked beyond those the keystream was right for when a write first stalled. */
  predicate Intact(d: Direction)
    requires d.tx.sender.AesSender?
  {
    !d.readStalled && InTime(d)
  }

  /** A receiver that is past its handshake faces a direction that is not intact. */
  predicate Spoiled(d: Direction)
    requires d.tx.sender.AesSender?
  {
    Complete(d.rx) && !Intact(d)
  }

  lemma InvAgrees(g: Generator, d: Direction)
    requires DirectionInv(g, d) && !Spoiled(d)
    ensures Agrees(g, d)
  {
    var consumed := d.sent[..d.taken];
    if Complete(d.rx) {
      HalvesAgree(g, d.tx, d.sent, d.rx, consumed);
    }
  }

  lemma HeaderAgrees(g: Generator, d: Direction)
    requires DirectionInv(g, d) && Complete(d.rx)
    ensures !d.rx.refused && d.rx.header == d.tx.sender.header && d.tx.pending == []
  {
    if !d.readStalled {
      CompleteHelloAgrees(g, d.tx, d.sent, d.rx, d.sent[..d.taken]);
    }
  }

  /** Past both handshakes an endpoint takes any write, answered in any way, and any read of what is in flight. */
  lemma OpenTakesAny(g: Generator, l: Link, forward: bool, data: seq<byte>, r: int, n: nat)
    requires LinkInv(g, l) && Complete(l.fwd.rx) && Complete(l.bwd.rx)
    ensures r <= |data| ==> Enabled(l, Step(forward, Write(data, r)))
    ensures n <= |Along(l, forward).sent| - Along(l, forward).taken ==> Enabled(l, Step(forward, Read(n)))
  {
    HeaderAgrees(g, l.fwd);
    HeaderAgrees(g, l.bwd);
    UsableSizes(g, l.fwd);
    UsableSizes(g, l.bwd);
    hide LinkInv, DirectionInv;
  }

  lemma UsableSizes(g: Generator, d: Direction)
    requires DirectionInv(g, d)
    ensures d.tx.sender.AesSender? && d.tx.sender.size > 0 && d.rx.receiver.AesReceiver? && d.rx.receiver.size > 0
  {
  }

  /** The cipher works throughout. */
  ghost predicate NeverStalls(run: seq<Step>) {
    forall i :: 0 <= i < |run| ==> !run[i].action.StallWrite? && !run[i].action.StallRead?
  }

  predicate Untouched(d: Direction) { d.skipped.None? && !d.readStalled }

  lemma {:induction false} NothingStalled(g: Generator, l: Link, run: seq<Step>, end: Link)
    requires Reaches(g, l, run, end) && NeverStalls(run) && Untouched(l.fwd) && Untouched(l.bwd)
    ensures Untouched(end.fwd) && Untouched(end.bwd)
    decreases |run|
  {
    if run != [] {
      NothingStalled(g, Next(g, l, run[0]), run[1..], end);
    }
  }

  /** Stream agreement in both directions, in every reachable state: always while the cipher works, and else in
      every direction that is not spoiled. */
  lemma EveryRunAgrees(g: Generator, u: Setup, run: seq<Step>, end: Link)
    requires ValidSetup(u) && Reaches(g, Start(g, u), run, end)
    ensures end.fwd.tx.sender.AesSender? && end.bwd.tx.sender.AesSender?
    ensures NeverStalls(run) ==> Agrees(g, end.fwd) && Agrees(g, end.bwd)
    ensures !Spoiled(end.fwd) ==> Agrees(g, end.fwd)
    ensures !Spoiled(end.bwd) ==> Agrees(g, end.bwd)
    ensures Complete(end.fwd.rx) ==> !end.fwd.rx.refused && end.fwd.rx.header == u.hA
    ensures Complete(end.bwd.rx) ==> !end.bwd.rx.refused && end.bwd.rx.header == u.hB
  {
    hide Agrees, DirectionInv, Reaches, NeverStalls, ValidSetup;
    var l := Start(g, u);
    StartInv(g, u);
    RunKeepsInv(g, l, run, end);
    DirectionAgrees(g, end.fwd);
    DirectionAgrees(g, end.bwd);
    if NeverStalls(run) {
      NothingStalled(g, l, run, end);
    }
  }

  lemma DirectionAgrees(g: Generator, d: Direction)
    requires DirectionInv(g, d)
    ensures d.tx.sender.AesSender?
    ensures !Spoiled(d) ==> Agrees(g, d)
    ensures Complete(d.rx) ==> !d.rx.refused && d.rx.header == d.tx.sender.header
  {
    hide Agrees;
    if !Spoiled(d) {
      InvAgrees(g, d);
    }
    if Complete(d.rx) {
      HeaderAgrees(g, d);
    }
  }
}
