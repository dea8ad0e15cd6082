/** Socket_Chain: layers stacked on a base transport, each behind its own socket pair and a pair of
    pump threads (read up to 4096 bytes, then writeFull). One direction of the whole arrangement is
    modelled, from the top of one peer's chain to the top of the mirrored chain. A cipher may fail in any
    call of any layer: the call then returns 0, and the pump that made it stops. */
module SocketChain {
  import opened Bytes
  import opened Keystream
  import opened LayerStream

  const PUMP_BUFFER := 4096

  /** chainThread: bytes read and not yet fully written; `stopped` once a write failed. */
  datatype Pump = Pump(buf: seq<byte>, stopped: bool)

  /** Base: all bytes the transport accepted, the first `taken` of them delivered.
      Layer: sending half, its socket pair, its pump down into the rest of the chain, then on the
      peer the pump up from the rest of the chain, its socket pair, and the receiving half, in which a stalled
      read has `lost` bytes. */
  datatype Chain =
    | Base(sent: seq<byte>, taken: nat)
    | Layer(tx: Tx, up: seq<byte>, fwd: Pump, inner: Chain, bwd: Pump, down: seq<byte>, rx: Rx, lost: nat)

  function Accepted(c: Chain): seq<byte> {
    match c
    case Base(sent, _) => sent
    case Layer(tx, _, _, _, _, _, _, _) => tx.accepted
  }

  function Delivered(c: Chain): seq<byte> {
    match c
    case Base(sent, taken) => if taken <= |sent| then sent[..taken] else sent
    case Layer(_, _, _, _, _, _, rx, _) => rx.delivered
  }

  // ----- what a user of the chain does at its two ends -----

  predicate CanWrite(c: Chain) {
    c.Layer? ==> c.tx.pending == [] && UsableMask(SenderMasker(c.tx.sender))
  }

  function Write(g: Generator, c: Chain, data: seq<byte>, r: int): Chain
    requires CanWrite(c) && r <= |data|
  {
    match c
    case Base(sent, _) => c.(sent := sent + Sent(data, r))
    case Layer(tx, up, _, _, _, _, _, _) =>
      c.(tx := TxWrite(g, tx, data, r),
         up := up + Sent(WireOf(g, SenderMasker(tx.sender), tx.side, data), r))
  }

  predicate CanRead(c: Chain, n: nat) {
    match c
    case Base(sent, taken) => taken + n <= |sent|
    case Layer(_, _, _, _, _, down, rx, _) => Ready(rx) && UsableMask(RxMasker(rx)) && n <= |down|
  }

  function Read(g: Generator, c: Chain, n: nat): Chain
    requires CanRead(c, n)
  {
    match c
    case Base(_, taken) => c.(taken := taken + n)
    case Layer(_, _, _, _, _, down, rx, _) => c.(rx := RxRead(g, rx, down[..n]), down := down[n..])
  }

  /** The bytes a read of n hands over: what it adds to the delivered stream. */
  function ReadBytes(g: Generator, c: Chain, n: nat): seq<byte>
    requires CanRead(c, n)
  {
    match c
    case Base(sent, taken) => sent[taken..taken + n]
    case Layer(_, _, _, _, _, down, rx, _) => WireOf(g, RxMasker(rx), rx.side, down[..n])
  }

  /** A partialWrite of n bytes whose cipher fails after `works` blocks: nothing goes out, an IV is skipped. */
  predicate CanStallWrite(c: Chain, n: nat, works: nat) {
    c.Layer? && CanWrite(c) && c.tx.sender.AesSender? && |c.tx.side.buf| + works * c.tx.sender.size < n
  }

  function StallWrite(g: Generator, c: Chain, n: nat, works: nat): Chain
    requires CanStallWrite(c, n, works)
  {
    c.(tx := c.tx.(side := Stalled(ExtendBy(g, SenderMasker(c.tx.sender).sk, c.tx.side, works))))
  }

  /** A partialRead of n bytes whose cipher fails: the bytes are taken and not handed over. */
  predicate CanStallRead(c: Chain, n: nat, works: nat) {
    c.Layer? && CanRead(c, n) && c.rx.receiver.AesReceiver? && |c.rx.side.buf| + works * c.rx.receiver.size < n
  }

  function StallRead(g: Generator, c: Chain, n: nat, works: nat): Chain
    requires CanStallRead(c, n, works)
  {
    c.(rx := c.rx.(side := Stalled(ExtendBy(g, RxMasker(c.rx).sk, c.rx.side, works))),
       down := c.down[n..], lost := c.lost + n)
  }

  // ----- what happens inside -----

  datatype Act =
    | HelloOut(n: nat)                // handshake bytes written to the socket pair
    | HelloIn(n: nat)                 // handshake bytes read from the peer's socket pair
    | FwdRead(n: nat)                 // pump: partialRead from the socket pair
    | FwdWrite(len: nat, r: int)      // pump: one partialWrite of writeFull into the layer below
    | BwdRead(n: nat)                 // peer pump: partialRead from the layer below
    | BwdWrite(r: int)                // peer pump: one partialWrite of writeFull into the socket pair
    | FwdStall(len: nat, works: nat)  // pump: a partialWrite of writeFull in which the cipher below fails
    | BwdStall(n: nat, works: nat)    // peer pump: a partialRead in which the cipher below fails
    | Inside(act: Act)                // a step of the rest of the chain

  predicate Enabled(c: Chain, a: Act) {
    c.Layer? &&
    match a
    case HelloOut(n) => n <= |c.tx.pending|
    case HelloIn(n) =>
      c.rx.receiver.AesReceiver? && !Complete(c.rx) && n <= |c.down| && |c.rx.got| + n <= HelloSize(c.rx.receiver)
    case FwdRead(n) => !c.fwd.stopped && c.fwd.buf == [] && 0 < n <= PUMP_BUFFER && n <= |c.up|
    case FwdWrite(len, r) => !c.fwd.stopped && 0 < len <= |c.fwd.buf| && r <= len && CanWrite(c.inner)
    case BwdRead(n) => !c.bwd.stopped && c.bwd.buf == [] && 0 < n <= PUMP_BUFFER && CanRead(c.inner, n)
    case BwdWrite(r) => !c.bwd.stopped && 0 < |c.bwd.buf| && r <= |c.bwd.buf|
    case FwdStall(len, works) => !c.fwd.stopped && 0 < len <= |c.fwd.buf| && CanStallWrite(c.inner, len, works)
    case BwdStall(n, works) =>
      !c.bwd.stopped && c.bwd.buf == [] && n <= PUMP_BUFFER && CanStallRead(c.inner, n, works)
    case Inside(b) => Enabled(c.inner, b)
  }

  function Advance(p: Pump, r: int): Pump
    requires r <= |p.buf|
  {
    if r > 0 then p.(buf := p.buf[r..]) else p.(stopped := true)
  }

  function Do(g: Generator, c: Chain, a: Act): Chain
    requires Enabled(c, a)
    decreases a
  {
    match a
    case HelloOut(n) => c.(tx := TxHello(c.tx, n), up := c.up + c.tx.pending[..n])
    case HelloIn(n) => c.(rx := RxHello(g, c.rx, c.down[..n]), down := c.down[n..])
    case FwdRead(n) => c.(fwd := Pump(c.up[..n], false), up := c.up[n..])
    case FwdWrite(len, r) => c.(inner := Write(g, c.inner, c.fwd.buf[..len], r), fwd := Advance(c.fwd, r))
    case BwdRead(n) => c.(inner := Read(g, c.inner, n), bwd := Pump(ReadBytes(g, c.inner, n), false))
    case BwdWrite(r) => c.(down := c.down + Sent(c.bwd.buf, r), bwd := Advance(c.bwd, r))
    case FwdStall(len, works) => c.(inner := StallWrite(g, c.inner, len, works), fwd := c.fwd.(stopped := true))
    case BwdStall(n, works) => c.(inner := StallRead(g, c.inner, n, works), bwd := Pump([], true))
    case Inside(b) => c.(inner := Do(g, c.inner, b))
  }

  // ----- the invariant -----

  /** `writing` and `reading` say that the chain's own ends are still in use: no call on them has stalled. */
  ghost predicate Inv(g: Generator, c: Chain, writing: bool, reading: bool) {
    match c
    case Base(sent, taken) => taken <= |sent|
    case Layer(tx, up, fwd, inner, bwd, down, rx, lost) =>
      && Inv(g, inner, !fwd.stopped, !bwd.stopped)
      && Matching(tx.sender, rx.receiver)
      && TxSent(g, tx, Accepted(inner) + fwd.buf + up)
      && (writing ==> SideOk(g, SenderMasker(tx.sender), tx.side, |tx.accepted|))
      && Waiting(c)
      && RxTaken(g, rx, Consumed(c))
      && (reading ==> RxInv(g, rx, Consumed(c)))
      && (if reading then lost == 0 else lost > 0 ==> Ready(rx))
  }

  /** The receiving socket pair and the pump in front of it hold the last bytes the rest of the chain delivered. */
  ghost predicate Waiting(c: Chain)
    requires c.Layer?
  {
    var s, d := c.down + c.bwd.buf, Delivered(c.inner);
    |s| + c.lost <= |d| && d[|d| - |s|..] == s
  }

  /** What the receiving half has taken, apart from what it lost, off the stream the rest of the chain delivered. */
  ghost function Consumed(c: Chain): seq<byte>
    requires c.Layer? && Waiting(c)
  {
    var s, d := c.down + c.bwd.buf, Delivered(c.inner);
    d[..|d| - |s| - c.lost]
  }

  /** Bytes leaving the mirrored chain are a prefix of the bytes written at the top, at every depth. */
  lemma {:induction false} DeliveredIsPrefix(g: Generator, c: Chain, writing: bool, reading: bool)
    requires Inv(g, c, writing, reading)
    ensures Delivered(c) <= Accepted(c)
  {
    if c.Layer? {
      DeliveredIsPrefix(g, c.inner, !c.fwd.stopped, !c.bwd.stopped);
      var wire := Accepted(c.inner) + c.fwd.buf + c.up;
      assert Consumed(c) <= Delivered(c.inner) <= wire;
      HalvesAgree(g, c.tx, wire, c.rx, Consumed(c));
    }
  }

  lemma WriteKeepsInv(g: Generator, c: Chain, reading: bool, data: seq<byte>, r: int)
    requires Inv(g, c, true, reading) && CanWrite(c) && r <= |data|
    ensures Inv(g, Write(g, c, data, r), true, reading)
    ensures Accepted(Write(g, c, data, r)) == Accepted(c) + Sent(data, r)
    ensures Delivered(Write(g, c, data, r)) == Delivered(c)
  {
    match c
    case Base(sent, taken) =>
    case Layer(tx, up, fwd, inner, bwd, down, rx, lost) =>
      hide TxSent, RxTaken, RxInv, WireOf, SideOk, SideAfterWrite, Waiting, Matching;
      var out := Sent(WireOf(g, SenderMasker(tx.sender), tx.side, data), r);
      TxWriteInv(g, tx, Accepted(inner) + fwd.buf + up, data, r);
      ConcatAssoc(Accepted(inner) + fwd.buf, up, out);
      SenderMoves(g, c, Write(g, c, data, r), true, true, reading);
  }

  /** A step of the sending half leaves the rest of the layer as it was. */
  lemma SenderMoves(g: Generator, c: Chain, e: Chain, was: bool, writing: bool, reading: bool)
    requires c.Layer? && e.Layer? && e == c.(tx := e.tx, up := e.up) && e.tx.sender == c.tx.sender
    requires TxSent(g, e.tx, Accepted(e.inner) + e.fwd.buf + e.up)
    requires writing ==> SideOk(g, SenderMasker(e.tx.sender), e.tx.side, |e.tx.accepted|)
    requires Inv(g, c, was, reading)
    ensures Inv(g, e, writing, reading)
  {
    hide TxSent, RxTaken, RxInv, SideOk, Matching;
    assert Consumed(e) == Consumed(c);
  }

  /** So does a step between the halves, when the bytes on the wire and those waiting stay the same. */
  lemma PumpsMove(g: Generator, c: Chain, e: Chain, writing: bool, reading: bool)
    requires c.Layer? && e.Layer? && e.tx == c.tx && e.rx == c.rx && e.lost == c.lost
    requires Accepted(e.inner) + e.fwd.buf + e.up == Accepted(c.inner) + c.fwd.buf + c.up
    requires Inv(g, e.inner, !e.fwd.stopped, !e.bwd.stopped)
    requires Inv(g, c, writing, reading) && Waiting(e) && Consumed(e) == Consumed(c)
    ensures Inv(g, e, writing, reading)
    ensures Accepted(e) == Accepted(c) && Delivered(e) == Delivered(c)
  {
    hide TxSent, RxTaken, RxInv, SideOk, Matching, Waiting, Consumed;
  }

  lemma SameWaiting(c: Chain, e: Chain)
    requires c.Layer? && e.Layer? && Waiting(c) && Delivered(e.inner) == Delivered(c.inner) && e.lost == c.lost
    requires e.down + e.bwd.buf == c.down + c.bwd.buf
    ensures Waiting(e) && Consumed(e) == Consumed(c)
  {
  }

  /** And a step of the receiving half. */
  lemma ReceiverMoves(g: Generator, c: Chain, e: Chain, writing: bool, was: bool, reading: bool)
    requires c.Layer? && e.Layer? && e == c.(rx := e.rx, down := e.down, lost := e.lost)
    requires e.rx.receiver == c.rx.receiver
    requires Waiting(e) && RxTaken(g, e.rx, Consumed(e)) && (reading ==> RxInv(g, e.rx, Consumed(e)))
    requires if reading then e.lost == 0 else e.lost > 0 ==> Ready(e.rx)
    requires Inv(g, c, writing, was)
    ensures Inv(g, e, writing, reading)
  {
    hide TxSent, RxTaken, RxInv, SideOk, Waiting, Consumed;
  }

  lemma StallWriteKeepsInv(g: Generator, c: Chain, reading: bool, n: nat, works: nat)
    requires Inv(g, c, true, reading) && CanStallWrite(c, n, works)
    ensures Inv(g, StallWrite(g, c, n, works), false, reading)
    ensures Accepted(StallWrite(g, c, n, works)) == Accepted(c) && Delivered(StallWrite(g, c, n, works)) == Delivered(c)
  {
    hide RxTaken, RxInv, ExtendBy, Masked, Waiting;
    SenderMoves(g, c, StallWrite(g, c, n, works), true, false, reading);
  }

  lemma ReadKeepsInv(g: Generator, c: Chain, writing: bool, n: nat)
    requires Inv(g, c, writing, true) && CanRead(c, n)
    ensures Inv(g, Read(g, c, n), writing, true)
    ensures Delivered(Read(g, c, n)) == Delivered(c) + ReadBytes(g, c, n)
    ensures Accepted(Read(g, c, n)) == Accepted(c)
  {
    match c
    case Base(sent, taken) =>
      assert sent[..taken] + sent[taken..taken + n] == sent[..taken + n];
    case Layer(tx, up, fwd, inner, bwd, down, rx, lost) =>
      hide TxSent, RxTaken, RxInv, SideOk, WireOf, SideAfterRead, Waiting, Consumed;
      TakeFromDown(c, n);
      RxReadInv(g, rx, Consumed(c), down[..n]);
      var e := Read(g, c, n);
      RxInvTakes(g, e.rx, Consumed(c) + down[..n]);
      assert e == c.(rx := e.rx, down := down[n..]);
      SameWaiting(c.(down := down[n..]), e);
      ReceiverMoves(g, c, e, writing, true, true);
  }

  lemma RxInvTakes(g: Generator, rx: Rx, consumed: seq<byte>)
    requires RxInv(g, rx, consumed)
    ensures RxTaken(g, rx, consumed)
  {
  }

  /** Taking n bytes out of the receiving socket pair moves them from the tail to the consumed part. */
  lemma TakeFromDown(c: Chain, n: nat)
    requires c.Layer? && Waiting(c) && n <= |c.down| && c.lost == 0
    ensures var e := c.(down := c.down[n..]); Waiting(e) && Consumed(e) == Consumed(c) + c.down[..n]
  {
    var s, d := c.down + c.bwd.buf, Delivered(c.inner);
    assert c.down[n..] + c.bwd.buf == s[n..];
    assert d[|d| - |s|..][n..] == d[|d| - |s| + n..];
    assert d[|d| - |s|..][..n] == c.down[..n];
    assert d[..|d| - |s| + n] == d[..|d| - |s|] + d[|d| - |s|..][..n];
  }

  /** Losing them leaves the consumed part as it was. */
  lemma LoseFromDown(c: Chain, n: nat)
    requires c.Layer? && Waiting(c) && n <= |c.down|
    ensures var e := c.(down := c.down[n..], lost := c.lost + n); Waiting(e) && Consumed(e) == Consumed(c)
  {
    var s, d := c.down + c.bwd.buf, Delivered(c.inner);
    assert c.down[n..] + c.bwd.buf == s[n..];
    assert d[|d| - |s|..][n..] == d[|d| - |s| + n..];
  }

  lemma StallReadKeepsInv(g: Generator, c: Chain, writing: bool, n: nat, works: nat)
    requires Inv(g, c, writing, true) && CanStallRead(c, n, works)
    ensures Inv(g, StallRead(g, c, n, works), writing, false)
    ensures Accepted(StallRead(g, c, n, works)) == Accepted(c) && Delivered(StallRead(g, c, n, works)) == Delivered(c)
  {
    hide TxSent, SideOk, ExtendBy, Masked, Waiting, Consumed;
    LoseFromDown(c, n);
    var e := StallRead(g, c, n, works);
    SameWaiting(c.(down := c.down[n..], lost := c.lost + n), e);
    ReceiverMoves(g, c, e, writing, true, false);
  }

  lemma {:induction false} DoKeepsInv(g: Generator, c: Chain, writing: bool, reading: bool, a: Act)
    requires Inv(g, c, writing, reading) && Enabled(c, a)
    ensures Inv(g, Do(g, c, a), writing, reading)
    ensures Accepted(Do(g, c, a)) == Accepted(c) && Delivered(Do(g, c, a)) == Delivered(c)
    decreases a
  {
    hide TxSent, RxTaken, RxInv, SideOk;
    match a
    case HelloOut(n) => HelloOutKeepsInv(g, c, writing, reading, n);
    case HelloIn(n) => HelloInKeepsInv(g, c, writing, reading, n);
    case FwdRead(n) => FwdReadKeepsInv(g, c, writing, reading, n);
    case FwdWrite(len, r) => FwdWriteKeepsInv(g, c, writing, reading, len, r);
    case BwdRead(n) => BwdReadKeepsInv(g, c, writing, reading, n);
    case BwdWrite(r) => BwdWriteKeepsInv(g, c, writing, reading, r);
    case FwdStall(len, works) => FwdStallKeepsInv(g, c, writing, reading, len, works);
    case BwdStall(n, works) => BwdStallKeepsInv(g, c, writing, reading, n, works);
    case Inside(b) => InsideKeepsInv(g, c, writing, reading, b);
  }

  lemma {:induction false} InsideKeepsInv(g: Generator, c: Chain, writing: bool, reading: bool, b: Act)
    requires Inv(g, c, writing, reading) && Enabled(c, Inside(b))
    ensures Inv(g, Do(g, c, Inside(b)), writing, reading)
    decreases Inside(b), 0
  {
    hide TxSent, RxTaken, RxInv, SideOk, Matching, Waiting, Consumed;
    DoKeepsInv(g, c.inner, !c.fwd.stopped, !c.bwd.stopped, b);
    var e := Do(g, c, Inside(b));
    hide Do;
    SameWaiting(c, e);
    PumpsMove(g, c, e, writing, reading);
  }

  lemma HelloOutKeepsInv(g: Generator, c: Chain, writing: bool, reading: bool, n: nat)
    requires Inv(g, c, writing, reading) && Enabled(c, HelloOut(n))
    ensures Inv(g, Do(g, c, HelloOut(n)), writing, reading)
  {
    hide TxSent, RxTaken, RxInv, SideOk;
    TxHelloSent(g, c.tx, Accepted(c.inner) + c.fwd.buf + c.up, n);
    ConcatAssoc(Accepted(c.inner) + c.fwd.buf, c.up, c.tx.pending[..n]);
    SenderMoves(g, c, Do(g, c, HelloOut(n)), writing, writing, reading);
  }

  lemma FwdReadKeepsInv(g: Generator, c: Chain, writing: bool, reading: bool, n: nat)
    requires Inv(g, c, writing, reading) && Enabled(c, FwdRead(n))
    ensures Inv(g, Do(g, c, FwdRead(n)), writing, reading)
  {
    hide TxSent, RxTaken, RxInv, SideOk, Matching, Waiting, Consumed;
    var e := Do(g, c, FwdRead(n));
    var b := Accepted(c.inner);
    assert b + c.fwd.buf + c.up == b + e.fwd.buf + e.up;
    SameWaiting(c, e);
    PumpsMove(g, c, e, writing, reading);
  }

  /** Before the hello is complete there is no keystream buffer to be in step. */
  lemma HelloStarts(g: Generator, rx: Rx, consumed: seq<byte>)
    requires RxTaken(g, rx, consumed) && !Complete(rx)
    ensures RxInv(g, rx, consumed)
  {
  }

  lemma HelloInKeepsInv(g: Generator, c: Chain, writing: bool, reading: bool, n: nat)
    requires Inv(g, c, writing, reading) && Enabled(c, HelloIn(n))
    ensures Inv(g, Do(g, c, HelloIn(n)), writing, reading)
  {
    HelloStarts(g, c.rx, Consumed(c));
    assert c.lost == 0;
    hide TxSent, RxTaken, RxInv, SideOk, Matching, Waiting, Consumed;
    TakeFromDown(c, n);
    RxHelloInv(g, c.rx, Consumed(c), c.down[..n]);
    var e := Do(g, c, HelloIn(n));
    RxInvTakes(g, e.rx, Consumed(c) + c.down[..n]);
    SameWaiting(c.(down := c.down[n..]), e);
    ReceiverMoves(g, c, e, writing, reading, reading);
  }

  /** What one partialWrite of writeFull sends and what it leaves in the pump's buffer. */
  lemma PumpSplits(p: Pump, len: nat, r: int)
    requires r <= len <= |p.buf|
    ensures Sent(p.buf[..len], r) + Advance(p, r).buf == p.buf
  {
    if r > 0 {
      assert p.buf[..len][..r] == p.buf[..r];
    }
  }

  lemma Regroup(a: seq<byte>, x: seq<byte>, y: seq<byte>, b: seq<byte>, z: seq<byte>)
    requires x + y == b
    ensures (a + x) + y + z == a + b + z
  {
    ConcatAssoc(a, x, y);
  }

  /** A sending half that could go on may also be left alone from now on. */
  lemma Unused(g: Generator, c: Chain, writing: bool, reading: bool)
    requires Inv(g, c, true, reading)
    ensures Inv(g, c, writing, reading)
  {
  }

  lemma FwdWriteKeepsInv(g: Generator, c: Chain, writing: bool, reading: bool, len: nat, r: int)
    requires Inv(g, c, writing, reading) && Enabled(c, FwdWrite(len, r))
    ensures Inv(g, Do(g, c, FwdWrite(len, r)), writing, reading)
  {
    hide TxSent, RxTaken, RxInv, SideOk, Matching, Waiting, Consumed, Write;
    WriteKeepsInv(g, c.inner, !c.bwd.stopped, c.fwd.buf[..len], r);
    PumpSplits(c.fwd, len, r);
    Regroup(Accepted(c.inner), Sent(c.fwd.buf[..len], r), Advance(c.fwd, r).buf, c.fwd.buf, c.up);
    var e := Do(g, c, FwdWrite(len, r));
    Unused(g, e.inner, !e.fwd.stopped, !c.bwd.stopped);
    hide Sent, Advance;
    SameWaiting(c, e);
    PumpsMove(g, c, e, writing, reading);
  }

  lemma FwdStallKeepsInv(g: Generator, c: Chain, writing: bool, reading: bool, len: nat, works: nat)
    requires Inv(g, c, writing, reading) && Enabled(c, FwdStall(len, works))
    ensures Inv(g, Do(g, c, FwdStall(len, works)), writing, reading)
  {
    hide TxSent, RxTaken, RxInv, SideOk, Matching, Waiting, Consumed, StallWrite;
    StallWriteKeepsInv(g, c.inner, !c.bwd.stopped, len, works);
    var e := Do(g, c, FwdStall(len, works));
    SameWaiting(c, e);
    PumpsMove(g, c, e, writing, reading);
  }

  lemma BwdReadKeepsInv(g: Generator, c: Chain, writing: bool, reading: bool, n: nat)
    requires Inv(g, c, writing, reading) && Enabled(c, BwdRead(n))
    ensures Inv(g, Do(g, c, BwdRead(n)), writing, reading)
  {
    hide TxSent, RxTaken, RxInv, SideOk, Matching, Waiting, Consumed, ReadBytes, Read;
    ReadKeepsInv(g, c.inner, !c.fwd.stopped, n);
    var e := Do(g, c, BwdRead(n));
    WaitForMore(c, e, ReadBytes(g, c.inner, n));
    PumpsMove(g, c, e, writing, reading);
  }

  /** Bytes that the rest of the chain delivers to the waiting pump. */
  lemma WaitForMore(c: Chain, e: Chain, got: seq<byte>)
    requires c.Layer? && e.Layer? && Waiting(c) && c.bwd.buf == []
    requires Delivered(e.inner) == Delivered(c.inner) + got && e.bwd.buf == got
    requires e.down == c.down && e.lost == c.lost
    ensures Waiting(e) && Consumed(e) == Consumed(c)
  {
    var s, d := c.down, Delivered(c.inner);
    assert c.down + c.bwd.buf == s;
    assert (d + got)[|d| - |s|..] == d[|d| - |s|..] + got;
    assert (d + got)[..|d| - |s| - c.lost] == d[..|d| - |s| - c.lost];
    hide Delivered;
  }

  lemma BwdStallKeepsInv(g: Generator, c: Chain, writing: bool, reading: bool, n: nat, works: nat)
    requires Inv(g, c, writing, reading) && Enabled(c, BwdStall(n, works))
    ensures Inv(g, Do(g, c, BwdStall(n, works)), writing, reading)
  {
    hide TxSent, RxTaken, RxInv, SideOk, Matching, Waiting, Consumed, StallRead;
    StallReadKeepsInv(g, c.inner, !c.fwd.stopped, n, works);
    var e := Do(g, c, BwdStall(n, works));
    SameWaiting(c, e);
    PumpsMove(g, c, e, writing, reading);
  }

  /** And so may a receiving half. */
  lemma Unread(g: Generator, c: Chain, writing: bool, reading: bool)
    requires Inv(g, c, writing, true)
    ensures Inv(g, c, writing, reading)
  {
  }

  lemma BwdWriteKeepsInv(g: Generator, c: Chain, writing: bool, reading: bool, r: int)
    requires Inv(g, c, writing, reading) && Enabled(c, BwdWrite(r))
    ensures Inv(g, Do(g, c, BwdWrite(r)), writing, reading)
  {
    hide TxSent, RxTaken, RxInv, SideOk, Matching, Waiting, Consumed;
    var e := Do(g, c, BwdWrite(r));
    Unread(g, c.inner, !c.fwd.stopped, !e.bwd.stopped);
    assert Sent(c.bwd.buf, r) + e.bwd.buf == c.bwd.buf;
    ConcatAssoc(c.down, Sent(c.bwd.buf, r), e.bwd.buf);
    SameWaiting(c, e);
    PumpsMove(g, c, e, writing, reading);
  }

  // ----- whole runs -----

  /** The chain and its two users, each of whom goes on until a call of their own has stalled. */
  datatype Session = Session(chain: Chain, writing: bool, reading: bool)

  datatype Event =
    | TopWrite(data: seq<byte>, r: int)
    | TopRead(n: nat)
    | TopStallWrite(data: seq<byte>, works: nat)
    | TopStallRead(n: nat, works: nat)
    | Internal(act: Act)

  predicate Possible(s: Session, e: Event) {
    match e
    case TopWrite(data, r) => s.writing && CanWrite(s.chain) && r <= |data|
    case TopRead(n) => s.reading && CanRead(s.chain, n)
    case TopStallWrite(data, works) => s.writing && CanStallWrite(s.chain, |data|, works)
    case TopStallRead(n, works) => s.reading && CanStallRead(s.chain, n, works)
    case Internal(a) => Enabled(s.chain, a)
  }

  function After(g: Generator, s: Session, e: Event): Session
    requires Possible(s, e)
  {
    match e
    case TopWrite(data, r) => s.(chain := Write(g, s.chain, data, r))
    case TopRead(n) => s.(chain := Read(g, s.chain, n))
    case TopStallWrite(data, works) => s.(chain := StallWrite(g, s.chain, |data|, works), writing := false)
    case TopStallRead(n, works) => s.(chain := StallRead(g, s.chain, n, works), reading := false)
    case Internal(a) => s.(chain := Do(g, s.chain, a))
  }

  ghost predicate Reaches(g: Generator, start: Session, run: seq<Event>, end: Session)
    decreases |run|
  {
    if run == [] then end == start
    else Possible(start, run[0]) && Reaches(g, After(g, start, run[0]), run[1..], end)
  }

  /** addToChain repeated: layers[0] is added first and sits directly on the base transport. */
  function Build(g: Generator, layers: seq<(Sender, Receiver)>): Chain
    decreases |layers|
  {
    if layers == [] then Base([], 0)
    else
      var top := layers[|layers| - 1];
      Layer(NewTx(g, top.0), [], Pump([], false), Build(g, layers[..|layers| - 1]), Pump([], false), [], NewRx(top.1), 0)
  }

  ghost predicate Mirrored(layers: seq<(Sender, Receiver)>) {
    forall i :: 0 <= i < |layers| ==>
      ValidSender(layers[i].0) && ValidReceiver(layers[i].1) && Matching(layers[i].0, layers[i].1)
  }

  lemma {:induction false} BuildInv(g: Generator, layers: seq<(Sender, Receiver)>)
    requires Mirrored(layers)
    ensures Inv(g, Build(g, layers), true, true)
    ensures Accepted(Build(g, layers)) == [] && Delivered(Build(g, layers)) == []
    decreases |layers|
  {
    if layers != [] {
      var top := layers[|layers| - 1];
      hide TxInv, RxInv, ValidSender, ValidReceiver, Inv, NewTx, NewRx, Matching;
      BuildInv(g, layers[..|layers| - 1]);
      NewTxInv(g, top.0);
      NewRxInv(g, top.1);
      NewLayer(g, top.0, top.1, Build(g, layers[..|layers| - 1]));
    }
  }

  lemma NewLayer(g: Generator, s: Sender, c: Receiver, inner: Chain)
    requires Inv(g, inner, true, true) && Accepted(inner) == [] && Delivered(inner) == [] && Matching(s, c)
    requires TxInv(g, NewTx(g, s), []) && RxInv(g, NewRx(c), [])
    ensures var chain := Layer(NewTx(g, s), [], Pump([], false), inner, Pump([], false), [], NewRx(c), 0);
            Inv(g, chain, true, true) && Accepted(chain) == [] && Delivered(chain) == []
  {
    RxInvTakes(g, NewRx(c), []);
    EmptyLayer(g, NewTx(g, s), NewRx(c), inner);
  }

  lemma EmptyLayer(g: Generator, tx: Tx, rx: Rx, inner: Chain)
    requires Inv(g, inner, true, true) && Accepted(inner) == [] && Delivered(inner) == []
    requires Matching(tx.sender, rx.receiver) && TxInv(g, tx, []) && RxTaken(g, rx, []) && RxInv(g, rx, [])
    ensures Inv(g, Layer(tx, [], Pump([], false), inner, Pump([], false), [], rx, 0), true, true)
  {
    var empty: seq<byte> := [];
    var c := Layer(tx, [], Pump([], false), inner, Pump([], false), [], rx, 0);
    assert empty + empty == empty && Delivered(c.inner) == empty;
    assert Waiting(c) && Consumed(c) == empty;
    hide TxSent, RxTaken, RxInv, SideOk, Matching, Waiting, Consumed;
  }

  lemma AfterKeepsInv(g: Generator, s: Session, e: Event)
    requires Inv(g, s.chain, s.writing, s.reading) && Possible(s, e)
    ensures var t := After(g, s, e); Inv(g, t.chain, t.writing, t.reading)
  {
    hide Inv, Write, Read, StallWrite, StallRead, Do, CanWrite, CanRead;
    match e
    case TopWrite(data, r) => WriteKeepsInv(g, s.chain, s.reading, data, r);
    case TopRead(n) => ReadKeepsInv(g, s.chain, s.writing, n);
    case TopStallWrite(data, works) => StallWriteKeepsInv(g, s.chain, s.reading, |data|, works);
    case TopStallRead(n, works) => StallReadKeepsInv(g, s.chain, s.writing, n, works);
    case Internal(a) => DoKeepsInv(g, s.chain, s.writing, s.reading, a);
  }

  lemma {:induction false} RunKeepsInv(g: Generator, s: Session, run: seq<Event>, end: Session)
    requires Inv(g, s.chain, s.writing, s.reading) && Reaches(g, s, run, end)
    ensures Inv(g, end.chain, end.writing, end.reading)
    decreases |run|
  {
    if run != [] {
      hide Inv, After, Possible;
      AfterKeepsInv(g, s, run[0]);
      RunKeepsInv(g, After(g, s, run[0]), run[1..], end);
    }
  }

  /** A freshly built chain with both users at work. */
  function Open(g: Generator, layers: seq<(Sender, Receiver)>): Session {
    Session(Build(g, layers), true, true)
  }

  lemma EveryRunKeepsInv(g: Generator, layers: seq<(Sender, Receiver)>, run: seq<Event>, end: Session)
    requires Mirrored(layers) && Reaches(g, Open(g, layers), run, end)
    ensures Inv(g, end.chain, end.writing, end.reading)
  {
    hide Inv, Reaches, Mirrored, Build;
    BuildInv(g, layers);
    RunKeepsInv(g, Open(g, layers), run, end);
  }

  /** Any number of layers, any mix of XOR and AES, any interleaving of pumps and users, and a cipher that may
      fail in any call. */
  lemma EveryRunDeliversPrefix(g: Generator, layers: seq<(Sender, Receiver)>, run: seq<Event>, end: Session)
    requires Mirrored(layers) && Reaches(g, Open(g, layers), run, end)
    ensures Delivered(end.chain) <= Accepted(end.chain)
  {
    hide Inv, Reaches, Mirrored, Open;
    EveryRunKeepsInv(g, layers, run, end);
    DeliveredIsPrefix(g, end.chain, end.writing, end.reading);
  }

  // ----- nothing is lost -----

  /** Handshakes written out, every buffer on the way empty, and nothing lost in a stalled read. */
  ghost predicate Drained(c: Chain) {
    match c
    case Base(sent, taken) => taken == |sent|
    case Layer(tx, up, fwd, inner, bwd, down, rx, lost) =>
      tx.pending == [] && up == [] && fwd.buf == [] && Drained(inner) && bwd.buf == [] && down == [] && lost == 0
  }

  /** When nothing is in flight at any depth, everything accepted at the top has been delivered. */
  lemma {:induction false} DrainedDeliversAll(g: Generator, c: Chain, writing: bool, reading: bool)
    requires Inv(g, c, writing, reading) && Drained(c)
    ensures Delivered(c) == Accepted(c)
  {
    hide TxSent, RxTaken, RxInv, SideOk, StreamsAgree;
    if c.Layer? {
      DrainedDeliversAll(g, c.inner, !c.fwd.stopped, !c.bwd.stopped);
      var wire := Accepted(c.inner) + c.fwd.buf + c.up;
      assert wire == Accepted(c.inner);
      assert c.down + c.bwd.buf == [] && Consumed(c) == Delivered(c.inner) == wire;
      HalvesAgree(g, c.tx, wire, c.rx, wire);
      AllTakenIsAll(g, c.tx, wire, c.rx);
    }
  }

  lemma EveryDrainedRunDeliversAll(g: Generator, layers: seq<(Sender, Receiver)>, run: seq<Event>, end: Session)
    requires Mirrored(layers) && Reaches(g, Open(g, layers), run, end) && Drained(end.chain)
    ensures Delivered(end.chain) == Accepted(end.chain)
  {
    hide Inv, Reaches, Mirrored, Open, Drained;
    EveryRunKeepsInv(g, layers, run, end);
    DrainedDeliversAll(g, end.chain, end.writing, end.reading);
  }
}
