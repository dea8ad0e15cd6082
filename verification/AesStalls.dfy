/** What a failing cipher costs: stream agreement survives, for every generator, exactly in the directions
    that are not spoiled. */
module AesStalls {
  import opened Bytes
  import opened Keystream
  import opened LayerStream
  import opened AesLink

  // ----- a run takes the same course under every generator -----

  /** All of a direction that does not depend on the generator: lengths, counters and plaintext. */
  datatype Shape = Shape(
    sender: Sender, receiver: Receiver, pending: nat, accepted: seq<byte>, txDraws: nat, txBuf: nat,
    sent: nat, taken: nat, got: nat, refused: bool, delivered: nat, rxDraws: nat, rxBuf: nat,
    skipped: Option<nat>, readStalled: bool)

  function ShapeOf(d: Direction): Shape {
    Shape(d.tx.sender, d.rx.receiver, |d.tx.pending|, d.tx.accepted, d.tx.side.draws, |d.tx.side.buf|,
          |d.sent|, d.taken, |d.rx.got|, d.rx.refused, |d.rx.delivered|, d.rx.side.draws, |d.rx.side.buf|,
          d.skipped, d.readStalled)
  }

  lemma SamePossible(d: Direction, o: Direction, e: Direction, q: Direction, a: Action)
    requires ShapeOf(d) == ShapeOf(e) && ShapeOf(o) == ShapeOf(q) && Possible(d, o, a)
    ensures Possible(e, q, a)
  {
  }

  lemma WriteAlike(g: Generator, h: Generator, d: Direction, o: Direction, e: Direction, q: Direction, data: seq<byte>, r: int)
    requires ShapeOf(d) == ShapeOf(e) && Possible(d, o, Write(data, r)) && Possible(e, q, Write(data, r))
    ensures ShapeOf(Move(g, d, o, Write(data, r))) == ShapeOf(Move(h, e, q, Write(data, r)))
  {
    var sk := SenderMasker(d.tx.sender).sk;
    GrowAlike(g, sk, d.tx.side, h, sk, e.tx.side, |data|);
    hide Grow, WireOf;
  }

  lemma ReadAlike(g: Generator, h: Generator, d: Direction, o: Direction, e: Direction, q: Direction, n: nat)
    requires ShapeOf(d) == ShapeOf(e) && Possible(d, o, Read(n)) && Possible(e, q, Read(n))
    ensures ShapeOf(Move(g, d, o, Read(n))) == ShapeOf(Move(h, e, q, Read(n)))
  {
    GrowAlike(g, RxMasker(d.rx).sk, d.rx.side, h, RxMasker(e.rx).sk, e.rx.side, n);
    hide Grow, WireOf;
  }

  /** Equal shapes stay equal, as long as neither handshake is refused. */
  lemma MoveAlike(g: Generator, h: Generator, d: Direction, o: Direction, e: Direction, q: Direction, a: Action)
    requires ShapeOf(d) == ShapeOf(e) && Possible(d, o, a) && Possible(e, q, a)
    requires !Move(g, d, o, a).rx.refused && !Move(h, e, q, a).rx.refused
    ensures ShapeOf(Move(g, d, o, a)) == ShapeOf(Move(h, e, q, a))
  {
    match a
    case SendHello(n) =>
    case RecvHello(n) =>
    case Write(data, r) => WriteAlike(g, h, d, o, e, q, data, r);
    case Read(n) => ReadAlike(g, h, d, o, e, q, n);
    case StallWrite(_, works) =>
      ExtendByCounts(g, SenderMasker(d.tx.sender).sk, d.tx.side, works);
      ExtendByCounts(h, SenderMasker(e.tx.sender).sk, e.tx.side, works);
    case StallRead(_, works) =>
      ExtendByCounts(g, RxMasker(d.rx).sk, d.rx.side, works);
      ExtendByCounts(h, RxMasker(e.rx).sk, e.rx.side, works);
  }

  lemma NeverRefused(g: Generator, d: Direction)
    requires DirectionInv(g, d)
    ensures !d.rx.refused
  {
    if Complete(d.rx) {
      HeaderAgrees(g, d);
    }
  }

  ghost predicate Alike(l: Link, m: Link) {
    ShapeOf(l.fwd) == ShapeOf(m.fwd) && ShapeOf(l.bwd) == ShapeOf(m.bwd)
  }

  lemma NextAlike(g: Generator, h: Generator, l: Link, m: Link, s: Step)
    requires LinkInv(g, l) && LinkInv(h, m) && Alike(l, m) && Enabled(l, s)
    ensures Enabled(m, s) && Alike(Next(g, l, s), Next(h, m, s))
  {
    hide DirectionInv, Move, Possible, ShapeOf;
    var d, o := Along(l, s.forward), Against(l, s.forward);
    var e, q := Along(m, s.forward), Against(m, s.forward);
    SamePossible(d, o, e, q, s.action);
    MoveKeepsInv(g, d, o, s.action);
    MoveKeepsInv(h, e, q, s.action);
    NeverRefused(g, Move(g, d, o, s.action));
    NeverRefused(h, Move(h, e, q, s.action));
    MoveAlike(g, h, d, o, e, q, s.action);
  }

  /** A run that is possible under one generator is possible under any other, and ends in the same shape. */
  lemma {:induction false} RunAlike(g: Generator, h: Generator, l: Link, m: Link, run: seq<Step>, end: Link)
    returns (other: Link)
    requires LinkInv(g, l) && LinkInv(h, m) && Alike(l, m) && Reaches(g, l, run, end)
    ensures Reaches(h, m, run, other) && Alike(end, other)
    decreases |run|
  {
    if run == [] {
      other := m;
    } else {
      hide LinkInv, Alike, Next, Enabled;
      var s := run[0];
      NextAlike(g, h, l, m, s);
      NextKeepsInv(g, l, s);
      NextKeepsInv(h, m, s);
      other := RunAlike(g, h, Next(g, l, s), Next(h, m, s), run[1..], end);
    }
  }

  lemma StartAlike(g: Generator, h: Generator, u: Setup)
    ensures Alike(Start(g, u), Start(h, u))
  {
  }

  // ----- under the telltale generator every byte masked too late is wrong -----

  /** From `limit` on, the bytes behind the hello are the plaintext itself. */
  ghost predicate Unmasked(sent: seq<byte>, plain: seq<byte>, limit: nat) {
    |sent| == 128 + |plain| && forall i :: limit <= i < |plain| ==> sent[128 + i] == plain[i]
  }

  lemma UnmaskedExtends(sent: seq<byte>, plain: seq<byte>, limit: nat, out: seq<byte>, more: seq<byte>)
    requires Unmasked(sent, plain, limit) && |out| == |more|
    requires forall i :: 0 <= i < |out| && |plain| + i >= limit ==> out[i] == more[i]
    ensures Unmasked(sent + out, plain + more, limit)
  {
  }

  /** Once block j was skipped, the payload from its start on goes out unmasked. */
  ghost predicate TelltaleInv(j: nat, d: Direction)
    requires d.tx.sender.AesSender?
  {
    d.skipped == Some(j) ==>
      && AfterSkip(j, SenderMasker(d.tx.sender).sk, d.tx.side, |d.tx.accepted|)
      && Unmasked(d.sent, d.tx.accepted, Limit(d))
  }

  lemma UnmaskedWrite(j: nat, sk: StreamKey, s: Side, pos: nat, data: seq<byte>, r: int)
    requires sk.size > 0 && AfterSkip(j, sk, s, pos) && r <= |data|
    ensures var g, m := Telltale(j), StreamMask(sk);
            var out := Sent(WireOf(g, m, s, data), r);
            && AfterSkip(j, sk, SideAfterWrite(g, m, s, data, r), pos + |Sent(data, r)|)
            && |out| == |Sent(data, r)|
            && forall i :: 0 <= i < |out| && pos + i >= j * sk.size ==> out[i] == Sent(data, r)[i]
  {
    var grown := Grow(Telltale(j), sk, s, |data|);
    GrowAfterSkip(j, sk, s, pos, |data|);
    GrowBound(Telltale(j), sk, s, |data|);
    if r > 0 {
      UseAfterSkip(j, sk, grown, pos, r);
    }
    assert forall i :: 0 <= i < |data| && pos + i >= j * sk.size ==> grown.buf[i] == 0;
    hide Grow, AfterSkip;
    XorZeros(data, grown.buf, j * sk.size - pos);
  }

  lemma XorZeros(data: seq<byte>, mask: seq<byte>, from: int)
    requires |data| <= |mask| && forall i :: 0 <= i < |data| && i >= from ==> mask[i] == 0
    ensures forall i :: 0 <= i < |data| && i >= from ==> Xor(data, mask)[i] == data[i]
  {
    forall i | 0 <= i < |data| && i >= from
      ensures Xor(data, mask)[i] == data[i]
    {
      XorZero(data[i]);
    }
  }

  lemma XorZero(x: byte)
    ensures x ^ 0 == x && x ^ 1 != x
  {
  }

  lemma WriteKeepsTelltale(j: nat, d: Direction, o: Direction, data: seq<byte>, r: int)
    requires DirectionInv(Telltale(j), d) && TelltaleInv(j, d) && Possible(d, o, Write(data, r))
    ensures TelltaleInv(j, Move(Telltale(j), d, o, Write(data, r)))
  {
    var g, m := Telltale(j), SenderMasker(d.tx.sender);
    hide SideAfterWrite, WireOf, AfterSkip, Unmasked, SenderInv, ReceiverInv, Sent;
    if d.skipped == Some(j) {
      UnmaskedWrite(j, m.sk, d.tx.side, |d.tx.accepted|, data, r);
      UnmaskedExtends(d.sent, d.tx.accepted, Limit(d), Sent(WireOf(g, m, d.tx.side, data), r), Sent(data, r));
    }
  }

  lemma StallKeepsTelltale(j: nat, d: Direction, o: Direction, data: seq<byte>, works: nat)
    requires DirectionInv(Telltale(j), d) && TelltaleInv(j, d) && Possible(d, o, StallWrite(data, works))
    ensures TelltaleInv(j, Move(Telltale(j), d, o, StallWrite(data, works)))
  {
    var g, sk, pos := Telltale(j), SenderMasker(d.tx.sender).sk, |d.tx.accepted|;
    StallEffect(g, d, o, data, works);
    hide SenderInv, ReceiverInv, ExtendBy, AfterSkip, Unmasked, OnStream, OnStreamUntil, Move, Possible;
    var s := ExtendBy(g, sk, d.tx.side, works);
    if d.skipped == Some(j) {
      ExtendByAfterSkip(j, sk, d.tx.side, pos, works);
      StallAfterSkip(j, sk, s, pos);
    } else if d.skipped.None? {
      StillOnStream(g, d);
      SkipStarts(sk, g, d.tx.side, pos, works);
      StallKeepsBuffered(g, sk, d.tx.side, pos, works);
      SentLength(g, d);
      NothingUnmasked(d.sent, d.tx.accepted, s.draws * sk.size);
    }
  }

  lemma StallEffect(g: Generator, d: Direction, o: Direction, data: seq<byte>, works: nat)
    requires Possible(d, o, StallWrite(data, works))
    ensures d.tx.pending == [] && d.tx.sender.AesSender?
    ensures var s := ExtendBy(g, SenderMasker(d.tx.sender).sk, d.tx.side, works);
            Move(g, d, o, StallWrite(data, works))
            == d.(tx := d.tx.(side := Stalled(s)), skipped := if d.skipped.None? then Some(s.draws) else d.skipped)
  {
  }

  lemma StillOnStream(g: Generator, d: Direction)
    requires DirectionInv(g, d) && d.skipped.None?
    ensures d.tx.sender.size > 0 && OnStream(g, SenderMasker(d.tx.sender).sk, d.tx.side, |d.tx.accepted|)
  {
  }

  lemma StallAfterSkip(j: nat, sk: StreamKey, s: Side, pos: nat)
    requires AfterSkip(j, sk, s, pos)
    ensures AfterSkip(j, sk, Stalled(s), pos)
  {
  }

  lemma NothingUnmasked(sent: seq<byte>, plain: seq<byte>, limit: nat)
    requires |sent| == 128 + |plain| && |plain| <= limit
    ensures Unmasked(sent, plain, limit)
  {
  }

  lemma SentLength(g: Generator, d: Direction)
    requires DirectionInv(g, d) && d.tx.pending == []
    ensures |d.sent| == 128 + |d.tx.accepted|
  {
  }

  lemma MoveKeepsTelltale(j: nat, d: Direction, o: Direction, a: Action)
    requires DirectionInv(Telltale(j), d) && TelltaleInv(j, d) && Possible(d, o, a)
    ensures Move(Telltale(j), d, o, a).tx.sender == d.tx.sender
    ensures TelltaleInv(j, Move(Telltale(j), d, o, a))
  {
    match a
    case SendHello(n) =>
      assert d.skipped.Some? ==> d.tx.pending == [];
      assert d.tx.pending == [] ==> d.sent + d.tx.pending[..n] == d.sent;
    case Write(data, r) => WriteKeepsTelltale(j, d, o, data, r);
    case StallWrite(data, works) => StallKeepsTelltale(j, d, o, data, works);
    case RecvHello(n) =>
    case Read(n) =>
    case StallRead(n, works) =>
  }

  ghost predicate LinkTelltale(j: nat, l: Link)
    requires LinkInv(Telltale(j), l)
  {
    TelltaleInv(j, l.fwd) && TelltaleInv(j, l.bwd)
  }

  lemma {:induction false} RunKeepsTelltale(j: nat, l: Link, run: seq<Step>, end: Link)
    requires LinkInv(Telltale(j), l) && LinkTelltale(j, l) && Reaches(Telltale(j), l, run, end)
    ensures LinkInv(Telltale(j), end) && LinkTelltale(j, end)
    decreases |run|
  {
    if run != [] {
      var s := run[0];
      NextKeepsInv(Telltale(j), l, s);
      hide TelltaleInv, DirectionInv, Move, Possible;
      MoveKeepsTelltale(j, Along(l, s.forward), Against(l, s.forward), s.action);
      RunKeepsTelltale(j, Next(Telltale(j), l, s), run[1..], end);
    }
  }

  lemma PastHandshake(g: Generator, d: Direction)
    requires DirectionInv(g, d) && Complete(d.rx) && !d.readStalled
    ensures Ready(d.rx) && d.tx.pending == [] && RxMasker(d.rx) == SenderMasker(d.tx.sender)
    ensures UsableMask(SenderMasker(d.tx.sender))
    ensures |d.rx.got| == 128 && |d.sent| == 128 + |d.tx.accepted| && d.taken == 128 + |d.rx.delivered|
    ensures RxInv(g, d.rx, d.sent[..d.taken])
  {
    HeaderAgrees(g, d);
    SentLength(g, d);
  }

  lemma DeliveredWrong(j: nat, d: Direction)
    requires DirectionInv(Telltale(j), d) && TelltaleInv(j, d) && d.skipped == Some(j)
    requires Complete(d.rx) && !d.readStalled && Limit(d) < |d.tx.accepted| && Limit(d) < |d.rx.delivered|
    ensures !(d.rx.delivered <= d.tx.accepted)
  {
    var g, m, k := Telltale(j), SenderMasker(d.tx.sender), Limit(d);
    PastHandshake(g, d);
    TelltaleStream(j, m.sk, |d.rx.delivered|);
    hide DirectionInv, AfterSkip, RxInv, Complete, Stream, Unmasked, Telltale;
    UnmaskedAt(d.sent, d.tx.accepted, k, k);
    WrongByte(g, m, d.sent[..d.taken], d.rx, k);
    NotPrefix(d.sent, d.taken, d.tx.accepted, d.rx.delivered, k);
  }

  lemma UnmaskedAt(sent: seq<byte>, plain: seq<byte>, limit: nat, i: nat)
    requires Unmasked(sent, plain, limit) && limit <= i < |plain|
    ensures |sent| == 128 + |plain| && sent[128 + i] == plain[i]
  {
  }

  lemma NotPrefix(sent: seq<byte>, taken: nat, plain: seq<byte>, delivered: seq<byte>, k: nat)
    requires 128 + k < taken <= |sent| && k < |plain| && k < |delivered|
    requires sent[128 + k] == plain[k] && delivered[k] != sent[..taken][128 + k]
    ensures !(delivered <= plain)
  {
  }

  lemma InFlightWrong(j: nat, d: Direction)
    requires DirectionInv(Telltale(j), d) && TelltaleInv(j, d) && d.skipped == Some(j)
    requires Complete(d.rx) && !d.readStalled && |d.rx.delivered| <= Limit(d) < |d.tx.accepted|
    ensures !Agrees(Telltale(j), d)
  {
    var g, m, k, got := Telltale(j), SenderMasker(d.tx.sender), Limit(d), |d.rx.delivered|;
    PastHandshake(g, d);
    TelltaleStream(j, m.sk, |d.tx.accepted|);
    hide DirectionInv, AfterSkip, RxInv, Stream, Unmasked, Telltale;
    UnmaskedAt(d.sent, d.tx.accepted, k, k);
    WrongInFlight(d.sent[d.taken..], Mask(g, m, |d.tx.accepted|)[got..], d.tx.accepted[got..], k - got);
  }

  /** The first byte behind the limit arrives, or would arrive, wrong. */
  lemma TelltaleDisagrees(j: nat, d: Direction)
    requires DirectionInv(Telltale(j), d) && TelltaleInv(j, d) && d.skipped == Some(j)
    requires Complete(d.rx) && !d.readStalled && Limit(d) < |d.tx.accepted|
    ensures !Agrees(Telltale(j), d)
    ensures Limit(d) < |d.rx.delivered| ==> !(d.rx.delivered <= d.tx.accepted)
  {
    hide SenderInv, ReceiverInv, TelltaleInv;
    if Limit(d) < |d.rx.delivered| {
      DeliveredWrong(j, d);
    } else {
      InFlightWrong(j, d);
    }
  }

  lemma WrongInFlight(flight: seq<byte>, mask: seq<byte>, plain: seq<byte>, i: nat)
    requires i < |flight| == |mask| == |plain| && flight[i] == plain[i] && mask[i] == 1
    ensures Xor(flight, mask) != plain
  {
    XorZero(flight[i]);
    assert Xor(flight, mask)[i] != plain[i];
  }

  /** What a receiver delivers at position k is the byte it took there, unmasked. */
  lemma WrongByte(g: Generator, m: Masker, consumed: seq<byte>, rx: Rx, k: nat)
    requires RxInv(g, rx, consumed) && Ready(rx) && RxMasker(rx) == m && |rx.got| == 128 && k < |rx.delivered|
    requires UsableMask(m) && Mask(g, m, |rx.delivered|)[k] == 1
    ensures |consumed| == 128 + |rx.delivered| && rx.delivered[k] != consumed[128 + k]
  {
    XorZero(rx.delivered[k]);
  }

  /** Bytes lost in a stalled read are missing from then on. */
  lemma StalledReadDisagrees(g: Generator, d: Direction)
    requires DirectionInv(g, d) && d.readStalled
    ensures !Agrees(g, d)
  {
    SentLength(g, d);
  }

  // ----- the exact condition -----

  lemma {:induction false} ReachesOne(g: Generator, l: Link, run: seq<Step>, a: Link, b: Link)
    requires Reaches(g, l, run, a) && Reaches(g, l, run, b)
    ensures a == b
    decreases |run|
  {
    if run != [] {
      ReachesOne(g, Next(g, l, run[0]), run[1..], a, b);
    }
  }

  lemma SpoiledAlike(d: Direction, e: Direction)
    requires ShapeOf(d) == ShapeOf(e) && d.tx.sender.AesSender?
    ensures Spoiled(d) <==> Spoiled(e)
  {
  }

  lemma OtherRun(g: Generator, h: Generator, u: Setup, run: seq<Step>, end: Link) returns (other: Link)
    requires ValidSetup(u) && Reaches(g, Start(g, u), run, end)
    ensures Reaches(h, Start(h, u), run, other) && Alike(end, other) && LinkInv(g, end) && LinkInv(h, other)
  {
    hide LinkInv, Alike, Reaches, ValidSetup, Start;
    StartInv(g, u);
    StartInv(h, u);
    StartAlike(g, h, u);
    other := RunAlike(g, h, Start(g, u), Start(h, u), run, end);
    RunKeepsInv(g, Start(g, u), run, end);
    RunKeepsInv(h, Start(h, u), run, other);
  }

  /** For a spoiled direction there is a generator under which the same run ends in disagreement. */
  lemma SpoiledDisagrees(g: Generator, u: Setup, run: seq<Step>, end: Link, forward: bool)
    returns (h: Generator, other: Link)
    requires ValidSetup(u) && Reaches(g, Start(g, u), run, end)
    requires Along(end, forward).tx.sender.AesSender? && Spoiled(Along(end, forward))
    ensures Reaches(h, Start(h, u), run, other) && !Agrees(h, Along(other, forward))
  {
    hide Reaches, ValidSetup, DirectionInv, Agrees;
    var d := Along(end, forward);
    if d.readStalled {
      h, other := g, end;
      var _ := OtherRun(g, g, u, run, end);
      StalledReadDisagrees(g, d);
    } else {
      var j := d.skipped.value;
      h := Telltale(j);
      other := OtherRun(g, h, u, run, end);
      StartInv(h, u);
      RunKeepsTelltale(j, Start(h, u), run, other);
      TelltaleDisagrees(j, Along(other, forward));
    }
  }

  lemma IntactUnderAll(g: Generator, u: Setup, run: seq<Step>, end: Link, h: Generator, other: Link)
    requires ValidSetup(u) && Reaches(g, Start(g, u), run, end) && Reaches(h, Start(h, u), run, other)
    requires end.fwd.tx.sender.AesSender? && end.bwd.tx.sender.AesSender?
    requires !Spoiled(end.fwd) && !Spoiled(end.bwd)
    ensures Agrees(h, other.fwd) && Agrees(h, other.bwd)
  {
    hide Reaches, ValidSetup, LinkInv, Agrees;
    var same := OtherRun(g, h, u, run, end);
    ReachesOne(h, Start(h, u), run, same, other);
    SpoiledAlike(end.fwd, other.fwd);
    SpoiledAlike(end.bwd, other.bwd);
    EveryRunAgrees(h, u, run, other);
  }

  /** Both streams agree after a run, under every generator.  */
  ghost predicate AgreesUnderAll(u: Setup, run: seq<Step>) {
    forall g, end :: Reaches(g, Start(g, u), run, end) ==> Agrees(g, end.fwd) && Agrees(g, end.bwd)
  }

  /** A run, stalls included, keeps both streams in agreement for every generator exactly when neither direction
      is spoiled at its end: no read has stalled, and no byte was masked beyond those buffered at a stalled write. */
  lemma AgreementSurvivesIff(g: Generator, u: Setup, run: seq<Step>, end: Link)
    requires ValidSetup(u) && Reaches(g, Start(g, u), run, end)
    ensures end.fwd.tx.sender.AesSender? && end.bwd.tx.sender.AesSender?
    ensures AgreesUnderAll(u, run) <==> !Spoiled(end.fwd) && !Spoiled(end.bwd)
  {
    hide Reaches, ValidSetup, Agrees, Start, Spoiled;
    EveryRunAgrees(g, u, run, end);
    if Spoiled(end.fwd) {
      var h, other := SpoiledDisagrees(g, u, run, end, true);
    } else if Spoiled(end.bwd) {
      var h, other := SpoiledDisagrees(g, u, run, end, false);
    } else {
      forall h, other | Reaches(h, Start(h, u), run, other)
        ensures Agrees(h, other.fwd) && Agrees(h, other.bwd)
      {
        IntactUnderAll(g, u, run, end, h, other);
      }
    }
  }

  // ----- a run that goes wrong -----

  /** Both endpoints complete the handshake. */
  const HANDSHAKE: seq<Step> := [
    Step(true, SendHello(128)), Step(false, SendHello(128)),
    Step(true, RecvHello(128)), Step(false, RecvHello(128))]

  /** One endpoint fails to generate its first block, then sends a byte, which is read. */
  const STALLED: seq<Step> := [Step(true, StallWrite([0], 0)), Step(true, Write([0], 1)), Step(true, Read(1))]

  lemma {:induction false} ReachesConcat(g: Generator, l: Link, a: seq<Step>, mid: Link, b: seq<Step>, end: Link)
    requires Reaches(g, l, a, mid) && Reaches(g, mid, b, end)
    ensures Reaches(g, l, a + b, end)
    decreases |a|
  {
    if a == [] {
      assert a + b == b;
    } else {
      hide Next, Enabled, Reaches;
      ReachesStep(g, l, a, mid);
      ReachesConcat(g, Next(g, l, a[0]), a[1..], mid, b, end);
      TailOfConcat(a, b);
      ReachesStep(g, l, a + b, end);
    }
  }

  lemma ReachesStep(g: Generator, l: Link, run: seq<Step>, end: Link)
    requires run != []
    ensures Reaches(g, l, run, end) <==> Enabled(l, run[0]) && Reaches(g, Next(g, l, run[0]), run[1..], end)
  {
    hide Next, Enabled;
  }

  /** A direction right after its handshake. */
  ghost predicate Opened(d: Direction) {
    && d.tx.pending == [] && Complete(d.rx) && !d.rx.refused
    && d.tx.sender.AesSender? && d.tx.sender.size > 0 && Matching(d.tx.sender, d.rx.receiver)
    && d.tx.side == d.rx.side == Side(0, []) && d.tx.accepted == d.rx.delivered == []
    && |d.sent| == d.taken == 128 && Untouched(d)
  }

  lemma HandshakeOpens(g: Generator, u: Setup) returns (l: Link)
    requires ValidSetup(u)
    ensures Reaches(g, Start(g, u), HANDSHAKE, l) && Opened(l.fwd) && Opened(l.bwd)
  {
    var l0 := Start(g, u);
    StartInv(g, u);
    var l1 := Next(g, l0, HANDSHAKE[0]);
    var l2 := Next(g, l1, HANDSHAKE[1]);
    var l3 := Next(g, l2, HANDSHAKE[2]);
    l := Next(g, l3, HANDSHAKE[3]);
    assert Reaches(g, l3, HANDSHAKE[3..], l) && Reaches(g, l2, HANDSHAKE[2..], l);
    assert Reaches(g, l1, HANDSHAKE[1..], l);
    RunKeepsInv(g, l0, HANDSHAKE, l);
    NeverRefused(g, l.fwd);
    NeverRefused(g, l.bwd);
  }

  /** A stalled write, a write and a read are possible right behind the handshake. */
  lemma StalledSteps(g: Generator, l: Link) returns (end: Link)
    requires Opened(l.fwd) && Opened(l.bwd)
    ensures Reaches(g, l, STALLED, end)
    ensures end.fwd.tx.accepted == [0] && |end.fwd.rx.delivered| == 1
    ensures Complete(end.fwd.rx) && !end.fwd.readStalled && end.fwd.skipped == Some(0)
  {
    var l1 := Next(g, l, STALLED[0]);
    assert STALLED[1].action.data[..1] == [0];
    var l2 := Next(g, l1, STALLED[1]);
    end := Next(g, l2, STALLED[2]);
    assert Reaches(g, l2, STALLED[2..], end) && Reaches(g, l1, STALLED[1..], end);
  }

  /** For every setup: one failed block in front of one byte, under a generator whose first block has ones in it,
      and what is delivered is not what was accepted. */
  lemma StalledRunDisagrees(u: Setup) returns (end: Link)
    requires ValidSetup(u)
    ensures Reaches(Telltale(0), Start(Telltale(0), u), HANDSHAKE + STALLED, end)
    ensures end.fwd.tx.accepted == [0] && |end.fwd.rx.delivered| == 1
    ensures !(end.fwd.rx.delivered <= end.fwd.tx.accepted)
  {
    hide Reaches, ValidSetup, Start, Opened, SenderInv, ReceiverInv, AfterSkip;
    var g := Telltale(0);
    var l := HandshakeOpens(g, u);
    end := StalledSteps(g, l);
    ReachesConcat(g, Start(g, u), HANDSHAKE, l, STALLED, end);
    StartInv(g, u);
    StartTelltale(u);
    RunKeepsTelltale(0, Start(g, u), HANDSHAKE + STALLED, end);
    TelltaleDisagrees(0, end.fwd);
  }

  lemma StartTelltale(u: Setup)
    requires ValidSetup(u)
    ensures LinkInv(Telltale(0), Start(Telltale(0), u)) && LinkTelltale(0, Start(Telltale(0), u))
  {
    StartInv(Telltale(0), u);
  }
}
