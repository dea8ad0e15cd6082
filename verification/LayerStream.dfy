/** One direction of one chain layer: the sending half and the receiving half of Socket_Chain_XOR
    or Socket_Chain_AES, each described by the bytes that have crossed its lower edge so far.
    Neither half knows the other; that they agree is a consequence of the wire being a FIFO. */
module LayerStream {
  import opened Bytes
  import opened Keystream

  // ----- masks -----

  function Repeat(b: byte, n: nat): seq<byte> { seq(n, _ => b) }

  datatype Masker = ConstMask(b: byte) | StreamMask(sk: StreamKey)

  predicate UsableMask(m: Masker) {
    m.StreamMask? ==> m.sk.size > 0
  }

  /** The first n mask bytes. */
  ghost function Mask(g: Generator, m: Masker, n: nat): (s: seq<byte>)
    requires UsableMask(m)
    ensures |s| == n
  {
    match m
    case ConstMask(b) => Repeat(b, n)
    case StreamMask(sk) => Stream(g, sk, n)
  }

  lemma MaskGrows(g: Generator, m: Masker, n: nat, k: nat)
    requires UsableMask(m) && n <= k
    ensures Mask(g, m, n) == Mask(g, m, k)[..n]
  {
    if m.StreamMask? {
      StreamGrows(g, m.sk, n, k);
    }
  }

  ghost function Masked(g: Generator, m: Masker, plain: seq<byte>): (s: seq<byte>)
    requires UsableMask(m)
    ensures |s| == |plain|
  {
    Xor(plain, Mask(g, m, |plain|))
  }

  /** Masking a longer plaintext extends the masked bytes. */
  lemma MaskedExtend(g: Generator, m: Masker, plain: seq<byte>, more: seq<byte>)
    requires UsableMask(m)
    ensures Masked(g, m, plain + more)
            == Masked(g, m, plain) + Xor(more, Mask(g, m, |plain| + |more|)[|plain|..])
  {
    MaskGrows(g, m, |plain|, |plain| + |more|);
    hide Mask, Xor;
    assert |plain + more| == |plain| + |more|;
    XorConcat(plain, more, Mask(g, m, |plain + more|));
  }

  lemma MaskedSplit(g: Generator, m: Masker, plain: seq<byte>, n: nat)
    requires UsableMask(m) && n <= |plain|
    ensures Masked(g, m, plain)[..n] == Masked(g, m, plain[..n])
  {
    assert plain[..n] + plain[n..] == plain;
    MaskedExtend(g, m, plain[..n], plain[n..]);
  }

  /** A masked stream that is a prefix of another one hides a prefix of its plaintext. */
  lemma UnmaskPrefix(g: Generator, m: Masker, plain: seq<byte>, other: seq<byte>)
    requires UsableMask(m) && Masked(g, m, other) <= Masked(g, m, plain)
    ensures other <= plain
  {
    var n := |other|;
    MaskedSplit(g, m, plain, n);
    assert Masked(g, m, plain[..n]) == Masked(g, m, other);
    XorTwice(other, Mask(g, m, n));
    XorTwice(plain[..n], Mask(g, m, n));
  }

  // ----- sending half -----

  /** What the sending endpoint is configured with; the AES fields iv and header are its random choices. */
  datatype Sender =
    | XorSender(mask: byte)
    | AesSender(phase1Key: seq<byte>, size: nat, iv: seq<byte>, header: Header)

  ghost predicate ValidSender(s: Sender) {
    s.AesSender? ==> s.size > 0 && |s.iv| == HANDSHAKE_IV_SIZE && Magic(s.header) == MAGIC
  }

  /** cryptoXOR over one header: a buffer shorter than the header leaves it as it is. */
  function HeaderThrough(buf: seq<byte>, h: Header): Header {
    if HEADER_SIZE <= |buf| then Xor(h, buf) else h
  }

  /** The header through one phase-1 block. */
  function Phase1(g: Generator, key: seq<byte>, size: nat, iv: seq<byte>, h: Header): Header {
    HeaderThrough(Block(g, key, iv, size), h)
  }

  lemma Phase1Twice(g: Generator, key: seq<byte>, size: nat, iv: seq<byte>, h: Header)
    ensures Phase1(g, key, size, iv, Phase1(g, key, size, iv, h)) == h
  {
    if HEADER_SIZE <= size {
      XorTwice(h, Block(g, key, iv, size));
    }
  }

  function AesMasker(size: nat, h: Header): Masker {
    StreamMask(StreamKey(Phase2Key(h), IVSeed(h), size))
  }

  function SenderMasker(s: Sender): Masker {
    match s
    case XorSender(b) => ConstMask(b)
    case AesSender(_, size, _, h) => AesMasker(size, h)
  }

  /** What the sender puts on the wire before any payload. */
  function Hello(g: Generator, s: Sender): seq<byte> {
    match s
    case XorSender(_) => []
    case AesSender(key, size, iv, h) => iv + Phase1(g, key, size, iv, h)
  }

  /** `pending` is the part of the hello still to be written, `accepted` the payload the transport took. */
  datatype Tx = Tx(sender: Sender, pending: seq<byte>, side: Side, accepted: seq<byte>)

  function NewTx(g: Generator, s: Sender): Tx {
    Tx(s, Hello(g, s), Side(0, []), [])
  }

  ghost predicate SideOk(g: Generator, m: Masker, s: Side, pos: nat)
  {
    m.StreamMask? ==> OnStream(g, m.sk, s, pos)
  }

  /** The hello went out as it should, and as many bytes behind it as payload was accepted. */
  ghost predicate HelloSent(g: Generator, tx: Tx, wire: seq<byte>) {
    var hello := Hello(g, tx.sender);
    && ValidSender(tx.sender)
    && |tx.pending| <= |hello|
    && tx.pending == hello[|hello| - |tx.pending|..]
    && (tx.pending != [] ==> tx.accepted == [])
    && |wire| == |hello| - |tx.pending| + |tx.accepted|
    && wire[..|hello| - |tx.pending|] == hello[..|hello| - |tx.pending|]
  }

  /** `wire` is everything this half has put on the wire: the hello so far, and the masked payload. */
  ghost predicate TxSent(g: Generator, tx: Tx, wire: seq<byte>) {
    && HelloSent(g, tx, wire)
    && wire[|Hello(g, tx.sender)| - |tx.pending|..] == Masked(g, SenderMasker(tx.sender), tx.accepted)
  }

  ghost predicate TxInv(g: Generator, tx: Tx, wire: seq<byte>) {
    TxSent(g, tx, wire) && SideOk(g, SenderMasker(tx.sender), tx.side, |tx.accepted|)
  }

  /** A stretch of the handshake's writeFull. */
  function TxHello(tx: Tx, n: nat): Tx
    requires n <= |tx.pending|
  {
    tx.(pending := tx.pending[n..])
  }

  /** The part of a buffer that went through when the transport answered r (none when r <= 0). */
  function Sent(data: seq<byte>, r: int): seq<byte>
    requires r <= |data|
  {
    if r > 0 then data[..r] else []
  }

  /** Keystream buffer after partialWrite: grown to cover the data, advanced only by what was accepted. */
  function SideAfterWrite(g: Generator, m: Masker, s: Side, data: seq<byte>, r: int): Side
    requires UsableMask(m)
  {
    if m.ConstMask? then s
    else
      var grown := Grow(g, m.sk, s, |data|);
      if r > 0 then Use(grown, r) else grown
  }

  /** The bytes handed to the transport by partialWrite. */
  function WireOf(g: Generator, m: Masker, s: Side, data: seq<byte>): (w: seq<byte>)
    requires UsableMask(m)
    ensures |w| == |data|
  {
    match m
    case ConstMask(b) => Xor(data, Repeat(b, |data|))
    case StreamMask(sk) =>
      GrowBound(g, sk, s, |data|);
      Xor(data, Grow(g, sk, s, |data|).buf)
  }

  /** partialWrite of `data`, of which the transport accepted r bytes. */
  function TxWrite(g: Generator, tx: Tx, data: seq<byte>, r: int): Tx
    requires tx.pending == [] && r <= |data| && UsableMask(SenderMasker(tx.sender))
  {
    tx.(side := SideAfterWrite(g, SenderMasker(tx.sender), tx.side, data, r),
        accepted := tx.accepted + Sent(data, r))
  }

  lemma NewTxInv(g: Generator, s: Sender)
    requires ValidSender(s)
    ensures TxInv(g, NewTx(g, s), [])
  {
    var tx := NewTx(g, s);
    assert Hello(g, s)[..0] + Masked(g, SenderMasker(s), []) == [];
    if s.AesSender? {
      assert Blocks(g, SenderMasker(s).sk, 0)[0..] == [];
    }
  }

  lemma TxHelloInv(g: Generator, tx: Tx, wire: seq<byte>, n: nat)
    requires TxInv(g, tx, wire) && n <= |tx.pending|
    ensures TxInv(g, TxHello(tx, n), wire + tx.pending[..n])
  {
    TxHelloSent(g, tx, wire, n);
    hide TxSent, OnStream;
  }

  /** The hello goes out whatever state the keystream buffer is in. */
  lemma TxHelloSent(g: Generator, tx: Tx, wire: seq<byte>, n: nat)
    requires TxSent(g, tx, wire) && n <= |tx.pending|
    ensures TxSent(g, TxHello(tx, n), wire + tx.pending[..n])
  {
    if n > 0 {
      HelloMoves(Hello(g, tx.sender), |tx.pending|, n);
      NothingMasked(g, SenderMasker(tx.sender));
      hide Hello, SenderMasker, Masked, OnStream;
    } else {
      assert tx.pending[..0] == [] && wire + [] == wire && tx.pending[0..] == tx.pending;
    }
  }

  lemma NothingMasked(g: Generator, m: Masker)
    requires UsableMask(m)
    ensures Masked(g, m, []) == []
  {
  }

  lemma HelloMoves(hello: seq<byte>, left: nat, n: nat)
    requires n <= left <= |hello|
    ensures var k := |hello| - left;
            && hello[..k] + hello[k..][..n] == hello[..k + n]
            && hello[k..][n..] == hello[k + n..]
  {
  }

  /** The first n bytes handed over are the payload masked at its position in the stream. */
  lemma WireIsMasked(g: Generator, m: Masker, s: Side, pos: nat, data: seq<byte>, n: nat)
    requires UsableMask(m) && SideOk(g, m, s, pos) && n <= |data|
    ensures WireOf(g, m, s, data)[..n] == Xor(data[..n], Mask(g, m, pos + n)[pos..])
  {
    var rest := Mask(g, m, pos + n)[pos..];
    if m.StreamMask? {
      GrowKeepsStream(g, m.sk, s, pos, |data|);
      var grown := Grow(g, m.sk, s, |data|);
      BufferIsStream(g, m.sk, grown, pos, n);
      assert rest[..n] == rest;
      XorPrefix(data, n, rest, grown.buf);
    } else {
      XorPrefix(data, n, rest, Repeat(m.b, |data|));
    }
  }

  lemma WriteExtendsBy(g: Generator, m: Masker, s: Side, plain: seq<byte>, data: seq<byte>, n: nat)
    requires UsableMask(m) && SideOk(g, m, s, |plain|) && n <= |data|
    ensures Masked(g, m, plain) + WireOf(g, m, s, data)[..n] == Masked(g, m, plain + data[..n])
  {
    WireIsMasked(g, m, s, |plain|, data, n);
    var d := data[..n];
    hide Masked, Xor, Mask, WireOf, OnStream, Grow;
    assert |d| == n;
    MaskedExtend(g, m, plain, d);
  }

  lemma WriteKeepsSide(g: Generator, m: Masker, s: Side, pos: nat, data: seq<byte>, r: int)
    requires UsableMask(m) && SideOk(g, m, s, pos) && r <= |data|
    ensures SideOk(g, m, SideAfterWrite(g, m, s, data, r), pos + |Sent(data, r)|)
  {
    if m.StreamMask? {
      GrowKeepsStream(g, m.sk, s, pos, |data|);
      if r > 0 {
        BufferIsStream(g, m.sk, Grow(g, m.sk, s, |data|), pos, r);
      }
    }
  }

  /** Writing at position |plain| appends exactly the masked accepted payload to the masked stream. */
  lemma WriteExtends(g: Generator, m: Masker, s: Side, plain: seq<byte>, data: seq<byte>, r: int)
    requires UsableMask(m) && SideOk(g, m, s, |plain|) && r <= |data|
    ensures Masked(g, m, plain) + Sent(WireOf(g, m, s, data), r) == Masked(g, m, plain + Sent(data, r))
    ensures SideOk(g, m, SideAfterWrite(g, m, s, data, r), |plain + Sent(data, r)|)
  {
    WriteKeepsSide(g, m, s, |plain|, data, r);
    hide Masked, WireOf, SideAfterWrite, SideOk;
    if r > 0 {
      WriteExtendsBy(g, m, s, plain, data, r);
    } else {
      assert plain + [] == plain;
    }
  }

  /** Any accepted length keeps the sending half on its keystream: what went out is the masked payload. */
  lemma TxWriteInv(g: Generator, tx: Tx, wire: seq<byte>, data: seq<byte>, r: int)
    requires TxInv(g, tx, wire) && tx.pending == [] && r <= |data|
    ensures TxInv(g, TxWrite(g, tx, data, r),
                  wire + Sent(WireOf(g, SenderMasker(tx.sender), tx.side, data), r))
  {
    var m := SenderMasker(tx.sender);
    var hello := Hello(g, tx.sender);
    WriteExtends(g, m, tx.side, tx.accepted, data, r);
    ConcatAssoc(hello[..|hello|], Masked(g, m, tx.accepted), Sent(WireOf(g, m, tx.side, data), r));
  }

  /** Up to the limit of a stalled side, what is handed over is masked at its position. */
  lemma WireWithin(g: Generator, sk: StreamKey, s: Side, pos: nat, data: seq<byte>, n: nat, limit: nat)
    requires sk.size > 0 && OnStreamUntil(g, sk, s, pos, limit) && n <= |data| && pos + n <= limit
    ensures WireOf(g, StreamMask(sk), s, data)[..n] == Xor(data[..n], Mask(g, StreamMask(sk), pos + n)[pos..])
    ensures OnStreamUntil(g, sk, Grow(g, sk, s, |data|), pos, limit)
    ensures OnStreamUntil(g, sk, Use(Grow(g, sk, s, |data|), n), pos + n, limit)
  {
    var grown, rest := Grow(g, sk, s, |data|), Mask(g, StreamMask(sk), pos + n)[pos..];
    GrowAppends(g, sk, s, |data|);
    GrowBound(g, sk, s, |data|);
    hide OnStreamUntil, Stream, Grow;
    UntilAppend(g, sk, s, grown, pos, limit);
    UntilUse(g, sk, grown, pos, n, limit);
    assert rest[..n] == rest;
    XorPrefix(data, n, rest, grown.buf);
  }

  /** Once a block was skipped, a write within what the buffer is still right for goes out masked as before. */
  lemma WriteWithin(g: Generator, sk: StreamKey, s: Side, plain: seq<byte>, data: seq<byte>, r: int, limit: nat)
    requires sk.size > 0 && OnStreamUntil(g, sk, s, |plain|, limit)
    requires r <= |data| && |plain| + |Sent(data, r)| <= limit
    ensures var m := StreamMask(sk);
            && Masked(g, m, plain) + Sent(WireOf(g, m, s, data), r) == Masked(g, m, plain + Sent(data, r))
            && OnStreamUntil(g, sk, SideAfterWrite(g, m, s, data, r), |plain + Sent(data, r)|, limit)
  {
    var m, n := StreamMask(sk), if r > 0 then r else 0;
    hide OnStreamUntil, Mask, Xor, Grow, Masked, WireOf;
    WireWithin(g, sk, s, |plain|, data, n, limit);
    if r > 0 {
      MaskedExtend(g, m, plain, data[..r]);
    } else {
      assert plain + [] == plain;
      assert Masked(g, m, plain) + [] == Masked(g, m, plain);
    }
  }

  /** Whatever the keystream, a write only adds as many bytes as were accepted. */
  lemma WriteKeepsHello(g: Generator, tx: Tx, wire: seq<byte>, data: seq<byte>, r: int)
    requires HelloSent(g, tx, wire) && tx.pending == [] && r <= |data|
    ensures HelloSent(g, TxWrite(g, tx, data, r), wire + Sent(WireOf(g, SenderMasker(tx.sender), tx.side, data), r))
  {
    var hello := Hello(g, tx.sender);
    var out := Sent(WireOf(g, SenderMasker(tx.sender), tx.side, data), r);
    assert (wire + out)[..|hello|] == wire[..|hello|];
  }

  // ----- receiving half -----

  datatype Receiver =
    | XorReceiver(mask: byte)
    | AesReceiver(phase1Key: seq<byte>, size: nat)

  predicate ValidReceiver(c: Receiver) {
    c.AesReceiver? ==> c.size > 0
  }

  function HelloSize(c: Receiver): nat {
    if c.AesReceiver? then HANDSHAKE_IV_SIZE + HEADER_SIZE else 0
  }

  /** `got` is the hello received so far; `header` is meaningful once it is complete. */
  datatype Rx = Rx(receiver: Receiver, got: seq<byte>, header: Header, refused: bool, side: Side, delivered: seq<byte>)

  function NewRx(c: Receiver): Rx {
    Rx(c, [], seq(112, _ => 0), false, Side(0, []), [])
  }

  predicate Complete(rx: Rx) {
    |rx.got| == HelloSize(rx.receiver)
  }

  /** The receiving half has finished its handshake (at once, for a layer that has none). */
  predicate Ready(rx: Rx) {
    Complete(rx) && !rx.refused
  }

  function RxMasker(rx: Rx): Masker {
    match rx.receiver
    case XorReceiver(b) => ConstMask(b)
    case AesReceiver(_, size) => AesMasker(size, rx.header)
  }

  function HeaderOf(g: Generator, key: seq<byte>, size: nat, hello: seq<byte>): Header
    requires |hello| == HANDSHAKE_IV_SIZE + HEADER_SIZE
  {
    Phase1(g, key, size, hello[..HANDSHAKE_IV_SIZE], hello[HANDSHAKE_IV_SIZE..])
  }

  /** `consumed` is everything this half has taken off the wire: the hello so far, and what the delivered
      bytes were before they were unmasked. */
  ghost predicate RxTaken(g: Generator, rx: Rx, consumed: seq<byte>) {
    && ValidReceiver(rx.receiver)
    && |rx.got| <= HelloSize(rx.receiver)
    && (rx.receiver.AesReceiver? && Complete(rx) ==>
          rx.header == HeaderOf(g, rx.receiver.phase1Key, rx.receiver.size, rx.got))
    && (rx.refused <==> rx.receiver.AesReceiver? && Complete(rx) && Magic(rx.header) != MAGIC)
    && (rx.delivered != [] ==> Ready(rx))
    && consumed == rx.got + Masked(g, RxMasker(rx), rx.delivered)
  }

  /** And its keystream buffer is in step, with less than one block left. */
  ghost predicate RxInv(g: Generator, rx: Rx, consumed: seq<byte>) {
    && RxTaken(g, rx, consumed)
    && (Ready(rx) ==> SideOk(g, RxMasker(rx), rx.side, |rx.delivered|))
    && (Ready(rx) && rx.receiver.AesReceiver? ==> |rx.side.buf| < rx.receiver.size)
  }

  /** A stretch of the handshake's readFull; the last one decrypts and checks the header. */
  function RxHello(g: Generator, rx: Rx, bytes: seq<byte>): Rx
    requires rx.receiver.AesReceiver? && |rx.got| + |bytes| <= HelloSize(rx.receiver)
  {
    var got := rx.got + bytes;
    if |got| < HelloSize(rx.receiver) then
      rx.(got := got)
    else
      var h := HeaderOf(g, rx.receiver.phase1Key, rx.receiver.size, got);
      rx.(got := got, header := h, refused := Magic(h) != MAGIC, side := Side(0, []))
  }

  /** partialRead when the transport delivered `cipher` (non-empty). */
  function RxRead(g: Generator, rx: Rx, cipher: seq<byte>): Rx
    requires UsableMask(RxMasker(rx))
  {
    var m := RxMasker(rx);
    rx.(side := if m.StreamMask? then SideAfterRead(g, m.sk, rx.side, |cipher|) else rx.side,
        delivered := rx.delivered + WireOf(g, m, rx.side, cipher))
  }

  function SideAfterRead(g: Generator, sk: StreamKey, s: Side, n: nat): Side
    requires sk.size > 0
  {
    Use(Grow(g, sk, s, n), n)
  }

  lemma NewRxInv(g: Generator, c: Receiver)
    requires ValidReceiver(c)
    ensures RxInv(g, NewRx(c), [])
  {
    assert Masked(g, RxMasker(NewRx(c)), []) == [];
  }

  lemma RxHelloInv(g: Generator, rx: Rx, consumed: seq<byte>, bytes: seq<byte>)
    requires RxInv(g, rx, consumed) && rx.receiver.AesReceiver? && !Complete(rx)
    requires |rx.got| + |bytes| <= HelloSize(rx.receiver)
    ensures RxInv(g, RxHello(g, rx, bytes), consumed + bytes)
  {
    var next := RxHello(g, rx, bytes);
    assert rx.delivered == [];
    assert Masked(g, RxMasker(rx), []) == [] && Masked(g, RxMasker(next), []) == [];
    assert Blocks(g, RxMasker(next).sk, 0)[0..] == [];
  }

  lemma ReadExtends(g: Generator, m: Masker, s: Side, plain: seq<byte>, cipher: seq<byte>)
    requires UsableMask(m) && SideOk(g, m, s, |plain|)
    ensures Masked(g, m, plain) + cipher == Masked(g, m, plain + WireOf(g, m, s, cipher))
  {
    WholeWire(g, m, s, |plain|, cipher);
    hide Masked, Xor, Mask, WireOf, SideOk;
    var w := WireOf(g, m, s, cipher);
    XorTwice(cipher, Mask(g, m, |plain| + |w|)[|plain|..]);
    MaskedExtend(g, m, plain, w);
  }

  lemma WholeWire(g: Generator, m: Masker, s: Side, pos: nat, data: seq<byte>)
    requires UsableMask(m) && SideOk(g, m, s, pos)
    ensures WireOf(g, m, s, data) == Xor(data, Mask(g, m, pos + |data|)[pos..])
  {
    WireIsMasked(g, m, s, pos, data, |data|);
    hide Xor, Mask, WireOf, SideOk;
    var w := WireOf(g, m, s, data);
    assert data[..|data|] == data && w[..|data|] == w;
  }

  lemma ReadKeepsSide(g: Generator, sk: StreamKey, s: Side, pos: nat, n: nat)
    requires sk.size > 0 && OnStream(g, sk, s, pos)
    ensures OnStream(g, sk, SideAfterRead(g, sk, s, n), pos + n)
    ensures |s.buf| < sk.size ==> |SideAfterRead(g, sk, s, n).buf| < sk.size
  {
    GrowKeepsStream(g, sk, s, pos, n);
    BufferIsStream(g, sk, Grow(g, sk, s, n), pos, n);
  }

  /** Reads of any length keep the receiving half on its keystream, and its buffer under one block. */
  lemma RxReadInv(g: Generator, rx: Rx, consumed: seq<byte>, cipher: seq<byte>)
    requires RxInv(g, rx, consumed) && Ready(rx)
    ensures RxInv(g, RxRead(g, rx, cipher), consumed + cipher)
  {
    var m := RxMasker(rx);
    ReadExtends(g, m, rx.side, rx.delivered, cipher);
    if m.StreamMask? {
      ReadKeepsSide(g, m.sk, rx.side, |rx.delivered|, |cipher|);
    }
    hide Masked, WireOf, SideAfterRead, OnStream;
    ConcatAssoc(rx.got, Masked(g, m, rx.delivered), cipher);
  }

  // ----- the two halves together -----

  /** Both ends configured alike: the same XOR byte, or the same phase-1 key and block size. */
  predicate Matching(s: Sender, c: Receiver) {
    match s
    case XorSender(b) => c == XorReceiver(b)
    case AesSender(key, size, _, _) => c == AesReceiver(key, size)
  }

  /** What a receiving half that has taken `k` bytes off `wire` can rely on. */
  ghost predicate StreamsAgree(g: Generator, tx: Tx, wire: seq<byte>, rx: Rx, k: nat) {
    && k <= |wire|
    // the magic check never fails, and the header read is the header the peer wrote
    && !rx.refused
    && (Complete(rx) && tx.sender.AesSender? ==> rx.header == tx.sender.header)
    // delivered plaintext is a prefix of accepted plaintext
    && rx.delivered <= tx.accepted
    // and what is still on the wire unmasks to exactly the remainder
    && (Ready(rx) && tx.pending == [] ==>
          && UsableMask(RxMasker(rx))
          && |wire| - k == |tx.accepted| - |rx.delivered|
          && Xor(wire[k..], Mask(g, RxMasker(rx), |tx.accepted|)[|rx.delivered|..]) == tx.accepted[|rx.delivered|..])
  }

  /** And the read-side keystream buffer stays under one block between calls. */
  ghost predicate Agreement(g: Generator, tx: Tx, wire: seq<byte>, rx: Rx, k: nat) {
    && StreamsAgree(g, tx, wire, rx, k)
    && (Ready(rx) && rx.receiver.AesReceiver? ==> |rx.side.buf| < rx.receiver.size)
  }

  /** Two matching halves agree whenever what one has taken is a prefix of what the other has sent. */
  lemma HalvesAgree(g: Generator, tx: Tx, wire: seq<byte>, rx: Rx, consumed: seq<byte>)
    requires TxSent(g, tx, wire) && RxTaken(g, rx, consumed) && Matching(tx.sender, rx.receiver)
    requires consumed <= wire
    ensures StreamsAgree(g, tx, wire, rx, |consumed|)
  {
    var m := SenderMasker(tx.sender);
    var hello := Hello(g, tx.sender);
    assert |hello| == HelloSize(rx.receiver);
    if Complete(rx) {
      CompleteHelloAgrees(g, tx, wire, rx, consumed);
      assert RxMasker(rx) == m;
      assert wire[|hello|..] == Masked(g, m, tx.accepted);
      assert consumed[|hello|..] == Masked(g, m, rx.delivered);
      assert consumed[|hello|..] <= wire[|hello|..];
      UnmaskPrefix(g, m, tx.accepted, rx.delivered);
      InFlight(g, m, tx.accepted, |rx.delivered|);
      assert wire[|consumed|..] == wire[|hello|..][|rx.delivered|..];
    }
  }

  lemma CompleteHelloAgrees(g: Generator, tx: Tx, wire: seq<byte>, rx: Rx, consumed: seq<byte>)
    requires HelloSent(g, tx, wire) && RxTaken(g, rx, consumed) && Matching(tx.sender, rx.receiver)
    requires consumed <= wire && Complete(rx)
    ensures rx.got == Hello(g, tx.sender) && tx.pending == []
    ensures !rx.refused
    ensures tx.sender.AesSender? ==> rx.header == tx.sender.header
  {
    var hello := Hello(g, tx.sender);
    HelloLength(g, tx.sender);
    if tx.sender.AesSender? {
      HeaderOfHello(g, tx.sender);
    }
    hide Hello, HeaderOf, Masked, Phase1;
    assert |rx.got| == |hello| <= |wire|;
    assert rx.got == consumed[..|hello|] == wire[..|hello|];
    assert tx.pending == [];
    assert wire[..|hello|] == hello;
  }

  lemma HelloLength(g: Generator, s: Sender)
    requires ValidSender(s)
    ensures |Hello(g, s)| == if s.AesSender? then HANDSHAKE_IV_SIZE + HEADER_SIZE else 0
  {
  }

  /** The receiving half decrypts the header that was sent. */
  lemma HeaderOfHello(g: Generator, s: Sender)
    requires s.AesSender? && |s.iv| == HANDSHAKE_IV_SIZE
    ensures |Hello(g, s)| == HANDSHAKE_IV_SIZE + HEADER_SIZE
    ensures HeaderOf(g, s.phase1Key, s.size, Hello(g, s)) == s.header
  {
    var hello := Hello(g, s);
    assert hello[..HANDSHAKE_IV_SIZE] == s.iv;
    assert hello[HANDSHAKE_IV_SIZE..] == Phase1(g, s.phase1Key, s.size, s.iv, s.header);
    Phase1Twice(g, s.phase1Key, s.size, s.iv, s.header);
  }

  lemma InFlight(g: Generator, m: Masker, plain: seq<byte>, n: nat)
    requires UsableMask(m) && n <= |plain|
    ensures Xor(Masked(g, m, plain)[n..], Mask(g, m, |plain|)[n..]) == plain[n..]
  {
    XorTwice(plain, Mask(g, m, |plain|));
  }

  /** A receiving half that has taken everything has delivered everything. */
  lemma AllTakenIsAll(g: Generator, tx: Tx, wire: seq<byte>, rx: Rx)
    requires TxSent(g, tx, wire) && RxTaken(g, rx, wire) && Matching(tx.sender, rx.receiver)
    requires StreamsAgree(g, tx, wire, rx, |wire|) && tx.pending == []
    ensures rx.delivered == tx.accepted
  {
    var hello := Hello(g, tx.sender);
    assert |hello| == HelloSize(rx.receiver);
    assert |wire| == |hello| + |tx.accepted|;
    assert |wire| == |rx.got| + |rx.delivered|;
  }
}
