/** The AES layer byte by byte: what it puts on the wire in terms of key, IV engines and cipher alone, and why
    two endpoints with different phase-1 keys do not come together. */
module AesBytes {
  import opened Bytes
  import opened Keystream
  import opened LayerStream
  import opened SocketChainAes

  // ----- payload -----

  lemma {:induction false} BlocksByte(g: Generator, sk: StreamKey, k: nat, j: nat, i: nat)
    requires j < k && i < sk.size
    ensures 0 <= j * sk.size + i < k * sk.size
    ensures Blocks(g, sk, k)[j * sk.size + i] == NthBlock(g, sk, j)[i]
  {
    assert k * sk.size == (k - 1) * sk.size + sk.size;
    if j < k - 1 {
      BlocksByte(g, sk, k - 1, j, i);
    }
  }

  /** Byte p of the keystream is the byte at p modulo the block size of the block that the cipher makes of the
      key and of the draws, number p over the block size, of the two engines. */
  lemma StreamByte(g: Generator, sk: StreamKey, n: nat, p: nat)
    requires sk.size > 0 && p < n
    ensures Stream(g, sk, n)[p]
            == g.cipherByte(sk.key, g.draw(sk.seed[..8], p / sk.size) + g.draw(sk.seed[8..], p / sk.size),
                            sk.size, p % sk.size)
  {
    var j, i := p / sk.size, p % sk.size;
    assert p == j * sk.size + i;
    BlocksCover(j, sk.size);
    BlocksByte(g, sk, n, j, i);
  }

  /** The cipher byte for position p, from the fields of a header: the key at 20..52, the seeds at 4..12 and 12..20. */
  function CipherAt(g: Generator, h: Header, size: nat, p: nat): byte
    requires size > 0
  {
    g.cipherByte(h[20..52], g.draw(h[4..12], p / size) + g.draw(h[12..20], p / size), size, p % size)
  }

  /** What an initialized endpoint with these header fields hands to its transport at position p. */
  lemma WireByte(g: Generator, size: nat, h: Header, s: Side, pos: nat, data: seq<byte>, i: nat)
    requires size > 0 && OnStream(g, StreamKey(Phase2Key(h), IVSeed(h), size), s, pos) && i < |data|
    ensures WireOf(g, AesMasker(size, h), s, data)[i] == data[i] ^ CipherAt(g, h, size, pos + i)
  {
    var m := AesMasker(size, h);
    assert IVSeed(h)[..8] == h[4..12] && IVSeed(h)[8..] == h[12..20];
    StreamByte(g, m.sk, pos + |data|, pos + i);
    WholeWire(g, m, s, pos, data);
    hide Stream, OnStream, WireOf;
  }

  /** And so the whole stream: byte i behind the hello is payload byte i under the byte of the cipher that belongs
      to its position. */
  lemma PayloadByte(g: Generator, tx: Tx, wire: seq<byte>, i: nat)
    requires tx.sender.AesSender? && tx.sender.size > 0 && tx.pending == []
    requires i < |tx.accepted| && |wire| == 128 + |tx.accepted|
    requires TxSent(g, tx, wire)
    ensures wire[128 + i] == tx.accepted[i] ^ CipherAt(g, tx.sender.header, tx.sender.size, i)
  {
    var m := SenderMasker(tx.sender);
    var h := tx.sender.header;
    assert IVSeed(h)[..8] == h[4..12] && IVSeed(h)[8..] == h[12..20];
    StreamByte(g, m.sk, |tx.accepted|, i);
    assert wire[128..][i] == Masked(g, m, tx.accepted)[i];
  }

  // ----- handshake -----

  /** A header as the sender fills it in: the letters IHDR, 16 bytes of seed, 32 of key, and zeros. */
  lemma HeaderLayout(seed: Seed, key: seq<byte>, i: nat)
    requires |key| == 32 && i < 112
    ensures |FreshHeader(seed, key)| == 112
    ensures FreshHeader(seed, key)[i]
            == if i < 4 then ("IHDR"[i] as int) as byte
               else if i < 20 then seed[i - 4]
               else if i < 52 then key[i - 20]
               else 0
  {
  }

  /** The first 128 bytes of a stream: the IV as it is, and the header under the phase-1 block, or as it is when
      the block is too short for it. */
  lemma HelloByte(g: Generator, s: Sender, i: nat)
    requires s.AesSender? && |s.iv| == HANDSHAKE_IV_SIZE && i < 128
    ensures |Hello(g, s)| == 128
    ensures Hello(g, s)[i]
            == if i < 16 then s.iv[i]
               else if s.size < 112 then s.header[i - 16]
               else s.header[i - 16] ^ g.cipherByte(s.phase1Key, s.iv, s.size, i - 16)
  {
  }

  /** The header a receiver makes of 128 bytes. */
  lemma HeaderByte(g: Generator, key: seq<byte>, size: nat, hello: seq<byte>, i: nat)
    requires |hello| == 128 && i < 112
    ensures HeaderOf(g, key, size, hello)[i]
            == if size < 112 then hello[16 + i]
               else hello[16 + i] ^ g.cipherByte(key, hello[..16], size, i)
  {
  }

  /** A cipher that gives itself away: ones under this key, zeros under any other. */
  function Betrays(key: seq<byte>): Generator {
    Generator((k: seq<byte>, _, _, _) => if k == key then 1 else 0, (_, _) => seq(8, _ => 0))
  }

  /** The magic check of a receiver with phase-1 key `theirs`, on the hello of a sender with key `ours`. */
  predicate Passes(g: Generator, ours: seq<byte>, theirs: seq<byte>, size: nat, iv: seq<byte>, h: Header)
    requires |iv| == HANDSHAKE_IV_SIZE
  {
    Magic(HeaderOf(g, theirs, size, Hello(g, AesSender(ours, size, iv, h)))) == MAGIC
  }

  /** A hello passes the peer's magic check under every cipher exactly when both hold the same phase-1 key, or
      when their blocks are too short to mask a header at all. */
  lemma PassesIff(ours: seq<byte>, theirs: seq<byte>, size: nat, iv: seq<byte>, h: Header)
    requires |iv| == HANDSHAKE_IV_SIZE && Magic(h) == MAGIC
    ensures (forall g :: Passes(g, ours, theirs, size, iv, h)) <==> ours == theirs || size < 112
  {
    if ours == theirs || size < 112 {
      forall g
        ensures Passes(g, ours, theirs, size, iv, h)
      {
        HeaderOfHello(g, AesSender(ours, size, iv, h));
      }
    } else {
      WrongKeyRefused(ours, theirs, size, iv, h);
    }
  }

  lemma WrongKeyRefused(ours: seq<byte>, theirs: seq<byte>, size: nat, iv: seq<byte>, h: Header)
    requires |iv| == HANDSHAKE_IV_SIZE && Magic(h) == MAGIC && ours != theirs && size >= 112
    ensures !Passes(Betrays(ours), ours, theirs, size, iv, h)
  {
    var g := Betrays(ours);
    var hello := Hello(g, AesSender(ours, size, iv, h));
    HelloByte(g, AesSender(ours, size, iv, h), 16);
    HeaderByte(g, theirs, size, hello, 0);
    var out := HeaderOf(g, theirs, size, hello);
    assert h[0] == Magic(h)[0] == MAGIC[0];
    assert Magic(out)[0] == out[0];
  }
}
