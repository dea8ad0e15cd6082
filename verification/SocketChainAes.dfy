/** Socket_Chain_AES as the source has it: two mutable SideParams, keystream blocks appended on
    demand, buffers XORed in place. Every method is tied to the value-level halves of LayerStream.
    The answers of the transport and the random bytes are parameters. */
module SocketChainAes {
  import opened Bytes
  import opened Keystream
  import opened LayerStream

  /** The loop of cryptoXOR. */
  method XorInPlace(data: array<byte>, mask: seq<byte>, n: nat)
    requires n <= data.Length && n <= |mask|
    modifies data
    ensures forall k :: 0 <= k < n ==> data[k] == old(data[k]) ^ mask[k]
    ensures forall k :: n <= k < data.Length ==> data[k] == old(data[k])
  {
    var i := 0;
    while i < n
      invariant 0 <= i <= n
      invariant forall k :: 0 <= k < i ==> data[k] == old(data[k]) ^ mask[k]
      invariant forall k :: i <= k < data.Length ==> data[k] == old(data[k])
    {
      data[i] := data[i] ^ mask[i];
      i := i + 1;
    }
  }

  lemma XorSplice(before: seq<byte>, after: seq<byte>, mask: seq<byte>, n: nat)
    requires n <= |before| == |after| && n <= |mask|
    requires forall k :: 0 <= k < n ==> after[k] == before[k] ^ mask[k]
    requires forall k :: n <= k < |before| ==> after[k] == before[k]
    ensures after == Xor(before[..n], mask) + before[n..]
  {
    var x := Xor(before[..n], mask);
    assert forall k :: 0 <= k < n ==> x[k] == before[k] ^ mask[k];
    assert after[..n] == x && after[n..] == before[n..];
    assert after == after[..n] + after[n..];
  }

  class SideParams {
    var handShakeIV: seq<byte>
    var currentIV: seq<byte>
    var engineSeed: Seed
    var draws: nat
    var handshake: Header
    var aesBlock: seq<byte>

    ghost function Value(): Side
      reads this
    {
      Side(draws, aesBlock)
    }

    /** The IV engines run from the handshake's seed. */
    ghost predicate Seeded()
      reads this
    {
      engineSeed == IVSeed(handshake)
    }

    constructor ()
      ensures aesBlock == [] && Magic(handshake) == MAGIC
    {
      handshake := MAGIC + seq(108, _ => 0);
      aesBlock := [];
      draws := 0;
      engineSeed := seq(16, _ => 0);
    }

    method CleanAESBlock(block: seq<byte>)
      modifies this`aesBlock
      ensures aesBlock == block
    {
      aesBlock := block;
    }

    method AppendAESBlock(block: seq<byte>)
      modifies this`aesBlock
      ensures aesBlock == old(aesBlock) + block
    {
      CleanAESBlock(aesBlock + block);
    }

    method Reduce(bytes: nat)
      modifies this`aesBlock
      ensures aesBlock == Drop(old(aesBlock), bytes)
    {
      if bytes >= |aesBlock| {
        CleanAESBlock([]);
      } else {
        CleanAESBlock(aesBlock[bytes..]);
      }
    }

    /** XORs the first n bytes of `data` in place with the buffered keystream, or refuses and touches nothing. */
    method CryptoXOR(data: array<byte>, n: nat, dontReduce: bool) returns (ok: bool)
      requires n <= data.Length
      modifies this`aesBlock, data
      ensures ok <==> n <= |old(aesBlock)|
      ensures data[..] == if ok then Xor(old(data[..n]), old(aesBlock)) + old(data[n..]) else old(data[..])
      ensures aesBlock == if ok && !dontReduce then Drop(old(aesBlock), n) else old(aesBlock)
    {
      if n > |aesBlock| {
        return false;
      }
      XorInPlace(data, aesBlock, n);
      XorSplice(old(data[..]), data[..], aesBlock, n);
      assert old(data[..])[..n] == old(data[..n]) && old(data[..])[n..] == old(data[n..]);
      hide Xor;
      if !dontReduce {
        Reduce(n);
      }
      ok := true;
    }

    /** Seeds both engines from the handshake's IVSeed and forgets any buffered keystream. */
    method Restart()
      modifies this
      ensures Value() == Side(0, []) && Seeded()
      ensures handshake == old(handshake) && handShakeIV == old(handShakeIV)
    {
      CleanAESBlock([]);
      engineSeed, draws := IVSeed(handshake), 0;
    }
  }

  class SocketChainAES {
    const g: Generator
    const blockSize: nat
    const phase1Key: seq<byte>
    const readParams: SideParams
    const writeParams: SideParams
    var initialized: bool

    ghost predicate Valid()
      reads this, readParams, writeParams
    {
      && readParams != writeParams
      && blockSize > 0
      && (initialized ==> readParams.Seeded() && writeParams.Seeded())
    }

    ghost function WriteMask(): Masker
      reads this, writeParams
    {
      AesMasker(blockSize, writeParams.handshake)
    }

    ghost function ReadMask(): Masker
      reads this, readParams
    {
      AesMasker(blockSize, readParams.handshake)
    }

    constructor (g: Generator, phase1Key: seq<byte>, blockSize: nat)
      requires blockSize > 0
      ensures Valid() && !initialized && fresh(readParams) && fresh(writeParams)
      ensures this.g == g && this.phase1Key == phase1Key && this.blockSize == blockSize
      ensures readParams.aesBlock == [] && writeParams.aesBlock == []
    {
      this.g, this.phase1Key, this.blockSize := g, phase1Key, blockSize;
      readParams := new SideParams();
      writeParams := new SideParams();
      initialized := false;
    }

    /** regenIV. */
    method RegenIV(p: SideParams)
      requires p.Seeded()
      modifies p`draws, p`currentIV
      ensures p.currentIV == IvAt(g, IVSeed(p.handshake), old(p.draws)) && p.draws == old(p.draws) + 1
    {
      p.currentIV := IvAt(g, p.engineSeed, p.draws);
      p.draws := p.draws + 1;
    }

    /** Enlarge the buffer until it covers n bytes; the cipher works for `works` blocks and then fails. */
    method Enlarge(p: SideParams, n: nat, works: nat) returns (ok: bool)
      requires p.Seeded() && blockSize > 0
      modifies p`draws, p`currentIV, p`aesBlock
      ensures ok ==> p.Value() == Grow(g, AesMasker(blockSize, p.handshake).sk, old(p.Value()), n)
      ensures ok ==> n <= |p.aesBlock|
      ensures !ok ==> p.Value() == Stalled(ExtendBy(g, AesMasker(blockSize, p.handshake).sk, old(p.Value()), works))
      ensures ok <==> |old(p.aesBlock)| + works * blockSize >= n
    {
      ghost var sk := AesMasker(blockSize, p.handshake).sk;
      var left: nat := works;
      while |p.aesBlock| < n
        invariant p.Seeded() && |p.aesBlock| + left * blockSize == |old(p.aesBlock)| + works * blockSize
        invariant Grow(g, sk, p.Value(), n) == Grow(g, sk, old(p.Value()), n)
        invariant ExtendBy(g, sk, p.Value(), left) == ExtendBy(g, sk, old(p.Value()), works)
        decreases n - |p.aesBlock|
      {
        ghost var before := p.Value();
        RegenIV(p);
        if left == 0 {
          return false;
        }
        p.AppendAESBlock(Block(g, Phase2Key(p.handshake), p.currentIV, blockSize));
        assert p.Value() == Extend(g, sk, before);
        assert left * blockSize == (left - 1) * blockSize + blockSize;
        left := left - 1;
      }
      return true;
    }

    /** `data` already holds the r bytes the transport delivered (nothing when r <= 0); the cipher works
        for `works` blocks. A failing cipher reports 0 and leaves the ciphertext in the buffer. */
    method PartialRead(data: array<byte>, r: int, works: nat) returns (ret: int)
      requires Valid() && r <= data.Length
      modifies data, readParams
      ensures Valid() && readParams.handshake == old(readParams.handshake)
      ensures !initialized || r <= 0 ==>
                ret == r && data[..] == old(data[..]) && readParams.Value() == old(readParams.Value())
      ensures initialized && r > 0 && ret == r ==>
                && data[..r] == WireOf(g, ReadMask(), old(readParams.Value()), old(data[..r]))
                && data[r..] == old(data[r..])
                && readParams.Value() == SideAfterRead(g, ReadMask().sk, old(readParams.Value()), r)
      ensures ret != r ==>
                && ret == 0 && data[..] == old(data[..])
                && readParams.Value() == Stalled(ExtendBy(g, ReadMask().sk, old(readParams.Value()), works))
      ensures initialized && r > 0 ==> (ret == r <==> |old(readParams.aesBlock)| + works * blockSize >= r)
    {
      if !initialized || r <= 0 {
        return r;
      }
      var ok := Enlarge(readParams, r, works);
      if !ok {
        return 0;
      }
      var _ := readParams.CryptoXOR(data, r, false);
      ret := r;
    }

    /** Offers `data` to the transport, which answers r; `wire` is what left this endpoint. A failing
        cipher (after `works` blocks) reports 0 and sends nothing. */
    method PartialWrite(data: seq<byte>, r: int, works: nat) returns (ret: int, wire: seq<byte>)
      requires Valid() && r <= |data|
      modifies writeParams
      ensures Valid() && writeParams.handshake == old(writeParams.handshake)
      ensures !initialized ==> ret == r && wire == Sent(data, r) && writeParams.Value() == old(writeParams.Value())
      ensures initialized ==>
                if |old(writeParams.aesBlock)| + works * blockSize >= |data| then
                  && ret == r
                  && wire == Sent(WireOf(g, WriteMask(), old(writeParams.Value()), data), r)
                  && writeParams.Value() == SideAfterWrite(g, WriteMask(), old(writeParams.Value()), data, r)
                else
                  && ret == 0 && wire == []
                  && writeParams.Value() == Stalled(ExtendBy(g, WriteMask().sk, old(writeParams.Value()), works))
    {
      if !initialized {
        return r, Sent(data, r);
      }
      var edata := new byte[|data|](i requires 0 <= i < |data| => data[i]);
      assert edata[..] == data && edata[..|data|] == data;
      var ok := Enlarge(writeParams, |data|, works);
      if !ok {
        return 0, [];
      }
      var _ := writeParams.CryptoXOR(edata, |data|, true);
      assert edata[..] == WireOf(g, WriteMask(), old(writeParams.Value()), data);
      wire := Sent(edata[..], r);
      if r > 0 {
        writeParams.Reduce(r);
      }
      ret := r;
    }

    /** The sender this endpoint becomes once its random bytes are chosen. */
    ghost function SenderWith(iv: seq<byte>, seed: Seed, key: seq<byte>): Sender
      requires |key| == 32
      reads this
    {
      AesSender(phase1Key, blockSize, iv, FreshHeader(seed, key))
    }

    /** What p's buffer holds once a phase-1 block has been appended to it. */
    ghost function Phase1Buffer(p: SideParams, iv: seq<byte>): seq<byte>
      reads this, p
    {
      p.aesBlock + Block(g, phase1Key, iv, blockSize)
    }

    /** Runs one header through p's buffer after appending a phase-1 block to it. */
    method Phase1Load(p: SideParams, iv: seq<byte>, h: Header) returns (out: Header)
      modifies p`aesBlock
      ensures out == HeaderThrough(old(Phase1Buffer(p, iv)), h)
    {
      var load := new byte[HEADER_SIZE](i requires 0 <= i < HEADER_SIZE => h[i]);
      assert load[..] == load[..HEADER_SIZE] == h;
      p.AppendAESBlock(Block(g, phase1Key, iv, blockSize));
      var _ := p.CryptoXOR(load, HEADER_SIZE, false);
      out := load[..];
    }

    /** The transmission section of the handshake, cut off after `room` bytes; `works` says whether the cipher
        yields the phase-1 block. Keystream left over from an earlier attempt is used first. */
    method Transmit(iv: seq<byte>, seed: Seed, key: seq<byte>, room: nat, works: bool)
      returns (ok: bool, wire: seq<byte>)
      requires |iv| == HANDSHAKE_IV_SIZE && |key| == 32
      modifies writeParams
      ensures ok <==> works && room >= HANDSHAKE_IV_SIZE + HEADER_SIZE
      ensures wire == Leading(if works then iv + HeaderThrough(old(Phase1Buffer(writeParams, iv)), FreshHeader(seed, key))
                              else iv, room)
      ensures ok ==> writeParams.handshake == FreshHeader(seed, key)
                     && writeParams.Value() == Side(0, []) && writeParams.Seeded()
    {
      writeParams.handShakeIV := iv;
      if room < HANDSHAKE_IV_SIZE {
        return false, iv[..room];
      }
      if !works {
        return false, iv;
      }
      writeParams.handshake := FreshHeader(seed, key);
      var load := Phase1Load(writeParams, iv, writeParams.handshake);
      if room < HANDSHAKE_IV_SIZE + HEADER_SIZE {
        return false, (iv + load)[..room];
      }
      writeParams.Restart();
      return true, iv + load;
    }

    /** The header that 128 received bytes decrypt to. */
    ghost function Received(incoming: seq<byte>): Header
      requires |incoming| >= 128
      reads this, readParams
    {
      HeaderThrough(Phase1Buffer(readParams, incoming[..16]), incoming[16..128])
    }

    /** The reception section: reads 16 and then 112 bytes and checks what they decrypt to. */
    method Receive(incoming: seq<byte>, works: bool) returns (ok: bool)
      modifies readParams
      ensures ok <==> |incoming| >= 128 && works && Magic(old(Received(incoming))) == MAGIC
      ensures ok ==> readParams.handshake == old(Received(incoming))
                     && readParams.Value() == Side(0, []) && readParams.Seeded()
    {
      if |incoming| < HANDSHAKE_IV_SIZE + HEADER_SIZE {
        return false;
      }
      readParams.handShakeIV := incoming[..HANDSHAKE_IV_SIZE];
      var load := incoming[HANDSHAKE_IV_SIZE..128];
      if !works {
        return false;
      }
      load := Phase1Load(readParams, readParams.handShakeIV, load);
      readParams.handshake := load;
      if Magic(readParams.handshake) != MAGIC {
        return false;
      }
      readParams.Restart();
      return true;
    }

    /** postAcceptSubInitialization: the transport takes `room` bytes in all before failing and delivers
        `incoming` before closing; the cipher yields the phase-1 block of each section when `sends` and
        `receives` say so. */
    method PostAcceptSubInitialization(iv: seq<byte>, seed: Seed, key: seq<byte>, room: nat, incoming: seq<byte>,
                                       sends: bool, receives: bool)
      returns (ok: bool, wire: seq<byte>)
      requires Valid() && !initialized && |iv| == HANDSHAKE_IV_SIZE && |key| == 32
      modifies this`initialized, readParams, writeParams
      ensures Valid() && initialized == ok
      ensures wire == Leading(if sends then iv + HeaderThrough(old(Phase1Buffer(writeParams, iv)), FreshHeader(seed, key))
                              else iv, room)
      ensures ok <==> && sends && room >= 128
                      && receives && |incoming| >= 128 && Magic(old(Received(incoming))) == MAGIC
      ensures ok ==>
                && writeParams.handshake == FreshHeader(seed, key) && writeParams.Value() == Side(0, [])
                && readParams.handshake == old(Received(incoming)) && readParams.Value() == Side(0, [])
      // a first attempt sends the hello of the sending half and reads the header as the receiving half does
      ensures old(writeParams.aesBlock) == [] && sends ==> wire == Leading(Hello(g, SenderWith(iv, seed, key)), room)
      ensures old(readParams.aesBlock) == [] && |incoming| >= 128 ==>
                old(Received(incoming)) == HeaderOf(g, phase1Key, blockSize, incoming[..128])
    {
      assert writeParams.aesBlock == [] ==> Phase1Buffer(writeParams, iv) == Block(g, phase1Key, iv, blockSize);
      if readParams.aesBlock == [] && |incoming| >= 128 {
        var first := incoming[..128];
        assert first[..16] == incoming[..16] && first[16..] == incoming[16..128];
        assert Phase1Buffer(readParams, incoming[..16]) == Block(g, phase1Key, incoming[..16], blockSize);
      }
      hide Block, HeaderThrough;
      ok, wire := Transmit(iv, seed, key, room, sends);
      if ok {
        ok := Receive(incoming, receives);
        initialized := ok;
      }
    }
  }

  /** A HandShakeHeader as its constructor and genRandomBytes leave it. */
  function FreshHeader(seed: Seed, key: seq<byte>): (h: Header)
    requires |key| == 32
    ensures Magic(h) == MAGIC && IVSeed(h) == seed && Phase2Key(h) == key
  {
    MAGIC + seed + key + seq(60, _ => 0)
  }
}
