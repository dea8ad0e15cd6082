/** The keystream of Socket_Chain_AES: regenerated IVs, cipher blocks, and the per-side
    buffer of unused keystream bytes, first as values and then as the mutable SideParams. */
module Keystream {
  import opened Bytes

  const HEADER_SIZE := 112
  const HANDSHAKE_IV_SIZE := 16
  const MAGIC: seq<byte> := [0x49, 0x48, 0x44, 0x52]

  type Seed = s: seq<byte> | |s| == 16 witness seq(16, _ => 0)

  /** The packed HandShakeHeader: 4 magic bytes, a 16-byte IV seed, a 32-byte phase-2 key, 60 reserved bytes. */
  type Header = h: seq<byte> | |h| == HEADER_SIZE witness seq(112, _ => 0)

  function Magic(h: Header): seq<byte> { h[..4] }
  function IVSeed(h: Header): Seed { h[4..20] }
  function Phase2Key(h: Header): seq<byte> { h[20..52] }

  /** The eight bytes of one uint64_t. */
  type Draw = s: seq<byte> | |s| == 8 witness seq(8, _ => 0)

  /** The calls this model cannot see into: the cipher (key, IV, block size, index within the block)
      and the k-th draw of a Mersenne twister engine for a given 8-byte seed. */
  datatype Generator = Generator(
    cipherByte: (seq<byte>, seq<byte>, nat, nat) -> byte,
    draw: (seq<byte>, nat) -> Draw)

  /** What fixes one direction's keystream: the sender's key, IV seed and regeneration block size. */
  datatype StreamKey = StreamKey(key: seq<byte>, seed: Seed, size: nat)

  function IvAt(g: Generator, seed: Seed, k: nat): seq<byte> {
    g.draw(seed[..8], k) + g.draw(seed[8..], k)
  }

  function Block(g: Generator, key: seq<byte>, iv: seq<byte>, size: nat): (b: seq<byte>)
    ensures |b| == size
  {
    seq(size, i requires 0 <= i < size => g.cipherByte(key, iv, size, i))
  }

  function NthBlock(g: Generator, sk: StreamKey, k: nat): (b: seq<byte>)
    ensures |b| == sk.size
  {
    Block(g, sk.key, IvAt(g, sk.seed, k), sk.size)
  }

  /** The first k blocks, end to end. */
  ghost function Blocks(g: Generator, sk: StreamKey, k: nat): (b: seq<byte>)
    ensures |b| == k * sk.size
  {
    if k == 0 then [] else Blocks(g, sk, k - 1) + NthBlock(g, sk, k - 1)
  }

  lemma BlocksCover(k: nat, size: nat)
    requires size > 0
    ensures k <= k * size
  {
  }

  /** The first n bytes of the endless keystream, independent of how many blocks anybody has generated. */
  ghost function Stream(g: Generator, sk: StreamKey, n: nat): (s: seq<byte>)
    requires sk.size > 0
    ensures |s| == n
  {
    BlocksCover(n, sk.size);
    Blocks(g, sk, n)[..n]
  }

  lemma {:induction false} BlocksGrow(g: Generator, sk: StreamKey, j: nat, k: nat)
    requires j <= k
    ensures Blocks(g, sk, j) <= Blocks(g, sk, k)
  {
    if j < k {
      BlocksGrow(g, sk, j, k - 1);
    }
  }

  lemma StreamIsBlocks(g: Generator, sk: StreamKey, n: nat, k: nat)
    requires sk.size > 0 && n <= k * sk.size
    ensures Stream(g, sk, n) == Blocks(g, sk, k)[..n]
  {
    BlocksCover(n, sk.size);
    if n <= k {
      BlocksGrow(g, sk, n, k);
    } else {
      BlocksGrow(g, sk, k, n);
    }
  }

  lemma StreamGrows(g: Generator, sk: StreamKey, n: nat, m: nat)
    requires sk.size > 0 && n <= m
    ensures Stream(g, sk, n) <= Stream(g, sk, m)
  {
    BlocksCover(m, sk.size);
    StreamIsBlocks(g, sk, n, m);
  }

  // ----- one side's keystream buffer as a value -----

  /** `draws` IVs have been regenerated; `buf` holds the keystream bytes generated and not yet used. */
  datatype Side = Side(draws: nat, buf: seq<byte>)

  /** The buffer is the not yet used part of the keystream, `pos` bytes having been used. */
  ghost predicate OnStream(g: Generator, sk: StreamKey, s: Side, pos: nat) {
    pos <= s.draws * sk.size && s.buf == Blocks(g, sk, s.draws)[pos..]
  }

  function Extend(g: Generator, sk: StreamKey, s: Side): Side {
    Side(s.draws + 1, s.buf + NthBlock(g, sk, s.draws))
  }

  function Grow(g: Generator, sk: StreamKey, s: Side, n: nat): (r: Side)
    requires sk.size > 0
    decreases n - |s.buf|
  {
    if |s.buf| >= n then s else Grow(g, sk, Extend(g, sk, s), n)
  }

  function Drop(s: seq<byte>, n: nat): seq<byte> {
    if n >= |s| then [] else s[n..]
  }

  function Use(s: Side, n: nat): Side {
    Side(s.draws, Drop(s.buf, n))
  }

  lemma ExtendKeepsStream(g: Generator, sk: StreamKey, s: Side, pos: nat)
    requires OnStream(g, sk, s, pos)
    ensures OnStream(g, sk, Extend(g, sk, s), pos)
  {
    var e := Extend(g, sk, s);
    assert e.draws * sk.size == s.draws * sk.size + sk.size;
    assert Blocks(g, sk, e.draws) == Blocks(g, sk, s.draws) + NthBlock(g, sk, s.draws);
    hide Block, Blocks;
    assert e.buf == Blocks(g, sk, e.draws)[pos..];
  }

  lemma {:induction false} GrowKeepsStream(g: Generator, sk: StreamKey, s: Side, pos: nat, n: nat)
    requires sk.size > 0 && OnStream(g, sk, s, pos)
    ensures OnStream(g, sk, Grow(g, sk, s, n), pos)
    ensures n <= |Grow(g, sk, s, n).buf|
    ensures |s.buf| < sk.size ==> |Grow(g, sk, s, n).buf| < n + sk.size
    decreases n - |s.buf|
  {
    hide OnStream, Blocks, NthBlock;
    if |s.buf| < n {
      ExtendKeepsStream(g, sk, s, pos);
      GrowBound(g, sk, s, n);
      GrowKeepsStream(g, sk, Extend(g, sk, s), pos, n);
    }
  }

  lemma {:induction false} GrowBound(g: Generator, sk: StreamKey, s: Side, n: nat)
    requires sk.size > 0
    ensures n <= |Grow(g, sk, s, n).buf|
    ensures |s.buf| < n ==> |Grow(g, sk, s, n).buf| < n + sk.size
    decreases n - |s.buf|
  {
    if |s.buf| < n {
      GrowBound(g, sk, Extend(g, sk, s), n);
    }
  }

  /** The first n buffered bytes are the keystream bytes at positions pos..pos+n. */
  lemma BufferIsStream(g: Generator, sk: StreamKey, s: Side, pos: nat, n: nat)
    requires sk.size > 0 && OnStream(g, sk, s, pos) && n <= |s.buf|
    ensures s.buf[..n] == Stream(g, sk, pos + n)[pos..]
    ensures OnStream(g, sk, Use(s, n), pos + n)
  {
    StreamIsBlocks(g, sk, pos + n, s.draws);
    var b := Blocks(g, sk, s.draws);
    assert b[pos..][..n] == b[..pos + n][pos..];
    assert b[pos..][n..] == b[pos + n..];
  }

  // ----- a block that could not be generated -----

  /** The buffer after k further blocks. */
  function ExtendBy(g: Generator, sk: StreamKey, s: Side, k: nat): Side
    decreases k
  {
    if k == 0 then s else ExtendBy(g, sk, Extend(g, sk, s), k - 1)
  }

  /** regenIV was called and then the cipher failed: one IV is skipped. */
  function Stalled(s: Side): Side { Side(s.draws + 1, s.buf) }

  lemma {:induction false} ExtendByKeepsStream(g: Generator, sk: StreamKey, s: Side, pos: nat, k: nat)
    requires OnStream(g, sk, s, pos)
    ensures OnStream(g, sk, ExtendBy(g, sk, s, k), pos)
    decreases k
  {
    if k > 0 {
      ExtendKeepsStream(g, sk, s, pos);
      hide OnStream, Extend;
      ExtendByKeepsStream(g, sk, Extend(g, sk, s), pos, k - 1);
    }
  }

  lemma {:induction false} ExtendByCounts(g: Generator, sk: StreamKey, s: Side, k: nat)
    ensures var e := ExtendBy(g, sk, s, k);
            e.draws == s.draws + k && |e.buf| == |s.buf| + k * sk.size && s.buf <= e.buf
    decreases k
  {
    if k > 0 {
      ExtendByCounts(g, sk, Extend(g, sk, s), k - 1);
      assert k * sk.size == sk.size + (k - 1) * sk.size;
    }
  }

  lemma {:induction false} GrowAppends(g: Generator, sk: StreamKey, s: Side, n: nat)
    requires sk.size > 0
    ensures s.buf <= Grow(g, sk, s, n).buf
    decreases n - |s.buf|
  {
    if |s.buf| < n {
      GrowAppends(g, sk, Extend(g, sk, s), n);
    }
  }

  /** What is left of OnStream once a block was skipped: the buffer is right up to `limit` bytes of the stream. */
  ghost predicate OnStreamUntil(g: Generator, sk: StreamKey, s: Side, pos: nat, limit: nat)
    requires sk.size > 0
  {
    pos <= limit <= pos + |s.buf| && s.buf[..limit - pos] == Stream(g, sk, limit)[pos..]
  }

  lemma UntilAppend(g: Generator, sk: StreamKey, s: Side, longer: Side, pos: nat, limit: nat)
    requires sk.size > 0 && OnStreamUntil(g, sk, s, pos, limit) && s.buf <= longer.buf
    ensures OnStreamUntil(g, sk, longer, pos, limit)
  {
    assert longer.buf[..|s.buf|] == s.buf;
    assert longer.buf[..limit - pos] == s.buf[..limit - pos];
  }

  /** Up to the limit the buffered bytes are used as before. */
  lemma UntilUse(g: Generator, sk: StreamKey, s: Side, pos: nat, n: nat, limit: nat)
    requires sk.size > 0 && OnStreamUntil(g, sk, s, pos, limit) && pos + n <= limit
    ensures s.buf[..n] == Stream(g, sk, pos + n)[pos..]
    ensures OnStreamUntil(g, sk, Use(s, n), pos + n, limit)
  {
    StreamGrows(g, sk, pos + n, limit);
    var all := Stream(g, sk, limit);
    hide Stream;
    assert s.buf[..n] == s.buf[..limit - pos][..n] == all[pos..][..n] == all[..pos + n][pos..];
    assert s.buf[..limit - pos][n..] == all[pos..][n..] == all[pos + n..];
    assert n < |s.buf| ==> s.buf[n..][..limit - pos - n] == s.buf[..limit - pos][n..];
  }

  /** A failed block generation leaves the side right for exactly the bytes it has already generated. */
  lemma StallKeepsBuffered(g: Generator, sk: StreamKey, s: Side, pos: nat, k: nat)
    requires sk.size > 0 && OnStream(g, sk, s, pos)
    ensures var e := ExtendBy(g, sk, s, k);
            OnStreamUntil(g, sk, Stalled(e), pos, e.draws * sk.size) && e.draws * sk.size == pos + |e.buf|
  {
    ExtendByKeepsStream(g, sk, s, pos, k);
    var e := ExtendBy(g, sk, s, k);
    BufferIsStream(g, sk, e, pos, |e.buf|);
    assert e.buf[..|e.buf|] == e.buf;
  }

  // ----- and what goes wrong behind that -----

  /** A generator that tells block j from all others: ones there, zeros elsewhere, and the like for the draws. */
  function Telltale(j: nat): Generator {
    Generator((_, iv: seq<byte>, _, _) => if |iv| > 0 && iv[0] == 1 then 1 else 0,
              (_, k: nat) => seq(8, _ => if k == j then 1 else 0))
  }

  lemma TelltaleBlock(j: nat, sk: StreamKey, k: nat, i: nat)
    requires i < sk.size
    ensures NthBlock(Telltale(j), sk, k)[i] == if k == j then 1 else 0
  {
    assert IvAt(Telltale(j), sk.seed, k)[0] == if k == j then 1 else 0;
  }

  lemma {:induction false} BlockStart(g: Generator, sk: StreamKey, j: nat, k: nat)
    requires j < k && sk.size > 0
    ensures j * sk.size < k * sk.size && Blocks(g, sk, k)[j * sk.size] == NthBlock(g, sk, j)[0]
  {
    assert k * sk.size == (k - 1) * sk.size + sk.size;
    if j < k - 1 {
      BlockStart(g, sk, j, k - 1);
    }
  }

  /** The skipped block is the only one with ones in it. */
  lemma TelltaleStream(j: nat, sk: StreamKey, n: nat)
    requires sk.size > 0 && j * sk.size < n
    ensures Stream(Telltale(j), sk, n)[j * sk.size] == 1
  {
    BlocksCover(j, sk.size);
    BlockStart(Telltale(j), sk, j, n);
    TelltaleBlock(j, sk, j, 0);
  }

  /** Block j was skipped: all that is buffered for positions from its start on comes from other blocks. */
  ghost predicate AfterSkip(j: nat, sk: StreamKey, s: Side, pos: nat) {
    s.draws > j && forall i :: 0 <= i < |s.buf| && pos + i >= j * sk.size ==> s.buf[i] == 0
  }

  lemma ExtendAfterSkip(j: nat, sk: StreamKey, s: Side, pos: nat)
    requires AfterSkip(j, sk, s, pos)
    ensures AfterSkip(j, sk, Extend(Telltale(j), sk, s), pos)
  {
    var e := Extend(Telltale(j), sk, s);
    forall i | |s.buf| <= i < |e.buf|
      ensures e.buf[i] == 0
    {
      TelltaleBlock(j, sk, s.draws, i - |s.buf|);
    }
  }

  lemma {:induction false} ExtendByAfterSkip(j: nat, sk: StreamKey, s: Side, pos: nat, k: nat)
    requires AfterSkip(j, sk, s, pos)
    ensures AfterSkip(j, sk, ExtendBy(Telltale(j), sk, s, k), pos)
    decreases k
  {
    if k > 0 {
      ExtendAfterSkip(j, sk, s, pos);
      ExtendByAfterSkip(j, sk, Extend(Telltale(j), sk, s), pos, k - 1);
    }
  }

  lemma {:induction false} GrowAfterSkip(j: nat, sk: StreamKey, s: Side, pos: nat, n: nat)
    requires sk.size > 0 && AfterSkip(j, sk, s, pos)
    ensures AfterSkip(j, sk, Grow(Telltale(j), sk, s, n), pos)
    decreases n - |s.buf|
  {
    if |s.buf| < n {
      ExtendAfterSkip(j, sk, s, pos);
      GrowAfterSkip(j, sk, Extend(Telltale(j), sk, s), pos, n);
    }
  }

  /** Right when a block is skipped, nothing behind its start is buffered. */
  lemma SkipStarts(sk: StreamKey, g: Generator, s: Side, pos: nat, k: nat)
    requires sk.size > 0 && OnStream(g, sk, s, pos)
    ensures var e := ExtendBy(g, sk, s, k); AfterSkip(e.draws, sk, Stalled(e), pos)
  {
    StallKeepsBuffered(g, sk, s, pos, k);
    hide OnStream, OnStreamUntil, ExtendBy;
  }

  lemma UseAfterSkip(j: nat, sk: StreamKey, s: Side, pos: nat, n: nat)
    requires AfterSkip(j, sk, s, pos) && n <= |s.buf|
    ensures AfterSkip(j, sk, Use(s, n), pos + n)
  {
  }

  // ----- lengths do not depend on the generator -----

  lemma {:induction false} GrowAlike(g: Generator, sk: StreamKey, s: Side, h: Generator, tk: StreamKey, t: Side, n: nat)
    requires sk.size == tk.size > 0 && s.draws == t.draws && |s.buf| == |t.buf|
    ensures Grow(g, sk, s, n).draws == Grow(h, tk, t, n).draws
    ensures |Grow(g, sk, s, n).buf| == |Grow(h, tk, t, n).buf|
    decreases n - |s.buf|
  {
    if |s.buf| < n {
      GrowAlike(g, sk, Extend(g, sk, s), h, tk, Extend(h, tk, t), n);
    }
  }
}
