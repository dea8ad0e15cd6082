/** B_Chunks with the B_Base checks in front of it: the container object, whose operations follow the
    value-level ones of Chunks, and its readers. Some readers search the recorded offsets, the others
    only walk chunk sizes; the contracts say which need the tiling. */
module BChunks {
  import opened Bytes
  import opened Chunks
  import opened Search

  // ----- what the readers should return, on flat bytes -----

  /** A copy request: the bytes, or None when it is out of bounds. SIZE_MAX asks for all that follows. */
  function Slice(flat: seq<byte>, bytes: nat, offset: nat): Option<seq<byte>> {
    if bytes == SIZE_MAX && offset > |flat| then None
    else
      var n := if bytes == SIZE_MAX then |flat| - offset else bytes;
      if offset + n > SIZE_MAX then None
      else if n == 0 then Some([])
      else if offset + n > |flat| then None
      else Some(flat[offset..offset + n])
  }

  /** copyToStream cuts a request that runs over the end instead of refusing it. */
  function ClampedSlice(flat: seq<byte>, bytes: nat, offset: nat): Option<seq<byte>> {
    if bytes == SIZE_MAX && offset > |flat| then None
    else
      var n := if bytes == SIZE_MAX then |flat| - offset else bytes;
      if offset + n > SIZE_MAX then None
      else if n == 0 then Some([])
      else if offset > |flat| then None
      else Some(flat[offset..Min(offset + n, |flat|)])
  }

  /** For every request inside the container the two readings are the same slice. */
  lemma InBoundsReadersAgree(flat: seq<byte>, bytes: nat, offset: nat)
    requires offset + bytes <= |flat| < SIZE_MAX
    ensures Slice(flat, bytes, offset) == ClampedSlice(flat, bytes, offset) == Some(flat[offset..offset + bytes])
  {
    assert bytes == 0 ==> flat[offset..offset + bytes] == [];
  }

  /** What a request reads: SIZE_MAX asks for everything from the offset on; any other length is refused exactly
      when it runs over the end, and answered with that many bytes otherwise. */
  lemma SliceReads(flat: seq<byte>, bytes: nat, offset: nat)
    requires |flat| <= SIZE_MAX
    ensures bytes == SIZE_MAX ==> Slice(flat, bytes, offset) == if offset <= |flat| then Some(flat[offset..]) else None
    ensures bytes != SIZE_MAX ==>
              (Slice(flat, bytes, offset).None? <==> offset + bytes > SIZE_MAX || (bytes > 0 && offset + bytes > |flat|))
    ensures bytes != SIZE_MAX && 0 < bytes && offset + bytes <= |flat| ==>
              Slice(flat, bytes, offset) == Some(flat[offset..offset + bytes])
    ensures offset <= SIZE_MAX ==> Slice(flat, 0, offset) == Some([])
  {
    if offset <= |flat| {
      assert flat[offset..|flat|] == flat[offset..];
      assert offset == |flat| ==> flat[offset..] == [];
    }
  }

  /** And what a stream gets: the same, but a request that runs over the end is cut there. */
  lemma ClampedSliceReads(flat: seq<byte>, bytes: nat, offset: nat)
    requires |flat| <= SIZE_MAX
    ensures bytes == SIZE_MAX ==>
              ClampedSlice(flat, bytes, offset) == if offset <= |flat| then Some(flat[offset..]) else None
    ensures bytes != SIZE_MAX ==>
              (ClampedSlice(flat, bytes, offset).None? <==> offset + bytes > SIZE_MAX || (bytes > 0 && offset > |flat|))
    ensures bytes != SIZE_MAX && offset + bytes <= SIZE_MAX && offset <= |flat| ==>
              var r := ClampedSlice(flat, bytes, offset);
              && r.Some? && r.value <= flat[offset..]
              && |r.value| == if offset + bytes <= |flat| then bytes else |flat| - offset
  {
    if offset <= |flat| {
      assert flat[offset..|flat|] == flat[offset..];
      assert offset == |flat| ==> flat[offset..] == [];
    }
  }

  predicate IsAlpha(c: byte) {
    (0x41 <= c <= 0x5A) || (0x61 <= c <= 0x7A)
  }

  function ToUpper(c: byte): byte { if 0x61 <= c <= 0x7A then c - 0x20 else c }
  function ToLower(c: byte): byte { if 0x41 <= c <= 0x5A then c + 0x20 else c }

  /** What findChar accepts: with the flag set and a letter, either case of it. */
  predicate Hit(c: byte, caseSensitive: bool, b: byte) {
    if caseSensitive && IsAlpha(c) then b == ToUpper(c) || b == ToLower(c) else b == c
  }

  /** With the flag the i-th letter is found in either case; without it, and for all other bytes, only the byte
      itself is. */
  lemma HitMeans(c: byte, b: byte, i: byte)
    requires i < 26
    ensures Hit(c, false, b) <==> b == c
    ensures c == 0x41 + i || c == 0x61 + i ==> (Hit(c, true, b) <==> b == 0x41 + i || b == 0x61 + i)
    ensures c < 0x41 || 0x41 + 26 <= c < 0x61 || 0x61 + 26 <= c ==> (Hit(c, true, b) <==> b == c)
  {
  }

  lemma ExactIsHit(c: byte, caseSensitive: bool)
    ensures Hit(c, caseSensitive, c)
  {
  }

  /** The least position in from..until that findChar accepts. */
  function FirstHit(flat: seq<byte>, c: byte, caseSensitive: bool, from: nat, until: nat): (r: Option<nat>)
    requires from <= until <= |flat|
    ensures r.Some? ==> from <= r.value < until
    decreases until - from
  {
    if from == until then None
    else if Hit(c, caseSensitive, flat[from]) then Some(from)
    else FirstHit(flat, c, caseSensitive, from + 1, until)
  }

  lemma {:induction false} FirstHitIs(flat: seq<byte>, c: byte, caseSensitive: bool, from: nat, until: nat)
    requires from <= until <= |flat|
    ensures var r := FirstHit(flat, c, caseSensitive, from, until);
            && (r.Some? ==> Hit(c, caseSensitive, flat[r.value]))
            && forall p :: from <= p < (if r.Some? then r.value else until) ==> !Hit(c, caseSensitive, flat[p])
    decreases until - from
  {
    if from < until {
      FirstHitIs(flat, c, caseSensitive, from + 1, until);
    }
  }

  /** memchr over the first n bytes. */
  function MemChr(data: seq<byte>, c: byte, n: nat): (r: Option<nat>)
    requires n <= |data|
    ensures r.Some? ==> r.value < n && data[r.value] == c && forall p :: 0 <= p < r.value ==> data[p] != c
    ensures r.None? ==> forall p :: 0 <= p < n ==> data[p] != c
  {
    FirstHitIs(data, c, false, 0, n);
    FirstHit(data, c, false, 0, n)
  }

  /** find: the least position of the needle that starts inside the search space. */
  function FindSpec(flat: seq<byte>, needle: seq<byte>, offset: nat, searchSpace: nat): Option<nat> {
    if offset + |needle| > SIZE_MAX || offset + searchSpace > SIZE_MAX || offset > |flat| then None
    else
      var space := if searchSpace == 0 then |flat| - offset else searchSpace;
      if space == 0 || space < |needle| then None
      else if needle == [] then Some(0)
      else if offset + space > |flat| then None
      else
        match First(flat, needle, offset)
        case Some(p) => if p < offset + space then Some(p) else None
        case None => None
  }

  /** Over the whole container find is the plain first-occurrence search. */
  lemma FindWholeContainer(flat: seq<byte>, needle: seq<byte>, offset: nat)
    requires needle != [] && offset <= |flat| && offset + |needle| <= SIZE_MAX && |flat| <= SIZE_MAX
    ensures FindSpec(flat, needle, offset, 0) == First(flat, needle, offset)
  {
  }

  /** What a search answers in a search space of its own: the least position of the needle that starts in it, the
      needle itself running on behind it if need be. Spaces that leave the container or are shorter than the
      needle find nothing; the empty needle is found at 0. */
  lemma FindMeans(flat: seq<byte>, needle: seq<byte>, offset: nat, space: nat)
    requires 0 < space && |needle| <= space && offset + space <= |flat| <= SIZE_MAX
    ensures needle == [] ==> FindSpec(flat, needle, offset, space) == Some(0)
    ensures needle != [] ==>
              var r := FindSpec(flat, needle, offset, space);
              && (r.Some? ==>
                    && offset <= r.value < offset + space && OccursAt(flat, needle, r.value)
                    && forall p :: offset <= p < r.value ==> !OccursAt(flat, needle, p))
              && (r.None? ==> forall p :: offset <= p < offset + space ==> !OccursAt(flat, needle, p))
  {
  }

  lemma FindRefuses(flat: seq<byte>, needle: seq<byte>, offset: nat, space: nat)
    requires |flat| <= SIZE_MAX
    ensures offset > |flat| || offset + |needle| > SIZE_MAX || offset + space > SIZE_MAX ==>
              FindSpec(flat, needle, offset, space).None?
    ensures 0 < space < |needle| ==> FindSpec(flat, needle, offset, space).None?
    ensures 0 < space && needle != [] && offset + space > |flat| ==> FindSpec(flat, needle, offset, space).None?
    ensures offset == |flat| ==> FindSpec(flat, needle, offset, 0).None?
  {
  }

  /** What the 8192-byte steps of toString collect: every piece as the search finds it, up to the first refused. */
  function Pieces(cs: seq<Chunk>, n: nat, at: nat): seq<byte> {
    if n == 0 then []
    else
      match Copied(cs, at, Min(n, 8192))
      case None => []
      case Some(piece) => piece + Pieces(cs, n - Min(n, 8192), at + Min(n, 8192))
  }

  /** Up to 8192 bytes are one piece; a longer request is that much, and then the rest, unless the first piece is
      refused. */
  lemma PiecesMean(cs: seq<Chunk>, n: nat, at: nat)
    ensures 0 < n <= 8192 ==> Pieces(cs, n, at) == Copied(cs, at, n).GetOr([])
    ensures n > 8192 && Copied(cs, at, 8192).Some? ==>
              Pieces(cs, n, at) == Copied(cs, at, 8192).value + Pieces(cs, n - 8192, at + 8192)
    ensures n > 8192 && Copied(cs, at, 8192).None? ==> Pieces(cs, n, at) == []
  {
    hide Copied;
  }

  lemma NoPieces(cs: seq<Chunk>, at: nat)
    ensures Pieces(cs, 0, at) == []
  {
  }

  /** On tiled chunks the pieces add up to the slice. */
  lemma {:induction false} PiecesAreSlice(cs: seq<Chunk>, n: nat, at: nat)
    requires Tiled(cs) && at + n <= |Flat(cs)|
    ensures Pieces(cs, n, at) == Flat(cs)[at..at + n]
    decreases n
  {
    hide Flat, Tiled, Copied;
    if n > 0 {
      var k := Min(n, 8192);
      CopiedIsSlice(cs, at, k);
      PiecesAreSlice(cs, n - k, at + k);
      assert Flat(cs)[at..at + k] + Flat(cs)[at + k..at + n] == Flat(cs)[at..at + n];
    }
  }

  /** The request as Slice reads it, answered piece by piece. */
  function PiecewiseSlice(cs: seq<Chunk>, bytes: nat, offset: nat): Option<seq<byte>> {
    match Slice(Flat(cs), bytes, offset)
    case None => None
    case Some(s) => Some(Pieces(cs, |s|, offset))
  }

  lemma PiecewiseIsSlice(cs: seq<Chunk>, bytes: nat, offset: nat)
    requires Tiled(cs)
    ensures PiecewiseSlice(cs, bytes, offset) == Slice(Flat(cs), bytes, offset)
  {
    hide Flat, Tiled, Slice;
    SliceIsStretch(Flat(cs), bytes, offset);
    var s := Slice(Flat(cs), bytes, offset);
    if s.Some? && s.value != [] {
      PiecesAreSlice(cs, |s.value|, offset);
    }
  }

  lemma SliceIsStretch(flat: seq<byte>, bytes: nat, offset: nat)
    ensures var s := Slice(flat, bytes, offset);
            s.Some? && s.value != [] ==>
              offset + |s.value| <= |flat| && s.value == flat[offset..offset + |s.value|]
  {
  }

  lemma LeadingConcat(a: seq<byte>, b: seq<byte>, k: nat)
    ensures Leading(a + b, k) == if k <= |a| then a[..k] else a + Leading(b, k - |a|)
  {
  }

  class Container {
    const maxChunkSize: nat
    const maxChunks: nat
    var maxSize: nat
    var chunks: seq<Chunk>
    var containerBytes: nat

    ghost predicate Counted()
      reads this
    {
      && containerBytes == |Flat(chunks)| <= SIZE_MAX
      && NoEmptyChunk(chunks)
      && maxChunkSize > 0
    }

    function Bounds(): Limits { Limits(maxChunkSize, maxChunks) }

    constructor (maxChunkSize: nat, maxChunks: nat)
      requires maxChunkSize > 0
      ensures Counted() && Tiled(chunks) && chunks == []
      ensures this.maxChunkSize == maxChunkSize && this.maxChunks == maxChunks && maxSize == SIZE_MAX
    {
      this.maxChunkSize, this.maxChunks := maxChunkSize, maxChunks;
      maxSize, chunks, containerBytes := SIZE_MAX, [], 0;
    }

    /** append: refused for an empty or oversized request, otherwise the reported prefix is added. */
    method Append(data: seq<byte>) returns (appended: Option<nat>)
      requires Counted()
      modifies this`chunks, this`containerBytes
      ensures Counted()
      ensures appended.None? <==>
                data == [] || |data| + old(containerBytes) > SIZE_MAX || |data| + old(containerBytes) > maxSize
      ensures appended.None? ==> chunks == old(chunks)
      ensures appended.Some? ==>
                && chunks == Do(Bounds(), old(chunks), Chunks.Append(data))
                && appended.value == Min(|data|, Room(Bounds(), old(chunks)) * maxChunkSize)
                && Flat(chunks) == old(Flat(chunks)) + data[..appended.value]
      ensures Tiled(chunks) <==> old(Tiled(chunks))
    {
      if |data| + containerBytes > SIZE_MAX || |data| + containerBytes > maxSize || data == [] {
        return None;
      }
      ghost var n := AddedFlat(chunks, data, maxChunkSize, Room(Bounds(), chunks));
      var count := Append2(data);
      return Some(count);
    }

    /** append2: new chunks of at most maxChunkSize bytes until the data or the chunk limit is used up. */
    method Append2(data: seq<byte>) returns (count: nat)
      requires maxChunkSize > 0
      modifies this`chunks, this`containerBytes
      ensures chunks == Added(old(chunks), data, maxChunkSize, Room(Bounds(), old(chunks)))
      ensures containerBytes == old(containerBytes) + count
      ensures |Flat(chunks)| == |Flat(old(chunks))| + count
    {
      hide Flat, Tiled;
      count := 0;
      var rest := data;
      while rest != []
        invariant containerBytes == old(containerBytes) + count
        invariant |Flat(chunks)| == |Flat(old(chunks))| + count
        invariant Added(chunks, rest, maxChunkSize, Room(Bounds(), chunks))
               == Added(old(chunks), data, maxChunkSize, Room(Bounds(), old(chunks)))
        decreases |rest|
      {
        if |chunks| + 1 > maxChunks {
          break;
        }
        var k := Min(|rest|, maxChunkSize);
        PushKeeps(chunks, rest[..k]);
        chunks := chunks + [Chunk(rest[..k], EndOffset(chunks))];
        containerBytes := containerBytes + k;
        count, rest := count + k, rest[k..];
      }
    }

    method Clear()
      requires maxChunkSize > 0
      modifies this`chunks, this`containerBytes
      ensures chunks == [] && Counted() && Tiled(chunks)
    {
      chunks, containerBytes := [], 0;
    }

    /** truncate: on a tiled container it keeps exactly the first `bytes` bytes. */
    method Truncate(bytes: nat) returns (size: Option<nat>)
      requires Counted()
      modifies this`chunks, this`containerBytes
      ensures chunks == Do(Bounds(), old(chunks), Chunks.Truncate(bytes))
      ensures size.Some? <==> bytes < old(containerBytes) && GetPosForOffset(old(chunks), bytes).Some?
      ensures size.Some? ==> size.value == bytes == containerBytes
      ensures size.None? ==> chunks == old(chunks) && containerBytes == old(containerBytes)
      ensures old(Tiled(chunks)) ==>
                && Counted() && Tiled(chunks)
                && (size.Some? <==> bytes < old(containerBytes))
                && (size.Some? ==> Flat(chunks) == old(Flat(chunks))[..bytes])
    {
      if bytes >= containerBytes {
        return None;
      }
      if Tiled(chunks) {
        TruncatedFlat(chunks, bytes);
      }
      var pos := GetPosForOffset(chunks, bytes);
      if pos.None? {
        return None;
      }
      var i := pos.value;
      var c := chunks[i];
      if c.offset == bytes {
        chunks := chunks[..i];
      } else {
        chunks := chunks[..i] + [c.(data := c.data[..bytes - c.offset])];
      }
      containerBytes := bytes;
      return Some(bytes);
    }

    /** recalcChunkOffsets: the pointer i stays on the first chunk. */
    method RecalcChunkOffsets()
      modifies this`chunks
      ensures chunks == Recalculated(old(chunks))
    {
      var current, vpos, vsize := 0, 0, |chunks|;
      while vpos < vsize
        invariant 0 <= vpos <= vsize == |chunks|
        invariant vpos == 0 ==> chunks == old(chunks) && current == 0
        invariant vpos > 0 ==>
                    && chunks == [old(chunks)[0].(offset := (vpos - 1) * |old(chunks)[0].data|)] + old(chunks)[1..]
                    && current == vpos * |old(chunks)[0].data|
      {
        assert vpos > 0 ==> chunks[1..] == old(chunks)[1..];
        chunks := [chunks[0].(offset := current)] + chunks[1..];
        current := NextOffset(chunks[0]);
        vpos := vpos + 1;
      }
    }

    /** displace: exactly the first bytes go; the tiling survives exactly when the last chunk is reached. */
    method Displace(bytes: nat) returns (displaced: nat)
      requires Counted()
      modifies this`chunks, this`containerBytes
      ensures Counted()
      ensures displaced == Min(bytes, old(containerBytes))
      ensures chunks == Do(Bounds(), old(chunks), Chunks.Displace(bytes))
      ensures Flat(chunks) == old(Flat(chunks))[displaced..]
      ensures old(Tiled(chunks)) ==>
                (Tiled(chunks) <==> old(chunks) == [] || displaced >= old(chunks)[|old(chunks)| - 1].offset)
    {
      var n := Min(bytes, containerBytes);
      DisplaceFacts(Bounds(), chunks, bytes);
      hide Dropped, Recalculated, Tiled, Flat, Do, NoEmptyChunk;
      displaced := DropChunks(n);
      RecalcChunkOffsets();
    }

    /** The chunk loop of displace2. */
    method DropChunks(n: nat) returns (displaced: nat)
      requires n <= |Flat(chunks)| && n <= containerBytes
      modifies this`chunks, this`containerBytes
      ensures chunks == Dropped(old(chunks), n) && displaced == n
      ensures containerBytes == old(containerBytes) - n
    {
      var left: nat := n;
      displaced := 0;
      while left > 0
        invariant displaced + left == n && containerBytes == old(containerBytes) - displaced
        invariant Dropped(chunks, left) == Dropped(old(chunks), n)
        invariant left <= |Flat(chunks)|
        decreases left, |chunks|
      {
        if chunks == [] {
          break;
        }
        var c := chunks[0];
        if left >= |c.data| {
          displaced := displaced + |c.data|;
          left := left - |c.data|;
          containerBytes := containerBytes - |c.data|;
          chunks := chunks[1..];
        } else {
          displaced := displaced + left;
          containerBytes := containerBytes - left;
          chunks := [c.(data := c.data[left..])] + chunks[1..];
          left := 0;
        }
      }
    }

    // ----- readers that search the offsets -----

    /** copyToBuffer2 after copyOut's checks. */
    method CopyOut(bytes: nat, offset: nat) returns (r: Option<seq<byte>>)
      requires Counted()
      ensures 0 < bytes && offset + bytes <= containerBytes ==> r == Copied(chunks, offset, bytes)
      ensures Tiled(chunks) ==> r == Slice(Flat(chunks), bytes, offset)
    {
      if bytes == SIZE_MAX && offset > containerBytes {
        return None;
      }
      var n := if bytes == SIZE_MAX then containerBytes - offset else bytes;
      if offset + n > SIZE_MAX {
        return None;
      }
      if n == 0 {
        return Some([]);
      }
      if offset + n > containerBytes {
        return None;
      }
      r := CopyToBuffer2(n, offset);
    }

    method CopyToBuffer2(n: nat, offset: nat) returns (r: Option<seq<byte>>)
      requires Counted() && 0 < n && offset + n <= containerBytes
      ensures r == Copied(chunks, offset, n)
      ensures Tiled(chunks) ==> r == Some(Flat(chunks)[offset..offset + n])
    {
      if Tiled(chunks) {
        CopiedIsSlice(chunks, offset, n);
      }
      hide Flat, Tiled;
      var pos := GetPosForOffset(chunks, offset);
      if pos.None? {
        return None;
      }
      var i := pos.value;
      var c := chunks[i];
      var out := CopyFrom(i, c.data[offset - c.offset..], n);
      return Some(out);
    }

    /** The copy loop: what is left of chunk i, then the following chunks, up to n bytes. */
    method CopyFrom(i: nat, start: seq<byte>, n: nat) returns (out: seq<byte>)
      requires i < |chunks|
      ensures var rest := start + Flat(chunks[i + 1..]); out == Leading(rest, n)
    {
      ghost var source := start + Flat(chunks[i + 1..]);
      var at, current := i, start;
      var left: nat := n;
      out := [];
      while left > 0
        invariant at < |chunks|
        invariant Leading(source, n) == out + Leading(current + Flat(chunks[at + 1..]), left)
        decreases |chunks| - at
      {
        ghost var tail := Flat(chunks[at + 1..]);
        LeadingConcat(current, tail, left);
        if left <= |current| {
          out := out + current[..left];
          return;
        }
        ConcatAssoc(out, current, Leading(tail, left - |current|));
        out := out + current;
        left := left - |current|;
        if at == |chunks| - 1 {
          assert chunks[at + 1..] == [];
          break;
        }
        FlatHead(chunks, at + 1);
        at := at + 1;
        current := chunks[at].data;
      }
    }

    /** toString: copyOut in steps of 8192. A short or refused piece shortens the string unnoticed. */
    method ToString(bytes: nat, offset: nat) returns (r: Option<seq<byte>>)
      requires Counted()
      ensures r == PiecewiseSlice(chunks, bytes, offset)
      ensures Tiled(chunks) ==> r == Slice(Flat(chunks), bytes, offset)
    {
      hide Flat, Tiled, Pieces, NoEmptyChunk, Copied;
      NoPieces(chunks, offset);
      if Tiled(chunks) {
        PiecewiseIsSlice(chunks, bytes, offset);
      }
      if bytes == SIZE_MAX && offset > containerBytes {
        return None;
      }
      var left: nat := if bytes == SIZE_MAX then containerBytes - offset else bytes;
      if offset + left > SIZE_MAX {
        return None;
      }
      if left == 0 {
        return Some([]);
      }
      if offset + left > containerBytes {
        return None;
      }
      var out := CopyPieces(left, offset);
      return Some(out);
    }

    /** The loop of toString. */
    method CopyPieces(n: nat, offset: nat) returns (out: seq<byte>)
      requires Counted() && 0 < n && offset + n <= containerBytes
      ensures out == Pieces(chunks, n, offset)
    {
      hide Flat, Tiled, Copied, Slice, NoEmptyChunk;
      var left: nat, at := n, offset;
      out := [];
      while left > 0
        invariant at + left == offset + n && offset <= at
        invariant Pieces(chunks, n, offset) == out + Pieces(chunks, left, at)
      {
        var k := Min(left, 8192);
        var piece := CopyOut(k, at);
        if piece.None? {
          return;
        }
        ConcatAssoc(out, piece.value, Pieces(chunks, left - k, at + k));
        left := left - k;
        out := out + piece.value;
        at := at + k;
      }
    }

    // ----- readers that only walk chunk sizes: no tiling needed -----

    /** copyToStream and copyToStream2: the bytes written to the stream. */
    method CopyToStream(bytes: nat, offset: nat) returns (r: Option<seq<byte>>)
      requires Counted()
      ensures r == ClampedSlice(Flat(chunks), bytes, offset)
    {
      if bytes == SIZE_MAX && offset > containerBytes {
        return None;
      }
      var n := if bytes == SIZE_MAX then containerBytes - offset else bytes;
      if offset + n > SIZE_MAX {
        return None;
      }
      if n == 0 {
        return Some([]);
      }
      if offset > containerBytes {
        return None;
      }
      var out := StreamChunks(Min(n, containerBytes - offset), offset);
      return Some(out);
    }

    method StreamChunks(n: nat, offset: nat) returns (out: seq<byte>)
      requires offset + n <= |Flat(chunks)|
      ensures out == Flat(chunks)[offset..offset + n]
    {
      hide Flat;
      ghost var goal := Flat(chunks)[offset..offset + n];
      var v := 0;
      var off: nat, left: nat := offset, n;
      out := [];
      assert chunks[0..] == chunks;
      while v < |chunks| && left > 0
        invariant v <= |chunks| && off + left <= |Flat(chunks[v..])|
        invariant goal == out + Flat(chunks[v..])[off..off + left]
      {
        FlatSplit(chunks, v);
        var d := chunks[v].data;
        SkipConcat(d, Flat(chunks[v + 1..]), off, left);
        if off > |d| {
          off := off - |d|;
        } else {
          d := d[off..];
          off := 0;
          var k := Min(left, |d|);
          ConcatAssoc(out, d[..k], Flat(chunks[v + 1..])[..left - k]);
          out := out + d[..k];
          left := left - k;
        }
        v := v + 1;
      }
      FlatOfNothing(chunks[v..]);
    }

    /** compare2, case sensitive: the container holds exactly `buf` at `offset`. */
    method Compare2(buf: seq<byte>, offset: nat) returns (same: bool)
      requires Counted()
      ensures buf != [] ==> (same <==> OccursAt(Flat(chunks), buf, offset))
      ensures buf == [] ==> (same <==> offset <= SIZE_MAX)
    {
      if offset + |buf| > SIZE_MAX {
        return false;
      }
      if buf == [] {
        return true;
      }
      if offset + |buf| > containerBytes {
        return false;
      }
      same := CompareChunks(buf, offset);
    }

    method CompareChunks(buf: seq<byte>, offset: nat) returns (same: bool)
      requires buf != [] && offset + |buf| <= |Flat(chunks)|
      ensures same <==> Flat(chunks)[offset..offset + |buf|] == buf
    {
      hide Flat;
      ghost var goal := Flat(chunks)[offset..offset + |buf|] == buf;
      var v := 0;
      var off: nat, rest := offset, buf;
      assert chunks[0..] == chunks;
      while v < |chunks|
        invariant v <= |chunks| && rest != [] && off + |rest| <= |Flat(chunks[v..])|
        invariant goal <==> Flat(chunks[v..])[off..off + |rest|] == rest
      {
        FlatSplit(chunks, v);
        var d := chunks[v].data;
        SkipConcat(d, Flat(chunks[v + 1..]), off, |rest|);
        if off > |d| {
          off := off - |d|;
        } else {
          d := d[off..];
          off := 0;
          var k := Min(|rest|, |d|);
          SamePieces(d[..k], Flat(chunks[v + 1..])[..|rest| - k], rest);
          if d[..k] != rest[..k] {
            return false;
          }
          rest := rest[k..];
          if rest == [] {
            return true;
          }
        }
        v := v + 1;
      }
      FlatOfNothing(chunks[v..]);
      return false;
    }

    /** findChar: the first accepted byte in the search space, None when the space is out of bounds. */
    method FindChar(c: byte, offset: nat, searchSpace: nat, caseSensitive: bool) returns (r: Option<nat>)
      requires Counted()
      ensures r == if offset + searchSpace > |Flat(chunks)| then None
                   else FirstHit(Flat(chunks), c, caseSensitive, offset, offset + searchSpace)
    {
      if offset + searchSpace > SIZE_MAX || offset > containerBytes || offset + searchSpace > containerBytes {
        return None;
      }
      r := FindCharInChunks(c, offset, searchSpace, caseSensitive);
    }

    method FindCharInChunks(c: byte, offset: nat, searchSpace: nat, caseSensitive: bool) returns (r: Option<nat>)
      requires offset + searchSpace <= |Flat(chunks)|
      ensures r == FirstHit(Flat(chunks), c, caseSensitive, offset, offset + searchSpace)
    {
      hide Flat, FirstHit, Hit, HitInChunk;
      ghost var flat, end := Flat(chunks), offset + searchSpace;
      var v := 0;
      var retpos: nat, off: nat, left: nat := 0, offset, searchSpace;
      assert chunks[0..] == chunks && flat[0..] == flat;
      while v < |chunks|
        invariant v <= |chunks| && retpos <= |flat| && flat[retpos..] == Flat(chunks[v..])
        invariant retpos + off + left == end
        invariant FirstHit(flat, c, caseSensitive, offset, end) == FirstHit(flat, c, caseSensitive, retpos + off, end)
      {
        var d := chunks[v].data;
        ghost var tail := Flat(chunks[v + 1..]);
        FlatHead(chunks, v);
        ChunkStretch(flat, d, tail, retpos, 0, 0);
        if off > |d| {
          off := off - |d|;
        } else {
          var cur := d[off..];
          var k := Min(left, |cur|);
          ChunkStretch(flat, d, tail, retpos, off, k);
          FirstHitStretch(flat, cur, c, caseSensitive, retpos + off, k, end);
          var pos := HitInChunk(cur, c, caseSensitive, k);
          if pos.Some? {
            return Some(retpos + off + pos.value);
          }
          if left <= |cur| {
            return None;
          }
          left := left - |cur|;
          off := 0;
        }
        retpos := retpos + |d|;
        v := v + 1;
      }
      FlatOfNothing(chunks[v..]);
      return None;
    }

    /** find, case sensitive. */
    method Find(needle: seq<byte>, offset: nat, searchSpace: nat) returns (r: Option<nat>)
      requires Counted()
      ensures r == FindSpec(Flat(chunks), needle, offset, searchSpace)
    {
      if offset + |needle| > SIZE_MAX || offset + searchSpace > SIZE_MAX || offset > containerBytes {
        return None;
      }
      var space: nat := if searchSpace == 0 then containerBytes - offset else searchSpace;
      if space == 0 || space < |needle| {
        return None;
      }
      if needle == [] {
        return Some(0);
      }
      if offset + space > containerBytes {
        return None;  // every findChar below would refuse
      }
      r := FindLoop(needle, offset, space);
    }

    /** Alternates findChar for the first byte with compare2 for the whole needle. */
    method FindLoop(needle: seq<byte>, offset: nat, searchSpace: nat) returns (r: Option<nat>)
      requires Counted() && needle != [] && offset + |needle| <= offset + searchSpace <= containerBytes
      ensures r.Some? ==> r.value < offset + searchSpace && First(Flat(chunks), needle, offset) == r
      ensures r.None? ==> forall p :: offset <= p < offset + searchSpace ==> !OccursAt(Flat(chunks), needle, p)
    {
      hide OccursAt, Flat, First, FirstHit;
      ghost var flat, end := Flat(chunks), offset + searchSpace;
      var at, space: nat := offset, searchSpace;
      var pos := FindChar(needle[0], at, space, true);
      while pos.Some?
        invariant offset <= at && at + space == end
        invariant pos == FirstHit(flat, needle[0], true, at, end)
        invariant forall p :: offset <= p < at ==> !OccursAt(flat, needle, p)
        decreases space
      {
        NoHitNoOccurrence(flat, needle, at, end);
        space := space - (pos.value - at);
        at := pos.value;
        var same := Compare2(needle, at);
        if same {
          FirstIs(flat, needle, offset, at);
          return Some(at);
        }
        if space == 0 {
          break;
        }
        at := at + 1;
        space := space - 1;
        pos := FindChar(needle[0], at, space, true);
      }
      NoHitNoOccurrence(flat, needle, at, end);
      return None;
    }
  }

  lemma FlatOfNothing(cs: seq<Chunk>)
    ensures cs == [] ==> Flat(cs) == []
  {
  }

  /** A stretch of the chunk that starts at retpos, seen in the whole contents. */
  lemma ChunkStretch(flat: seq<byte>, d: seq<byte>, t: seq<byte>, retpos: nat, off: nat, k: nat)
    requires retpos <= |flat| && flat[retpos..] == d + t && off + k <= |d|
    ensures retpos + off + k <= |flat| && flat[retpos + off..retpos + off + k] == d[off..][..k]
    ensures retpos + |d| <= |flat| && flat[retpos + |d|..] == t
  {
    assert flat[retpos..][off..off + k] == flat[retpos + off..retpos + off + k];
    assert flat[retpos..][|d|..] == flat[retpos + |d|..];
  }

  /** Reading off..off+left out of a chunk followed by the rest of the container. */
  lemma SkipConcat(d: seq<byte>, t: seq<byte>, off: nat, left: nat)
    requires off + left <= |d| + |t|
    ensures off > |d| ==> (d + t)[off..off + left] == t[off - |d|..off - |d| + left]
    ensures off <= |d| ==>
              var k := Min(left, |d| - off);
              (d + t)[off..off + left] == d[off..][..k] + t[..left - k]
  {
  }

  lemma SamePieces(a: seq<byte>, b: seq<byte>, buf: seq<byte>)
    requires |a| + |b| == |buf|
    ensures a + b == buf <==> a == buf[..|a|] && b == buf[|a|..]
  {
    assert (a + b)[..|a|] == a && (a + b)[|a|..] == b;
    assert buf[..|a|] + buf[|a|..] == buf;
  }

  /** The two memchr calls of findChar and the choice between their answers. */
  function HitInChunk(cur: seq<byte>, c: byte, caseSensitive: bool, k: nat): (r: Option<nat>)
    requires k <= |cur|
    ensures r == FirstHit(cur, c, caseSensitive, 0, k)
  {
    FirstHitIs(cur, c, caseSensitive, 0, k);
    if caseSensitive && IsAlpha(c) then
      var up, low := MemChr(cur, ToUpper(c), k), MemChr(cur, ToLower(c), k);
      if up.Some? && low.Some? then Some(Min(up.value, low.value))
      else if up.Some? then up else low
    else MemChr(cur, c, k)
  }

  lemma FirstHitStretch(flat: seq<byte>, cur: seq<byte>, c: byte, caseSensitive: bool, start: nat, k: nat, end: nat)
    requires start + k <= end <= |flat| && k <= |cur| && flat[start..start + k] == cur[..k]
    ensures var h := FirstHit(cur, c, caseSensitive, 0, k);
            FirstHit(flat, c, caseSensitive, start, end)
            == if h.Some? then Some(start + h.value) else FirstHit(flat, c, caseSensitive, start + k, end)
  {
    var w := flat[start..start + k];
    assert forall i :: 0 <= i < k ==> w[i] == flat[start + i];
    assert forall i :: 0 <= i < k ==> cur[..k][i] == cur[i];
    FirstHitShift(flat, cur, c, caseSensitive, start, 0, k, end);
  }

  lemma {:induction false} FirstHitShift(flat: seq<byte>, cur: seq<byte>, c: byte, caseSensitive: bool,
                                         start: nat, i: nat, k: nat, end: nat)
    requires start + k <= end <= |flat| && i <= k <= |cur|
    requires forall j :: i <= j < k ==> cur[j] == flat[start + j]
    ensures var h := FirstHit(cur, c, caseSensitive, i, k);
            FirstHit(flat, c, caseSensitive, start + i, end)
            == if h.Some? then Some(start + h.value) else FirstHit(flat, c, caseSensitive, start + k, end)
    decreases k - i
  {
    if i < k {
      FirstHitShift(flat, cur, c, caseSensitive, start, i + 1, k, end);
    }
  }

  /** Between two accepted first bytes there is no occurrence. */
  lemma NoHitNoOccurrence(flat: seq<byte>, needle: seq<byte>, at: nat, end: nat)
    requires needle != [] && at <= end <= |flat|
    ensures var h := FirstHit(flat, needle[0], true, at, end);
            forall p :: at <= p < (if h.Some? then h.value else end) ==> !OccursAt(flat, needle, p)
  {
    var h := FirstHit(flat, needle[0], true, at, end);
    ExactIsHit(needle[0], true);
    FirstHitIs(flat, needle[0], true, at, end);
    forall p | at <= p < (if h.Some? then h.value else end)
      ensures !OccursAt(flat, needle, p)
    {
      if p + |needle| <= |flat| {
        assert flat[p..p + |needle|][0] == flat[p];
      }
    }
  }
}
