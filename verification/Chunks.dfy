/** B_Chunks as values: bounded chunks with stored offsets, the operations that change them, the
    binary search over the offsets, and what each operation does to the flat contents and to the tiling. */
module Chunks {
  import opened Bytes

  const SIZE_MAX := 0xFFFF_FFFF_FFFF_FFFF

  /** BinaryContainerChunk: its bytes and the absolute offset it is recorded at. */
  datatype Chunk = Chunk(data: seq<byte>, offset: nat)

  function NextOffset(c: Chunk): nat { c.offset + |c.data| }

  predicate ContainsOffset(c: Chunk, offset: nat) {
    c.offset <= offset < NextOffset(c)
  }

  /** The bytes of the container. */
  function Flat(cs: seq<Chunk>): seq<byte> {
    if cs == [] then [] else cs[0].data + Flat(cs[1..])
  }

  ghost predicate NoEmptyChunk(cs: seq<Chunk>) {
    forall i :: 0 <= i < |cs| ==> |cs[i].data| > 0
  }

  /** Every recorded offset is the number of bytes before the chunk. */
  ghost predicate Tiled(cs: seq<Chunk>) {
    forall i :: 0 <= i < |cs| ==> cs[i].offset == |Flat(cs[..i])|
  }

  lemma {:induction false} FlatConcat(a: seq<Chunk>, b: seq<Chunk>)
    ensures Flat(a + b) == Flat(a) + Flat(b)
  {
    if a == [] {
      assert a + b == b;
    } else {
      assert (a + b)[1..] == a[1..] + b;
      FlatConcat(a[1..], b);
      ConcatAssoc(a[0].data, Flat(a[1..]), Flat(b));
    }
  }

  lemma FlatOne(c: Chunk)
    ensures Flat([c]) == c.data
  {
    assert [c][1..] == [];
    assert c.data + [] == c.data;
  }

  lemma FlatHead(cs: seq<Chunk>, i: nat)
    requires i < |cs|
    ensures Flat(cs[i..]) == cs[i].data + Flat(cs[i + 1..])
  {
    assert cs[i..][1..] == cs[i + 1..];
  }

  lemma FlatLast(cs: seq<Chunk>, i: nat)
    requires i < |cs|
    ensures Flat(cs[..i + 1]) == Flat(cs[..i]) + cs[i].data
  {
    hide Flat;
    FlatConcat(cs[..i], [cs[i]]);
    FlatOne(cs[i]);
    assert cs[..i] + [cs[i]] == cs[..i + 1];
  }

  lemma FlatSplit(cs: seq<Chunk>, i: nat)
    requires i <= |cs|
    ensures Flat(cs) == Flat(cs[..i]) + Flat(cs[i..])
    ensures i < |cs| ==> Flat(cs[i..]) == cs[i].data + Flat(cs[i + 1..])
    ensures i < |cs| ==> Flat(cs[..i + 1]) == Flat(cs[..i]) + cs[i].data
  {
    hide Flat;
    FlatConcat(cs[..i], cs[i..]);
    assert cs[..i] + cs[i..] == cs;
    if i < |cs| {
      FlatHead(cs, i);
      FlatLast(cs, i);
    }
  }

  /** A chunk of a tiled list holds the stretch of the contents that starts at its offset. */
  lemma TiledChunk(cs: seq<Chunk>, i: nat)
    requires Tiled(cs) && i < |cs|
    ensures NextOffset(cs[i]) <= |Flat(cs)|
    ensures cs[i].data + Flat(cs[i + 1..]) == Flat(cs)[cs[i].offset..]
    ensures i + 1 < |cs| ==> cs[i + 1].offset == NextOffset(cs[i])
    ensures i + 1 == |cs| ==> |Flat(cs)| == NextOffset(cs[i])
  {
    FlatSplit(cs, i);
    if i + 1 == |cs| {
      assert cs[i + 1..] == [];
    }
  }

  lemma {:induction false} TiledMonotone(cs: seq<Chunk>, i: nat, j: nat)
    requires Tiled(cs) && i < j < |cs|
    ensures NextOffset(cs[i]) <= cs[j].offset
    decreases j - i
  {
    TiledChunk(cs, i);
    if i + 1 < j {
      TiledMonotone(cs, i + 1, j);
    }
  }

  // ----- I_Chunk_GetPosForOffset -----

  /** The probe of the search: the middle of lo..hi, or one below it. */
  function Probe(lo: nat, hi: nat): (p: nat)
    requires lo <= hi
    ensures lo <= p <= hi
  {
    if lo == hi then lo else lo + (hi + 1 - lo) / 2 - (hi - lo) % 2
  }

  /** The uneven formula is the middle, rounded down. */
  lemma ProbeIsMiddle(lo: nat, hi: nat)
    requires lo <= hi
    ensures Probe(lo, hi) == (lo + hi) / 2
  {
  }

  function Search(cs: seq<Chunk>, offset: nat, pos: nat, hi: nat, lo: nat): (r: Option<nat>)
    requires lo <= pos <= hi < |cs|
    ensures r.Some? ==> lo <= r.value <= hi && ContainsOffset(cs[r.value], offset)
    decreases hi - lo
  {
    if ContainsOffset(cs[pos], offset) then Some(pos)
    else if offset < cs[pos].offset then
      if pos == lo then None else Search(cs, offset, Probe(lo, pos - 1), pos - 1, lo)
    else
      if pos == hi then None else Search(cs, offset, Probe(pos + 1, hi), hi, pos + 1)
  }

  function GetPosForOffset(cs: seq<Chunk>, offset: nat): (r: Option<nat>)
    ensures r.Some? ==> r.value < |cs| && ContainsOffset(cs[r.value], offset)
  {
    if cs == [] then None
    else Search(cs, offset, if |cs| == 1 then 0 else |cs| / 2 - 1, |cs| - 1, 0)
  }

  /** Within the range still open the search misses nothing. */
  lemma {:induction false} SearchFinds(cs: seq<Chunk>, offset: nat, pos: nat, hi: nat, lo: nat, i: nat)
    requires Tiled(cs) && lo <= pos <= hi < |cs| && lo <= i <= hi && ContainsOffset(cs[i], offset)
    ensures Search(cs, offset, pos, hi, lo) == Some(i)
    decreases hi - lo
  {
    if pos < i {
      TiledMonotone(cs, pos, i);
      SearchFinds(cs, offset, Probe(pos + 1, hi), hi, pos + 1, i);
    } else if i < pos {
      TiledMonotone(cs, i, pos);
      SearchFinds(cs, offset, Probe(lo, pos - 1), pos - 1, lo, i);
    }
  }

  /** Some chunk contains any offset inside the container. */
  lemma {:induction false} SomeChunkContains(cs: seq<Chunk>, offset: nat, n: nat) returns (i: nat)
    requires Tiled(cs) && n <= |cs| && offset < |Flat(cs[..n])|
    ensures i < n && ContainsOffset(cs[i], offset)
    decreases n
  {
    if n == 0 {
      assert false;
    } else {
      FlatSplit(cs, n - 1);
      if offset < |Flat(cs[..n - 1])| {
        i := SomeChunkContains(cs, offset, n - 1);
      } else {
        i := n - 1;
      }
    }
  }

  /** On a tiled list the search returns i exactly when chunk i contains the offset, and reports
      nothing exactly when the offset is past the end. */
  lemma SearchIsExact(cs: seq<Chunk>, offset: nat)
    requires Tiled(cs)
    ensures forall i :: 0 <= i < |cs| ==> (GetPosForOffset(cs, offset) == Some(i) <==> ContainsOffset(cs[i], offset))
    ensures GetPosForOffset(cs, offset).None? <==> offset >= |Flat(cs)|
  {
    forall i | 0 <= i < |cs| && ContainsOffset(cs[i], offset)
      ensures GetPosForOffset(cs, offset) == Some(i) && offset < |Flat(cs)|
    {
      SearchFindsAll(cs, offset, i);
    }
    hide GetPosForOffset, Search, Flat;
    if offset < |Flat(cs)| {
      assert cs[..|cs|] == cs;
      var i := SomeChunkContains(cs, offset, |cs|);
    }
  }

  lemma SearchFindsAll(cs: seq<Chunk>, offset: nat, i: nat)
    requires Tiled(cs) && i < |cs| && ContainsOffset(cs[i], offset)
    ensures GetPosForOffset(cs, offset) == Some(i) && offset < |Flat(cs)|
  {
    hide Search, Flat, Tiled;
    SearchFinds(cs, offset, if |cs| == 1 then 0 else |cs| / 2 - 1, |cs| - 1, 0, i);
    TiledChunk(cs, i);
  }

  /** What copyToBuffer2 copies for n bytes at `offset`: the search, then a walk over the following chunks. */
  function Copied(cs: seq<Chunk>, offset: nat, n: nat): (r: Option<seq<byte>>)
    ensures r.Some? ==> |r.value| <= n
  {
    match GetPosForOffset(cs, offset)
    case None => None
    case Some(i) =>
      var rest := cs[i].data[offset - cs[i].offset..] + Flat(cs[i + 1..]);
      Some(Leading(rest, n))
  }

  /** On a tiled list that is the slice asked for. */
  lemma CopiedIsSlice(cs: seq<Chunk>, offset: nat, n: nat)
    requires Tiled(cs) && 0 < n && offset + n <= |Flat(cs)|
    ensures Copied(cs, offset, n) == Some(Flat(cs)[offset..offset + n])
  {
    SearchIsExact(cs, offset);
    var i := GetPosForOffset(cs, offset).value;
    TiledChunk(cs, i);
    hide Flat, GetPosForOffset, Tiled, Leading;
    SliceFromChunk(Flat(cs), cs[i].data, Flat(cs[i + 1..]), cs[i].offset, offset, n);
  }

  lemma SliceFromChunk(flat: seq<byte>, d: seq<byte>, tail: seq<byte>, start: nat, offset: nat, n: nat)
    requires start <= offset < start + |d| && offset + n <= |flat| && d + tail == flat[start..]
    ensures Leading(d[offset - start..] + tail, n) == flat[offset..offset + n]
  {
    var skip := offset - start;
    assert (d + tail)[skip..] == d[skip..] + tail;
    assert flat[start..][skip..] == flat[offset..];
    assert flat[offset..][..n] == flat[offset..offset + n];
  }

  // ----- append -----

  function EndOffset(cs: seq<Chunk>): nat {
    if cs == [] then 0 else NextOffset(cs[|cs| - 1])
  }

  /** append2 with room for at most `room` more chunks of at most `size` bytes. */
  function Added(cs: seq<Chunk>, data: seq<byte>, size: nat, room: nat): seq<Chunk>
    requires size > 0
    decreases room
  {
    if data == [] || room == 0 then cs
    else
      var k := Min(|data|, size);
      Added(cs + [Chunk(data[..k], EndOffset(cs))], data[k..], size, room - 1)
  }

  /** How many chunks of at most `size` bytes n bytes take. */
  function ChunksFor(n: nat, size: nat): nat
    requires size > 0
  {
    if n == 0 then 0 else 1 + ChunksFor(n - Min(n, size), size)
  }

  /** An append goes through whole exactly when the chunks it takes are still free. */
  lemma {:induction false} ChunksForRoom(n: nat, size: nat, room: nat)
    requires size > 0
    ensures ChunksFor(n, size) <= room <==> n <= room * size
  {
    if n > 0 {
      if room == 0 {
        assert room * size == 0;
      } else {
        assert room * size == (room - 1) * size + size;
        ChunksForRoom(n - Min(n, size), size, room - 1);
        assert n <= size ==> 0 <= (room - 1) * size;
      }
    }
  }

  lemma {:induction false} ChunksForGrows(n: nat, m: nat, size: nat)
    requires size > 0 && n <= m
    ensures ChunksFor(n, size) <= ChunksFor(m, size)
  {
    if n > 0 {
      ChunksForGrows(n - Min(n, size), m - Min(m, size), size);
    }
  }

  lemma {:induction false} AddedCount(cs: seq<Chunk>, data: seq<byte>, size: nat, room: nat)
    requires size > 0 && ChunksFor(|data|, size) <= room
    ensures |Added(cs, data, size, room)| == |cs| + ChunksFor(|data|, size)
    decreases room
  {
    if data != [] {
      var k := Min(|data|, size);
      AddedCount(cs + [Chunk(data[..k], EndOffset(cs))], data[k..], size, room - 1);
    }
  }

  lemma PushKeeps(cs: seq<Chunk>, data: seq<byte>)
    ensures Flat(cs + [Chunk(data, EndOffset(cs))]) == Flat(cs) + data
    ensures Tiled(cs) <==> Tiled(cs + [Chunk(data, EndOffset(cs))])
  {
    var c := Chunk(data, EndOffset(cs));
    FlatConcat(cs, [c]);
    FlatOne(c);
    var ds := cs + [c];
    assert forall i :: 0 <= i <= |cs| ==> ds[..i] == cs[..i];
    assert forall i :: 0 <= i < |cs| ==> ds[i] == cs[i];
    if Tiled(cs) {
      if cs != [] {
        TiledChunk(cs, |cs| - 1);
      }
      assert ds[..|cs|] == cs && cs[..|cs|] == cs;
    }
  }

  /** The bytes an append reports are exactly the bytes it added, and they are a prefix of the data:
      all of it, or what the remaining chunks can hold. */
  lemma {:induction false} AddedFlat(cs: seq<Chunk>, data: seq<byte>, size: nat, room: nat) returns (n: nat)
    requires size > 0
    ensures n == Min(|data|, room * size)
    ensures Flat(Added(cs, data, size, room)) == Flat(cs) + data[..n]
    ensures NoEmptyChunk(cs) ==> NoEmptyChunk(Added(cs, data, size, room))
    ensures Tiled(cs) <==> Tiled(Added(cs, data, size, room))
    ensures |Added(cs, data, size, room)| <= |cs| + room
    decreases room
  {
    if data == [] || room == 0 {
      n := 0;
      assert room * size == 0 || data == [];
    } else {
      var k := Min(|data|, size);
      var ds := cs + [Chunk(data[..k], EndOffset(cs))];
      PushKeeps(cs, data[..k]);
      var m := AddedFlat(ds, data[k..], size, room - 1);
      n := k + m;
      assert room * size == (room - 1) * size + size;
      assert data[..n] == data[..k] + data[k..][..m];
      ConcatAssoc(Flat(cs), data[..k], data[k..][..m]);
    }
  }

  // ----- displace -----

  /** The chunk loop of displace2. */
  function Dropped(cs: seq<Chunk>, n: nat): seq<Chunk> {
    if n == 0 || cs == [] then cs
    else if n >= |cs[0].data| then Dropped(cs[1..], n - |cs[0].data|)
    else [cs[0].(data := cs[0].data[n..])] + cs[1..]
  }

  /** recalcChunkOffsets: the loop runs once per chunk but only ever writes the first one. */
  function Recalculated(cs: seq<Chunk>): seq<Chunk> {
    if cs == [] then [] else [cs[0].(offset := (|cs| - 1) * |cs[0].data|)] + cs[1..]
  }

  function Displaced(cs: seq<Chunk>, n: nat): seq<Chunk> {
    Recalculated(Dropped(cs, n))
  }

  lemma DropConcat(a: seq<byte>, b: seq<byte>, n: nat)
    requires n <= |a| + |b|
    ensures (a + b)[n..] == if n >= |a| then b[n - |a|..] else a[n..] + b
  {
  }

  lemma {:induction false} DroppedFlat(cs: seq<Chunk>, n: nat)
    requires n <= |Flat(cs)|
    ensures Flat(Dropped(cs, n)) == Flat(cs)[n..]
    ensures NoEmptyChunk(cs) ==> NoEmptyChunk(Dropped(cs, n))
    ensures |Dropped(cs, n)| <= |cs|
  {
    if n == 0 || cs == [] {
    } else if n >= |cs[0].data| {
      DroppedFlat(cs[1..], n - |cs[0].data|);
      DropConcat(cs[0].data, Flat(cs[1..]), n);
    } else {
      var ds := Dropped(cs, n);
      assert ds[1..] == cs[1..];
      DropConcat(cs[0].data, Flat(cs[1..]), n);
    }
  }

  /** Displacing removes exactly the requested prefix whatever the recorded offsets are. */
  lemma DisplacedFlat(cs: seq<Chunk>, n: nat)
    requires n <= |Flat(cs)|
    ensures Flat(Displaced(cs, n)) == Flat(cs)[n..]
    ensures NoEmptyChunk(cs) ==> NoEmptyChunk(Displaced(cs, n))
    ensures |Displaced(cs, n)| == |Dropped(cs, n)| <= |cs|
  {
    DroppedFlat(cs, n);
    var ds := Dropped(cs, n);
    if ds != [] {
      assert Recalculated(ds)[1..] == ds[1..];
    }
  }

  lemma RecalculatedAt(cs: seq<Chunk>)
    requires NoEmptyChunk(cs) && |cs| > 1
    ensures |Recalculated(cs)| == |cs| && Recalculated(cs)[0].offset > 0
    ensures forall i :: 0 < i < |cs| ==> Recalculated(cs)[i] == cs[i]
  {
  }

  /** Documented to recalculate every offset, recalcChunkOffsets gives a tiling exactly when at most one chunk is left. */
  lemma RecalculatedTiles(cs: seq<Chunk>)
    requires NoEmptyChunk(cs)
    ensures Tiled(Recalculated(cs)) <==> |cs| <= 1
  {
    var rs := Recalculated(cs);
    if |cs| > 1 {
      RecalculatedAt(cs);
    }
    assert rs != [] ==> rs[..0] == [];
  }

  /** How many chunks a displacement leaves, read off the tiling before it. */
  lemma {:induction false} DroppedCount(cs: seq<Chunk>, n: nat)
    requires NoEmptyChunk(cs) && cs != [] && n <= |Flat(cs)|
    ensures |Dropped(cs, n)| <= 1 <==> n >= |Flat(cs[..|cs| - 1])|
  {
    var last := |cs| - 1;
    if |cs| == 1 {
      assert cs[..0] == [];
      assert n >= |cs[0].data| ==> Dropped(cs, n) == Dropped(cs[1..], n - |cs[0].data|);
    } else {
      assert Flat(cs[..last]) == cs[0].data + Flat(cs[..last][1..]);
      assert cs[..last][1..] == cs[1..][..last - 1];
      if n >= |cs[0].data| && n > 0 {
        DroppedCount(cs[1..], n - |cs[0].data|);
      }
    }
  }

  /** A displacement keeps a tiled container tiled exactly when it reaches the last chunk. */
  lemma DisplaceTilesIff(cs: seq<Chunk>, n: nat)
    requires Tiled(cs) && NoEmptyChunk(cs) && n <= |Flat(cs)|
    ensures Tiled(Displaced(cs, n)) <==> cs == [] || n >= cs[|cs| - 1].offset
  {
    DroppedFlat(cs, n);
    RecalculatedTiles(Dropped(cs, n));
    if cs != [] {
      DroppedCount(cs, n);
    }
  }

  /** After a displacement of a tiled container the first byte can still be found through the offsets
      exactly when one chunk is left: with more, no recorded offset covers position 0. */
  lemma FirstByteFoundIff(cs: seq<Chunk>, n: nat)
    requires Tiled(cs) && NoEmptyChunk(cs) && n < |Flat(cs)|
    ensures GetPosForOffset(Displaced(cs, n), 0).Some? <==> |Displaced(cs, n)| == 1
  {
    DisplacedFlat(cs, n);
    var ds := Displaced(cs, n);
    if |ds| == 1 {
      RecalculatedTiles(Dropped(cs, n));
      SearchIsExact(ds, 0);
    } else {
      NothingAtZero(cs, n);
    }
  }

  lemma NothingAtZero(cs: seq<Chunk>, n: nat)
    requires Tiled(cs) && NoEmptyChunk(cs) && n < |Flat(cs)| && |Displaced(cs, n)| > 1
    ensures forall i :: 0 <= i < |Displaced(cs, n)| ==> Displaced(cs, n)[i].offset > 0
  {
    var ds := Dropped(cs, n);
    assert NoEmptyChunk(ds) by { DroppedFlat(cs, n); }
    RecalculatedAt(ds);
    DroppedTail(cs, n);
    hide Dropped, Flat, Recalculated, NoEmptyChunk;
    var k := |cs| - |ds|;
    forall i | 0 < i < |ds|
      ensures ds[i].offset > 0
    {
      assert ds[i] == cs[k + i];
      TiledMonotone(cs, 0, k + i);
    }
  }

  /** Displacing leaves the chunks behind the first remaining one alone. */
  lemma {:induction false} DroppedTail(cs: seq<Chunk>, n: nat)
    ensures |Dropped(cs, n)| <= |cs|
    ensures forall i :: 0 < i < |Dropped(cs, n)| ==> Dropped(cs, n)[i] == cs[|cs| - |Dropped(cs, n)| + i]
  {
    if n > 0 && cs != [] && n >= |cs[0].data| {
      DroppedTail(cs[1..], n - |cs[0].data|);
    }
  }

  /** All that a displacement does to a counted container. */
  lemma DisplaceFacts(lim: Limits, cs: seq<Chunk>, bytes: nat)
    requires lim.maxChunkSize > 0 && NoEmptyChunk(cs)
    ensures var n := Min(bytes, |Flat(cs)|);
            var ds := Do(lim, cs, Displace(bytes));
            && ds == Recalculated(Dropped(cs, n))
            && Flat(ds) == Flat(cs)[n..] && NoEmptyChunk(ds)
            && (Tiled(cs) ==> (Tiled(ds) <==> cs == [] || n >= cs[|cs| - 1].offset))
  {
    var n := Min(bytes, |Flat(cs)|);
    DisplacedFlat(cs, n);
    if Tiled(cs) {
      DisplaceTilesIff(cs, n);
    }
  }

  // ----- truncate -----

  /** truncate2: None when the search finds no chunk. */
  function Truncated(cs: seq<Chunk>, n: nat): Option<seq<Chunk>> {
    match GetPosForOffset(cs, n)
    case None => None
    case Some(i) =>
      if cs[i].offset == n then Some(cs[..i])
      else Some(cs[..i] + [cs[i].(data := cs[i].data[..n - cs[i].offset])])
  }

  lemma TruncatedFlat(cs: seq<Chunk>, n: nat)
    requires Tiled(cs) && NoEmptyChunk(cs)
    ensures Truncated(cs, n).Some? <==> n < |Flat(cs)|
    ensures n < |Flat(cs)| ==>
              var ds := Truncated(cs, n).value;
              Flat(ds) == Flat(cs)[..n] && Tiled(ds) && NoEmptyChunk(ds)
  {
    SearchIsExact(cs, n);
    if n < |Flat(cs)| {
      var i := GetPosForOffset(cs, n).value;
      if cs[i].offset == n {
        PrefixTiled(cs, i);
        FlatSplit(cs, i);
      } else {
        CutTiled(cs, i, n);
      }
    }
  }

  lemma PrefixTiled(cs: seq<Chunk>, i: nat)
    requires Tiled(cs) && i <= |cs|
    ensures Tiled(cs[..i])
  {
    assert forall j :: 0 <= j < i ==> cs[..i][..j] == cs[..j];
  }

  lemma CutTiled(cs: seq<Chunk>, i: nat, n: nat)
    requires Tiled(cs) && i < |cs| && cs[i].offset < n < NextOffset(cs[i])
    ensures var ds := cs[..i] + [cs[i].(data := cs[i].data[..n - cs[i].offset])];
            n <= |Flat(cs)| && Flat(ds) == Flat(cs)[..n] && Tiled(ds)
  {
    var c := cs[i].(data := cs[i].data[..n - cs[i].offset]);
    var ds := cs[..i] + [c];
    PrefixTiled(cs, i);
    FlatSplit(cs, i);
    FlatConcat(cs[..i], [c]);
    FlatOne(c);
    hide Flat;
    forall j | 0 <= j < |ds|
      ensures ds[j].offset == |Flat(ds[..j])|
    {
      assert ds[..j] == cs[..j];
    }
  }

  // ----- whole runs -----

  datatype Limits = Limits(maxChunkSize: nat, maxChunks: nat)

  /** What the B_Chunks constructor sets: 64 KB a chunk, 256 K chunks. */
  const DEFAULTS := Limits(0x1_0000, 0x4_0000)

  datatype Op = Append(data: seq<byte>) | Truncate(n: nat) | Displace(n: nat) | Clear

  /** The chunk list after one operation; an out-of-range truncate fails and changes nothing. */
  function Do(lim: Limits, cs: seq<Chunk>, op: Op): seq<Chunk>
    requires lim.maxChunkSize > 0
  {
    match op
    case Append(data) => Added(cs, data, lim.maxChunkSize, Room(lim, cs))
    case Truncate(n) => if n >= |Flat(cs)| then cs else Truncated(cs, n).GetOr(cs)
    case Displace(n) => Displaced(cs, Min(n, |Flat(cs)|))
    case Clear => []
  }

  function Room(lim: Limits, cs: seq<Chunk>): nat {
    if |cs| < lim.maxChunks then lim.maxChunks - |cs| else 0
  }

  /** The same operation on a flat byte sequence, an append adding what the remaining chunks can hold. */
  function FlatDo(lim: Limits, flat: seq<byte>, chunks: nat, op: Op): seq<byte> {
    match op
    case Append(data) =>
      flat + data[..Min(|data|, (if chunks < lim.maxChunks then lim.maxChunks - chunks else 0) * lim.maxChunkSize)]
    case Truncate(n) => if n >= |flat| then flat else flat[..n]
    case Displace(n) => flat[Min(n, |flat|)..]
    case Clear => []
  }

  /** A run in which truncate is only called on a tiled container. */
  ghost predicate Sound(lim: Limits, cs: seq<Chunk>, run: seq<Op>)
    requires lim.maxChunkSize > 0
    decreases |run|
  {
    run == [] || ((run[0].Truncate? ==> Tiled(cs)) && Sound(lim, Do(lim, cs, run[0]), run[1..]))
  }

  function Run(lim: Limits, cs: seq<Chunk>, run: seq<Op>): seq<Chunk>
    requires lim.maxChunkSize > 0
    decreases |run|
  {
    if run == [] then cs else Run(lim, Do(lim, cs, run[0]), run[1..])
  }

  function FlatRun(lim: Limits, cs: seq<Chunk>, flat: seq<byte>, run: seq<Op>): seq<byte>
    requires lim.maxChunkSize > 0
    decreases |run|
  {
    if run == [] then flat
    else FlatRun(lim, Do(lim, cs, run[0]), FlatDo(lim, flat, |cs|, run[0]), run[1..])
  }

  lemma DoIsFlat(lim: Limits, cs: seq<Chunk>, op: Op)
    requires lim.maxChunkSize > 0 && NoEmptyChunk(cs) && (op.Truncate? ==> Tiled(cs))
    ensures NoEmptyChunk(Do(lim, cs, op))
    ensures Flat(Do(lim, cs, op)) == FlatDo(lim, Flat(cs), |cs|, op)
    ensures Tiled(cs) ==>
              (Tiled(Do(lim, cs, op)) <==>
               (op.Displace? && cs != [] ==> Min(op.n, |Flat(cs)|) >= cs[|cs| - 1].offset))
  {
    match op
    case Append(data) => var _ := AddedFlat(cs, data, lim.maxChunkSize, Room(lim, cs));
    case Truncate(n) => TruncatedFlat(cs, n);
    case Displace(n) =>
      DisplacedFlat(cs, Min(n, |Flat(cs)|));
      if Tiled(cs) { DisplaceTilesIff(cs, Min(n, |Flat(cs)|)); }
    case Clear =>
  }

  /** Either every offset is right, or none of them is zero. */
  ghost predicate TiledOrShifted(cs: seq<Chunk>) {
    Tiled(cs) || forall i :: 0 <= i < |cs| ==> cs[i].offset > 0
  }

  lemma DisplaceShifts(cs: seq<Chunk>, n: nat)
    requires NoEmptyChunk(cs) && TiledOrShifted(cs) && n <= |Flat(cs)|
    ensures TiledOrShifted(Displaced(cs, n))
  {
    DroppedFlat(cs, n);
    RecalculatedTiles(Dropped(cs, n));
    DroppedTail(cs, n);
    if |Dropped(cs, n)| > 1 {
      RecalculatedAt(Dropped(cs, n));
      if Tiled(cs) && n < |Flat(cs)| {
        NothingAtZero(cs, n);
      }
    }
  }

  lemma {:induction false} AddShifts(cs: seq<Chunk>, data: seq<byte>, size: nat, room: nat)
    requires size > 0 && NoEmptyChunk(cs) && TiledOrShifted(cs)
    ensures NoEmptyChunk(Added(cs, data, size, room)) && TiledOrShifted(Added(cs, data, size, room))
    decreases room
  {
    if data != [] && room > 0 {
      var k := Min(|data|, size);
      PushKeeps(cs, data[..k]);
      AddShifts(cs + [Chunk(data[..k], EndOffset(cs))], data[k..], size, room - 1);
    }
  }

  lemma {:induction false} RunShifts(lim: Limits, cs: seq<Chunk>, run: seq<Op>)
    requires lim.maxChunkSize > 0 && NoEmptyChunk(cs) && TiledOrShifted(cs) && Sound(lim, cs, run)
    ensures NoEmptyChunk(Run(lim, cs, run)) && TiledOrShifted(Run(lim, cs, run))
    decreases |run|
  {
    if run != [] {
      var ds := Do(lim, cs, run[0]);
      assert NoEmptyChunk(ds) && TiledOrShifted(ds) by {
        match run[0]
        case Append(data) => AddShifts(cs, data, lim.maxChunkSize, Room(lim, cs));
        case Truncate(n) => TruncatedFlat(cs, n);
        case Displace(n) =>
          DisplacedFlat(cs, Min(n, |Flat(cs)|));
          DisplaceShifts(cs, Min(n, |Flat(cs)|));
        case Clear =>
      }
      RunShifts(lim, ds, run[1..]);
    }
  }

  /** In every state that a sound run reaches from an empty container, the offset readers can be trusted
      exactly when the search finds the first byte. */
  lemma RunTilesIff(lim: Limits, run: seq<Op>)
    requires lim.maxChunkSize > 0 && Sound(lim, [], run)
    ensures var cs := Run(lim, [], run); Tiled(cs) <==> cs == [] || GetPosForOffset(cs, 0).Some?
  {
    RunShifts(lim, [], run);
    var cs := Run(lim, [], run);
    if Tiled(cs) && cs != [] {
      SearchIsExact(cs, 0);
      FlatSplit(cs, 0);
    }
  }

  /** Every sound run over chunks is the run over flat bytes. */
  lemma {:induction false} RunIsFlat(lim: Limits, cs: seq<Chunk>, run: seq<Op>)
    requires lim.maxChunkSize > 0 && NoEmptyChunk(cs) && Sound(lim, cs, run)
    ensures NoEmptyChunk(Run(lim, cs, run))
    ensures Flat(Run(lim, cs, run)) == FlatRun(lim, cs, Flat(cs), run)
    decreases |run|
  {
    if run != [] {
      DoIsFlat(lim, cs, run[0]);
      RunIsFlat(lim, Do(lim, cs, run[0]), run[1..]);
    }
  }

  /** Runs of append, truncate and clear alone are always sound and end tiled. */
  lemma {:induction false} RunWithoutDisplaceTiles(lim: Limits, cs: seq<Chunk>, run: seq<Op>)
    requires lim.maxChunkSize > 0 && NoEmptyChunk(cs) && Tiled(cs)
    requires forall i :: 0 <= i < |run| ==> !run[i].Displace?
    ensures Sound(lim, cs, run) && Tiled(Run(lim, cs, run))
    decreases |run|
  {
    if run != [] {
      DoIsFlat(lim, cs, run[0]);
      RunWithoutDisplaceTiles(lim, Do(lim, cs, run[0]), run[1..]);
    }
  }
}
