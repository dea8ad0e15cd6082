/** DIRECT_DELIMITER over the buffer it really has. The unparsed bytes lie in chunks, `find` walks chunk
    sizes, but the scan for a possible start of the delimiter reads the tail through the recorded offsets,
    and displacing the delivered bytes may leave those offsets wrong. DirectDelimiter says what the strategy
    means on flat bytes; this module says exactly when the chunked buffer follows it. */
module ChunkedDelimiter {
  import opened Bytes
  import opened Search
  import opened Chunks
  import opened Delimiters
  import opened DirectDelimiter

  /** What a newly allocated block of v bytes holds at index i before anything is copied into it. */
  type Allocation = (nat, nat) -> byte

  /** The allocations of a whole run: those of the call that starts after n bytes of the stream come first. */
  type Heap = (nat, nat, nat) -> byte

  datatype Chunked = Chunked(buf: seq<Chunk>, delivered: seq<byte>, found: bool)

  const START := Chunked([], [], false)

  /** The same state with a flat buffer. */
  function Plain(st: Chunked): Direct {
    Direct(Flat(st.buf), st.delivered, st.found)
  }

  // ----- the tail scan -----

  function Garbage(block: Allocation, v: nat): seq<byte> {
    seq(v, i requires 0 <= i < v => block(v, i))
  }

  /** `got` copied to the front of `junk`. */
  function Over(got: seq<byte>, junk: seq<byte>): (r: seq<byte>)
    requires |got| <= |junk|
    ensures |r| == |junk|
    ensures |got| == |junk| ==> r == got
    ensures forall i :: 0 <= i < |r| ==> r[i] == if i < |got| then got[i] else junk[i]
  {
    got + junk[|got|..]
  }

  /** The comparison buffer of getLastBytesInCommon: what copyOut copied of the last v bytes, over garbage. */
  function TailRead(cs: seq<Chunk>, v: nat, block: Allocation): (r: seq<byte>)
    requires v <= |Flat(cs)|
    ensures |r| == v
  {
    Over(Copied(cs, |Flat(cs)| - v, v).GetOr([]), Garbage(block, v))
  }

  function TailScan(cs: seq<Chunk>, delim: seq<byte>, v: nat, block: Allocation): (r: nat)
    requires v <= |Flat(cs)| && v <= |delim|
    ensures r <= v
  {
    if v == 0 || TailRead(cs, v, block) == delim[..v] then v else TailScan(cs, delim, v - 1, block)
  }

  /** getLastBytesInCommon. */
  function ScannedBorder(cs: seq<Chunk>, delim: seq<byte>, block: Allocation): (r: nat)
    requires |delim| > 0
    ensures r < |delim| && r <= |Flat(cs)|
  {
    TailScan(cs, delim, Min(|Flat(cs)|, |delim| - 1), block)
  }

  lemma TailReadTiled(cs: seq<Chunk>, v: nat, block: Allocation)
    requires Tiled(cs) && v <= |Flat(cs)|
    ensures TailRead(cs, v, block) == Flat(cs)[|Flat(cs)| - v..]
  {
    var flat := Flat(cs);
    hide Copied, Flat, Over, Tiled;
    if v > 0 {
      CopiedIsSlice(cs, |flat| - v, v);
      assert flat[|flat| - v..|flat|] == flat[|flat| - v..];
    }
  }

  lemma TailMatches(cs: seq<Chunk>, delim: seq<byte>, v: nat, block: Allocation)
    requires Tiled(cs) && v <= |Flat(cs)| && v <= |delim|
    ensures TailRead(cs, v, block) == delim[..v] <==> EndsWith(Flat(cs), delim, v)
  {
    TailReadTiled(cs, v, block);
    hide TailRead, Flat, Tiled;
  }

  lemma {:induction false} TailScanTiled(cs: seq<Chunk>, delim: seq<byte>, v: nat, block: Allocation)
    requires Tiled(cs) && v <= |Flat(cs)| && v <= |delim|
    ensures TailScan(cs, delim, v, block) == LastCommon(Flat(cs), delim, v)
  {
    hide TailRead, Flat, Tiled, EndsWith;
    TailMatches(cs, delim, v, block);
    if v > 0 {
      TailScanTiled(cs, delim, v - 1, block);
    }
  }

  /** On a tiled buffer the scan finds the longest possible start of a delimiter, whatever the allocations hold. */
  lemma ScanIsBorder(cs: seq<Chunk>, delim: seq<byte>, block: Allocation)
    requires Tiled(cs) && |delim| > 0
    ensures ScannedBorder(cs, delim, block) == Border(Flat(cs), delim)
  {
    TailScanTiled(cs, delim, Min(|Flat(cs)|, |delim| - 1), block);
  }

  // ----- one call -----

  function Appended(cs: seq<Chunk>, x: seq<byte>): seq<Chunk> {
    Added(cs, x, DEFAULTS.maxChunkSize, Room(DEFAULTS, cs))
  }

  /** The state a call without a delimiter leaves: cleared, or displaced down to the possible start. */
  function KeepBackChunks(delim: seq<byte>, st: Chunked, x: seq<byte>, block: Allocation): Chunked
    requires |delim| > 0
  {
    var cs := Appended(st.buf, x);
    var k := ScannedBorder(cs, delim, block);
    var cut := |Flat(cs)| - k;
    Chunked(if k == 0 then [] else Displaced(cs, cut), st.delivered + Flat(cs)[..cut], false)
  }

  /** parseDirectDelimiter; None when the buffer is full or the chunks run out. */
  function ChunkStep(delim: seq<byte>, maxSize: nat, st: Chunked, data: seq<byte>, block: Allocation)
    : Option<(nat, Chunked)>
    requires |delim| > 0
  {
    var prev := Flat(st.buf);
    var x := Taken(prev, maxSize, data);
    if Overflows(prev, maxSize, data) || !Holdable(|st.buf|, |x|) then None
    else
      var b := Flat(Appended(st.buf, x));
      match First(b, delim, 0)
      case None => Some((|x|, KeepBackChunks(delim, st, x, block)))
      case Some(p) => Some((Displacement(p, |prev|, |delim|), Chunked([], st.delivered + b[..p], true)))
  }

  /** The length of the last of the chunks that n bytes are cut into. */
  function LastPiece(n: nat): nat {
    if n <= DEFAULTS.maxChunkSize then n else LastPiece(n - DEFAULTS.maxChunkSize)
  }

  lemma AppendedFlat(cs: seq<Chunk>, x: seq<byte>)
    requires Holdable(|cs|, |x|)
    ensures Flat(Appended(cs, x)) == Flat(cs) + x
    ensures NoEmptyChunk(cs) ==> NoEmptyChunk(Appended(cs, x))
    ensures Tiled(cs) ==> Tiled(Appended(cs, x))
  {
    hide Added, Flat, ChunksFor, Tiled, NoEmptyChunk;
    var room := Room(DEFAULTS, cs);
    ChunksForRoom(|x|, DEFAULTS.maxChunkSize, room);
    var n := AddedFlat(cs, x, DEFAULTS.maxChunkSize, room);
    assert n == |x|;
    assert x[..n] == x;
  }

  lemma {:induction false} AddedLast(cs: seq<Chunk>, x: seq<byte>, room: nat)
    requires x != [] && ChunksFor(|x|, DEFAULTS.maxChunkSize) <= room
    ensures var ds := Added(cs, x, DEFAULTS.maxChunkSize, room);
            ds != [] && |ds[|ds| - 1].data| == LastPiece(|x|)
    decreases room
  {
    var k := Min(|x|, DEFAULTS.maxChunkSize);
    if |x| > k {
      AddedLast(cs + [Chunk(x[..k], EndOffset(cs))], x[k..], room - 1);
    }
  }

  /** In a tiled list the last chunk starts its own length before the end. */
  lemma AppendedLast(cs: seq<Chunk>, x: seq<byte>)
    requires x != [] && Holdable(|cs|, |x|) && Tiled(cs)
    ensures var ds := Appended(cs, x);
            ds != [] && ds[|ds| - 1].offset + LastPiece(|x|) == |Flat(ds)|
  {
    AddedLast(cs, x, Room(DEFAULTS, cs));
    AppendedFlat(cs, x);
    var ds := Appended(cs, x);
    hide Added, Flat, LastPiece, ChunksFor;
    TiledChunk(ds, |ds| - 1);
  }

  /** At most one chunk, recorded at 0. */
  ghost predicate Simple(cs: seq<Chunk>) {
    Tiled(cs) && NoEmptyChunk(cs) && |cs| <= 1
  }

  /** What a call without a delimiter does to a tiled buffer: the flat step, and the buffer stays tiled exactly
      when the bytes kept back lie in the last chunk appended. */
  lemma KeepBackOnTiled(delim: seq<byte>, st: Chunked, x: seq<byte>, block: Allocation)
    requires |delim| > 0 && Tiled(st.buf) && NoEmptyChunk(st.buf) && x != [] && Holdable(|st.buf|, |x|)
    ensures var next := KeepBackChunks(delim, st, x, block);
            && Plain(next) == KeepBack(delim, Plain(st), x)
            && NoEmptyChunk(next.buf)
            && (Tiled(next.buf) <==> |Flat(next.buf)| <= LastPiece(|x|))
            && (Tiled(next.buf) <==> |next.buf| <= 1)
  {
    hide Appended, ScannedBorder, Border, LastPiece, Holdable, Flat, Tiled, NoEmptyChunk, Displaced;
    AppendedFlat(st.buf, x);
    AppendedLast(st.buf, x);
    var cs := Appended(st.buf, x);
    ScanIsBorder(cs, delim, block);
    DisplaceDownTo(cs, ScannedBorder(cs, delim, block));
    EmptyIsTiled();
  }

  lemma DisplaceDownTo(cs: seq<Chunk>, k: nat)
    requires Tiled(cs) && NoEmptyChunk(cs) && cs != [] && k <= |Flat(cs)|
    ensures var cut := |Flat(cs)| - k;
            var ds := Displaced(cs, cut);
            && Flat(ds) == Flat(cs)[cut..] && NoEmptyChunk(ds)
            && (Tiled(ds) <==> cut >= cs[|cs| - 1].offset)
            && (Tiled(ds) <==> |ds| <= 1)
  {
    hide Flat, Tiled, NoEmptyChunk;
    var cut := |Flat(cs)| - k;
    DisplacedFlat(cs, cut);
    DisplaceTilesIff(cs, cut);
    DroppedFlat(cs, cut);
    RecalculatedTiles(Dropped(cs, cut));
  }

  lemma EmptyIsTiled()
    ensures Simple([]) && Flat([]) == []
  {
  }

  /** A call on a tiled buffer with chunks to spare is the call on flat bytes. */
  lemma StepOnTiled(delim: seq<byte>, maxSize: nat, st: Chunked, data: seq<byte>, block: Allocation)
    requires |delim| > 0 && Tiled(st.buf) && NoEmptyChunk(st.buf) && data != []
    requires Holdable(|st.buf|, |Taken(Flat(st.buf), maxSize, data)|)
    ensures var x := Taken(Flat(st.buf), maxSize, data);
            match (ChunkStep(delim, maxSize, st, data, block), DirectStep(delim, maxSize, Plain(st), data))
            case (Some((n, next)), Some((m, flat))) =>
              && n == m && Plain(next) == flat && NoEmptyChunk(next.buf)
              && (next.found ==> next.buf == [])
              && (Tiled(next.buf) <==> |Flat(next.buf)| <= LastPiece(|x|))
              && (Tiled(next.buf) <==> |next.buf| <= 1)
            case (None, None) => true
            case _ => false
  {
    var x := Taken(Flat(st.buf), maxSize, data);
    if !Overflows(Flat(st.buf), maxSize, data) {
      assert x != [];
      AppendedFlat(st.buf, x);
      KeepBackOnTiled(delim, st, x, block);
      hide KeepBack, KeepBackChunks, Appended, LastPiece, Tiled, First, Displacement;
      EmptyIsTiled();
    }
  }

  // ----- whole fragmentations -----

  /** One write, fed again until it is used up or the delimiter is reported. */
  function ChunkWriteOne(delim: seq<byte>, maxSize: nat, st: Chunked, data: seq<byte>, heap: Heap)
    : Option<(Chunked, seq<byte>)>
    requires |delim| > 0
    decreases |data|
  {
    if data == [] || st.found then Some((st, data))
    else
      match ChunkStep(delim, maxSize, st, data, CallAllocation(heap, st))
      case None => None
      case Some((n, next)) =>
        if n == 0 || n > |data| then None else ChunkWriteOne(delim, maxSize, next, data[n..], heap)
  }

  /** The allocations of the call that starts in this state. */
  function CallAllocation(heap: Heap, st: Chunked): Allocation {
    (v: nat, i: nat) => heap(|st.delivered| + |Flat(st.buf)|, v, i)
  }

  function ChunkWrites(delim: seq<byte>, maxSize: nat, st: Chunked, frags: seq<seq<byte>>, heap: Heap)
    : Option<(Chunked, seq<byte>)>
    requires |delim| > 0
    decreases |frags|
  {
    if frags == [] then Some((st, []))
    else
      match ChunkWriteOne(delim, maxSize, st, frags[0], heap)
      case None => None
      case Some((mid, left)) =>
        if mid.found then Some((mid, left + Join(frags[1..])))
        else ChunkWrites(delim, maxSize, mid, frags[1..], heap)
  }

  // ----- what holds in every run: nothing is lost, repeated or reordered -----

  /** Without a report everything was delivered or is buffered; after one the stream is what was delivered, the
      delimiter, and what is left over. */
  ghost predicate Conserved(delim: seq<byte>, stream: seq<byte>, end: Chunked, rest: seq<byte>) {
    if end.found then stream == end.delivered + delim + rest
    else rest == [] && stream == end.delivered + Flat(end.buf) && |Flat(end.buf)| < |delim|
  }

  lemma ShortHoldsNone(buf: seq<byte>, delim: seq<byte>)
    requires |buf| < |delim|
    ensures !Holds(buf, delim)
  {
  }

  /** However the scan went, the bytes are only divided. */
  lemma KeepBackDivides(delim: seq<byte>, st: Chunked, x: seq<byte>, block: Allocation) returns (cut: nat)
    requires |delim| > 0 && Holdable(|st.buf|, |x|)
    ensures var b := Flat(st.buf) + x;
            var next := KeepBackChunks(delim, st, x, block);
            && cut <= |b| < cut + |delim| && !next.found
            && next.delivered == st.delivered + b[..cut] && Flat(next.buf) == b[cut..]
  {
    hide Appended, ScannedBorder, Holdable, Flat, Displaced, Tiled, NoEmptyChunk;
    AppendedFlat(st.buf, x);
    var cs := Appended(st.buf, x);
    var k := ScannedBorder(cs, delim, block);
    cut := |Flat(cs)| - k;
    KeptPart(cs, k);
  }

  lemma KeptPart(cs: seq<Chunk>, k: nat)
    requires k <= |Flat(cs)|
    ensures Flat(if k == 0 then [] else Displaced(cs, |Flat(cs)| - k)) == Flat(cs)[|Flat(cs)| - k..]
  {
    hide Flat, Displaced, NoEmptyChunk;
    DisplacedFlat(cs, |Flat(cs)| - k);
    EmptyIsTiled();
  }

  lemma KeepBackConserves(delim: seq<byte>, st: Chunked, x: seq<byte>, block: Allocation, stream: seq<byte>)
    requires |delim| > 0 && Holdable(|st.buf|, |x|) && st.delivered + Flat(st.buf) == stream
    ensures Conserved(delim, stream + x, KeepBackChunks(delim, st, x, block), [])
  {
    var cut := KeepBackDivides(delim, st, x, block);
    hide KeepBackChunks, Flat, Holdable;
    KeptAll(st.delivered, Flat(st.buf), x, cut, stream);
  }

  lemma ReportConserves(delivered: seq<byte>, buf: seq<byte>, data: seq<byte>, delim: seq<byte>, x: seq<byte>, p: nat)
    requires x <= data && OccursAt(buf + x, delim, p) && |buf| <= p + |delim|
    ensures (delivered + buf) + data == (delivered + (buf + x)[..p]) + delim + data[p + |delim| - |buf|..]
  {
    var b, e := buf + x, p + |delim|;
    assert b[..p] + delim == b[..e];
    assert b[..e] + data[e - |buf|..] == buf + data;
    ConcatAssoc(delivered, b[..p], delim);
    ConcatAssoc(delivered, b[..e], data[e - |buf|..]);
    ConcatAssoc(delivered, buf, data);
  }

  lemma StepConserves(delim: seq<byte>, maxSize: nat, st: Chunked, data: seq<byte>, block: Allocation, stream: seq<byte>)
    requires 0 < |delim| && maxSize < SIZE_T && data != [] && !st.found && Conserved(delim, stream, st, [])
    requires ChunkStep(delim, maxSize, st, data, block).Some?
    ensures var (n, next) := ChunkStep(delim, maxSize, st, data, block).value;
            && 1 <= n <= |data|
            && (next.found ==> Conserved(delim, stream + data, next, data[n..]))
            && (!next.found ==> Conserved(delim, stream + data[..n], next, []))
  {
    var prev := Flat(st.buf);
    var x := Taken(prev, maxSize, data);
    AppendedFlat(st.buf, x);
    assert 1 <= |x| && |prev| + |x| < SIZE_T && x == data[..|x|];
    hide Taken, Overflows, Holdable, Flat, Appended, First, OccursAt, Displacement, KeepBackChunks;
    match First(prev + x, delim, 0)
    case None =>
      KeepBackConserves(delim, st, x, block, stream);
    case Some(p) =>
      ShortHoldsNone(prev, delim);
      DisplacementIsExact(prev, x, delim, p);
      ReportConserves(st.delivered, prev, data, delim, x, p);
  }

  lemma {:induction false} WriteOneConserves(delim: seq<byte>, maxSize: nat, st: Chunked, data: seq<byte>, heap: Heap,
                                         stream: seq<byte>)
    requires 0 < |delim| && maxSize < SIZE_T && !st.found && Conserved(delim, stream, st, [])
    ensures var r := ChunkWriteOne(delim, maxSize, st, data, heap);
            r.Some? ==> Conserved(delim, stream + data, r.value.0, r.value.1)
    decreases |data|
  {
    hide ChunkStep, CallAllocation, Conserved;
    if data == [] {
      assert stream + data == stream;
    } else {
      var block := CallAllocation(heap, st);
      var step := ChunkStep(delim, maxSize, st, data, block);
      if step.Some? {
        StepConserves(delim, maxSize, st, data, block, stream);
        var (n, next) := step.value;
        if !next.found {
          assert (stream + data[..n]) + data[n..] == stream + data;
          WriteOneConserves(delim, maxSize, next, data[n..], heap, stream + data[..n]);
        }
      }
    }
  }

  lemma {:induction false} WritesConserve(delim: seq<byte>, maxSize: nat, st: Chunked, frags: seq<seq<byte>>,
                                          heap: Heap, stream: seq<byte>)
    requires 0 < |delim| && maxSize < SIZE_T && !st.found && Conserved(delim, stream, st, [])
    ensures var r := ChunkWrites(delim, maxSize, st, frags, heap);
            r.Some? ==> Conserved(delim, stream + Join(frags), r.value.0, r.value.1)
    decreases |frags|
  {
    if frags == [] {
      assert stream + Join(frags) == stream;
    } else {
      var first, tail := frags[0], Join(frags[1..]);
      WriteOneConserves(delim, maxSize, st, first, heap, stream);
      ConcatAssoc(stream, first, tail);
      match ChunkWriteOne(delim, maxSize, st, first, heap)
      case None =>
      case Some((mid, left)) =>
        if mid.found {
          ConcatAssoc(mid.delivered + delim, left, tail);
        } else {
          hide ChunkWriteOne;
          WritesConserve(delim, maxSize, mid, frags[1..], heap, stream + first);
        }
    }
  }

  /** In every run, over any chunks and any garbage: what is reported is a delimiter, what was delivered is all
      that came before it, and what was not delivered is still buffered or left over. */
  lemma NothingLost(delim: seq<byte>, maxSize: nat, frags: seq<seq<byte>>, heap: Heap)
    requires 0 < |delim| && maxSize < SIZE_T
    ensures var r := ChunkWrites(delim, maxSize, START, frags, heap);
            r.Some? ==> Conserved(delim, Join(frags), r.value.0, r.value.1)
  {
    var none: seq<byte> := [];
    WritesConserve(delim, maxSize, START, frags, heap, none);
    assert none + Join(frags) == Join(frags);
  }

  // ----- runs in which the offsets stay right -----

  /** The call finds its chunks, and what it keeps back lies in the last chunk it appended. */
  ghost predicate CalmStep(delim: seq<byte>, maxSize: nat, st: Direct, data: seq<byte>)
    requires |delim| > 0
  {
    var x := Taken(st.buf, maxSize, data);
    && Holdable(Min(1, |st.buf|), |x|)
    && (First(st.buf + x, delim, 0).None? ==> Border(st.buf + x, delim) <= LastPiece(|x|))
  }

  /** Every call of a write on flat bytes is calm. */
  ghost predicate CalmWriteOne(delim: seq<byte>, maxSize: nat, st: Direct, data: seq<byte>)
    requires |delim| > 0
    decreases |data|
  {
    || data == [] || st.found
    || (&& CalmStep(delim, maxSize, st, data)
        && match DirectStep(delim, maxSize, st, data)
           case None => true
           case Some((n, next)) => n == 0 || n > |data| || CalmWriteOne(delim, maxSize, next, data[n..]))
  }

  ghost predicate CalmWrites(delim: seq<byte>, maxSize: nat, st: Direct, frags: seq<seq<byte>>)
    requires |delim| > 0
    decreases |frags|
  {
    || frags == []
    || (&& CalmWriteOne(delim, maxSize, st, frags[0])
        && match WriteOne(delim, maxSize, st, frags[0])
           case None => true
           case Some((mid, _)) => mid.found || CalmWrites(delim, maxSize, mid, frags[1..]))
  }

  lemma SimpleCount(cs: seq<Chunk>)
    requires Simple(cs)
    ensures |cs| == Min(1, |Flat(cs)|)
    ensures Flat(cs) != [] ==> cs == [Chunk(Flat(cs), 0)]
  {
    if cs != [] {
      FlatOne(cs[0]);
      assert cs == [cs[0]] && cs[..0] == [];
    }
  }

  /** A calm call on a simple buffer is the flat call, and leaves a simple buffer. */
  lemma CalmStepFollows(delim: seq<byte>, maxSize: nat, st: Chunked, data: seq<byte>, block: Allocation)
    requires |delim| > 0 && Simple(st.buf) && data != [] && CalmStep(delim, maxSize, Plain(st), data)
    ensures match (ChunkStep(delim, maxSize, st, data, block), DirectStep(delim, maxSize, Plain(st), data))
            case (Some((n, next)), Some((m, flat))) => n == m && Plain(next) == flat && Simple(next.buf)
            case (None, None) => true
            case _ => false
  {
    SimpleCount(st.buf);
    StepOnTiled(delim, maxSize, st, data, block);
    EmptyIsTiled();
    var s := DirectStep(delim, maxSize, Plain(st), data);
    if s.Some? && !s.value.1.found {
      KeptLength(delim, Plain(st), Taken(Flat(st.buf), maxSize, data));
    }
    hide ChunkStep, Tiled, NoEmptyChunk, LastPiece, Holdable, Border, Flat, First, Taken, Displacement;
  }

  lemma KeptLength(delim: seq<byte>, st: Direct, x: seq<byte>)
    requires |delim| > 0
    ensures |KeepBack(delim, st, x).buf| == Border(st.buf + x, delim)
  {
  }

  /** Two results that agree, the chunked one with a simple buffer. */
  ghost predicate EndsAlike(c: Option<(Chunked, seq<byte>)>, d: Option<(Direct, seq<byte>)>) {
    match (c, d)
    case (Some((st, left)), Some((flat, rest))) => Plain(st) == flat && left == rest && Simple(st.buf)
    case (None, None) => true
    case _ => false
  }

  lemma {:induction false} CalmWriteOneFollows(delim: seq<byte>, maxSize: nat, st: Chunked, data: seq<byte>, heap: Heap)
    requires |delim| > 0 && Simple(st.buf) && CalmWriteOne(delim, maxSize, Plain(st), data)
    ensures EndsAlike(ChunkWriteOne(delim, maxSize, st, data, heap), WriteOne(delim, maxSize, Plain(st), data))
    decreases |data|
  {
    if data != [] && !st.found {
      var block := CallAllocation(heap, st);
      CalmStepFollows(delim, maxSize, st, data, block);
      hide ChunkStep, DirectStep, CalmStep, CallAllocation, Simple;
      var step := ChunkStep(delim, maxSize, st, data, block);
      if step.Some? && 0 < step.value.0 <= |data| {
        CalmWriteOneFollows(delim, maxSize, step.value.1, data[step.value.0..], heap);
      }
    }
  }

  lemma {:induction false} CalmWritesFollow(delim: seq<byte>, maxSize: nat, st: Chunked, frags: seq<seq<byte>>, heap: Heap)
    requires |delim| > 0 && Simple(st.buf) && CalmWrites(delim, maxSize, Plain(st), frags)
    ensures EndsAlike(ChunkWrites(delim, maxSize, st, frags, heap), WriteRun(delim, maxSize, Plain(st), frags))
    decreases |frags|
  {
    if frags != [] {
      CalmWriteOneFollows(delim, maxSize, st, frags[0], heap);
      hide ChunkWriteOne, WriteOne, CalmWriteOne, Simple;
      var p := ChunkWriteOne(delim, maxSize, st, frags[0], heap);
      if p.Some? && !p.value.0.found {
        CalmWritesFollow(delim, maxSize, p.value.0, frags[1..], heap);
      }
    }
  }

  /** The writes are all taken and end as the stream itself demands. */
  ghost predicate Right(delim: seq<byte>, maxSize: nat, frags: seq<seq<byte>>, heap: Heap)
    requires |delim| > 0
  {
    var r := ChunkWrites(delim, maxSize, START, frags, heap);
    r.Some? && StreamOutcome(delim, Join(frags), Plain(r.value.0), r.value.1)
  }

  /** A fragmentation whose calls are all calm, as computed on flat bytes, is handled right. */
  lemma CalmIsRight(delim: seq<byte>, maxSize: nat, frags: seq<seq<byte>>, heap: Heap)
    requires 0 < |delim| <= maxSize < SIZE_T && CalmWrites(delim, maxSize, Direct([], [], false), frags)
    ensures Right(delim, maxSize, frags, heap)
  {
    EmptyIsTiled();
    assert Plain(START) == Direct([], [], false);
    CalmWritesFollow(delim, maxSize, START, frags, heap);
    EveryFlatFragmentation(delim, maxSize, frags);
  }

  // ----- which delimiters and which writes are safe -----

  lemma HoldableShrinks(c: nat, n: nat, d: nat, m: nat)
    requires Holdable(d, m) && c <= d && n <= m
    ensures Holdable(c, n)
  {
    ChunksForGrows(n, m, DEFAULTS.maxChunkSize);
  }

  lemma {:induction false} LastPieceNotEmpty(n: nat)
    requires n > 0
    ensures 0 < LastPiece(n) <= n
  {
    if n > DEFAULTS.maxChunkSize {
      LastPieceNotEmpty(n - DEFAULTS.maxChunkSize);
    }
  }

  /** A write that fits behind any kept tail, finds its chunks, and ends in a chunk long enough to hold the next. */
  predicate LongWrite(delim: seq<byte>, maxSize: nat, frag: seq<byte>) {
    || frag == []
    || (&& |frag| + |delim| - 1 <= maxSize
        && |delim| - 1 <= LastPiece(|frag|)
        && Holdable(1, |frag|))
  }

  lemma LongWriteIsCalm(delim: seq<byte>, maxSize: nat, stream: seq<byte>, st: Direct, frag: seq<byte>)
    requires 0 < |delim| <= maxSize < SIZE_T && Kept(delim, stream, st) && LongWrite(delim, maxSize, frag)
    ensures CalmWriteOne(delim, maxSize, st, frag)
  {
    if frag != [] {
      var x := Taken(st.buf, maxSize, frag);
      assert |st.buf| < |delim| && |x| == |frag|;
      HoldableShrinks(Min(1, |st.buf|), |frag|, 1, |frag|);
      hide Taken, Kept, Holdable, LastPiece, First, Border;
      assert CalmStep(delim, maxSize, st, frag);
    }
  }

  lemma {:induction false} LongWritesAreCalm(delim: seq<byte>, maxSize: nat, stream: seq<byte>, st: Direct,
                                             frags: seq<seq<byte>>)
    requires 0 < |delim| <= maxSize < SIZE_T && Kept(delim, stream, st)
    requires forall i :: 0 <= i < |frags| ==> LongWrite(delim, maxSize, frags[i])
    ensures CalmWrites(delim, maxSize, st, frags)
    decreases |frags|
  {
    if frags != [] {
      LongWriteIsCalm(delim, maxSize, stream, st, frags[0]);
      WriteOneOutcome(delim, maxSize, stream, st, frags[0]);
      hide CalmWriteOne, WriteOne, Kept, StreamOutcome, LongWrite;
      var (mid, left) := WriteOne(delim, maxSize, st, frags[0]).value;
      if !mid.found {
        OutcomeIsKept(delim, stream + frags[0], mid, left);
        LongWritesAreCalm(delim, maxSize, stream + frags[0], mid, frags[1..]);
      }
    }
  }

  lemma NothingKept(delim: seq<byte>)
    requires |delim| > 0
    ensures Kept(delim, [], Direct([], [], false))
  {
    var none: seq<byte> := [];
    NotHeld(none, delim);
    assert none + none == none && Tail(none, delim) == none;
  }

  /** For every delimiter: writes that each leave room for a kept tail and end in a long enough chunk are
      handled right. */
  lemma LongWritesAreRight(delim: seq<byte>, maxSize: nat, frags: seq<seq<byte>>, heap: Heap)
    requires 0 < |delim| <= maxSize < SIZE_T
    requires forall i :: 0 <= i < |frags| ==> LongWrite(delim, maxSize, frags[i])
    ensures Right(delim, maxSize, frags, heap)
  {
    hide *;
    NothingKept(delim);
    LongWritesAreCalm(delim, maxSize, [], Direct([], [], false), frags);
    CalmIsRight(delim, maxSize, frags, heap);
  }

  /** The limit on bytes is reached before the limit on chunks. */
  predicate EnoughChunks(delim: seq<byte>, maxSize: nat) {
    Holdable(0, maxSize) && (|delim| == 2 && maxSize > 0 ==> Holdable(1, maxSize - 1))
  }

  lemma ShortStepIsCalm(delim: seq<byte>, maxSize: nat, stream: seq<byte>, st: Direct, data: seq<byte>)
    requires 0 < |delim| <= maxSize < SIZE_T && |delim| <= 2 && EnoughChunks(delim, maxSize)
    requires Kept(delim, stream, st) && data != []
    ensures CalmStep(delim, maxSize, st, data)
  {
    var x := Taken(st.buf, maxSize, data);
    assert |st.buf| < |delim| && 0 < |x| && |st.buf| + |x| <= maxSize;
    LastPieceNotEmpty(|x|);
    if st.buf == [] {
      HoldableShrinks(0, |x|, 0, maxSize);
    } else {
      HoldableShrinks(1, |x|, 1, maxSize - 1);
    }
  }

  lemma {:induction false} ShortIsCalm(delim: seq<byte>, maxSize: nat, stream: seq<byte>, st: Direct, data: seq<byte>)
    requires 0 < |delim| <= maxSize < SIZE_T && |delim| <= 2 && EnoughChunks(delim, maxSize)
    requires Kept(delim, stream, st)
    ensures CalmWriteOne(delim, maxSize, st, data)
    decreases |data|
  {
    if data != [] {
      ShortStepIsCalm(delim, maxSize, stream, st, data);
      var x := Taken(st.buf, maxSize, data);
      hide CalmStep, Kept, Border, Holds, EnoughChunks;
      if First(st.buf + x, delim, 0).None? {
        StepTakes(delim, maxSize, stream, st, data);
        StepWithoutDelimiter(delim, maxSize, stream, st, data);
        ShortIsCalm(delim, maxSize, stream + x, DirectStep(delim, maxSize, st, data).value.1, data[|x|..]);
      }
    }
  }

  lemma {:induction false} ShortWritesAreCalm(delim: seq<byte>, maxSize: nat, stream: seq<byte>, st: Direct,
                                              frags: seq<seq<byte>>)
    requires 0 < |delim| <= maxSize < SIZE_T && |delim| <= 2 && EnoughChunks(delim, maxSize)
    requires Kept(delim, stream, st)
    ensures CalmWrites(delim, maxSize, st, frags)
    decreases |frags|
  {
    if frags != [] {
      ShortIsCalm(delim, maxSize, stream, st, frags[0]);
      WriteOneOutcome(delim, maxSize, stream, st, frags[0]);
      hide CalmWriteOne, WriteOne, Kept, StreamOutcome, EnoughChunks;
      var (mid, left) := WriteOne(delim, maxSize, st, frags[0]).value;
      if !mid.found {
        OutcomeIsKept(delim, stream + frags[0], mid, left);
        ShortWritesAreCalm(delim, maxSize, stream + frags[0], mid, frags[1..]);
      }
    }
  }

  // ----- and which are not -----

  /** A write taken in one call, in front of others. */
  lemma WriteInOneCall(delim: seq<byte>, maxSize: nat, st: Chunked, data: seq<byte>, more: seq<seq<byte>>, heap: Heap)
    requires |delim| > 0 && data != [] && !st.found
    ensures var step := ChunkStep(delim, maxSize, st, data, CallAllocation(heap, st));
            var r := ChunkWrites(delim, maxSize, st, [data] + more, heap);
            && (step.None? ==> r.None?)
            && (step.Some? && step.value.0 == |data| && !step.value.1.found ==>
                  r == ChunkWrites(delim, maxSize, step.value.1, more, heap))
  {
    WriteOneInOneStep(delim, maxSize, st, data, heap);
    assert ([data] + more)[1..] == more;
    hide ChunkStep, ChunkWriteOne, CallAllocation;
  }

  lemma WriteOneInOneStep(delim: seq<byte>, maxSize: nat, st: Chunked, data: seq<byte>, heap: Heap)
    requires |delim| > 0 && data != [] && !st.found
    ensures var step := ChunkStep(delim, maxSize, st, data, CallAllocation(heap, st));
            var r := ChunkWriteOne(delim, maxSize, st, data, heap);
            && (step.None? ==> r.None?)
            && (step.Some? && step.value.0 == |data| ==> r == Some((step.value.1, [])))
  {
    hide ChunkStep, CallAllocation;
    var step := ChunkStep(delim, maxSize, st, data, CallAllocation(heap, st));
    if step.Some? && step.value.0 == |data| {
      assert data[|data|..] == [];
      assert ChunkWriteOne(delim, maxSize, step.value.1, [], heap) == Some((step.value.1, []));
    }
  }

  /** The flat call that is handed the next byte of a delimiter keeps it back. */
  lemma PrefixGrows(delim: seq<byte>, maxSize: nat, k: nat)
    requires k + 1 < |delim| <= maxSize
    ensures DirectStep(delim, maxSize, Direct(delim[..k], [], false), [delim[k]])
            == Some((1, Direct(delim[..k + 1], [], false)))
  {
    var s, x, b := delim[..k], [delim[k]], delim[..k + 1];
    assert Taken(s, maxSize, x) == x && s + x == b;
    assert EndsWith(b, delim, k + 1);
    BorderIs(b, delim, k + 1);
    hide Border, Taken, EndsWith;
    assert First(b, delim, 0).None?;
    var none: seq<byte> := [];
    assert none + b[..0] == none && b[0..] == b;
    assert KeepBack(delim, Direct(s, none, false), x) == Direct(b, none, false);
    assert !Overflows(s, maxSize, x);
  }

  lemma OneByteHoldable(c: nat)
    requires c < DEFAULTS.maxChunks
    ensures Holdable(c, 1) && LastPiece(1) == 1
  {
    assert ChunksFor(1, DEFAULTS.maxChunkSize) == 1 + ChunksFor(0, DEFAULTS.maxChunkSize);
  }

  /** The first byte of a longer delimiter is kept back, in one chunk. */
  lemma FirstByteKept(delim: seq<byte>, maxSize: nat, block: Allocation)
    requires 2 <= |delim| <= maxSize
    ensures ChunkStep(delim, maxSize, START, [delim[0]], block)
            == Some((1, Chunked([Chunk([delim[0]], 0)], [], false)))
  {
    EmptyIsTiled();
    PrefixGrows(delim, maxSize, 0);
    OneByteHoldable(0);
    var x := [delim[0]];
    assert delim[..0] == [] && delim[..1] == x && Taken([], maxSize, x) == x;
    hide Taken, Flat, Tiled, NoEmptyChunk, Holdable, LastPiece, DirectStep, ChunkStep;
    StepOnTiled(delim, maxSize, START, x, block);
    assert Plain(START) == Direct(delim[..0], [], false);
    assert DirectStep(delim, maxSize, Plain(START), x) == Some((1, Direct(x, [], false)));
    var next := ChunkStep(delim, maxSize, START, x, block).value.1;
    assert Plain(next) == Direct(x, [], false);
    SimpleCount(next.buf);
    assert next.buf == [Chunk(x, 0)];
  }

  lemma OneByteAppended(cs: seq<Chunk>, b: byte)
    requires |cs| < DEFAULTS.maxChunks
    ensures Appended(cs, [b]) == cs + [Chunk([b], EndOffset(cs))]
  {
    var room := Room(DEFAULTS, cs);
    var ds := cs + [Chunk([b], EndOffset(cs))];
    assert [b][..1] == [b] && [b][1..] == [];
    assert Added(cs, [b], DEFAULTS.maxChunkSize, room) == Added(ds, [], DEFAULTS.maxChunkSize, room - 1);
  }

  /** A call that delivers nothing still displaces, by nothing. */
  lemma NothingDelivered(delim: seq<byte>, st: Chunked, x: seq<byte>, block: Allocation)
    requires |delim| > 0 && x != [] && KeepBackChunks(delim, st, x, block).delivered == st.delivered
    requires Flat(Appended(st.buf, x)) != []
    ensures KeepBackChunks(delim, st, x, block).buf == Recalculated(Appended(st.buf, x))
  {
    var cs := Appended(st.buf, x);
    var cut := |Flat(cs)| - ScannedBorder(cs, delim, block);
    hide Appended, ScannedBorder;
    assert |st.delivered + Flat(cs)[..cut]| == |st.delivered| + cut;
    assert Dropped(cs, 0) == cs;
  }

  lemma PairInChunks(a: byte, b: byte)
    ensures Appended([Chunk([a], 0)], [b]) == [Chunk([a], 0), Chunk([b], 1)]
    ensures Recalculated([Chunk([a], 0), Chunk([b], 1)]) == [Chunk([a], 1), Chunk([b], 1)]
    ensures Simple([Chunk([a], 0)]) && Flat([Chunk([a], 0)]) == [a]
    ensures Holdable(1, 1)
  {
    var cs := [Chunk([a], 0)];
    FlatOne(cs[0]);
    OneByteAppended(cs, b);
    OneByteHoldable(1);
    assert cs[..0] == [];
    assert [Chunk([a], 0), Chunk([b], 1)][1..] == [Chunk([b], 1)];
  }

  /** The second one is kept back too, in a chunk of its own; the displacement by nothing at all then moves the
      recorded offset of the first. */
  lemma SecondByteKept(delim: seq<byte>, maxSize: nat, block: Allocation)
    requires 3 <= |delim| <= maxSize
    ensures ChunkStep(delim, maxSize, Chunked([Chunk([delim[0]], 0)], [], false), [delim[1]], block)
            == Some((1, Chunked([Chunk([delim[0]], 1), Chunk([delim[1]], 1)], [], false)))
  {
    var x, st := [delim[1]], Chunked([Chunk([delim[0]], 0)], [], false);
    PairInChunks(delim[0], delim[1]);
    assert delim[..1] == [delim[0]] && Taken(delim[..1], maxSize, x) == x;
    PrefixGrows(delim, maxSize, 1);
    AppendedFlat(st.buf, x);
    StepKeepsBack(delim, maxSize, st, x, block);
    hide Taken, Flat, Tiled, NoEmptyChunk, Holdable, DirectStep, Appended, KeepBackChunks, Recalculated, ChunkStep, LastPiece;
    StepOnTiled(delim, maxSize, st, x, block);
    NothingDelivered(delim, st, x, block);
  }

  lemma StepKeepsBack(delim: seq<byte>, maxSize: nat, st: Chunked, data: seq<byte>, block: Allocation)
    requires |delim| > 0 && ChunkStep(delim, maxSize, st, data, block).Some?
    requires !ChunkStep(delim, maxSize, st, data, block).value.1.found
    ensures ChunkStep(delim, maxSize, st, data, block).value.1
            == KeepBackChunks(delim, st, Taken(Flat(st.buf), maxSize, data), block)
  {
  }

  /** Two kept bytes in chunks of their own, and a third behind them. */
  function Spoiled(a: byte, b: byte): seq<Chunk> { [Chunk([a], 1), Chunk([b], 1)] }
  function SpoiledBy(a: byte, b: byte, y: byte): seq<Chunk> { [Chunk([a], 1), Chunk([b], 1), Chunk([y], 2)] }

  lemma SpoiledFlat(a: byte, b: byte, y: byte)
    ensures Flat(Spoiled(a, b)) == [a, b] && Flat(SpoiledBy(a, b, y)) == [a, b, y]
    ensures Appended(Spoiled(a, b), [y]) == SpoiledBy(a, b, y)
  {
    var cs := Spoiled(a, b);
    assert cs == [cs[0]] + [cs[1]];
    FlatConcat([cs[0]], [cs[1]]);
    FlatOne(cs[0]);
    FlatOne(cs[1]);
    OneByteAppended(cs, y);
    FlatConcat(cs, [Chunk([y], 2)]);
    FlatOne(Chunk([y], 2));
  }

  /** Position 0 is recorded nowhere, and position 1 leads to the first byte. */
  lemma SpoiledReads(a: byte, b: byte, y: byte, block: Allocation)
    ensures var cs := SpoiledBy(a, b, y);
            && |Flat(cs)| == 3
            && TailRead(cs, 3, block) == Garbage(block, 3)
            && TailRead(cs, 2, block) == [a, b]
  {
    SpoiledFlat(a, b, y);
    var cs := SpoiledBy(a, b, y);
    var rest := cs[0].data[0..] + Flat(cs[1..]);
    assert GetPosForOffset(cs, 0).None? && GetPosForOffset(cs, 1) == Some(0);
    assert cs[0].data[0..] == cs[0].data;
    assert rest == Flat(cs);
    assert Copied(cs, 1, 2) == Some([a, b, y][..2]);
    assert Copied(cs, 0, 3) == None;
    assert [a, b, y][..2] == [a, b];
  }

  lemma ScanOfThree(cs: seq<Chunk>, delim: seq<byte>, block: Allocation)
    requires |delim| >= 3 && |Flat(cs)| == 3 && TailRead(cs, 2, block) == delim[..2]
    ensures var k := ScannedBorder(cs, delim, block);
            k >= 2 && (|delim| == 3 || TailRead(cs, 3, block) != delim[..3] ==> k == 2)
  {
    hide TailRead, Flat;
    assert TailScan(cs, delim, 2, block) == 2;
  }

  /** The scan then takes the two bytes in front for the two at the end. */
  lemma SpoiledScan(delim: seq<byte>, y: byte, block: Allocation)
    requires |delim| >= 3
    ensures var k := ScannedBorder(SpoiledBy(delim[0], delim[1], y), delim, block);
            k >= 2 && (|delim| == 3 || Garbage(block, 3) != delim[..3] ==> k == 2)
  {
    hide TailRead, Flat, SpoiledBy, Garbage, ScannedBorder;
    SpoiledReads(delim[0], delim[1], y, block);
    assert delim[..2] == [delim[0], delim[1]];
    ScanOfThree(SpoiledBy(delim[0], delim[1], y), delim, block);
  }

  /** What is left of it when all but two bytes are displaced: the two at the end, and again recorded wrong. */
  function Leftover(a: byte, b: byte, y: byte): Chunked {
    Chunked([Chunk([b], 1), Chunk([y], 2)], [a], false)
  }

  lemma SpoiledDisplaced(a: byte, b: byte, y: byte)
    ensures Displaced(SpoiledBy(a, b, y), 1) == Leftover(a, b, y).buf
    ensures Flat(Leftover(a, b, y).buf) == [b, y]
    ensures [a, b, y][..1] == [a]
  {
    var cs := SpoiledBy(a, b, y);
    var rest := [Chunk([b], 1), Chunk([y], 2)];
    assert cs[1..] == rest && Dropped(rest, 0) == rest;
    assert Dropped(cs, 1) == Dropped(cs[1..], 0);
    assert rest[1..] == [Chunk([y], 2)];
    SpoiledFlat(a, b, y);
    DisplacedFlat(cs, 1);
    assert [a, b, y][1..] == [b, y];
  }

  lemma SpoiledKeepsBack(delim: seq<byte>, y: byte, block: Allocation)
    requires |delim| >= 3
    ensures var next := KeepBackChunks(delim, Chunked(Spoiled(delim[0], delim[1]), [], false), [y], block);
            && |next.buf| <= 3 && 2 <= |Flat(next.buf)|
            && (|delim| == 3 || Garbage(block, 3) != delim[..3] ==> next == Leftover(delim[0], delim[1], y))
  {
    hide Flat, ScannedBorder, Appended, Displaced, SpoiledBy, Spoiled, Garbage, NoEmptyChunk;
    var a, b := delim[0], delim[1];
    var cs := SpoiledBy(a, b, y);
    SpoiledFlat(a, b, y);
    SpoiledScan(delim, y, block);
    var k := ScannedBorder(cs, delim, block);
    DisplacedFlat(cs, 3 - k);
    assert |cs| == 3 by { SpoiledCount(a, b, y); }
    SpoiledDisplaced(a, b, y);
    var none: seq<byte> := [];
    assert none + [a] == [a];
  }

  lemma SpoiledCount(a: byte, b: byte, y: byte)
    ensures |SpoiledBy(a, b, y)| == 3
  {
  }

  /** The call that is handed y behind two kept bytes: nothing is found, and too much or garbage is kept. */
  lemma SpoiledStep(delim: seq<byte>, maxSize: nat, y: byte, block: Allocation)
    requires 3 <= |delim| <= maxSize && [delim[0], delim[1], y] != delim
    ensures var st := Chunked(Spoiled(delim[0], delim[1]), [], false);
            ChunkStep(delim, maxSize, st, [y], block) == Some((1, KeepBackChunks(delim, st, [y], block)))
  {
    var a, b := delim[0], delim[1];
    SpoiledFlat(a, b, y);
    OneByteHoldable(2);
    assert Taken([a, b], maxSize, [y]) == [y] && !Overflows([a, b], maxSize, [y]);
    var s := [a, b, y];
    assert First(s, delim, 0).None? by {
      assert |delim| == 3 ==> s[0..3] == s;
    }
    hide Flat, Taken, Overflows, Holdable, First, Appended, KeepBackChunks, ChunkStep, SpoiledBy;
    StepWithoutFind(delim, maxSize, Chunked(Spoiled(a, b), [], false), [y], block);
  }

  /** Three writes of one byte, then others. */
  function ThreeThen(a: byte, b: byte, y: byte, more: seq<seq<byte>>): seq<seq<byte>> {
    [[a]] + ([[b]] + ([[y]] + more))
  }

  /** Where the writes of two delimiter bytes and another one lead, whatever follows them. */
  lemma SpoiledRun(delim: seq<byte>, maxSize: nat, y: byte, more: seq<seq<byte>>, heap: Heap) returns (st: Chunked)
    requires 3 <= |delim| <= maxSize && [delim[0], delim[1], y] != delim
    ensures ChunkWrites(delim, maxSize, START, ThreeThen(delim[0], delim[1], y, more), heap)
            == ChunkWrites(delim, maxSize, st, more, heap)
    ensures !st.found && |st.buf| <= 3 && 2 <= |Flat(st.buf)|
    ensures |delim| == 3 || NoLuck(delim, heap) ==> st == Leftover(delim[0], delim[1], y)
  {
    var a, b := delim[0], delim[1];
    var one, two := Chunked([Chunk([a], 0)], [], false), Chunked(Spoiled(a, b), [], false);
    SpoiledFlat(a, b, y);
    assert |delim| > 3 ==> (NoLuck(delim, heap) <==> Garbage(CallAllocation(heap, two), 3) != delim[..3]);
    hide ChunkStep, ChunkWrites, CallAllocation, Garbage, Flat, NoLuck, KeepBackChunks, Spoiled;
    FirstByteKept(delim, maxSize, CallAllocation(heap, START));
    SecondByteKept(delim, maxSize, CallAllocation(heap, one));
    SpoiledStep(delim, maxSize, y, CallAllocation(heap, two));
    SpoiledKeepsBack(delim, y, CallAllocation(heap, two));
    st := ChunkStep(delim, maxSize, two, [y], CallAllocation(heap, two)).value.1;
    WriteInOneCall(delim, maxSize, START, [a], [[b]] + ([[y]] + more), heap);
    WriteInOneCall(delim, maxSize, one, [b], [[y]] + more, heap);
    WriteInOneCall(delim, maxSize, two, [y], more, heap);
  }

  /** The block of three bytes allocated in the third of these calls does not happen to hold the delimiter's start. */
  predicate NoLuck(delim: seq<byte>, heap: Heap)
    requires |delim| >= 3
  {
    seq(3, i requires 0 <= i < 3 => heap(2, 3, i)) != delim[..3]
  }

  /** A byte that continues neither the delimiter nor an overlap with itself. */
  function Stranger(delim: seq<byte>): (y: byte)
    requires |delim| >= 3
    ensures y != delim[1] && y != delim[2]
  {
    if delim[1] != 0 && delim[2] != 0 then 0
    else if delim[1] != 1 && delim[2] != 1 then 1
    else 2
  }

  lemma ShortBorder(delim: seq<byte>, y: byte)
    requires |delim| >= 3 && y != delim[1] && y != delim[2]
    ensures var s := [delim[0], delim[1], y]; Border(s, delim) <= 1 && First(s, delim, 0).None?
  {
    var s := [delim[0], delim[1], y];
    forall w | 2 <= w <= 3
      ensures !EndsWith(s, delim, w)
    {
      assert s[3 - w..][w - 1] == y && delim[..w][w - 1] == delim[w - 1];
    }
    assert s[0..3][2] == y;
  }

  /** No delimiter of three or more bytes is safe: written as its first two bytes and a stranger, one byte at a
      time, more is kept back than could start it. */
  lemma LongDelimiterFails(delim: seq<byte>, maxSize: nat, heap: Heap)
    requires 3 <= |delim| <= maxSize
    ensures !Right(delim, maxSize, [[delim[0]], [delim[1]], [Stranger(delim)]], heap)
  {
    var a, b, y := delim[0], delim[1], Stranger(delim);
    var s := [a, b, y];
    assert s != delim by { assert s[2] == y; }
    var st := SpoiledRun(delim, maxSize, y, [], heap);
    assert [[a]] + ([[b]] + ([[y]] + [])) == [[a], [b], [y]];
    ShortBorder(delim, y);
    JoinOfThree(a, b, y);
    hide Border, First, Flat;
  }

  lemma JoinOfThree(a: byte, b: byte, y: byte)
    ensures Join([[a], [b], [y]]) == [a, b, y]
  {
    var one, two, three := [[y]], [[b], [y]], [[a], [b], [y]];
    assert three[1..] == two && two[1..] == one && one[1..] == [];
    assert Join(one) == [y] + Join([]) == [y];
    assert Join(two) == [b] + Join(one) == [b, y];
    assert Join(three) == [a] + Join(two) == [a, b, y];
  }

  /** A first write that fits the limit on bytes but not the chunks is refused. */
  lemma RefusedWrite(delim: seq<byte>, maxSize: nat, st: Chunked, x: seq<byte>, heap: Heap)
    requires |delim| > 0 && !st.found && x != [] && |Flat(st.buf)| + |x| <= maxSize && !Holdable(|st.buf|, |x|)
    ensures ChunkWrites(delim, maxSize, st, [x] + [], heap).None?
  {
    hide Flat, Holdable, Appended, First, KeepBackChunks;
    assert Taken(Flat(st.buf), maxSize, x) == x;
    assert ChunkStep(delim, maxSize, st, x, CallAllocation(heap, st)).None?;
    hide ChunkStep, ChunkWrites, CallAllocation;
    WriteInOneCall(delim, maxSize, st, x, [], heap);
  }

  /** Without enough chunks a write that fits the limit on bytes is refused. */
  lemma ChunksRunOut(delim: seq<byte>, maxSize: nat, heap: Heap) returns (frags: seq<seq<byte>>)
    requires 0 < |delim| <= maxSize && |delim| <= 2 && !EnoughChunks(delim, maxSize)
    ensures !Right(delim, maxSize, frags, heap)
  {
    hide Flat, Holdable, ChunkStep, ChunkWrites, CallAllocation, StreamOutcome, Plain;
    EmptyIsTiled();
    if !Holdable(0, maxSize) {
      RefusedWrite(delim, maxSize, START, seq(maxSize, _ => delim[0]), heap);
      frags := [seq(maxSize, _ => delim[0])] + [];
    } else {
      var x := seq(maxSize - 1, _ => delim[0]);
      var one := Chunked([Chunk([delim[0]], 0)], [], false);
      FirstByteKept(delim, maxSize, CallAllocation(heap, START));
      FlatOne(one.buf[0]);
      WriteInOneCall(delim, maxSize, START, [delim[0]], [x] + [], heap);
      RefusedWrite(delim, maxSize, one, x, heap);
      frags := [[delim[0]]] + ([x] + []);
    }
  }

  /** Every fragmentation of every stream is handled right exactly when the delimiter has at most two bytes and
      the buffer's limit on bytes is reached before its limit on chunks. */
  lemma EveryFragmentationIff(delim: seq<byte>, maxSize: nat, heap: Heap)
    requires 0 < |delim| <= maxSize < SIZE_T
    ensures (forall frags :: Right(delim, maxSize, frags, heap)) <==> |delim| <= 2 && EnoughChunks(delim, maxSize)
  {
    hide *;
    if |delim| > 2 {
      LongDelimiterFails(delim, maxSize, heap);
    } else if !EnoughChunks(delim, maxSize) {
      var frags := ChunksRunOut(delim, maxSize, heap);
    } else {
      NothingKept(delim);
      forall frags
        ensures Right(delim, maxSize, frags, heap)
      {
        ShortWritesAreCalm(delim, maxSize, [], Direct([], [], false), frags);
        CalmIsRight(delim, maxSize, frags, heap);
      }
    }
  }

  // ----- delimiters that are lost -----

  lemma {:induction false} WriteOneDelivers(delim: seq<byte>, maxSize: nat, st: Chunked, data: seq<byte>, heap: Heap)
    requires |delim| > 0
    ensures var r := ChunkWriteOne(delim, maxSize, st, data, heap); r.Some? ==> st.delivered <= r.value.0.delivered
    decreases |data|
  {
    if data != [] && !st.found {
      var step := ChunkStep(delim, maxSize, st, data, CallAllocation(heap, st));
      if step.Some? && 0 < step.value.0 <= |data| {
        StepDelivers(delim, maxSize, st, data, CallAllocation(heap, st));
        hide ChunkStep, CallAllocation;
        WriteOneDelivers(delim, maxSize, step.value.1, data[step.value.0..], heap);
      }
    }
  }

  lemma StepDelivers(delim: seq<byte>, maxSize: nat, st: Chunked, data: seq<byte>, block: Allocation)
    requires |delim| > 0 && ChunkStep(delim, maxSize, st, data, block).Some?
    ensures st.delivered <= ChunkStep(delim, maxSize, st, data, block).value.1.delivered
  {
    hide Flat, Appended, Taken, Overflows, Holdable, ScannedBorder, Displacement;
  }

  lemma {:induction false} WritesDeliver(delim: seq<byte>, maxSize: nat, st: Chunked, frags: seq<seq<byte>>, heap: Heap)
    requires |delim| > 0
    ensures var r := ChunkWrites(delim, maxSize, st, frags, heap); r.Some? ==> st.delivered <= r.value.0.delivered
    decreases |frags|
  {
    if frags != [] {
      WriteOneDelivers(delim, maxSize, st, frags[0], heap);
      var p := ChunkWriteOne(delim, maxSize, st, frags[0], heap);
      if p.Some? && !p.value.0.found {
        hide ChunkWriteOne;
        WritesDeliver(delim, maxSize, p.value.0, frags[1..], heap);
      }
    }
  }

  /** The writes do not end in a report. */
  predicate Unreported(delim: seq<byte>, maxSize: nat, st: Chunked, frags: seq<seq<byte>>, heap: Heap)
    requires |delim| > 0
  {
    var r := ChunkWrites(delim, maxSize, st, frags, heap);
    r.Some? ==> !r.value.0.found
  }

  /** A delimiter of which a byte was already delivered is not reported any more, however the stream goes on: only
      one that lies wholly behind the delivered bytes could be. */
  lemma DeliveredIsLost(delim: seq<byte>, maxSize: nat, st: Chunked, frags: seq<seq<byte>>, heap: Heap, stream: seq<byte>)
    requires 0 < |delim| && maxSize < SIZE_T && !st.found && Conserved(delim, stream, st, [])
    requires forall p :: |st.delivered| <= p ==> !OccursAt(stream + Join(frags), delim, p)
    ensures Unreported(delim, maxSize, st, frags, heap)
  {
    hide ChunkWrites, Flat;
    var r := ChunkWrites(delim, maxSize, st, frags, heap);
    WritesConserve(delim, maxSize, st, frags, heap, stream);
    WritesDeliver(delim, maxSize, st, frags, heap);
    if r.Some? && r.value.0.found {
      ReportOccurs(delim, stream + Join(frags), r.value.0.delivered, r.value.1);
    }
  }

  lemma ReportOccurs(delim: seq<byte>, stream: seq<byte>, delivered: seq<byte>, rest: seq<byte>)
    requires stream == delivered + delim + rest
    ensures OccursAt(stream, delim, |delivered|)
  {
    assert stream[|delivered|..|delivered| + |delim|] == delim;
  }

  /** Every delimiter of four or more bytes, written as three single bytes and the rest in any fragments: without
      that luck it is never reported. */
  lemma LongDelimiterLost(delim: seq<byte>, maxSize: nat, rest: seq<seq<byte>>, heap: Heap)
    requires 4 <= |delim| <= maxSize < SIZE_T && Join(rest) == delim[3..] && NoLuck(delim, heap)
    ensures var frags := ThreeThen(delim[0], delim[1], delim[2], rest);
            Join(frags) == delim && Unreported(delim, maxSize, START, frags, heap)
  {
    var a, b, y := delim[0], delim[1], delim[2];
    hide *;
    JoinBehindThree(a, b, y, rest);
    assert [a, b, y] + delim[3..] == delim;
    LostBehindThree(delim, maxSize, rest, heap);
  }

  lemma LostBehindThree(delim: seq<byte>, maxSize: nat, rest: seq<seq<byte>>, heap: Heap)
    requires 4 <= |delim| <= maxSize < SIZE_T && NoLuck(delim, heap)
    requires [delim[0], delim[1], delim[2]] + Join(rest) == delim
    ensures Unreported(delim, maxSize, START, ThreeThen(delim[0], delim[1], delim[2], rest), heap)
  {
    var a, b, y := delim[0], delim[1], delim[2];
    hide ChunkWrites, Flat, NoLuck, Join, Conserved, OccursAt, ThreeThen;
    NoRoomBehind(delim);
    LeftoverConserves(delim, a, b, y);
    DeliveredIsLost(delim, maxSize, Leftover(a, b, y), rest, heap, [a, b, y]);
    var st := SpoiledRun(delim, maxSize, y, rest, heap);
  }

  lemma NoRoomBehind(delim: seq<byte>)
    ensures forall p :: 1 <= p ==> !OccursAt(delim, delim, p)
  {
  }

  lemma LeftoverConserves(delim: seq<byte>, a: byte, b: byte, y: byte)
    requires |delim| >= 3
    ensures Conserved(delim, [a, b, y], Leftover(a, b, y), [])
  {
    SpoiledDisplaced(a, b, y);
  }

  lemma JoinBehindThree(a: byte, b: byte, y: byte, rest: seq<seq<byte>>)
    ensures Join(ThreeThen(a, b, y, rest)) == [a, b, y] + Join(rest)
  {
    JoinFront([y], rest);
    JoinFront([b], [[y]] + rest);
    JoinFront([a], [[b]] + ([[y]] + rest));
    assert [a] + ([b] + ([y] + Join(rest))) == [a, b, y] + Join(rest);
  }

  lemma JoinFront(s: seq<byte>, rest: seq<seq<byte>>)
    ensures Join([s] + rest) == s + Join(rest)
  {
    assert ([s] + rest)[1..] == rest;
  }

  /** A byte that the delimiter's first three do not contain. */
  function Outsider(delim: seq<byte>): (y: byte)
    requires |delim| >= 3
    ensures y != delim[0] && y != delim[1] && y != delim[2]
  {
    if 0 !in delim[..3] then 0
    else if 1 !in delim[..3] then 1
    else if 2 !in delim[..3] then 2
    else 3
  }

  lemma LeftoverReads(a: byte, b: byte, y: byte, block: Allocation)
    ensures var cs := Appended(Leftover(a, b, y).buf, [a]);
            Flat(cs) == [b, y, a] && TailRead(cs, 2, block) == [b, y] && TailRead(cs, 1, block) == [y]
  {
    hide Flat, Appended, Copied, GetPosForOffset, Garbage, Displaced, SpoiledBy;
    var cs := [Chunk([b], 1), Chunk([y], 2), Chunk([a], 3)];
    LeftoverAppended(a, b, y);
    LeftoverCopies(cs, a, b, y);
  }

  lemma LeftoverAppended(a: byte, b: byte, y: byte)
    ensures var cs := [Chunk([b], 1), Chunk([y], 2), Chunk([a], 3)];
            Appended(Leftover(a, b, y).buf, [a]) == cs && Flat(cs) == [b, y, a]
  {
    hide Flat, Appended, Displaced, SpoiledBy;
    var two := Leftover(a, b, y).buf;
    SpoiledDisplaced(a, b, y);
    OneByteAppended(two, a);
    assert two + [Chunk([a], 3)] == [Chunk([b], 1), Chunk([y], 2), Chunk([a], 3)];
    FlatConcat(two, [Chunk([a], 3)]);
    FlatOne(Chunk([a], 3));
    assert [b, y] + [a] == [b, y, a];
  }

  lemma LeftoverFinds(cs: seq<Chunk>, a: byte, b: byte, y: byte)
    requires cs == [Chunk([b], 1), Chunk([y], 2), Chunk([a], 3)]
    ensures GetPosForOffset(cs, 1) == Some(0) && GetPosForOffset(cs, 2) == Some(1)
  {
  }

  lemma LeftoverCopies(cs: seq<Chunk>, a: byte, b: byte, y: byte)
    requires cs == [Chunk([b], 1), Chunk([y], 2), Chunk([a], 3)]
    requires Flat(cs) == [b, y, a]
    ensures Copied(cs, 1, 2) == Some([b, y]) && Copied(cs, 2, 1) == Some([y])
  {
    LeftoverFinds(cs, a, b, y);
    hide GetPosForOffset, Flat, Copied;
    CopiedAtChunk(cs, 0, 2);
    CopiedAtChunk(cs, 1, 1);
    FlatHead(cs, 0);
    assert cs[0..] == cs;
    var rest := Flat(cs[1..]);
    assert rest == ([b] + rest)[1..] == [y, a];
    assert [b, y, a][..2] == [b, y] && [y, a][..1] == [y];
  }

  /** A copy that starts at the recorded offset of the chunk it finds is of that chunk and those behind it. */
  lemma CopiedAtChunk(cs: seq<Chunk>, i: nat, n: nat)
    requires i < |cs| && GetPosForOffset(cs, cs[i].offset) == Some(i)
    ensures Copied(cs, cs[i].offset, n) == Some(Leading(Flat(cs[i..]), n))
  {
    FlatHead(cs, i);
    assert cs[i].data[0..] == cs[i].data;
  }

  lemma NothingScanned(cs: seq<Chunk>, delim: seq<byte>, block: Allocation)
    requires |delim| == 3 && |Flat(cs)| == 3
    requires TailRead(cs, 2, block) != delim[..2] && TailRead(cs, 1, block) != delim[..1]
    ensures ScannedBorder(cs, delim, block) == 0
  {
    hide TailRead, Flat;
    assert TailScan(cs, delim, 1, block) == 0;
  }

  lemma NothingKeptBack(delim: seq<byte>, st: Chunked, x: seq<byte>, block: Allocation)
    requires |delim| > 0 && ScannedBorder(Appended(st.buf, x), delim, block) == 0
    ensures KeepBackChunks(delim, st, x, block) == Chunked([], st.delivered + Flat(Appended(st.buf, x)), false)
  {
    hide Flat, Appended, ScannedBorder, Displaced;
    var b := Flat(Appended(st.buf, x));
    assert b[..|b|] == b;
  }

  lemma LeftoverKeepsNothing(delim: seq<byte>, y: byte, block: Allocation)
    requires |delim| == 3 && y != delim[0] && y != delim[1]
    ensures KeepBackChunks(delim, Leftover(delim[0], delim[1], y), [delim[0]], block)
            == Chunked([], [delim[0], delim[1], y, delim[0]], false)
  {
    hide Flat, ScannedBorder, Appended, TailRead, KeepBackChunks;
    var a, b := delim[0], delim[1];
    var st := Leftover(a, b, y);
    LeftoverReads(a, b, y, block);
    assert [b, y][1] != delim[..2][1] && [y][0] != delim[..1][0];
    NothingScanned(Appended(st.buf, [a]), delim, block);
    NothingKeptBack(delim, st, [a], block);
    assert [a] + [b, y, a] == [a, b, y, a];
  }

  lemma StepWithoutFind(delim: seq<byte>, maxSize: nat, st: Chunked, x: seq<byte>, block: Allocation)
    requires |delim| > 0 && Taken(Flat(st.buf), maxSize, x) == x && !Overflows(Flat(st.buf), maxSize, x)
    requires Holdable(|st.buf|, |x|) && First(Flat(Appended(st.buf, x)), delim, 0).None?
    ensures ChunkStep(delim, maxSize, st, x, block) == Some((|x|, KeepBackChunks(delim, st, x, block)))
  {
    hide Flat, Taken, Overflows, Holdable, First, Appended, KeepBackChunks;
  }

  /** Behind such a leftover even the first byte of a delimiter is delivered. */
  lemma FirstByteDelivered(delim: seq<byte>, maxSize: nat, y: byte, block: Allocation)
    requires |delim| == 3 <= maxSize && y != delim[0] && y != delim[1]
    ensures ChunkStep(delim, maxSize, Leftover(delim[0], delim[1], y), [delim[0]], block)
            == Some((1, Chunked([], [delim[0], delim[1], y, delim[0]], false)))
  {
    var a, b := delim[0], delim[1];
    var s := [b, y, a];
    assert First(s, delim, 0).None? by {
      assert s[0..3] == s && s[1] == y;
    }
    assert Taken([b, y], maxSize, [a]) == [a] && !Overflows([b, y], maxSize, [a]);
    hide Flat, Taken, Overflows, First, Appended, TailRead, KeepBackChunks, ChunkStep, Holdable;
    LeftoverReads(a, b, y, block);
    SpoiledDisplaced(a, b, y);
    OneByteHoldable(2);
    StepWithoutFind(delim, maxSize, Leftover(a, b, y), [a], block);
    LeftoverKeepsNothing(delim, y, block);
  }

  /** The writes that lose a delimiter of three bytes, and the stream they make. */
  function LosingWrites(delim: seq<byte>): seq<seq<byte>>
    requires |delim| == 3
  {
    ThreeThen(delim[0], delim[1], Outsider(delim), [[delim[0]]] + [[delim[1]], [delim[2]]])
  }

  lemma LosingStream(delim: seq<byte>)
    requires |delim| == 3
    ensures Join(LosingWrites(delim)) == [delim[0], delim[1], Outsider(delim)] + delim
    ensures [delim[0], delim[1], Outsider(delim), delim[0]] + Join([[delim[1]], [delim[2]]])
            == [delim[0], delim[1], Outsider(delim)] + delim
  {
    hide Join;
    var a, b, c := delim[0], delim[1], delim[2];
    JoinOfTwo(b, c);
    JoinFront([a], [[b], [c]]);
    JoinBehindThree(a, b, Outsider(delim), [[a]] + [[b], [c]]);
    assert [a] + [b, c] == delim;
  }

  lemma LosingRun(delim: seq<byte>, maxSize: nat, heap: Heap)
    requires |delim| == 3 <= maxSize
    ensures ChunkWrites(delim, maxSize, START, LosingWrites(delim), heap)
            == ChunkWrites(delim, maxSize, Chunked([], [delim[0], delim[1], Outsider(delim), delim[0]], false),
                           [[delim[1]], [delim[2]]], heap)
  {
    var a, y, more := delim[0], Outsider(delim), [[delim[1]], [delim[2]]];
    assert [a, delim[1], y] != delim by { assert [a, delim[1], y][2] == y; }
    hide ChunkStep, ChunkWrites, CallAllocation, Flat, Outsider, NoLuck;
    var st := SpoiledRun(delim, maxSize, y, [[a]] + more, heap);
    FirstByteDelivered(delim, maxSize, y, CallAllocation(heap, st));
    WriteInOneCall(delim, maxSize, st, [a], more, heap);
  }

  /** Every delimiter of three bytes: behind its first two bytes and an outsider it is not reported, whatever
      fresh allocations hold. */
  lemma ThreeBytesLost(delim: seq<byte>, maxSize: nat, heap: Heap)
    requires |delim| == 3 <= maxSize < SIZE_T
    ensures Join(LosingWrites(delim)) == [delim[0], delim[1], Outsider(delim)] + delim
    ensures Unreported(delim, maxSize, START, LosingWrites(delim), heap)
  {
    var stream := [delim[0], delim[1], Outsider(delim), delim[0]];
    var end := Chunked([], stream, false);
    EmptyIsTiled();
    hide ChunkWrites, Flat, Outsider, LosingWrites;
    LosingStream(delim);
    LosingRun(delim, maxSize, heap);
    assert stream + [] == stream;
    DeliveredIsLost(delim, maxSize, end, [[delim[1]], [delim[2]]], heap, stream);
  }

  lemma JoinOfTwo(a: byte, b: byte)
    ensures Join([[a], [b]]) == [a, b]
  {
    var none: seq<seq<byte>> := [];
    assert [[a], [b]] == [[a]] + ([[b]] + none);
    JoinFront([b], none);
    JoinFront([a], [[b]] + none);
    assert [a] + ([b] + Join(none)) == [a, b];
  }

  /** So no delimiter of three or more bytes is safe from being lost. */
  lemma EveryLongDelimiterIsLost(delim: seq<byte>, maxSize: nat, heap: Heap) returns (frags: seq<seq<byte>>)
    requires 3 <= |delim| <= maxSize < SIZE_T && (|delim| > 3 ==> NoLuck(delim, heap))
    ensures First(Join(frags), delim, 0).Some? && Unreported(delim, maxSize, START, frags, heap)
  {
    hide Unreported, NoLuck;
    if |delim| == 3 {
      ThreeBytesLost(delim, maxSize, heap);
      frags := LosingWrites(delim);
      assert OccursAt(Join(frags), delim, 3);
    } else {
      var none: seq<seq<byte>> := [];
      JoinFront(delim[3..], none);
      assert delim[3..] + Join(none) == delim[3..];
      LongDelimiterLost(delim, maxSize, [delim[3..]] + none, heap);
      frags := ThreeThen(delim[0], delim[1], delim[2], [delim[3..]] + none);
      assert OccursAt(Join(frags), delim, 0);
    }
  }

  function Bytewise(s: seq<byte>): seq<seq<byte>> {
    seq(|s|, i requires 0 <= i < |s| => [s[i]])
  }

  /** A delimiter of four bytes, itself written one byte at a time: unless a fresh allocation happens to hold its
      first three bytes, it is never reported. */
  lemma FourBytesLost(delim: seq<byte>, maxSize: nat, heap: Heap)
    requires |delim| == 4 <= maxSize < SIZE_T
    requires NoLuck(delim, heap)
    ensures var r := ChunkWrites(delim, maxSize, START, Bytewise(delim), heap);
            && Join(Bytewise(delim)) == delim && First(delim, delim, 0) == Some(0)
            && r.Some? && !r.value.0.found
  {
    hide NoLuck, ChunkWrites, ChunkStep, CallAllocation, Flat;
    var more: seq<seq<byte>> := [];
    var x := [delim[3]];
    var st := SpoiledRun(delim, maxSize, delim[2], [x] + more, heap);
    SpoiledDisplaced(delim[0], delim[1], delim[2]);
    FourthByte(delim, maxSize, st, x, CallAllocation(heap, st));
    WriteInOneCall(delim, maxSize, st, x, more, heap);
    NoWrites(delim, maxSize, ChunkStep(delim, maxSize, st, x, CallAllocation(heap, st)).value.1, heap);
    BytewiseOfFour(delim);
    assert delim[0..4] == delim;
  }

  lemma NoWrites(delim: seq<byte>, maxSize: nat, st: Chunked, heap: Heap)
    requires |delim| > 0
    ensures ChunkWrites(delim, maxSize, st, [], heap) == Some((st, []))
  {
  }

  lemma FourthByte(delim: seq<byte>, maxSize: nat, st: Chunked, x: seq<byte>, block: Allocation)
    requires |delim| == 4 <= maxSize && |x| == 1 && |Flat(st.buf)| == 2 && |st.buf| <= 3
    ensures var step := ChunkStep(delim, maxSize, st, x, block);
            step.Some? && step.value.0 == 1 && !step.value.1.found
  {
    OneByteHoldable(|st.buf|);
    assert Taken(Flat(st.buf), maxSize, x) == x;
    AppendedFlat(st.buf, x);
    hide Taken, Flat, Appended, KeepBackChunks, Holdable;
  }

  lemma BytewiseOfFour(s: seq<byte>)
    requires |s| == 4
    ensures Bytewise(s) == ThreeThen(s[0], s[1], s[2], [[s[3]]] + [])
    ensures Join(Bytewise(s)) == s
  {
    var tail := [[s[1]], [s[2]], [s[3]]];
    assert Bytewise(s) == [[s[0]]] + tail && Bytewise(s)[1..] == tail;
    JoinOfThree(s[1], s[2], s[3]);
  }

  /** For instance a blank line. */
  lemma BlankLineLost(heap: Heap)
    requires seq(3, i requires 0 <= i < 3 => heap(2, 3, i)) != [0x0D, 0x0A, 0x0D]
    ensures var crlf2: seq<byte> := [0x0D, 0x0A, 0x0D, 0x0A];
            var r := ChunkWrites(crlf2, 0x1000, START, [[0x0D], [0x0A], [0x0D], [0x0A]], heap);
            r.Some? && !r.value.0.found
  {
    var crlf2: seq<byte> := [0x0D, 0x0A, 0x0D, 0x0A];
    assert crlf2[..3] == [0x0D, 0x0A, 0x0D];
    assert Bytewise(crlf2) == [[0x0D], [0x0A], [0x0D], [0x0A]];
    hide *;
    FourBytesLost(crlf2, 0x1000, heap);
  }
}
