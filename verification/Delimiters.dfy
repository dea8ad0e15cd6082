/** The SubParser strategies that look for a delimiter, as steps on a flat unparsed buffer, and why
    keeping back the longest possible start of a delimiter is enough. */
module Delimiters {
  import opened Bytes
  import opened Search
  import opened Chunks

  const SIZE_T := 0x1_0000_0000_0000_0000

  // ----- appendToUnparsedBuffer -----

  function SizeLeft(buf: seq<byte>, maxSize: nat): nat {
    if |buf| > maxSize then 0 else maxSize - |buf|
  }

  predicate Overflows(buf: seq<byte>, maxSize: nat, data: seq<byte>) {
    SizeLeft(buf, maxSize) == 0 && data != []
  }

  /** The part of the offered bytes that goes into the buffer. */
  function Taken(buf: seq<byte>, maxSize: nat, data: seq<byte>): seq<byte> {
    data[..Min(|data|, SizeLeft(buf, maxSize))]
  }

  /** Whether the buffer, already holding `chunks` chunks, has chunks left for n more bytes. */
  predicate Holdable(chunks: nat, n: nat) {
    n == 0 || chunks + ChunksFor(n, DEFAULTS.maxChunkSize) <= DEFAULTS.maxChunks
  }

  // ----- the displacement expression -----

  /** (needlePos - prevSize) + delimiterSize in size_t arithmetic. */
  function Displacement(needlePos: nat, prevSize: nat, delimSize: nat): nat {
    ((needlePos - prevSize) % SIZE_T + delimSize) % SIZE_T
  }

  ghost predicate Holds(buf: seq<byte>, delim: seq<byte>) {
    exists p :: 0 <= p && OccursAt(buf, delim, p)
  }

  /** As long as the buffer held no complete delimiter before, the wrapping expression does not wrap:
      it counts at least one and at most all of the bytes just appended. */
  lemma DisplacementIsExact(buf: seq<byte>, x: seq<byte>, delim: seq<byte>, p: nat)
    requires |delim| > 0 && |buf| + |x| < SIZE_T
    requires !Holds(buf, delim) && OccursAt(buf + x, delim, p)
    ensures Displacement(p, |buf|, |delim|) == p + |delim| - |buf|
    ensures 1 <= p + |delim| - |buf| <= |x|
  {
    assert (buf + x)[0..|buf|] == buf;
    if p + |delim| <= |buf| {
      OccursInSlice(buf + x, delim, p, 0, |buf|);
    }
    var d := p - |buf|;
    if d < 0 {
      assert d % SIZE_T == d + SIZE_T;
    }
  }

  /** needlePos + delimiterSize - prevSize in size_t arithmetic, as parseByMultiDelimiter writes it. */
  function MultiDisplacement(needlePos: nat, prevSize: nat, delimSize: nat): nat {
    ((needlePos + delimSize) % SIZE_T - prevSize) % SIZE_T
  }

  /** The list form of find: the first needle of the list that occurs at all, at its first position. */
  function FirstOf(s: seq<byte>, needles: seq<seq<byte>>): (r: Option<(nat, seq<byte>)>)
    ensures r.Some? ==> r.value.1 in needles && First(s, r.value.1, 0) == Some(r.value.0)
    ensures r.None? ==> forall d :: d in needles ==> First(s, d, 0).None?
  {
    if needles == [] then None
    else
      match First(s, needles[0], 0)
      case Some(p) => Some((p, needles[0]))
      case None => FirstOf(s, needles[1..])
  }

  /** The order of the list decides, not the order in the text. */
  lemma {:induction false} FirstOfByPriority(s: seq<byte>, needles: seq<seq<byte>>) returns (i: nat)
    requires FirstOf(s, needles).Some?
    ensures i < |needles| && needles[i] == FirstOf(s, needles).value.1
    ensures forall j :: 0 <= j < i ==> First(s, needles[j], 0).None?
  {
    hide First;
    if First(s, needles[0], 0).Some? {
      i := 0;
    } else {
      var k := FirstOfByPriority(s, needles[1..]);
      i := k + 1;
      assert forall j :: 0 < j < i ==> needles[j] == needles[1..][j - 1];
    }
  }

  /** The multi-delimiter expression does not wrap either, and a call that finds nothing leaves a buffer
      without any complete delimiter, which is what the next call relies on. */
  lemma MultiDisplacementIsExact(buf: seq<byte>, x: seq<byte>, delims: seq<seq<byte>>)
    requires |buf| + |x| < SIZE_T
    requires forall d :: d in delims ==> |d| > 0 && !Holds(buf, d)
    ensures match FirstOf(buf + x, delims)
            case Some((p, d)) =>
              MultiDisplacement(p, |buf|, |d|) == p + |d| - |buf| && 1 <= p + |d| - |buf| <= |x|
            case None => forall d :: d in delims ==> !Holds(buf + x, d)
  {
    var f := FirstOf(buf + x, delims);
    hide FirstOf, First, OccursAt, Holds;
    if f.Some? {
      var (p, d) := f.value;
      DisplacementIsExact(buf, x, d, p);
    } else {
      forall d | d in delims
        ensures !Holds(buf + x, d)
      {
        NoneHeld(buf + x, d);
      }
    }
  }

  lemma NoneHeld(s: seq<byte>, d: seq<byte>)
    requires First(s, d, 0).None?
    ensures !Holds(s, d)
  {
  }

  /** Extending the text behind its first occurrence does not move it. */
  lemma FirstInPrefix(s: seq<byte>, t: seq<byte>, delim: seq<byte>)
    requires First(s, delim, 0).Some?
    ensures First(s + t, delim, 0) == First(s, delim, 0)
  {
    var p := First(s, delim, 0).value;
    assert (s + t)[0..|s|] == s;
    OccursInSlice(s + t, delim, p, 0, |s|);
    forall i | 0 <= i < p
      ensures !OccursAt(s + t, delim, i)
    {
      OccursInSlice(s + t, delim, i, 0, |s|);
    }
    FirstIs(s + t, delim, 0, p);
  }

  // ----- the retained tail -----

  /** s ends with the first v bytes of delim. */
  predicate EndsWith(s: seq<byte>, delim: seq<byte>, v: nat) {
    v <= |s| && v <= |delim| && s[|s| - v..] == delim[..v]
  }

  /** The descending search of getLastBytesInCommon, from v down. */
  function LastCommon(s: seq<byte>, delim: seq<byte>, v: nat): (r: nat)
    requires v <= |s| && v <= |delim|
    ensures r <= v && EndsWith(s, delim, r)
    ensures forall w :: r < w <= v ==> !EndsWith(s, delim, w)
  {
    if v == 0 || EndsWith(s, delim, v) then v else LastCommon(s, delim, v - 1)
  }

  /** Length of the longest suffix of s that is a proper prefix of the delimiter. */
  function Border(s: seq<byte>, delim: seq<byte>): (r: nat)
    requires |delim| > 0
    ensures r < |delim| && r <= |s| && EndsWith(s, delim, r)
    ensures forall w :: r < w < |delim| ==> !EndsWith(s, delim, w)
  {
    LastCommon(s, delim, Min(|s|, |delim| - 1))
  }

  function Tail(s: seq<byte>, delim: seq<byte>): seq<byte>
    requires |delim| > 0
  {
    s[|s| - Border(s, delim)..]
  }

  lemma BorderIs(s: seq<byte>, delim: seq<byte>, r: nat)
    requires |delim| > 0 && r < |delim| && EndsWith(s, delim, r)
    requires forall w :: r < w < |delim| ==> !EndsWith(s, delim, w)
    ensures Border(s, delim) == r
  {
  }

  lemma EndsWithCut(s: seq<byte>, x: seq<byte>, delim: seq<byte>, v: nat)
    requires |x| <= v && EndsWith(s + x, delim, v)
    ensures EndsWith(s, delim, v - |x|)
  {
    var k := v - |x|;
    assert s[|s| - k..] == (s + x)[|s| - k..][..k];
    assert delim[..v][..k] == delim[..k];
  }

  /** What was dropped in front of the tail can never matter to a later ending. */
  lemma EndsWithTail(s: seq<byte>, x: seq<byte>, delim: seq<byte>, v: nat)
    requires |delim| > 0 && v < |delim|
    ensures EndsWith(s + x, delim, v) <==> EndsWith(Tail(s, delim) + x, delim, v)
  {
    var t := Tail(s, delim);
    if v <= |t| + |x| {
      assert (s + x)[|s + x| - v..] == (t + x)[|t + x| - v..];
    } else if EndsWith(s + x, delim, v) {
      EndsWithCut(s, x, delim, v);
    }
  }

  /** The retained tail of the whole stream can be computed from the retained tail so far. */
  lemma BorderFromTail(s: seq<byte>, x: seq<byte>, delim: seq<byte>)
    requires |delim| > 0
    ensures Border(Tail(s, delim) + x, delim) == Border(s + x, delim)
    ensures Tail(Tail(s, delim) + x, delim) == Tail(s + x, delim)
  {
    var t := Tail(s, delim);
    var b := Border(s + x, delim);
    forall v | 0 <= v < |delim|
      ensures EndsWith(s + x, delim, v) <==> EndsWith(t + x, delim, v)
    {
      EndsWithTail(s, x, delim, v);
    }
    assert b <= |t + x| by { assert EndsWith(t + x, delim, b); }
    SameEnding(s, |s| - |t|, x, b);
    hide EndsWith, Border;
    BorderIs(t + x, delim, b);
  }

  lemma SameEnding(s: seq<byte>, cut: nat, x: seq<byte>, b: nat)
    requires cut <= |s| && b <= |s[cut..] + x|
    ensures (s + x)[|s + x| - b..] == (s[cut..] + x)[|s[cut..] + x| - b..]
  {
  }

  /** An occurrence that was not there before lies entirely within the tail and the new bytes. */
  lemma OccursFromTail(s: seq<byte>, x: seq<byte>, delim: seq<byte>, p: nat)
    requires |delim| > 0 && !Holds(s, delim) && OccursAt(s + x, delim, p)
    ensures |s| - Border(s, delim) <= p
    ensures OccursAt(Tail(s, delim) + x, delim, p - (|s| - Border(s, delim)))
  {
    var cut := |s| - Border(s, delim);
    assert (s + x)[0..|s|] == s;
    if p + |delim| <= |s| {
      OccursInSlice(s + x, delim, p, 0, |s|);
    } else {
      if p <= |s| {
        OverlapIsEnding(s, x, delim, p);
      }
      OccursInSuffix(s + x, delim, p, cut);
      assert (s + x)[cut..] == Tail(s, delim) + x;
    }
  }

  /** An occurrence that starts in s and ends behind it shows an ending of s. */
  lemma OverlapIsEnding(s: seq<byte>, x: seq<byte>, delim: seq<byte>, p: nat)
    requires OccursAt(s + x, delim, p) && p <= |s| < p + |delim|
    ensures EndsWith(s, delim, |s| - p)
  {
    var v := |s| - p;
    assert s[p..] == (s + x)[p..p + |delim|][..v] == delim[..v];
  }

  lemma TailAndNew(s: seq<byte>, x: seq<byte>, delim: seq<byte>)
    requires |delim| > 0
    ensures (s + x)[|s| - Border(s, delim)..] == Tail(s, delim) + x
    ensures |Tail(s, delim)| == Border(s, delim)
  {
    hide Border, EndsWith;
  }

  lemma NoneBeforeTail(s: seq<byte>, x: seq<byte>, delim: seq<byte>)
    requires |delim| > 0 && !Holds(s, delim)
    ensures forall q :: 0 <= q < |s| - Border(s, delim) ==> !OccursAt(s + x, delim, q)
  {
    hide Tail, Holds, Border, OccursAt, EndsWith;
    forall q | 0 <= q < |s| - Border(s, delim)
      ensures !OccursAt(s + x, delim, q)
    {
      if OccursAt(s + x, delim, q) {
        OccursFromTail(s, x, delim, q);
      }
    }
  }

  /** The first delimiter of the stream is the first delimiter of tail and new bytes, shifted. */
  lemma FirstFromTail(s: seq<byte>, x: seq<byte>, delim: seq<byte>)
    requires |delim| > 0 && !Holds(s, delim)
    ensures var cut := |s| - Border(s, delim);
            var f := First(Tail(s, delim) + x, delim, 0);
            First(s + x, delim, 0) == if f.Some? then Some(cut + f.value) else None
  {
    hide Tail, Holds, Border, First, OccursAt, EndsWith;
    TailAndNew(s, x, delim);
    NoneBeforeTail(s, x, delim);
    FirstInSuffix(s + x, delim, |s| - Border(s, delim));
  }
}
