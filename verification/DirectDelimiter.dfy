/** The DIRECT_DELIMITER strategy over whole streams: pieces are delivered as they arrive, a possible
    start of the delimiter is kept back, and the driver feeds again whatever was not consumed. */
module DirectDelimiter {
  import opened Bytes
  import opened Search
  import opened Delimiters

  /** The unparsed buffer, everything delivered so far, and whether the delimiter was reported. */
  datatype Direct = Direct(buf: seq<byte>, delivered: seq<byte>, found: bool)

  /** What parseDirectDelimiter answers and leaves behind; None when the buffer overflows. */
  function DirectStep(delim: seq<byte>, maxSize: nat, st: Direct, data: seq<byte>): Option<(nat, Direct)>
    requires |delim| > 0
  {
    if Overflows(st.buf, maxSize, data) then None
    else
      var x := Taken(st.buf, maxSize, data);
      var b := st.buf + x;
      match First(b, delim, 0)
      case None =>
        Some((|x|, KeepBack(delim, st, x)))
      case Some(p) =>
        Some((Displacement(p, |st.buf|, |delim|), Direct([], st.delivered + b[..p], true)))
  }

  /** After `stream` without a delimiter: nothing is lost, and what is kept back is the longest
      suffix of the whole stream that could start a delimiter. */
  ghost predicate Kept(delim: seq<byte>, stream: seq<byte>, st: Direct)
    requires |delim| > 0
  {
    && !st.found
    && !Holds(stream, delim)
    && st.buf == Tail(stream, delim)
    && st.delivered + st.buf == stream
  }

  /** The delimiter was reported at its first occurrence and exactly the bytes before it were delivered. */
  ghost predicate Reported(delim: seq<byte>, stream: seq<byte>, st: Direct) {
    var f := First(stream, delim, 0);
    st.found && f.Some? && st.delivered == stream[..f.value]
  }

  lemma NotHeld(stream: seq<byte>, delim: seq<byte>)
    ensures Holds(stream, delim) <==> First(stream, delim, 0).Some?
  {
    var f := First(stream, delim, 0);
    if f.Some? {
      assert OccursAt(stream, delim, f.value);
    }
  }

  /** There is always room for at least one more byte. */
  lemma StepTakes(delim: seq<byte>, maxSize: nat, stream: seq<byte>, st: Direct, data: seq<byte>)
    requires 0 < |delim| <= maxSize && Kept(delim, stream, st) && data != []
    ensures !Overflows(st.buf, maxSize, data)
    ensures 1 <= |Taken(st.buf, maxSize, data)| && |st.buf| + |Taken(st.buf, maxSize, data)| <= maxSize
    ensures Taken(st.buf, maxSize, data) <= data
  {
  }

  lemma StillNone(delim: seq<byte>, stream: seq<byte>, x: seq<byte>)
    requires |delim| > 0 && !Holds(stream, delim) && First(Tail(stream, delim) + x, delim, 0).None?
    ensures !Holds(stream + x, delim)
  {
    FirstFromTail(stream, x, delim);
    NotHeld(stream + x, delim);
  }

  lemma StepWithoutDelimiter(delim: seq<byte>, maxSize: nat, stream: seq<byte>, st: Direct, data: seq<byte>)
    requires 0 < |delim| <= maxSize && Kept(delim, stream, st) && data != []
    requires First(st.buf + Taken(st.buf, maxSize, data), delim, 0).None?
    ensures var x := Taken(st.buf, maxSize, data);
            var r := DirectStep(delim, maxSize, st, data);
            r.Some? && r.value.0 == |x| && Kept(delim, stream + x, r.value.1)
  {
    StepTakes(delim, maxSize, stream, st, data);
    KeptStep(delim, stream, st, Taken(st.buf, maxSize, data));
    hide Taken, Overflows, Border, Kept, First;
  }

  /** The state a call without a delimiter leaves. */
  function KeepBack(delim: seq<byte>, st: Direct, x: seq<byte>): Direct
    requires |delim| > 0
  {
    var b := st.buf + x;
    var k := |b| - Border(b, delim);
    Direct(b[k..], st.delivered + b[..k], false)
  }

  lemma KeptStep(delim: seq<byte>, stream: seq<byte>, st: Direct, x: seq<byte>)
    requires |delim| > 0 && Kept(delim, stream, st) && First(st.buf + x, delim, 0).None?
    ensures Kept(delim, stream + x, KeepBack(delim, st, x))
  {
    StillNone(delim, stream, x);
    KeptTail(delim, stream, st, x);
    KeptAll(st.delivered, st.buf, x, |st.buf + x| - Border(st.buf + x, delim), stream);
    hide Border, Tail, Holds;
  }

  lemma KeptTail(delim: seq<byte>, stream: seq<byte>, st: Direct, x: seq<byte>)
    requires |delim| > 0 && st.buf == Tail(stream, delim)
    ensures KeepBack(delim, st, x).buf == Tail(stream + x, delim)
  {
    BorderFromTail(stream, x, delim);
    hide Border;
  }

  lemma KeptAll(d: seq<byte>, t: seq<byte>, x: seq<byte>, k: nat, s: seq<byte>)
    requires d + t == s && k <= |t + x|
    ensures (d + (t + x)[..k]) + (t + x)[k..] == s + x
  {
    ConcatAssoc(d, (t + x)[..k], (t + x)[k..]);
    assert (t + x)[..k] + (t + x)[k..] == t + x;
    ConcatAssoc(d, t, x);
  }

  /** Where the first delimiter of stream and data lies, seen from the buffer. */
  lemma FirstSeenInBuffer(delim: seq<byte>, stream: seq<byte>, x: seq<byte>, data: seq<byte>)
    requires |delim| > 0 && !Holds(stream, delim) && x <= data
    requires First(Tail(stream, delim) + x, delim, 0).Some?
    ensures First(stream + data, delim, 0)
            == Some(|stream| - |Tail(stream, delim)| + First(Tail(stream, delim) + x, delim, 0).value)
    ensures First(Tail(stream, delim) + x, delim, 0).value + |delim| <= |Tail(stream, delim) + x|
  {
    TailAndNew(stream, x, delim);
    hide Tail, Holds, Border, First, EndsWith;
    FirstFromTail(stream, x, delim);
    assert stream + data == (stream + x) + data[|x|..];
    FirstInPrefix(stream + x, data[|x|..], delim);
  }

  lemma DeliveredBefore(d: seq<byte>, t: seq<byte>, x: seq<byte>, data: seq<byte>, p: nat)
    requires x <= data && p <= |t| + |x|
    ensures d + (t + x)[..p] == ((d + t) + data)[..|d| + p]
  {
  }

  lemma TailHoldsNone(delim: seq<byte>, stream: seq<byte>)
    requires |delim| > 0
    ensures !Holds(Tail(stream, delim), delim)
  {
  }

  lemma StepWithDelimiter(delim: seq<byte>, maxSize: nat, stream: seq<byte>, st: Direct, data: seq<byte>)
    requires 0 < |delim| <= maxSize < SIZE_T && Kept(delim, stream, st) && data != []
    requires First(st.buf + Taken(st.buf, maxSize, data), delim, 0).Some?
    ensures var r := DirectStep(delim, maxSize, st, data);
            && r.Some? && Reported(delim, stream + data, r.value.1)
            && 1 <= r.value.0 <= |data|
            && |stream| + r.value.0 == First(stream + data, delim, 0).value + |delim|
  {
    StepTakes(delim, maxSize, stream, st, data);
    hide Taken, Overflows, Border, Holds, EndsWith, First, OccursAt, Displacement, DirectStep, Tail;
    var x := Taken(st.buf, maxSize, data);
    var p := First(st.buf + x, delim, 0).value;
    StepReports(delim, maxSize, st, data);
    FirstSeenInBuffer(delim, stream, x, data);
    TailHoldsNone(delim, stream);
    DisplacementIsExact(st.buf, x, delim, p);
    DeliveredBefore(st.delivered, st.buf, x, data, p);
  }

  lemma StepReports(delim: seq<byte>, maxSize: nat, st: Direct, data: seq<byte>)
    requires |delim| > 0 && !Overflows(st.buf, maxSize, data)
    requires First(st.buf + Taken(st.buf, maxSize, data), delim, 0).Some?
    ensures var b := st.buf + Taken(st.buf, maxSize, data);
            var p := First(b, delim, 0).value;
            DirectStep(delim, maxSize, st, data)
            == Some((Displacement(p, |st.buf|, |delim|), Direct([], st.delivered + b[..p], true)))
  {
    hide Taken, Overflows, First, Displacement;
  }

  // ----- one write, fed again until it is used up or the delimiter is reported -----

  function WriteOne(delim: seq<byte>, maxSize: nat, st: Direct, data: seq<byte>): Option<(Direct, seq<byte>)>
    requires |delim| > 0
    decreases |data|
  {
    if data == [] || st.found then Some((st, data))
    else
      match DirectStep(delim, maxSize, st, data)
      case None => None
      case Some((n, next)) =>
        if n == 0 || n > |data| then None else WriteOne(delim, maxSize, next, data[n..])
  }

  /** Where a stream ends up, whatever was cut where: nothing found and the longest possible start of a
      delimiter kept back, or the first delimiter reported and everything behind it left over. */
  ghost predicate StreamOutcome(delim: seq<byte>, stream: seq<byte>, end: Direct, rest: seq<byte>)
    requires |delim| > 0
  {
    match First(stream, delim, 0)
    case None => Kept(delim, stream, end) && rest == []
    case Some(p) => Reported(delim, stream, end) && p + |delim| <= |stream| && rest == stream[p + |delim|..]
  }

  lemma KeptOutcome(delim: seq<byte>, stream: seq<byte>, st: Direct)
    requires |delim| > 0 && Kept(delim, stream, st)
    ensures StreamOutcome(delim, stream, st, [])
  {
    NotHeld(stream, delim);
  }

  lemma ReportedOutcome(delim: seq<byte>, stream: seq<byte>, data: seq<byte>, st: Direct, n: nat)
    requires |delim| > 0 && Reported(delim, stream + data, st) && n <= |data|
    requires |stream| + n == First(stream + data, delim, 0).value + |delim|
    ensures StreamOutcome(delim, stream + data, st, data[n..])
  {
    hide First, OccursAt, Reported, Kept;
    var s := stream + data;
    assert s[|stream| + n..] == data[n..];
    assert First(s, delim, 0).Some? by { FoundWhenReported(delim, s, st); }
  }

  lemma {:induction false} WriteOneOutcome(delim: seq<byte>, maxSize: nat, stream: seq<byte>, st: Direct, data: seq<byte>)
    requires 0 < |delim| <= maxSize < SIZE_T && Kept(delim, stream, st)
    ensures var r := WriteOne(delim, maxSize, st, data);
            r.Some? && StreamOutcome(delim, stream + data, r.value.0, r.value.1)
    decreases |data|
  {
    hide Taken, Border, Holds, EndsWith, First, OccursAt, Reported, Tail, StreamOutcome, DirectStep;
    if data == [] {
      assert stream + data == stream;
      KeptOutcome(delim, stream, st);
    } else {
      var x := Taken(st.buf, maxSize, data);
      if First(st.buf + x, delim, 0).None? {
        StepWithoutDelimiter(delim, maxSize, stream, st, data);
        StepTakes(delim, maxSize, stream, st, data);
        var next := DirectStep(delim, maxSize, st, data).value.1;
        WriteOneOutcome(delim, maxSize, stream + x, next, data[|x|..]);
        assert (stream + x) + data[|x|..] == stream + data;
      } else {
        StepWithDelimiter(delim, maxSize, stream, st, data);
        var (n, next) := DirectStep(delim, maxSize, st, data).value;
        ReportedOutcome(delim, stream, data, next, n);
        assert next.found by { FoundWhenReported(delim, stream + data, next); }
      }
    }
  }

  lemma FoundWhenReported(delim: seq<byte>, stream: seq<byte>, st: Direct)
    requires Reported(delim, stream, st)
    ensures st.found && First(stream, delim, 0).Some?
  {
  }

  // ----- whole fragmentations -----

  /** A sequence of writes; after the delimiter was reported nothing more goes to this sub-parser. */
  function WriteRun(delim: seq<byte>, maxSize: nat, st: Direct, frags: seq<seq<byte>>): Option<(Direct, seq<byte>)>
    requires |delim| > 0
    decreases |frags|
  {
    if frags == [] then Some((st, []))
    else
      match WriteOne(delim, maxSize, st, frags[0])
      case None => None
      case Some((mid, left)) =>
        if mid.found then Some((mid, left + Join(frags[1..])))
        else WriteRun(delim, maxSize, mid, frags[1..])
  }

  /** More bytes behind a reported delimiter are only left over. */
  lemma OutcomeExtends(delim: seq<byte>, s: seq<byte>, t: seq<byte>, st: Direct, rest: seq<byte>)
    requires |delim| > 0 && StreamOutcome(delim, s, st, rest) && st.found
    ensures StreamOutcome(delim, s + t, st, rest + t)
  {
    FirstInPrefix(s, t, delim);
    var p := First(s, delim, 0).value;
    assert (s + t)[p + |delim|..] == s[p + |delim|..] + t;
    assert (s + t)[..p] == s[..p];
  }

  lemma OutcomeIsKept(delim: seq<byte>, s: seq<byte>, st: Direct, rest: seq<byte>)
    requires |delim| > 0 && StreamOutcome(delim, s, st, rest) && !st.found
    ensures Kept(delim, s, st)
  {
  }

  lemma {:induction false} WritesOutcome(delim: seq<byte>, maxSize: nat, stream: seq<byte>, st: Direct,
                                         frags: seq<seq<byte>>)
    requires 0 < |delim| <= maxSize < SIZE_T && Kept(delim, stream, st)
    ensures var r := WriteRun(delim, maxSize, st, frags);
            r.Some? && StreamOutcome(delim, stream + Join(frags), r.value.0, r.value.1)
    decreases |frags|
  {
    hide First, OccursAt, WriteOne, StreamOutcome, Kept, Holds;
    if frags == [] {
      assert stream + Join(frags) == stream;
      KeptOutcome(delim, stream, st);
    } else {
      WriteOneOutcome(delim, maxSize, stream, st, frags[0]);
      var (mid, left) := WriteOne(delim, maxSize, st, frags[0]).value;
      var s, t := stream + frags[0], Join(frags[1..]);
      ConcatAssoc(stream, frags[0], t);
      if mid.found {
        OutcomeExtends(delim, s, t, mid, left);
      } else {
        OutcomeIsKept(delim, s, mid, left);
        WritesOutcome(delim, maxSize, s, mid, frags[1..]);
      }
    }
  }

  /** No write is refused, and every fragmentation of a stream leads to the outcome of the stream itself. */
  lemma EveryFlatFragmentation(delim: seq<byte>, maxSize: nat, frags: seq<seq<byte>>)
    requires 0 < |delim| <= maxSize < SIZE_T
    ensures var r := WriteRun(delim, maxSize, Direct([], [], false), frags);
            r.Some? && StreamOutcome(delim, Join(frags), r.value.0, r.value.1)
  {
    var none: seq<byte> := [];
    NotHeld(none, delim);
    assert none + none == none && Tail(none, delim) == none;
    WritesOutcome(delim, maxSize, none, Direct([], [], false), frags);
    assert none + Join(frags) == Join(frags);
  }
}
