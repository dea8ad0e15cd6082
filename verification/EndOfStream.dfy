/** The empty write that marks the end of a stream: what the current sub-parser does with its residue, what
    parseData makes of the answer, and what a whole stream of delimited tokens then reads as. */
module EndOfStream {
  import opened Bytes
  import opened Search
  import opened Chunks
  import opened Delimiters
  import opened Tokenizer

  // ----- one empty write -----

  /** A sub-parser that waits for a delimiter parses what it has, all of it, and the answer is obeyed at once. */
  lemma EofFlushes(p: Protocol, s: State)
    requires ValidProtocol(p) && ValidState(s) && s.sub.Some? && s.sub.value.kind.Delim?
    ensures var ts := s.tokens + [s.sub.value.buf];
            var o := Drive(p, s, [], 0);
            && o.state.tokens == ts && o.calls == 1
            && match p.verdict(ts)
               case Error => o.result.None?
               case GetMoreData =>
                 && o.result == Some(0) && o.state.finished == s.finished
                 && o.state.sub == Some(Sub(s.sub.value.kind, [], 0, true))
               case GotoNextSubParser =>
                 match p.next(ts)
                 case Failed => o.result.None?
                 case Ended => o.result == Some(0) && o.state.sub.None? && o.state.finished
                 case To(kind) =>
                   o.result == Some(0) && o.state.finished == s.finished && o.state.sub == Some(Sub(kind, [], 0, false))
  {
    var sub := s.sub.value;
    FlushCall(p, s.tokens, sub);
    DriveAfterCall(p, s, [], 0);
    hide Feed, Drive, OnePass, ValidSub, ValidProtocol, ValidKind;
  }

  lemma FlushCall(p: Protocol, ts: Tokens, sub: Sub)
    requires ValidSub(sub) && sub.kind.Delim?
    ensures Feed(p, ts, sub, []) == Fed(0, [], 0, Some(sub.buf), p.verdict(ts + [sub.buf]))
  {
    assert sub.buf + [] == sub.buf;
    NoneHeldFound(sub.buf, sub.kind.delim);
    hide First, Holds;
  }

  lemma NoneHeldFound(s: seq<byte>, d: seq<byte>)
    requires !Holds(s, d)
    ensures First(s, d, 0).None?
  {
  }

  /** A sub-parser that waits for a size gives up: what it has is dropped unparsed, and the chain goes on. */
  lemma EofAbandons(p: Protocol, s: State)
    requires ValidProtocol(p) && ValidState(s) && s.sub.Some? && s.sub.value.kind.Fixed?
    ensures var o := Drive(p, s, [], 0);
            && o.state.tokens == s.tokens && o.calls == 1
            && match p.next(s.tokens)
               case Failed => o.result.None?
               case Ended => o.result == Some(0) && o.state.sub.None? && o.state.finished
               case To(kind) => o.result == Some(0) && o.state.sub == Some(Sub(kind, [], 0, false))
  {
  }

  // ----- a whole stream -----

  /** Tokens with the delimiter between them. */
  function Glue(ts: Tokens, d: seq<byte>): seq<byte> {
    if ts == [] then []
    else if |ts| == 1 then ts[0]
    else ts[0] + d + Glue(ts[1..], d)
  }

  /** The first delimiter behind the token is the one that was put there. */
  predicate Separable(t: seq<byte>, d: seq<byte>) {
    First(t + d, d, 0) == Some(|t|)
  }

  /** No answer but to go on. */
  ghost predicate AlwaysMore(p: Protocol) {
    forall ts :: p.verdict(ts) == GetMoreData
  }

  /** The split of a stream is its tokens and its residue: put together again they are the stream, every token
      ends at the first delimiter, and the residue holds none. */
  lemma {:induction false} TokenizeGlues(p: Protocol, k: Kind, ts: Tokens, stream: seq<byte>) returns (us: Tokens)
    requires ValidProtocol(p) && AlwaysMore(p) && ValidKind(k) && k.Delim?
    ensures var split := Tokenize(p, k, ts, stream);
            && split.More? && split.kind == k && split.tokens == ts + us
            && Glue(us + [split.residue], k.delim) == stream
            && First(split.residue, k.delim, 0).None?
            && forall i :: 0 <= i < |us| ==> Separable(us[i], k.delim)
    decreases |stream|
  {
    hide First, Cut, AlwaysMore, Separable, Tokenize, Glue, ValidProtocol;
    var c := Cut(k, stream);
    CutShrinks(k, stream);
    TokenizeStep(p, k, ts, stream);
    if c.None? {
      us := [];
      NoCut(k.delim, k.max, stream);
      assert us + [stream] == [stream] && ts + us == ts;
    } else {
      var (t, rest) := c.value;
      CutIsFirst(k.delim, k.max, stream);
      var vs := TokenizeGlues(p, k, ts + [t], rest);
      var residue := Tokenize(p, k, ts + [t], rest).residue;
      us := [t] + vs;
      ConcatAssoc(ts, [t], vs);
      ConcatAssoc([t], vs, [residue]);
      GlueFront(t, vs + [residue], k.delim);
    }
  }

  lemma NoCut(d: seq<byte>, max: nat, stream: seq<byte>)
    requires Cut(Delim(d, max), stream).None?
    ensures First(stream, d, 0).None? && Glue([stream], d) == stream
  {
  }

  lemma TokenizeStep(p: Protocol, k: Kind, ts: Tokens, stream: seq<byte>)
    requires ValidProtocol(p) && AlwaysMore(p) && ValidKind(k)
    ensures var c := Cut(k, stream);
            Tokenize(p, k, ts, stream)
            == if c.None? then More(ts, k, stream) else Tokenize(p, k, ts + [c.value.0], c.value.1)
  {
    CutShrinks(k, stream);
    hide Cut;
    if Cut(k, stream).Some? {
      assert p.verdict(ts + [Cut(k, stream).value.0]) == GetMoreData;
    }
  }

  lemma GlueFront(t: seq<byte>, more: Tokens, d: seq<byte>)
    requires more != []
    ensures Glue([t] + more, d) == t + d + Glue(more, d)
  {
    assert ([t] + more)[1..] == more;
  }

  lemma CutIsFirst(d: seq<byte>, max: nat, stream: seq<byte>)
    requires |d| > 0 && Cut(Delim(d, max), stream).Some?
    ensures var c := Cut(Delim(d, max), stream).value;
            stream == c.0 + d + c.1 && Separable(c.0, d)
  {
    var q := First(stream, d, 0).value;
    var t, rest := stream[..q], stream[q + |d|..];
    assert stream[q..q + |d|] == d;
    var front := t + d;
    assert stream == front + rest && stream[0..|front|] == front;
    OccursInSlice(stream, d, q, 0, |front|);
    forall i | 0 <= i < q
      ensures !OccursAt(front, d, i)
    {
      OccursInSlice(stream, d, i, 0, |front|);
    }
    FirstIs(front, d, 0, q);
  }

  /** Every stream of delimited tokens, cut into writes in any way that succeeds and ended by an empty write: the
      last token recorded is the residue, the buffer is empty, and the recorded tokens with the delimiter between
      them are the stream, each but the last ending at its first delimiter. */
  lemma EofCompletesStream(p: Protocol, kind: Kind, frags: seq<seq<byte>>)
    requires ValidProtocol(p) && AlwaysMore(p) && ValidKind(kind) && kind.Delim? && NonEmpty(frags)
    requires var start := State(Some(Fresh(kind)), [], false); ValidState(start) && Writes(p, start, frags).Some?
    ensures var s := Writes(p, State(Some(Fresh(kind)), [], false), frags).value;
            && s.sub.Some? && s.sub.value.kind == kind
            && var o := Drive(p, s, [], 0);
               && o.result == Some(0) && o.state.sub == Some(Sub(kind, [], 0, true))
               && o.state.tokens == s.tokens + [s.sub.value.buf]
               && Glue(o.state.tokens, kind.delim) == Join(frags)
               && First(s.sub.value.buf, kind.delim, 0).None?
               && forall i :: 0 <= i < |s.tokens| ==> Separable(s.tokens[i], kind.delim)
  {
    var start := State(Some(Fresh(kind)), [], false);
    var s := Writes(p, start, frags).value;
    if frags == [] {
      NoneHeldFound([], kind.delim);
      EofFlushes(p, s);
      var none: Tokens := [];
      assert none + [s.sub.value.buf] == [s.sub.value.buf];
    } else {
      WritesAreTokenize(p, start, frags);
      assert [] + Join(frags) == Join(frags);
      hide First, Holds, Separable, Drive, Tokenize, Writes, ValidSub;
      var us := TokenizeGlues(p, kind, [], Join(frags));
      assert [] + us == us;
      EofFlushes(p, s);
      assert p.verdict(s.tokens + [s.sub.value.buf]) == GetMoreData;
    }
  }

  // ----- the limit on calls -----

  function Repeated(d: seq<byte>, n: nat): seq<byte> {
    if n == 0 then [] else d + Repeated(d, n - 1)
  }

  lemma CutRepeated(d: seq<byte>, max: nat, n: nat)
    requires |d| > 0 && n > 0
    ensures Cut(Delim(d, max), Repeated(d, n)) == Some(([], Repeated(d, n - 1)))
    ensures |Repeated(d, n)| == |d| + |Repeated(d, n - 1)|
    ensures Repeated(d, n - 1) == [] <==> n == 1
  {
    var stream := Repeated(d, n);
    assert stream[0..|d|] == d && stream[..0] == [] && stream[|d|..] == Repeated(d, n - 1);
  }

  lemma HoldableBelow(n: nat, m: nat)
    requires Holdable(0, m) && n <= m
    ensures Holdable(0, n)
  {
    ChunksForGrows(n, m, DEFAULTS.maxChunkSize);
  }

  lemma {:induction false} RepeatedFeasible(p: Protocol, d: seq<byte>, max: nat, ts: Tokens, n: nat, budget: nat)
    requires ValidProtocol(p) && AlwaysMore(p) && ValidKind(Delim(d, max)) && |d| <= max && Holdable(0, max) && n > 0
    ensures Feasible(p, Delim(d, max), ts, 0, 0, Repeated(d, n), budget) <==> n <= budget
    decreases n
  {
    if budget > 0 {
      var rest := Repeated(d, n - 1);
      CutRepeated(d, max, n);
      HoldableBelow(Min(|Repeated(d, n)|, max), max);
      var us := ts + [[]];
      assert p.verdict(us) == GetMoreData;
      hide Cut, Holdable, AlwaysMore, Repeated;
      if n > 1 {
        RepeatedFeasible(p, d, max, us, n - 1, budget - 1);
      }
    }
  }

  /** A write of n delimiters, each an empty token, goes through exactly when n is at most the limit on the
      recursion and one. */
  lemma CallLimitIsExact(p: Protocol, d: seq<byte>, max: nat, n: nat)
    requires ValidProtocol(p) && AlwaysMore(p) && ValidKind(Delim(d, max)) && |d| <= max && Holdable(0, max) && n > 0
    requires ValidState(State(Some(Fresh(Delim(d, max))), [], false))
    ensures Drive(p, State(Some(Fresh(Delim(d, max))), [], false), Repeated(d, n), 0).result.Some? <==> n <= p.maxTTL + 1
  {
    hide Feasible, FeasibleWrite, Drive, Cut, ValidSub, AlwaysMore, ValidProtocol, Holdable, Repeated;
    var k := Delim(d, max);
    var s := State(Some(Fresh(k)), [], false);
    CutRepeated(d, max, n);
    assert Repeated(d, n) != [] by { assert |Repeated(d, n)| > 0; }
    RepeatedFeasible(p, d, max, [], n, p.maxTTL + 1);
    FreshFeasible(p, k, Repeated(d, n), p.maxTTL + 1);
    DriveSucceedsIff(p, s, Repeated(d, n), 0);
  }

  lemma FreshFeasible(p: Protocol, k: Kind, data: seq<byte>, budget: nat)
    requires ValidProtocol(p) && ValidSub(Fresh(k))
    ensures FeasibleWrite(p, Fresh(k), [], data, budget) == Feasible(p, k, [], 0, 0, data, budget)
  {
    assert [] + data == data;
    hide Feasible;
  }
}
