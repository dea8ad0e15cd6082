/** Parser::parseData over sub-parsers that wait for a delimiter or for a size: every write is fed to
    the current sub-parser and what it did not consume is fed again, under a limit on the calls. The
    reference is a single left-to-right split of the whole stream. */
module Tokenizer {
  import opened Bytes
  import opened Search
  import opened Chunks
  import opened Delimiters

  type Tokens = seq<seq<byte>>

  datatype ParseResult = Error | GetMoreData | GotoNextSubParser

  /** DELIMITER with a buffer limit, or SIZE. */
  datatype Kind = Delim(delim: seq<byte>, max: nat) | Fixed(max: nat)

  predicate ValidKind(k: Kind) {
    k.max < SIZE_T && (k.Delim? ==> 0 < |k.delim| < SIZE_T)
  }

  /** changeToNextParser: it fails, it ends the chain, or it selects a fresh sub-parser. */
  datatype Choice = Failed | Ended | To(kind: Kind)

  /** The protocol: parse() records the token and answers from the tokens so far; so does the choice of
      the next sub-parser. */
  datatype Protocol = Protocol(verdict: Tokens -> ParseResult, next: Tokens -> Choice, maxTTL: nat)

  ghost predicate ValidProtocol(p: Protocol) {
    forall ts :: p.next(ts).To? ==> ValidKind(p.next(ts).kind)
  }

  // ----- one call of writeIntoSubParser -----

  /** The buffer holds `buf` in `chunks` chunks; `ended` says that EOF was seen. */
  datatype Sub = Sub(kind: Kind, buf: seq<byte>, chunks: nat, ended: bool)

  function Fresh(kind: Kind): Sub { Sub(kind, [], 0, false) }

  /** A refused call leaves the buffer alone when it was full, and clears it when the chunks ran out. */
  datatype Fed =
    | Refused(cleared: bool)
    | Fed(consumed: nat, buf: seq<byte>, chunks: nat, token: Option<seq<byte>>, status: ParseResult)

  /** The part of the offered bytes that appendToUnparsedBuffer takes. */
  function Offer(sub: Sub, data: seq<byte>): seq<byte> {
    Taken(sub.buf, sub.kind.max, data)
  }

  /** Every non-empty append opens new chunks. */
  function ChunksAfter(sub: Sub, n: nat): nat {
    sub.chunks + ChunksFor(n, DEFAULTS.maxChunkSize)
  }

  /** parseByDelimiter; `ended` says that EOF was seen. */
  function FeedDelimiter(p: Protocol, ts: Tokens, sub: Sub, ended: bool, data: seq<byte>): Fed
    requires sub.kind.Delim?
  {
    var x := Offer(sub, data);
    if Overflows(sub.buf, sub.kind.max, data) then Refused(false)
    else if !Holdable(sub.chunks, |x|) then Refused(true)
    else
      var b := sub.buf + x;
      match First(b, sub.kind.delim, 0)
      case Some(q) =>
        Fed(Displacement(q, |sub.buf|, |sub.kind.delim|), [], 0, Some(b[..q]), p.verdict(ts + [b[..q]]))
      case None =>
        if ended then Fed(|x|, [], 0, Some(b), p.verdict(ts + [b]))
        else Fed(|x|, b, ChunksAfter(sub, |x|), None, GetMoreData)
  }

  /** parseBySize. */
  function FeedSize(p: Protocol, ts: Tokens, sub: Sub, data: seq<byte>): Fed {
    var x := Offer(sub, data);
    if data == [] then Fed(0, [], 0, None, GotoNextSubParser)
    else if Overflows(sub.buf, sub.kind.max, data) then Refused(false)
    else if !Holdable(sub.chunks, |x|) then Refused(true)
    else
      var b := sub.buf + x;
      if SizeLeft(b, sub.kind.max) == 0 then Fed(|x|, [], 0, Some(b), p.verdict(ts + [b]))
      else Fed(|x|, b, ChunksAfter(sub, |x|), None, GetMoreData)
  }

  function Feed(p: Protocol, ts: Tokens, sub: Sub, data: seq<byte>): Fed {
    match sub.kind
    case Delim(_, _) => FeedDelimiter(p, ts, sub, sub.ended || data == [], data)
    case Fixed(_) => FeedSize(p, ts, sub, data)
  }

  /** Between calls the buffer respects its limit and holds nothing that is already a token. */
  ghost predicate ValidSub(s: Sub) {
    && ValidKind(s.kind)
    && |s.buf| <= s.kind.max
    && (s.kind.Delim? ==> !Holds(s.buf, s.kind.delim))
    && (s.kind.Fixed? ==> s.buf == [] || |s.buf| < s.kind.max)
  }

  /** A call never claims more bytes than it was offered and leaves a valid buffer. */
  lemma FeedConsumes(p: Protocol, ts: Tokens, sub: Sub, data: seq<byte>)
    requires ValidSub(sub)
    ensures var f := Feed(p, ts, sub, data);
            f.Fed? ==> f.consumed <= |data| && ValidSub(Sub(sub.kind, f.buf, f.chunks, sub.ended))
    ensures var f := Feed(p, ts, sub, data);
            f.Fed? && data != [] ==> f.consumed >= 1
  {
    var x := Offer(sub, data);
    var b := sub.buf + x;
    if sub.kind.Delim? {
      var f := First(b, sub.kind.delim, 0);
      if f.Some? {
        DisplacementIsExact(sub.buf, x, sub.kind.delim, f.value);
      }
    }
  }

  // ----- parseData -----

  /** m_currentSubParser (None once the chain has ended), the recorded tokens, writeStatus.finished. */
  datatype State = State(sub: Option<Sub>, tokens: Tokens, finished: bool)

  ghost predicate ValidState(s: State) {
    s.sub.Some? ==> ValidSub(s.sub.value)
  }

  /** The result of parseData, the state it leaves, and how many sub-parser calls it made. */
  datatype Outcome = Outcome(result: Option<nat>, state: State, calls: nat)

  /** The state after a successful call, before the switch to another sub-parser. */
  function Record(s: State, sub: Sub, f: Fed, data: seq<byte>): State
    requires f.Fed?
  {
    s.(sub := Some(Sub(sub.kind, f.buf, f.chunks, sub.ended || data == [])),
       tokens := if f.token.Some? then s.tokens + [f.token.value] else s.tokens)
  }

  /** The sub-parser after a refused call. */
  function AfterRefusal(sub: Sub, cleared: bool, data: seq<byte>): Sub {
    var ended := sub.ended || data == [];
    if cleared then Sub(sub.kind, [], 0, ended) else sub.(ended := ended)
  }

  /** One pass through parseData: it returns, or goes on with the consumed count. */
  datatype Pass = Stop(result: Option<nat>, state: State) | Go(state: State, consumed: nat)

  ghost function OnePass(p: Protocol, s: State, data: seq<byte>): (o: Pass)
    requires ValidProtocol(p) && ValidState(s) && s.sub.Some?
    ensures ValidState(o.state)
    ensures o.Stop? && o.result.Some? ==> o.result.value <= |data| && o.state.finished && o.state.sub.None?
    ensures o.Go? ==> o.consumed <= |data| && o.state.sub.Some?
  {
    var sub := s.sub.value;
    FeedConsumes(p, s.tokens, sub, data);
    var f := Feed(p, s.tokens, sub, data);
    if f.Refused? then
      Stop(None, s.(sub := Some(AfterRefusal(sub, f.cleared, data))))
    else Obey(p, Record(s, sub, f, data), f.status, f.consumed)
  }

  /** What parseData does with the status of a call that left the state s. */
  ghost function Obey(p: Protocol, s: State, status: ParseResult, consumed: nat): (o: Pass)
    requires ValidProtocol(p) && ValidState(s) && s.sub.Some?
    ensures ValidState(o.state)
    ensures o.Stop? && o.result.Some? ==> o.result.value == consumed && o.state.finished && o.state.sub.None?
    ensures o.Go? ==> o.consumed == consumed && o.state.sub.Some?
  {
    match status
    case Error => Stop(None, s)
    case GetMoreData => Go(s, consumed)
    case GotoNextSubParser =>
      match p.next(s.tokens)
      case Failed => Stop(None, s)
      case Ended => Stop(Some(consumed), s.(sub := None, finished := true))
      case To(kind) =>
        HoldsNothing(kind);
        Go(s.(sub := Some(Fresh(kind))), consumed)
  }

  ghost function Drive(p: Protocol, s: State, data: seq<byte>, ttl: nat): (o: Outcome)
    requires ValidProtocol(p) && ValidState(s)
    ensures ValidState(o.state)
    ensures o.calls <= (if ttl > p.maxTTL then 0 else p.maxTTL + 1 - ttl)
    ensures o.result.Some? ==> o.result.value <= |data|
    ensures o.result.Some? && o.result.value < |data| ==> o.state.finished && o.state.sub.None?
    decreases if ttl > p.maxTTL then 0 else p.maxTTL + 1 - ttl
  {
    if ttl > p.maxTTL || s.sub.None? then Outcome(None, s, 0)
    else
      match OnePass(p, s, data)
      case Stop(r, end) => Outcome(r, end, 1)
      case Go(next, consumed) => Continue(p, next, data, consumed, ttl)
  }

  /** What is left of the write goes to the current sub-parser again. */
  ghost function Continue(p: Protocol, s: State, data: seq<byte>, consumed: nat, ttl: nat): (o: Outcome)
    requires ValidProtocol(p) && ValidState(s) && consumed <= |data| && ttl <= p.maxTTL
    ensures ValidState(o.state)
    ensures o.calls <= p.maxTTL + 1 - ttl
    ensures o.result.Some? ==> o.result.value <= |data|
    ensures o.result.Some? && o.result.value < |data| ==> o.state.finished && o.state.sub.None?
    decreases p.maxTTL + 1 - ttl, 0
  {
    if consumed == |data| then Outcome(Some(consumed), s, 1)
    else
      var o := Drive(p, s, data[consumed..], ttl + 1);
      Outcome(if o.result.Some? then Some(o.result.value + consumed) else None, o.state, o.calls + 1)
  }

  lemma HoldsNothing(kind: Kind)
    requires ValidKind(kind)
    ensures ValidSub(Fresh(kind))
  {
  }

  // ----- the reference: one split of the whole stream -----

  datatype Split =
    | More(tokens: Tokens, kind: Kind, residue: seq<byte>)
    | Done(tokens: Tokens, rest: seq<byte>)
    | Broken

  /** The next token and what follows it. */
  function Cut(k: Kind, stream: seq<byte>): Option<(seq<byte>, seq<byte>)> {
    match k
    case Delim(d, _) =>
      (match First(stream, d, 0)
       case Some(q) => Some((stream[..q], stream[q + |d|..]))
       case None => None)
    case Fixed(n) => if 0 < n <= |stream| then Some((stream[..n], stream[n..])) else None
  }

  lemma CutShrinks(k: Kind, stream: seq<byte>)
    requires ValidKind(k)
    ensures Cut(k, stream).Some? ==> |Cut(k, stream).value.1| < |stream|
  {
  }

  ghost function Tokenize(p: Protocol, k: Kind, ts: Tokens, stream: seq<byte>): Split
    requires ValidProtocol(p) && ValidKind(k)
    decreases |stream|
  {
    CutShrinks(k, stream);
    match Cut(k, stream)
    case None => More(ts, k, stream)
    case Some((t, rest)) =>
      var ts' := ts + [t];
      match p.verdict(ts')
      case Error => Broken
      case GetMoreData => Tokenize(p, k, ts', rest)
      case GotoNextSubParser =>
        match p.next(ts')
        case Failed => Broken
        case Ended => Done(ts', rest)
        case To(kind) => Tokenize(p, kind, ts', rest)
  }

  /** Bytes that arrive later do not change a token already cut. */
  lemma CutExtends(k: Kind, a: seq<byte>, b: seq<byte>)
    requires ValidKind(k) && Cut(k, a).Some?
    ensures Cut(k, a + b) == Some((Cut(k, a).value.0, Cut(k, a).value.1 + b))
  {
    if k.Delim? {
      FirstInPrefix(a, b, k.delim);
      var q := First(a, k.delim, 0).value;
      assert (a + b)[..q] == a[..q] && (a + b)[q + |k.delim|..] == a[q + |k.delim|..] + b;
    } else {
      assert (a + b)[..k.max] == a[..k.max] && (a + b)[k.max..] == a[k.max..] + b;
    }
  }

  /** Splitting in two goes is splitting in one go. */
  lemma {:induction false} TokenizeConcat(p: Protocol, k: Kind, ts: Tokens, a: seq<byte>, b: seq<byte>)
    requires ValidProtocol(p) && ValidKind(k)
    ensures Tokenize(p, k, ts, a + b)
            == match Tokenize(p, k, ts, a)
               case More(us, l, residue) => if ValidKind(l) then Tokenize(p, l, us, residue + b) else Broken
               case Done(us, rest) => Done(us, rest + b)
               case Broken => Broken
    decreases |a|
  {
    CutShrinks(k, a);
    if Cut(k, a).Some? {
      CutExtends(k, a, b);
      hide Cut;
      var (t, rest) := Cut(k, a).value;
      var us := ts + [t];
      var l := if p.verdict(us) == GotoNextSubParser && p.next(us).To? then p.next(us).kind else k;
      TokenizeConcat(p, l, us, rest, b);
    }
  }

  // ----- parseData is the split -----

  /** What a call makes of buffer and data, in terms of the split: a token that fits its buffer is recorded
      and consumed; otherwise everything is buffered, or the buffer is full before the data is used up.
      Without chunks for what it takes, the call is refused. */
  ghost predicate FollowsCut(p: Protocol, ts: Tokens, sub: Sub, data: seq<byte>, f: Fed) {
    var stream := sub.buf + data;
    var c := Cut(sub.kind, stream);
    if !Holdable(sub.chunks, |Offer(sub, data)|) then
      f.Refused?
    else if c.Some? && |stream| - |c.value.1| <= sub.kind.max then
      && |c.value.1| <= |data|
      && f == Fed(|data| - |c.value.1|, [], 0, Some(c.value.0), p.verdict(ts + [c.value.0]))
      && c.value.1 == data[f.consumed..]
    else if c.None? && |stream| <= sub.kind.max then
      f == Fed(|data|, stream, ChunksAfter(sub, |data|), None, GetMoreData)
    else
      || f.Refused?
      || (&& f.consumed < |data| && f.token.None? && f.status == GetMoreData
          && SizeLeft(f.buf, sub.kind.max) == 0)
  }

  lemma FeedSizeFollowsCut(p: Protocol, ts: Tokens, sub: Sub, data: seq<byte>)
    requires ValidSub(sub) && data != [] && sub.kind.Fixed?
    ensures FollowsCut(p, ts, sub, data, FeedSize(p, ts, sub, data))
  {
    var x := Offer(sub, data);
    var b := sub.buf + x;
    var stream := sub.buf + data;
    assert |x| == |data| ==> x == data;
    assert |b| <= |stream| && stream[..|b|] == b && stream[|b|..] == data[|x|..];
  }

  /** A delimiter that ends inside the buffered part is found there, behind what was buffered before. */
  lemma CutInBuffer(buf: seq<byte>, x: seq<byte>, data: seq<byte>, d: seq<byte>, q: nat)
    requires |d| > 0 && x <= data && !Holds(buf, d)
    requires First(buf + data, d, 0) == Some(q) && q + |d| <= |buf + x|
    ensures First(buf + x, d, 0) == Some(q) && |buf| < q + |d|
  {
    var stream, b := buf + data, buf + x;
    assert stream[0..|b|] == b && stream[0..|buf|] == buf;
    OccursInSlice(stream, d, q, 0, |b|);
    if q + |d| <= |buf| {
      OccursInSlice(stream, d, q, 0, |buf|);
    }
    assert stream == b + data[|x|..];
    FirstInPrefix(b, data[|x|..], d);
  }

  lemma TokenAndRest(buf: seq<byte>, x: seq<byte>, data: seq<byte>, q: nat, e: nat)
    requires x <= data && |buf| <= e <= |buf + data| && q <= e && q <= |buf + x|
    ensures (buf + data)[..q] == (buf + x)[..q]
    ensures (buf + data)[e..] == data[e - |buf|..]
  {
  }

  lemma FoundInBuffer(sub: Sub, data: seq<byte>, q: nat)
    requires ValidSub(sub) && data != [] && sub.kind.Delim? && First(sub.buf + data, sub.kind.delim, 0) == Some(q)
    requires q + |sub.kind.delim| <= sub.kind.max
    ensures var x := Offer(sub, data);
            && !Overflows(sub.buf, sub.kind.max, data) && x <= data
            && First(sub.buf + x, sub.kind.delim, 0) == Some(q)
            && |sub.buf| < q + |sub.kind.delim| <= |sub.buf + x|
            && Displacement(q, |sub.buf|, |sub.kind.delim|) == q + |sub.kind.delim| - |sub.buf|
  {
    var d := sub.kind.delim;
    var x := Offer(sub, data);
    hide First, Displacement, Holds;
    assert q + |d| <= |sub.buf + x| && x <= data;
    CutInBuffer(sub.buf, x, data, d, q);
    DisplacementIsExact(sub.buf, x, d, q);
  }

  lemma FoundFeed(p: Protocol, ts: Tokens, sub: Sub, data: seq<byte>, q: nat, e: nat)
    requires ValidSub(sub) && data != [] && sub.kind.Delim? && First(sub.buf + data, sub.kind.delim, 0) == Some(q)
    requires e == q + |sub.kind.delim| <= sub.kind.max
    ensures |sub.buf| < e <= |sub.buf + data|
    ensures var t := (sub.buf + data)[..q];
            Holdable(sub.chunks, |Offer(sub, data)|) ==>
              FeedDelimiter(p, ts, sub, false, data) == Fed(e - |sub.buf|, [], 0, Some(t), p.verdict(ts + [t]))
    ensures !Holdable(sub.chunks, |Offer(sub, data)|) ==> FeedDelimiter(p, ts, sub, false, data).Refused?
  {
    FoundInBuffer(sub, data, q);
    hide First, OccursAt, Displacement, Holds, Overflows, Taken, ValidSub;
    TokenAndRest(sub.buf, Offer(sub, data), data, q, e);
  }

  lemma FollowsFound(p: Protocol, ts: Tokens, sub: Sub, data: seq<byte>, t: seq<byte>, n: nat)
    requires 0 < n <= |data| && Cut(sub.kind, sub.buf + data) == Some((t, data[n..]))
    requires |sub.buf| + n <= sub.kind.max
    requires Holdable(sub.chunks, |Offer(sub, data)|)
    ensures FollowsCut(p, ts, sub, data, Fed(n, [], 0, Some(t), p.verdict(ts + [t])))
  {
    hide Cut;
  }

  lemma FollowsRefused(p: Protocol, ts: Tokens, sub: Sub, data: seq<byte>)
    requires !Holdable(sub.chunks, |Offer(sub, data)|)
    ensures forall f: Fed :: f.Refused? ==> FollowsCut(p, ts, sub, data, f)
  {
  }

  lemma FeedDelimiterFindsCut(p: Protocol, ts: Tokens, sub: Sub, data: seq<byte>, q: nat)
    requires ValidSub(sub) && data != [] && sub.kind.Delim? && First(sub.buf + data, sub.kind.delim, 0) == Some(q)
    requires q + |sub.kind.delim| <= sub.kind.max
    ensures FollowsCut(p, ts, sub, data, FeedDelimiter(p, ts, sub, false, data))
  {
    hide First, OccursAt, Holds, FeedDelimiter, ValidSub, FollowsCut;
    var e := q + |sub.kind.delim|;
    FoundFeed(p, ts, sub, data, q, e);
    TokenAndRest(sub.buf, data, data, q, e);
    if Holdable(sub.chunks, |Offer(sub, data)|) {
      FollowsFound(p, ts, sub, data, (sub.buf + data)[..q], e - |sub.buf|);
    } else {
      FollowsRefused(p, ts, sub, data);
    }
  }

  lemma NoneInBuffer(sub: Sub, data: seq<byte>, x: seq<byte>)
    requires sub.kind.Delim? && x <= data && |sub.buf + x| <= sub.kind.max
    requires var g := First(sub.buf + data, sub.kind.delim, 0);
             g.None? || g.value + |sub.kind.delim| > sub.kind.max
    ensures First(sub.buf + x, sub.kind.delim, 0).None?
  {
    assert sub.buf + data == (sub.buf + x) + data[|x|..];
    if First(sub.buf + x, sub.kind.delim, 0).Some? {
      FirstInPrefix(sub.buf + x, data[|x|..], sub.kind.delim);
    }
  }

  lemma FeedDelimiterWithoutCut(p: Protocol, ts: Tokens, sub: Sub, data: seq<byte>)
    requires ValidSub(sub) && data != [] && sub.kind.Delim?
    requires var g := First(sub.buf + data, sub.kind.delim, 0);
             g.None? || g.value + |sub.kind.delim| > sub.kind.max
    ensures FollowsCut(p, ts, sub, data, FeedDelimiter(p, ts, sub, false, data))
  {
    var x := Offer(sub, data);
    NoneInBuffer(sub, data, x);
    assert |x| == |data| ==> x == data;
    hide First, OccursAt, Displacement, Holds;
  }

  lemma FeedFollowsCut(p: Protocol, ts: Tokens, sub: Sub, data: seq<byte>)
    requires ValidSub(sub) && !sub.ended && data != []
    ensures FollowsCut(p, ts, sub, data, Feed(p, ts, sub, data))
  {
    hide FollowsCut;
    if sub.kind.Fixed? {
      FeedSizeFollowsCut(p, ts, sub, data);
    } else {
      var g := First(sub.buf + data, sub.kind.delim, 0);
      if g.Some? && g.value + |sub.kind.delim| <= sub.kind.max {
        FeedDelimiterFindsCut(p, ts, sub, data, g.value);
      } else {
        FeedDelimiterWithoutCut(p, ts, sub, data);
      }
    }
  }

  /** A state without the count of chunks, which depends on how the stream was cut. */
  function Contents(s: State): State {
    if s.sub.None? then s else s.(sub := Some(s.sub.value.(chunks := 0)))
  }

  ghost predicate Matches(split: Split, end: State, finished: bool, data: seq<byte>, n: nat) {
    match split
    case More(ts, k, residue) => Contents(end) == State(Some(Sub(k, residue, 0, false)), ts, finished) && n == |data|
    case Done(ts, rest) => end == State(None, ts, true) && n <= |data| && rest == data[n..]
    case Broken => false
  }

  lemma TokenizeNothing(p: Protocol, k: Kind, ts: Tokens)
    requires ValidProtocol(p) && ValidKind(k)
    ensures Tokenize(p, k, ts, []) == More(ts, k, [])
  {
  }

  /** A buffer filled up without a token makes the rest of the write fail. */
  lemma FullBufferFails(p: Protocol, s: State, data: seq<byte>, ttl: nat)
    requires ValidProtocol(p) && ValidState(s) && s.sub.Some? && data != []
    requires SizeLeft(s.sub.value.buf, s.sub.value.kind.max) == 0
    ensures Drive(p, s, data, ttl).result.None?
  {
  }

  /** parseData after a call that was not refused. */
  lemma DriveAfterCall(p: Protocol, s: State, data: seq<byte>, ttl: nat)
    requires ValidProtocol(p) && ValidState(s) && s.sub.Some? && ttl <= p.maxTTL
    requires Feed(p, s.tokens, s.sub.value, data).Fed?
    ensures var f := Feed(p, s.tokens, s.sub.value, data);
            var s1 := Record(s, s.sub.value, f, data);
            && ValidState(s1) && f.consumed <= |data|
            && var o := Obey(p, s1, f.status, f.consumed);
               Drive(p, s, data, ttl)
               == if o.Stop? then Outcome(o.result, o.state, 1) else Continue(p, o.state, data, o.consumed, ttl)
  {
    FeedConsumes(p, s.tokens, s.sub.value, data);
    hide Feed, ValidSub, Obey, Continue;
  }

  /** Whenever parseData succeeds on a non-empty write, it did what the split does with buffer and data. */
  lemma {:induction false} DriveIsTokenize(p: Protocol, s: State, data: seq<byte>, ttl: nat)
    requires ValidProtocol(p) && ValidState(s) && s.sub.Some? && !s.sub.value.ended && data != []
    requires Drive(p, s, data, ttl).result.Some?
    ensures var sub := s.sub.value;
            var o := Drive(p, s, data, ttl);
            Matches(Tokenize(p, sub.kind, s.tokens, sub.buf + data), o.state, s.finished, data, o.result.value)
    decreases p.maxTTL + 1 - ttl
  {
    var sub := s.sub.value;
    FeedFollowsCut(p, s.tokens, sub, data);
    hide Feed, Cut, ValidSub, Continue;
    var f := Feed(p, s.tokens, sub, data);
    assert f.Fed?;
    DriveAfterCall(p, s, data, ttl);
    hide Drive, OnePass, Holdable, Offer;
    var s1 := Record(s, sub, f, data);
    if f.token.None? {
      ContinueEnds(p, s1, data, f.consumed, ttl);
      if f.consumed < |data| {
        FullBufferFails(p, s1, data[f.consumed..], ttl + 1);
      }
    } else if f.status == GetMoreData {
      ContinueIsTokenize(p, s1, data, f.consumed, ttl);
    } else if p.next(s1.tokens).To? {
      ContinueIsTokenize(p, s1.(sub := Some(Fresh(p.next(s1.tokens).kind))), data, f.consumed, ttl);
    }
  }

  /** Continue in its two cases. */
  lemma ContinueEnds(p: Protocol, s: State, data: seq<byte>, consumed: nat, ttl: nat)
    requires ValidProtocol(p) && ValidState(s) && consumed <= |data| && ttl <= p.maxTTL
    ensures var o := Continue(p, s, data, consumed, ttl);
            && (consumed == |data| ==> o == Outcome(Some(consumed), s, 1))
            && (consumed < |data| ==> (o.result.Some? <==> Drive(p, s, data[consumed..], ttl + 1).result.Some?))
  {
  }

  lemma {:induction false} ContinueIsTokenize(p: Protocol, s: State, data: seq<byte>, consumed: nat, ttl: nat)
    requires ValidProtocol(p) && ValidState(s) && s.sub.Some? && s.sub.value.buf == [] && !s.sub.value.ended
    requires consumed <= |data| && ttl <= p.maxTTL && Continue(p, s, data, consumed, ttl).result.Some?
    ensures var o := Continue(p, s, data, consumed, ttl);
            Matches(Tokenize(p, s.sub.value.kind, s.tokens, data[consumed..]), o.state, s.finished, data, o.result.value)
    decreases p.maxTTL + 1 - ttl, 0
  {
    if consumed == |data| {
      TokenizeNothing(p, s.sub.value.kind, s.tokens);
      assert data[consumed..] == [];
    } else {
      DriveIsTokenize(p, s, data[consumed..], ttl + 1);
      assert s.sub.value.buf + data[consumed..] == data[consumed..];
      var n := Drive(p, s, data[consumed..], ttl + 1).result.value;
      assert data[consumed..][n..] == data[consumed + n..];
    }
  }

  /** Of `stream`, `used` bytes are already buffered, in `chunks` chunks: every append finds its chunks, every
      token up to the end of the stream fits its buffer, no step of the protocol fails, and `budget` calls are
      enough. The stream is not empty. */
  ghost predicate Feasible(p: Protocol, k: Kind, ts: Tokens, used: nat, chunks: nat, stream: seq<byte>, budget: nat)
    requires ValidProtocol(p) && ValidKind(k) && used <= |stream| && used <= k.max
    decreases budget
  {
    budget > 0 && Holdable(chunks, Min(|stream|, k.max) - used) &&
    match Cut(k, stream)
    case None => |stream| <= k.max
    case Some((t, rest)) =>
      var us := ts + [t];
      && |stream| - |rest| <= k.max
      && match p.verdict(us)
         case Error => false
         case GetMoreData => rest == [] || Feasible(p, k, us, 0, 0, rest, budget - 1)
         case GotoNextSubParser =>
           match p.next(us)
           case Failed => false
           case Ended => true
           case To(kind) => rest == [] || Feasible(p, kind, us, 0, 0, rest, budget - 1)
  }

  /** Feasible for a sub-parser and what it is offered. */
  ghost predicate FeasibleWrite(p: Protocol, sub: Sub, ts: Tokens, data: seq<byte>, budget: nat)
    requires ValidProtocol(p) && ValidSub(sub)
  {
    Feasible(p, sub.kind, ts, |sub.buf|, sub.chunks, sub.buf + data, budget)
  }

  ghost function Budget(p: Protocol, ttl: nat): nat {
    if ttl > p.maxTTL then 0 else p.maxTTL + 1 - ttl
  }

  /** The next token fits the buffer, and there are chunks for what the call takes. */
  predicate CutFits(sub: Sub, data: seq<byte>) {
    var stream := sub.buf + data;
    && Cut(sub.kind, stream).Some? && |stream| - |Cut(sub.kind, stream).value.1| <= sub.kind.max
    && Holdable(sub.chunks, |Offer(sub, data)|)
  }

  /** Without a token that fits, parseData succeeds when everything can be buffered. */
  lemma BufferingSucceedsIff(p: Protocol, s: State, data: seq<byte>, ttl: nat)
    requires ValidProtocol(p) && ValidState(s) && s.sub.Some? && !s.sub.value.ended && data != [] && ttl <= p.maxTTL
    requires !CutFits(s.sub.value, data)
    ensures Drive(p, s, data, ttl).result.Some? <==> FeasibleWrite(p, s.sub.value, s.tokens, data, Budget(p, ttl))
  {
    var sub := s.sub.value;
    FeedFollowsCut(p, s.tokens, sub, data);
    hide Feed, Cut, ValidSub, Continue;
    var f := Feed(p, s.tokens, sub, data);
    if f.Fed? {
      var s1 := Record(s, sub, f, data);
      ContinueEnds(p, s1, data, f.consumed, ttl);
      if f.consumed < |data| {
        FullBufferFails(p, s1, data[f.consumed..], ttl + 1);
      }
    }
  }

  /** parseData succeeds on a non-empty write exactly when buffer and data together are feasible. */
  lemma {:induction false} DriveSucceedsIff(p: Protocol, s: State, data: seq<byte>, ttl: nat)
    requires ValidProtocol(p) && ValidState(s) && s.sub.Some? && !s.sub.value.ended && data != []
    ensures Drive(p, s, data, ttl).result.Some? <==> FeasibleWrite(p, s.sub.value, s.tokens, data, Budget(p, ttl))
    decreases Budget(p, ttl)
  {
    var sub := s.sub.value;
    if ttl > p.maxTTL {
    } else if !CutFits(sub, data) {
      BufferingSucceedsIff(p, s, data, ttl);
    } else {
      FeedFollowsCut(p, s.tokens, sub, data);
      hide Feed, Cut, ValidSub, Continue, Drive, OnePass, Holdable, ValidProtocol;
      var f := Feed(p, s.tokens, sub, data);
      DriveAfterCall(p, s, data, ttl);
      var s1 := Record(s, sub, f, data);
      if f.status == GetMoreData {
        ContinueSucceedsIff(p, s1, data, f.consumed, ttl);
      } else if f.status == GotoNextSubParser && p.next(s1.tokens).To? {
        ContinueSucceedsIff(p, s1.(sub := Some(Fresh(p.next(s1.tokens).kind))), data, f.consumed, ttl);
      }
    }
  }

  lemma {:induction false} ContinueSucceedsIff(p: Protocol, s: State, data: seq<byte>, consumed: nat, ttl: nat)
    requires ValidProtocol(p) && ValidState(s) && s.sub.Some? && s.sub.value.buf == [] && s.sub.value.chunks == 0
    requires !s.sub.value.ended && consumed <= |data| && ttl <= p.maxTTL
    ensures Continue(p, s, data, consumed, ttl).result.Some?
            <==> data[consumed..] == [] || Feasible(p, s.sub.value.kind, s.tokens, 0, 0, data[consumed..], Budget(p, ttl) - 1)
    decreases Budget(p, ttl), 0
  {
    if consumed < |data| {
      DriveSucceedsIff(p, s, data[consumed..], ttl + 1);
      assert s.sub.value.buf + data[consumed..] == data[consumed..];
      hide Drive, Feasible;
    }
  }

  // ----- whole fragmentations -----

  /** Consecutive writes; None as soon as one fails. */
  ghost function Writes(p: Protocol, s: State, frags: seq<seq<byte>>): (r: Option<State>)
    requires ValidProtocol(p) && ValidState(s)
    ensures r.Some? ==> ValidState(r.value)
    decreases |frags|
  {
    if frags == [] then Some(s)
    else
      var o := Drive(p, s, frags[0], 0);
      if o.result.None? then None else Writes(p, o.state, frags[1..])
  }

  ghost predicate NonEmpty(frags: seq<seq<byte>>) {
    forall i :: 0 <= i < |frags| ==> frags[i] != []
  }

  /** What a run of writes that all succeed leaves is a function of the joined stream. */
  function Settled(split: Split, finished: bool): State {
    match split
    case More(ts, k, residue) => State(Some(Sub(k, residue, 0, false)), ts, finished)
    case Done(ts, _) => State(None, ts, true)
    case Broken => State(None, [], false)
  }

  lemma {:induction false} WritesAreTokenize(p: Protocol, s: State, frags: seq<seq<byte>>)
    requires ValidProtocol(p) && ValidState(s) && s.sub.Some? && !s.sub.value.ended && NonEmpty(frags) && frags != []
    requires Writes(p, s, frags).Some?
    ensures var sub := s.sub.value;
            var split := Tokenize(p, sub.kind, s.tokens, sub.buf + Join(frags));
            !split.Broken? && Contents(Writes(p, s, frags).value) == Settled(split, s.finished)
    decreases |frags|
  {
    var sub := s.sub.value;
    var data, tail := frags[0], frags[1..];
    var o := Drive(p, s, data, 0);
    DriveIsTokenize(p, s, data, 0);
    var split := Tokenize(p, sub.kind, s.tokens, sub.buf + data);
    if tail == [] {
      assert Join(frags) == data + [] == data;
    } else {
      hide Drive;
      assert o.state.sub.Some? by { WriteAfterEnd(p, o.state, tail); }
      TokenizeConcat(p, sub.kind, s.tokens, sub.buf + data, Join(tail));
      ConcatAssoc(sub.buf, data, Join(tail));
      WritesAreTokenize(p, o.state, tail);
    }
  }

  /** Once the chain has ended every further write fails. */
  lemma WriteAfterEnd(p: Protocol, s: State, frags: seq<seq<byte>>)
    requires ValidProtocol(p) && ValidState(s) && frags != [] && Writes(p, s, frags).Some?
    ensures s.sub.Some?
  {
  }

  /** Any two ways of cutting the same bytes into non-empty writes that both succeed record the same
      tokens, end in the same sub-parser and leave the same residue in its buffer. */
  lemma FragmentationIndependent(p: Protocol, kind: Kind, f: seq<seq<byte>>, g: seq<seq<byte>>)
    requires ValidProtocol(p) && ValidKind(kind) && NonEmpty(f) && NonEmpty(g) && Join(f) == Join(g)
    requires var start := State(Some(Fresh(kind)), [], false);
             ValidState(start) && Writes(p, start, f).Some? && Writes(p, start, g).Some?
    ensures var start := State(Some(Fresh(kind)), [], false);
            Contents(Writes(p, start, f).value) == Contents(Writes(p, start, g).value)
  {
    var start := State(Some(Fresh(kind)), [], false);
    if f != [] && g != [] {
      WritesAreTokenize(p, start, f);
      WritesAreTokenize(p, start, g);
    } else {
      assert f == g by { NothingJoined(f); NothingJoined(g); }
    }
  }

  lemma NothingJoined(f: seq<seq<byte>>)
    requires NonEmpty(f)
    ensures Join(f) == [] <==> f == []
  {
  }

  // ----- one byte at a time -----

  /** n bytes that cannot start the delimiter, buffered one write at a time. */
  function Trickled(kind: Kind, b: byte, n: nat): State {
    State(Some(Sub(kind, seq(n, _ => b), n, false)), [], false)
  }

  lemma TrickledIsValid(kind: Kind, b: byte, n: nat)
    requires ValidKind(kind) && kind.Delim? && b != kind.delim[0] && n <= kind.max
    ensures ValidState(Trickled(kind, b, n))
    ensures First(seq(n, _ => b), kind.delim, 0).None?
  {
    var buf := seq(n, _ => b);
    forall p | 0 <= p
      ensures !OccursAt(buf, kind.delim, p)
    {
      if p + |kind.delim| <= n {
        assert buf[p..p + |kind.delim|][0] == buf[p];
      }
    }
  }

  lemma TrickledStep(p: Protocol, kind: Kind, b: byte, n: nat)
    requires ValidProtocol(p) && ValidKind(kind) && kind.Delim? && b != kind.delim[0] && n < kind.max
    requires ValidState(Trickled(kind, b, n))
    ensures var o := Drive(p, Trickled(kind, b, n), [b], 0);
            if n < DEFAULTS.maxChunks then o.result == Some(1) && o.state == Trickled(kind, b, n + 1)
            else o.result.None?
  {
    var s := Trickled(kind, b, n);
    TrickledIsValid(kind, b, n + 1);
    assert s.sub.value.buf + [b] == seq(n + 1, _ => b);
    assert Offer(s.sub.value, [b]) == [b];
    assert ChunksFor(1, DEFAULTS.maxChunkSize) == 1 + ChunksFor(0, DEFAULTS.maxChunkSize);
  }

  /** Single bytes use up a chunk each: however large the limit on bytes, writes of one byte succeed exactly
      up to the limit on chunks. */
  lemma {:induction false} OneByteWritesSucceedIff(p: Protocol, kind: Kind, b: byte, done: nat, n: nat)
    requires ValidProtocol(p) && ValidKind(kind) && kind.Delim? && b != kind.delim[0]
    requires done <= DEFAULTS.maxChunks && done + n <= kind.max && ValidState(Trickled(kind, b, done))
    ensures Writes(p, Trickled(kind, b, done), seq(n, _ => [b])).Some? <==> done + n <= 262144
    decreases n
  {
    if n > 0 {
      var frags := seq(n, _ => [b]);
      assert frags[1..] == seq(n - 1, _ => [b]);
      TrickledStep(p, kind, b, done);
      if done < DEFAULTS.maxChunks {
        TrickledIsValid(kind, b, done + 1);
        hide Drive, Trickled;
        OneByteWritesSucceedIff(p, kind, b, done + 1, n - 1);
      }
    }
  }
}
