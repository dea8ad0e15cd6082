/** The driving loop with a one-character placeholder, for every key list: when it ends, and with what. A key
    may be empty, may overlap the placeholder, or may be the placeholder itself. */
module QueryTermination {
  import opened Bytes
  import opened Search
  import opened QueryKeys

  /** The query text, the keys still listed, and the keys recorded so far. */
  datatype Binding = Binding(text: string, keys: seq<string>, out: seq<string>)

  /** A call of replaceFirstKey that replaces something. */
  function Step(b: Binding, mark: char): Option<Binding> {
    match Earliest(b.text, b.keys)
    case None => None
    case Some((p, key)) =>
      Some(Binding(b.text[..p] + [mark] + b.text[p + |key|..], Occurring(b.text, b.keys), b.out + [key]))
  }

  /** The state after n calls; None when one of them has ended the loop. */
  function Calls(b: Binding, mark: char, n: nat): Option<Binding>
    decreases n
  {
    if n == 0 then Some(b)
    else
      match Step(b, mark)
      case None => None
      case Some(c) => Calls(c, mark, n - 1)
  }

  ghost predicate Terminates(b: Binding, mark: char) {
    exists n: nat :: Calls(b, mark, n).None?
  }

  /** The empty key is listed, or the placeholder itself is, and occurs. */
  predicate Endless(text: string, keys: seq<string>, mark: char) {
    "" in keys || ([mark] in keys && mark in text)
  }

  lemma MarkOccurs(text: string, mark: char)
    ensures mark in text <==> First(text, [mark], 0).Some?
  {
    forall p | 0 <= p < |text|
      ensures OccursAt(text, [mark], p) <==> text[p] == mark
    {
      assert text[p..p + 1] == [text[p]];
    }
    var f := First(text, [mark], 0);
    assert f.None? ==> forall p :: 0 <= p < |text| ==> !OccursAt(text, [mark], p);
    hide OccursAt, First;
    assert mark in text ==> exists p :: 0 <= p < |text| && text[p] == mark;
  }

  lemma EmptyOccurs(text: string)
    ensures First(text, "", 0) == Some(0)
  {
    assert text[0..0] == "";
  }

  /** Some key that occurs is always found. */
  lemma SomeEarliest(q: string, keys: seq<string>, k: string)
    requires k in keys && First(q, k, 0).Some?
    ensures Earliest(q, keys).Some?
  {
    var p := First(q, k, 0).value;
    assert OccursAt(q, k, p);
  }

  /** Once endless, a call replaces something and leaves an endless state. */
  lemma EndlessStep(b: Binding, mark: char)
    requires Endless(b.text, b.keys, mark)
    ensures Step(b, mark).Some?
    ensures var c := Step(b, mark).value; Endless(c.text, c.keys, mark)
  {
    OccurringIs(b.text, b.keys);
    if "" in b.keys {
      EmptyOccurs(b.text);
      SomeEarliest(b.text, b.keys, "");
    } else {
      MarkOccurs(b.text, mark);
      SomeEarliest(b.text, b.keys, [mark]);
      var (p, key) := Earliest(b.text, b.keys).value;
      hide Earliest, Occurring, First, OccursAt;
      assert Step(b, mark).value.text[p] == mark;
    }
  }

  lemma {:induction false} EndlessRuns(b: Binding, mark: char, n: nat)
    requires Endless(b.text, b.keys, mark)
    ensures Calls(b, mark, n).Some?
    decreases n
  {
    if n > 0 {
      EndlessStep(b, mark);
      hide Step, Endless;
      EndlessRuns(Step(b, mark).value, mark, n - 1);
    }
  }

  /** Length, and once more everything that is not the placeholder. */
  function Weight(text: string, mark: char): nat {
    if text == "" then 0 else (if text[0] == mark then 1 else 2) + Weight(text[1..], mark)
  }

  lemma {:induction false} WeightConcat(a: string, b: string, mark: char)
    ensures Weight(a + b, mark) == Weight(a, mark) + Weight(b, mark)
  {
    if a == "" {
      assert a + b == b;
    } else {
      assert (a + b)[1..] == a[1..] + b;
      WeightConcat(a[1..], b, mark);
    }
  }

  lemma {:induction false} WeightBound(a: string, mark: char)
    ensures |a| <= Weight(a, mark)
  {
    if a != "" {
      WeightBound(a[1..], mark);
    }
  }

  /** A key that is neither empty nor the placeholder outweighs the placeholder. */
  lemma KeyOutweighs(key: string, mark: char)
    requires key != "" && key != [mark]
    ensures Weight(key, mark) > 1
  {
    WeightBound(key, mark);
    if |key| == 1 {
      assert key == [key[0]] && key[1..] == "";
    }
  }

  lemma WeightOfReplacement(text: string, p: nat, key: string, mark: char)
    requires OccursAt(text, key, p) && key != "" && key != [mark]
    ensures Weight(text[..p] + [mark] + text[p + |key|..], mark) < Weight(text, mark)
  {
    var left, right := text[..p], text[p + |key|..];
    assert text == left + key + right;
    WeightConcat(left + key, right, mark);
    WeightConcat(left, key, mark);
    WeightConcat(left + [mark], right, mark);
    WeightConcat(left, [mark], mark);
    assert [mark][1..] == "";
    assert Weight([mark], mark) == 1;
    KeyOutweighs(key, mark);
  }

  /** Else a call makes the text lighter, and never leads to an endless state. */
  lemma FiniteStep(b: Binding, mark: char)
    requires !Endless(b.text, b.keys, mark) && Step(b, mark).Some?
    ensures var c := Step(b, mark).value;
            !Endless(c.text, c.keys, mark) && Weight(c.text, mark) < Weight(b.text, mark)
  {
    OccurringIs(b.text, b.keys);
    MarkOccurs(b.text, mark);
    var (p, key) := Earliest(b.text, b.keys).value;
    assert key != [mark];
    hide Earliest, Occurring, First;
    WeightOfReplacement(b.text, p, key, mark);
  }

  /** What the loop leaves. */
  ghost function Result(b: Binding, mark: char): Binding
    requires !Endless(b.text, b.keys, mark)
    decreases Weight(b.text, mark)
  {
    match Step(b, mark)
    case None => b
    case Some(c) =>
      FiniteStep(b, mark);
      Result(c, mark)
  }

  lemma ResultStep(b: Binding, mark: char)
    requires !Endless(b.text, b.keys, mark)
    ensures match Step(b, mark)
            case None => Result(b, mark) == b && Calls(b, mark, 1).None?
            case Some(c) =>
              && !Endless(c.text, c.keys, mark) && Weight(c.text, mark) < Weight(b.text, mark)
              && Result(b, mark) == Result(c, mark)
              && forall n: nat :: Calls(b, mark, n + 1) == Calls(c, mark, n)
  {
    hide Endless, Weight, Earliest, Occurring;
    if Step(b, mark).Some? {
      FiniteStep(b, mark);
    }
  }

  /** The loop ends with that, after a call that finds nothing. */
  lemma {:induction false} ResultReached(b: Binding, mark: char) returns (n: nat)
    requires !Endless(b.text, b.keys, mark)
    ensures Calls(b, mark, n) == Some(Result(b, mark)) && Calls(b, mark, n + 1).None?
    decreases Weight(b.text, mark)
  {
    hide Step, Endless, Weight, Result;
    ResultStep(b, mark);
    var s := Step(b, mark);
    if s.None? {
      n := 0;
    } else {
      var m := ResultReached(s.value, mark);
      n := m + 1;
      assert Calls(b, mark, m + 1) == Calls(s.value, mark, m);
      assert Calls(b, mark, n + 1) == Calls(s.value, mark, m + 1);
    }
  }

  /** For every query and every key list: the loop ends exactly unless the empty key is listed, or the placeholder
      itself is listed as a key and occurs in the query. */
  lemma TerminatesIff(text: string, keys: seq<string>, mark: char)
    ensures Terminates(Binding(text, keys, []), mark) <==> !Endless(text, keys, mark)
  {
    var b := Binding(text, keys, []);
    if Endless(text, keys, mark) {
      forall n: nat
        ensures Calls(b, mark, n).Some?
      {
        EndlessRuns(b, mark, n);
      }
    } else {
      var n := ResultReached(b, mark);
      assert Calls(b, mark, n + 1).None?;
    }
  }

  /** For instance a listed question mark in a query with a question mark of its own. */
  lemma QuestionMarkNeverEnds()
    ensures !Terminates(Binding("a = ?", ["?"], []), '?')
  {
    TerminatesIff("a = ?", ["?"], '?');
    assert "a = ?"[4] == '?';
  }

  // ----- with keys apart from the placeholder it is the one pass -----

  lemma ApartIsFinite(text: string, keys: seq<string>, mark: char)
    requires Apart(keys, [mark])
    ensures !Endless(text, keys, mark)
  {
    forall k | k in keys
      ensures k != [mark] && k != ""
    {
      assert k[0] !in [mark];
    }
  }

  lemma {:induction false} ResultIsScan(q0: string, keys: seq<string>, mark: char, b: Binding, done: string, rest: string)
    requires Apart(keys, [mark]) && !Endless(b.text, b.keys, mark)
    requires b.text == done + rest && Progress(q0, keys, _ => [mark], done, rest, b.keys, b.out)
    ensures var end := Result(b, mark);
            end.text == Render(Scan(q0, keys), _ => [mark], 0) && end.out == SlotKeys(Scan(q0, keys))
    decreases Weight(b.text, mark)
  {
    var repl: nat -> string := _ => [mark];
    var e := Earliest(b.text, b.keys);
    hide Progress, Earliest, Occurring, Apart, Scan, Render, SlotKeys, Endless, Weight;
    if e.None? {
      EndOfProgress(q0, keys, repl, done, rest, b.keys, b.out);
    } else {
      var (p, key) := e.value;
      FiniteStep(b, mark);
      ReplaceProgress(q0, keys, repl, done, rest, b.keys, b.out, p, key);
      var i := p - |done|;
      ResultIsScan(q0, keys, mark, Step(b, mark).value, done + rest[..i] + [mark], rest[i + |key|..]);
    }
  }

  /** With keys in map order that no character of the placeholder can meet, the loop is one left-to-right
      longest-match pass. */
  lemma ResultOfApart(q: string, keys: seq<string>, mark: char)
    requires MapOrdered(keys) && Apart(keys, [mark])
    ensures !Endless(q, keys, mark) && NonEmptyKeys(keys)
    ensures var end := Result(Binding(q, keys, []), mark);
            end.text == Render(Scan(q, keys), _ => [mark], 0) && end.out == SlotKeys(Scan(q, keys))
  {
    var none: string := "";
    ApartKeys(keys, [mark]);
    ApartIsFinite(q, keys, mark);
    StartOfProgress(q, keys, _ => [mark]);
    assert none + q == q;
    hide Earliest, Occurring, Scan, Render, SlotKeys, Endless, Weight, Apart, MapOrdered, Result;
    ResultIsScan(q, keys, mark, Binding(q, keys, []), none, q);
  }

  /** The query object is in state b. */
  ghost predicate InState(query: Query, b: Binding)
    reads query
  {
    query.sqlQuery == b.text && query.keysIn == b.keys && query.keysOutByPos == b.out
  }

  method OneCall(query: Query, ghost b: Binding, mark: char) returns (more: bool)
    requires InState(query, b)
    modifies query
    ensures more <==> Step(b, mark).Some?
    ensures more ==> InState(query, Step(b, mark).value)
    ensures !more ==> query.sqlQuery == b.text && query.keysOutByPos == b.out
  {
    hide Earliest, Occurring, OccursAt;
    more := query.ReplaceFirstKey([mark]);
  }

  /** The loop of Query_MariaDB::postBindInputVars, on every query on which it ends. */
  method BindMarks(query: Query, mark: char)
    requires query.keysOutByPos == [] && !Endless(query.sqlQuery, query.keysIn, mark)
    modifies query
    ensures var end := Result(Binding(old(query.sqlQuery), old(query.keysIn), []), mark);
            query.sqlQuery == end.text && query.keysOutByPos == end.out
  {
    ghost var start := Binding(query.sqlQuery, query.keysIn, []);
    ghost var b := start;
    hide Step, Endless, Weight, Result, Calls;
    var more := true;
    while more
      invariant !Endless(b.text, b.keys, mark) && Result(b, mark) == Result(start, mark)
      invariant more ==> InState(query, b)
      invariant !more ==>
                  query.sqlQuery == Result(start, mark).text && query.keysOutByPos == Result(start, mark).out
      decreases more, Weight(b.text, mark)
    {
      ResultStep(b, mark);
      more := OneCall(query, b, mark);
      if more {
        b := Step(b, mark).value;
      }
    }
  }
}
