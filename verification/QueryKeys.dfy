/** Query::replaceFirstKey and the loops that drive it when named input variables are bound. */
module QueryKeys {
  import opened Bytes
  import opened Search

  // ----- the reference: one pass from left to right, longest key first -----

  datatype Piece = Lit(c: char) | Slot(key: string)

  /** The longest key that is a prefix of `q`. */
  function LongestPrefix(q: string, keys: seq<string>): (r: Option<string>)
    ensures r.Some? ==> r.value in keys && r.value <= q && forall k | k in keys && k <= q :: |k| <= |r.value|
    ensures r.None? ==> forall k | k in keys :: !(k <= q)
  {
    if keys == [] then None
    else
      var rest := LongestPrefix(q, keys[1..]);
      assert forall k :: k in keys <==> k == keys[0] || k in keys[1..];
      if keys[0] <= q && (rest.None? || |keys[0]| > |rest.value|) then Some(keys[0]) else rest
  }

  ghost predicate NonEmptyKeys(keys: seq<string>) {
    forall k :: k in keys ==> |k| > 0
  }

  ghost function Scan(q: string, keys: seq<string>): seq<Piece>
    requires NonEmptyKeys(keys)
    decreases |q|
  {
    if q == [] then []
    else
      match LongestPrefix(q, keys)
      case Some(k) => [Slot(k)] + Scan(q[|k|..], keys)
      case None => [Lit(q[0])] + Scan(q[1..], keys)
  }

  /** The text with the j-th slot (counting from `n`) written as repl(j). */
  function Render(pieces: seq<Piece>, repl: nat -> string, n: nat): string {
    if pieces == [] then []
    else match pieces[0]
      case Lit(c) => [c] + Render(pieces[1..], repl, n)
      case Slot(_) => repl(n) + Render(pieces[1..], repl, n + 1)
  }

  /** The text with every slot written as its key again. */
  function Restore(pieces: seq<Piece>): string {
    if pieces == [] then []
    else match pieces[0]
      case Lit(c) => [c] + Restore(pieces[1..])
      case Slot(k) => k + Restore(pieces[1..])
  }

  function SlotKeys(pieces: seq<Piece>): seq<string> {
    if pieces == [] then []
    else (if pieces[0].Slot? then [pieces[0].key] else []) + SlotKeys(pieces[1..])
  }

  lemma {:induction false} ScanRestores(q: string, keys: seq<string>)
    requires NonEmptyKeys(keys)
    ensures Restore(Scan(q, keys)) == q
    decreases |q|
  {
    if q != [] {
      match LongestPrefix(q, keys) {
        case Some(k) =>
          ScanRestores(q[|k|..], keys);
          assert q == k + q[|k|..];
        case None =>
          ScanRestores(q[1..], keys);
      }
    }
  }

  // ----- the code: earliest key of all, the last one in the list on a tie -----

  /** firstKeyPos and firstKeyFound after the search loop. */
  function Earliest(q: string, keys: seq<string>): (r: Option<(nat, string)>)
    ensures r.Some? ==> r.value.1 in keys && OccursAt(q, r.value.1, r.value.0)
    ensures r.Some? ==> forall k, p | k in keys && 0 <= p < r.value.0 :: !OccursAt(q, k, p)
    ensures r.None? ==> forall k, p | k in keys :: !OccursAt(q, k, p)
  {
    if keys == [] then None
    else
      var e := Earliest(q, keys[..|keys| - 1]);
      var k := keys[|keys| - 1];
      assert forall x :: x in keys <==> x in keys[..|keys| - 1] || x == k;
      match First(q, k, 0)
      case None => e
      case Some(p) => if e.None? || p <= e.value.0 then Some((p, k)) else e
  }

  /** The keys that occur in q, in their order. */
  function Occurring(q: string, keys: seq<string>): seq<string> {
    if keys == [] then []
    else
      Occurring(q, keys[..|keys| - 1])
      + (if First(q, keys[|keys| - 1], 0).Some? then [keys[|keys| - 1]] else [])
  }

  // ----- std::map order -----

  predicate Before(a: string, b: string) {
    b != [] && (a == [] || a[0] < b[0] || (a[0] == b[0] && Before(a[1..], b[1..])))
  }

  /** The key list is built by walking a std::map. */
  ghost predicate MapOrdered(keys: seq<string>) {
    forall i, j :: 0 <= i < j < |keys| ==> Before(keys[i], keys[j])
  }

  /** Map order is the order of the first difference, an end coming before everything. */
  lemma {:induction false} BeforeIsLexicographic(a: string, b: string)
    ensures Before(a, b) <==>
              exists n :: 0 <= n <= |a| && n < |b| && a[..n] == b[..n] && (n == |a| || a[n] < b[n])
  {
    if a != [] && b != [] && a[0] == b[0] {
      var x, y := a[1..], b[1..];
      BeforeIsLexicographic(x, y);
      forall n | 0 <= n <= |x| && n < |y|
        ensures x[..n] == y[..n] <==> a[..n + 1] == b[..n + 1]
      {
        assert a[..n + 1] == [a[0]] + x[..n] && b[..n + 1] == [b[0]] + y[..n];
      }
      if Before(x, y) {
        var n :| 0 <= n <= |x| && n < |y| && x[..n] == y[..n] && (n == |x| || x[n] < y[n]);
        assert a[..n + 1] == b[..n + 1];
      } else {
        forall n | 0 <= n <= |a| && n < |b| && a[..n] == b[..n]
          ensures n < |a| && a[n] >= b[n]
        {
          if n > 0 {
            assert x[..n - 1] == y[..n - 1];
          }
        }
      }
    } else if a != [] && b != [] {
      assert a[..0] == b[..0];
      forall n | 0 < n <= |a| && n < |b|
        ensures a[..n] != b[..n]
      {
        assert a[..n][0] == a[0] && b[..n][0] == b[0];
      }
    } else {
      assert a[..0] == b[..0];
    }
  }

  lemma {:induction false} ExtensionNotBefore(a: string, b: string)
    requires b <= a
    ensures !Before(a, b)
  {
    if b != [] {
      ExtensionNotBefore(a[1..], b[1..]);
    }
  }

  /** On a tie the later key of an ordered list is the longer one. */
  lemma TieIsLongest(q: string, keys: seq<string>, p: nat, i: nat, j: nat)
    requires MapOrdered(keys) && i < j < |keys| && OccursAt(q, keys[i], p) && OccursAt(q, keys[j], p)
    ensures |keys[i]| < |keys[j]|
  {
    if |keys[i]| >= |keys[j]| {
      var a, b := keys[i], keys[j];
      assert a[..|b|] == q[p..p + |a|][..|b|] == q[p..p + |b|] == b;
      ExtensionNotBefore(a, b);
    }
  }

  lemma {:induction false} EarliestIsLongest(q: string, keys: seq<string>)
    requires MapOrdered(keys)
    ensures var r := Earliest(q, keys);
            r.Some? ==> forall k | k in keys && OccursAt(q, k, r.value.0) :: |k| <= |r.value.1|
  {
    if keys != [] {
      var n := |keys| - 1;
      var r := Earliest(q, keys);
      EarliestIsLongest(q, keys[..n]);
      if r.Some? {
        forall k | k in keys && OccursAt(q, k, r.value.0)
          ensures |k| <= |r.value.1|
        {
          var i :| 0 <= i < |keys| && keys[i] == k;
          if r.value.1 == keys[n] && i < n && OccursAt(q, keys[n], r.value.0) {
            TieIsLongest(q, keys, r.value.0, i, n);
          } else if i < n {
            assert k in keys[..n];
          } else {
            assert First(q, keys[n], 0).Some? && First(q, keys[n], 0).value == r.value.0;
          }
        }
      }
    }
  }

  // ----- why repeating the earliest replacement is the one pass -----

  ghost predicate Absent(q: string, keys: seq<string>, upTo: nat) {
    forall k, p | k in keys && 0 <= p < upTo :: !OccursAt(q, k, p)
  }

  function Lits(s: string): seq<Piece> {
    seq(|s|, i requires 0 <= i < |s| => Lit(s[i]))
  }

  lemma AbsentTail(q: string, keys: seq<string>, i: nat, n: nat)
    requires n <= i && n <= |q| && Absent(q, keys, i)
    ensures Absent(q[n..], keys, i - n)
  {
    forall k, p | k in keys && 0 <= p < i - n
      ensures !OccursAt(q[n..], k, p)
    {
      OccursInSuffix(q, k, p + n, n);
    }
  }

  lemma PrefixOccurs(q: string, k: string)
    ensures k <= q <==> OccursAt(q, k, 0)
  {
  }

  lemma NoLongestPrefix(q: string, keys: seq<string>)
    requires Absent(q, keys, 1)
    ensures LongestPrefix(q, keys).None?
  {
    if LongestPrefix(q, keys).Some? {
      PrefixOccurs(q, LongestPrefix(q, keys).value);
    }
  }

  /** Up to the first position where a key occurs the pass copies the text. */
  lemma {:induction false} ScanCopies(q: string, keys: seq<string>, i: nat)
    requires NonEmptyKeys(keys) && i <= |q| && Absent(q, keys, i)
    ensures Scan(q, keys) == Lits(q[..i]) + Scan(q[i..], keys)
    decreases i
  {
    hide OccursAt, LongestPrefix;
    if i == 0 {
      assert q[0..] == q && Lits(q[..0]) == [];
    } else {
      NoLongestPrefix(q, keys);
      AbsentTail(q, keys, i, 1);
      assert Scan(q, keys) == [Lit(q[0])] + Scan(q[1..], keys);
      hide Scan, Lits, Absent;
      ScanCopies(q[1..], keys, i - 1);
      LitsFront(q, i);
      ConcatAssoc([Lit(q[0])], Lits(q[1..][..i - 1]), Scan(q[i..], keys));
    }
  }

  lemma LitsFront(q: string, i: nat)
    requires 0 < i <= |q|
    ensures Lits(q[..i]) == [Lit(q[0])] + Lits(q[1..][..i - 1]) && q[1..][i - 1..] == q[i..]
  {
  }

  lemma LongestIs(t: string, keys: seq<string>, key: string)
    requires key in keys && key <= t && forall k | k in keys && k <= t :: |k| <= |key|
    ensures LongestPrefix(t, keys) == Some(key)
  {
    var l := LongestPrefix(t, keys);
    assert l.value == t[..|l.value|] == key;
  }

  /** The earliest key, longest on a tie, is where the pass makes its first slot. */
  lemma ScanFirstSlot(q: string, keys: seq<string>, p: nat, key: string)
    requires NonEmptyKeys(keys) && key in keys && OccursAt(q, key, p) && Absent(q, keys, p)
    requires forall k | k in keys && OccursAt(q, k, p) :: |k| <= |key|
    ensures Scan(q, keys) == Lits(q[..p]) + ([Slot(key)] + Scan(q[p + |key|..], keys))
  {
    ScanCopies(q, keys, p);
    var t := q[p..];
    forall k | k in keys && k <= t
      ensures |k| <= |key|
    {
      PrefixOccurs(t, k);
      OccursInSuffix(q, k, p, p);
    }
    OccursInSuffix(q, key, p, p);
    hide OccursAt, LongestPrefix;
    PrefixOccurs(t, key);
    LongestIs(t, keys, key);
    assert t[|key|..] == q[p + |key|..];
  }

  lemma {:induction false} RenderLits(s: string, tail: seq<Piece>, repl: nat -> string, n: nat)
    ensures Render(Lits(s) + tail, repl, n) == s + Render(tail, repl, n)
    ensures SlotKeys(Lits(s) + tail) == SlotKeys(tail)
    decreases |s|
  {
    if s == [] {
      assert Lits(s) + tail == tail;
    } else {
      RenderLits(s[1..], tail, repl, n);
      var all := Lits(s) + tail;
      assert all[0] == Lit(s[0]) && all[1..] == Lits(s[1..]) + tail;
      assert s == [s[0]] + s[1..];
    }
  }

  /** No replacement can complete a key: its first character is in no key, and no key starts with one of its characters. */
  ghost predicate Apart(keys: seq<string>, replacement: string) {
    && |replacement| > 0
    && forall k :: k in keys ==> |k| > 0 && replacement[0] !in k && k[0] !in replacement
  }

  /** Replacing the earliest key leaves no key starting in the finished part of the text. */
  lemma ReplacementStaysClean(q: string, keys: seq<string>, p: nat, len: nat, replacement: string)
    requires Apart(keys, replacement) && p + len <= |q| && Absent(q, keys, p)
    ensures Absent(q[..p] + replacement + q[p + len..], keys, p + |replacement|)
  {
    var t := q[..p] + replacement + q[p + len..];
    forall k, s | k in keys && 0 <= s < p + |replacement|
      ensures !OccursAt(t, k, s)
    {
      if s + |k| <= |t| {
        var w := t[s..s + |k|];
        if s >= p {
          assert w[0] == t[s] == replacement[s - p];
        } else if s + |k| > p {
          assert w[p - s] == t[p] == replacement[0];
        } else {
          OccursInSlice(t, k, s, 0, p);
          OccursInSlice(q, k, s, 0, p);
          assert t[0..p] == q[0..p];
          assert !OccursAt(q, k, s);
        }
      }
    }
  }

  // ----- the driving loop -----

  /** Every key that was dropped from the list is absent from the text. */
  ghost predicate Gone(text: string, keys: seq<string>, kept: seq<string>) {
    && (forall k :: k in kept ==> k in keys)
    && (forall k, p | k in keys && k !in kept && 0 <= p :: !OccursAt(text, k, p))
  }

  /** The text is `done + rest`: `done` is final, and what the pass still has to do is its work on `rest`. */
  ghost predicate Progress(q0: string, keys: seq<string>, repl: nat -> string,
                           done: string, rest: string, keysIn: seq<string>, out: seq<string>)
  {
    && NonEmptyKeys(keys) && MapOrdered(keysIn) && Gone(rest, keys, keysIn)
    && Absent(done + rest, keys, |done|)
    && Render(Scan(q0, keys), repl, 0) == done + Render(Scan(rest, keys), repl, |out|)
    && SlotKeys(Scan(q0, keys)) == out + SlotKeys(Scan(rest, keys))
  }

  lemma AbsentEverywhere(keys: seq<string>, keysIn: seq<string>, done: string, rest: string, n: nat)
    requires Gone(rest, keys, keysIn)
    requires Absent(done + rest, keys, |done|) && Absent(done + rest, keysIn, |done| + n)
    ensures Absent(rest, keys, n) && Absent(done + rest, keys, |done| + n)
  {
    hide OccursAt;
    var q := done + rest;
    assert q[|done|..] == rest;
    forall k, s | k in keys && |done| <= s < |done| + n
      ensures !OccursAt(rest, k, s - |done|) && !OccursAt(q, k, s)
    {
      OccursInSuffix(q, k, s, |done|);
    }
    AbsentTail(q, keys, |done| + n, |done|);
  }

  /** In the unfinished part, the earliest of the surviving keys is the earliest of all keys. */
  lemma EarliestInRest(keys: seq<string>, done: string, rest: string, keysIn: seq<string>, p: nat, key: string)
    requires MapOrdered(keysIn) && Gone(rest, keys, keysIn) && Absent(done + rest, keys, |done|)
    requires Earliest(done + rest, keysIn) == Some((p, key))
    ensures |done| <= p && key in keys && OccursAt(rest, key, p - |done|)
    ensures Absent(done + rest, keys, p) && Absent(rest, keys, p - |done|)
    ensures forall k | k in keys && OccursAt(rest, k, p - |done|) :: |k| <= |key|
  {
    hide OccursAt, Earliest;
    var q := done + rest;
    assert q[|done|..] == rest;
    assert |done| <= p && OccursAt(q, key, p);
    OccursInSuffix(q, key, p, |done|);
    AbsentEverywhere(keys, keysIn, done, rest, p - |done|);
    EarliestIsLongest(q, keysIn);
    forall k | k in keys && OccursAt(rest, k, p - |done|)
      ensures |k| <= |key|
    {
      OccursInSuffix(q, k, p, |done|);
    }
  }

  /** Starting out, nothing is finished and no key is dropped. */
  lemma StartOfProgress(q: string, keys: seq<string>, repl: nat -> string)
    requires NonEmptyKeys(keys) && MapOrdered(keys)
    ensures Progress(q, keys, repl, [], q, keys, [])
  {
    var none: string := [];
    assert none + q == q;
  }

  /** Dropping the keys that no longer occur keeps the rest of the work the same. */
  lemma DropAbsentKeys(q: string, keys: seq<string>, keysIn: seq<string>, done: string, rest: string)
    requires q == done + rest && Gone(rest, keys, keysIn)
    ensures Gone(rest, keys, Occurring(q, keysIn))
  {
    OccurringIs(q, keysIn);
    assert q[|done|..] == rest;
    forall k, p | k in keys && k !in Occurring(q, keysIn) && 0 <= p
      ensures !OccursAt(rest, k, p)
    {
      OccursInSuffix(q, k, p + |done|, |done|);
    }
  }

  lemma {:induction false} OccurringIs(q: string, keys: seq<string>)
    ensures forall k :: k in Occurring(q, keys) <==> k in keys && First(q, k, 0).Some?
    ensures |Occurring(q, keys)| <= |keys|
  {
    if keys != [] {
      OccurringIs(q, keys[..|keys| - 1]);
    }
  }

  lemma {:induction false} OccurringOrdered(q: string, keys: seq<string>)
    requires MapOrdered(keys)
    ensures MapOrdered(Occurring(q, keys))
  {
    if keys != [] {
      var n := |keys| - 1;
      var front := Occurring(q, keys[..n]);
      OccurringOrdered(q, keys[..n]);
      OccurringIs(q, keys[..n]);
      forall i | 0 <= i < |front|
        ensures Before(front[i], keys[n])
      {
        assert front[i] in front;
        var j :| 0 <= j < n && keys[..n][j] == front[i];
        assert Before(keys[j], keys[n]);
      }
    }
  }

  /** One successful replacement moves the finished part past one more slot. */
  lemma ReplaceProgress(q0: string, keys: seq<string>, repl: nat -> string,
                        done: string, rest: string, keysIn: seq<string>, out: seq<string>, p: nat, key: string)
    requires Progress(q0, keys, repl, done, rest, keysIn, out) && Apart(keys, repl(|out|))
    requires Earliest(done + rest, keysIn) == Some((p, key))
    ensures var i := p - |done|;
            && 0 <= i && i + |key| <= |rest| && |key| > 0
            && Progress(q0, keys, repl, done + rest[..i] + repl(|out|), rest[i + |key|..],
                        Occurring(done + rest, keysIn), out + [key])
            && (done + rest)[..p] + repl(|out|) + (done + rest)[p + |key|..]
               == (done + rest[..i] + repl(|out|)) + rest[i + |key|..]
  {
    hide OccursAt, Earliest, Occurring, Render, SlotKeys, Scan;
    var q, i, r := done + rest, p - |done|, repl(|out|);
    EarliestInRest(keys, done, rest, keysIn, p, key);
    assert i + |key| <= |rest| by { OccursWithin(rest, key, i); }
    var next := rest[i + |key|..];
    assert q[..p] == done + rest[..i] && q[p + |key|..] == next;
    ReplacementStaysClean(q, keys, p, |key|, r);
    DropAbsentKeys(q, keys, keysIn, done, rest);
    GoneInSuffix(rest, keys, Occurring(q, keysIn), i + |key|);
    OccurringOrdered(q, keysIn);
    SlotProgress(keys, repl, rest, i, key, |out|);
    assert done + (rest[..i] + r + Render(Scan(next, keys), repl, |out| + 1))
        == (done + rest[..i] + r) + Render(Scan(next, keys), repl, |out| + 1);
    ConcatAssoc(out, [key], SlotKeys(Scan(next, keys)));
  }

  lemma OccursWithin(s: string, k: string, p: int)
    requires OccursAt(s, k, p)
    ensures 0 <= p && p + |k| <= |s|
  {
  }

  lemma GoneInSuffix(text: string, keys: seq<string>, kept: seq<string>, n: nat)
    requires Gone(text, keys, kept) && n <= |text|
    ensures Gone(text[n..], keys, kept)
  {
    hide OccursAt;
    forall k, p | k in keys && k !in kept && 0 <= p
      ensures !OccursAt(text[n..], k, p)
    {
      OccursInSuffix(text, k, p + n, n);
    }
  }

  lemma SlotProgress(keys: seq<string>, repl: nat -> string, rest: string, i: nat, key: string, n: nat)
    requires NonEmptyKeys(keys) && key in keys && OccursAt(rest, key, i) && Absent(rest, keys, i)
    requires forall k | k in keys && OccursAt(rest, k, i) :: |k| <= |key|
    ensures Render(Scan(rest, keys), repl, n)
            == rest[..i] + repl(n) + Render(Scan(rest[i + |key|..], keys), repl, n + 1)
    ensures SlotKeys(Scan(rest, keys)) == [key] + SlotKeys(Scan(rest[i + |key|..], keys))
  {
    ScanFirstSlot(rest, keys, i, key);
    hide OccursAt, Scan;
    var after := Scan(rest[i + |key|..], keys);
    var tail := [Slot(key)] + after;
    RenderLits(rest[..i], tail, repl, n);
    assert tail[1..] == after;
    ConcatAssoc(rest[..i], repl(n), Render(after, repl, n + 1));
  }

  /** When no key is left the finished text is the whole text. */
  lemma EndOfProgress(q0: string, keys: seq<string>, repl: nat -> string,
                      done: string, rest: string, keysIn: seq<string>, out: seq<string>)
    requires Progress(q0, keys, repl, done, rest, keysIn, out)
    requires Earliest(done + rest, keysIn).None?
    ensures done + rest == Render(Scan(q0, keys), repl, 0) && out == SlotKeys(Scan(q0, keys))
  {
    hide OccursAt, Earliest;
    AbsentEverywhere(keys, keysIn, done, rest, |rest|);
    ScanCopies(rest, keys, |rest|);
    assert Scan(rest[|rest|..], keys) == [];
    RenderLits(rest[..|rest|], [], repl, |out|);
    assert rest[..|rest|] == rest;
  }

  // ----- the code itself -----

  class Query {
    var sqlQuery: string
    var keysIn: seq<string>
    var keysOutByPos: seq<string>

    constructor (query: string, keys: seq<string>)
      ensures sqlQuery == query && keysIn == keys && keysOutByPos == []
    {
      sqlQuery, keysIn, keysOutByPos := query, keys, [];
    }

    method ReplaceFirstKey(replaceBy: string) returns (replaced: bool)
      modifies this
      ensures keysIn == Occurring(old(sqlQuery), old(keysIn))
      ensures match Earliest(old(sqlQuery), old(keysIn))
              case None => !replaced && sqlQuery == old(sqlQuery) && keysOutByPos == old(keysOutByPos)
              case Some((p, key)) =>
                && replaced && keysOutByPos == old(keysOutByPos) + [key]
                && sqlQuery == old(sqlQuery)[..p] + replaceBy + old(sqlQuery)[p + |key|..]
    {
      var first, toDelete := FindFirstKey();
      RemoveKeys(toDelete);
      KeepIsOccurring(sqlQuery, old(keysIn), toDelete);
      if first.Some? {
        var (pos, key) := first.value;
        keysOutByPos := keysOutByPos + [key];
        sqlQuery := sqlQuery[..pos] + replaceBy + sqlQuery[pos + |key|..];
        return true;
      }
      return false;
    }

    /** Check who is the first key, and which keys do not occur at all. */
    method FindFirstKey() returns (first: Option<(nat, string)>, toDelete: seq<string>)
      ensures first == Earliest(sqlQuery, keysIn)
      ensures forall k | k in keysIn :: k in toDelete <==> First(sqlQuery, k, 0).None?
    {
      hide OccursAt, First;
      toDelete, first := [], None;
      var i := 0;
      while i < |keysIn|
        invariant 0 <= i <= |keysIn|
        invariant first == Earliest(sqlQuery, keysIn[..i])
        invariant forall k :: k in toDelete <==> k in keysIn[..i] && First(sqlQuery, k, 0).None?
      {
        var key := keysIn[i];
        assert keysIn[..i + 1][..i] == keysIn[..i] && keysIn[..i + 1][i] == key;
        match First(sqlQuery, key, 0) {
          case Some(pos) =>
            if first.None? || pos <= first.value.0 {
              first := Some((pos, key));
            }
          case None =>
            toDelete := toDelete + [key];
        }
        i := i + 1;
      }
      assert keysIn[..|keysIn|] == keysIn;
    }

    method RemoveKeys(toDelete: seq<string>)
      modifies this`keysIn
      ensures keysIn == Keep(old(keysIn), toDelete)
    {
      var j := 0;
      KeepAll(keysIn);
      while j < |toDelete|
        invariant 0 <= j <= |toDelete|
        invariant keysIn == Keep(old(keysIn), toDelete[..j])
      {
        WithoutKeeps(old(keysIn), toDelete[..j], toDelete[j]);
        assert toDelete[..j + 1] == toDelete[..j] + [toDelete[j]];
        keysIn := Without(keysIn, toDelete[j]);
        j := j + 1;
      }
      assert toDelete[..|toDelete|] == toDelete;
    }

    /** The loop of postBindInputVars: the n-th replacement is repl(n). */
    method BindInputVars(repl: nat -> string) returns (paramCount: nat)
      requires keysOutByPos == [] && MapOrdered(keysIn)
      requires forall n :: Apart(keysIn, repl(n))
      modifies this
      ensures sqlQuery == Render(Scan(old(sqlQuery), old(keysIn)), repl, 0)
      ensures keysOutByPos == SlotKeys(Scan(old(sqlQuery), old(keysIn)))
      ensures paramCount == |keysOutByPos|
    {
      hide *;
      ghost var keys, done, rest := keysIn, "", sqlQuery;
      ApartKeys(keys, repl(0));
      StartOfProgress(sqlQuery, keysIn, repl);
      assert done + rest == sqlQuery;
      paramCount := 0;
      var more := true;
      while more
        invariant paramCount == |keysOutByPos|
        invariant more ==>
            && sqlQuery == done + rest
            && Progress(old(sqlQuery), keys, repl, done, rest, keysIn, keysOutByPos)
        invariant !more ==>
            && sqlQuery == Render(Scan(old(sqlQuery), keys), repl, 0)
            && keysOutByPos == SlotKeys(Scan(old(sqlQuery), keys))
        decreases more, |rest|
      {
        ghost var was, out := keysIn, keysOutByPos;
        ghost var e := Earliest(sqlQuery, keysIn);
        more := ReplaceFirstKey(repl(paramCount));
        if more {
          ghost var p, key := e.value.0, e.value.1;
          assert Apart(keys, repl(paramCount));
          ReplaceProgress(old(sqlQuery), keys, repl, done, rest, was, out, p, key);
          done, rest := done + rest[..p - |done|] + repl(paramCount), rest[p - |done| + |key|..];
          paramCount := paramCount + 1;
        } else {
          EndOfProgress(old(sqlQuery), keys, repl, done, rest, was, out);
        }
      }
    }
  }

  lemma ApartKeys(keys: seq<string>, replacement: string)
    requires Apart(keys, replacement)
    ensures NonEmptyKeys(keys)
  {
  }

  function Keep(keys: seq<string>, drop: seq<string>): seq<string> {
    if keys == [] then []
    else (if keys[0] in drop then [] else [keys[0]]) + Keep(keys[1..], drop)
  }

  lemma {:induction false} KeepAll(keys: seq<string>)
    ensures Keep(keys, []) == keys
  {
    if keys != [] {
      KeepAll(keys[1..]);
    }
  }

  lemma {:induction false} WithoutKeeps(keys: seq<string>, drop: seq<string>, x: string)
    ensures Without(Keep(keys, drop), x) == Keep(keys, drop + [x])
  {
    if keys != [] {
      WithoutKeeps(keys[1..], drop, x);
      var kept := Keep(keys, drop);
      if keys[0] in drop {
        assert kept == Keep(keys[1..], drop);
        assert keys[0] in drop + [x];
      } else {
        assert kept[1..] == Keep(keys[1..], drop);
        assert keys[0] in drop + [x] <==> keys[0] == x;
      }
    }
  }

  lemma {:induction false} KeepSnoc(keys: seq<string>, k: string, drop: seq<string>)
    ensures Keep(keys + [k], drop) == Keep(keys, drop) + (if k in drop then [] else [k])
  {
    if keys != [] {
      KeepSnoc(keys[1..], k, drop);
      assert (keys + [k])[1..] == keys[1..] + [k];
    }
  }

  lemma {:induction false} KeepIsOccurring(q: string, keys: seq<string>, drop: seq<string>)
    requires forall k | k in keys :: k in drop <==> First(q, k, 0).None?
    ensures Keep(keys, drop) == Occurring(q, keys)
  {
    if keys != [] {
      var n := |keys| - 1;
      assert keys == keys[..n] + [keys[n]];
      KeepSnoc(keys[..n], keys[n], drop);
      KeepIsOccurring(q, keys[..n], drop);
    }
  }

  // ----- undoing it -----

  /** Every placeholder is the mark followed by something without it: `?`, or `$` and a number. */
  ghost predicate Marked(repl: nat -> string, mark: char) {
    forall n :: |repl(n)| > 0 && repl(n)[0] == mark && mark !in repl(n)[1..]
  }

  function Decimal(n: nat): string {
    (if n < 10 then "" else Decimal(n / 10)) + [DigitChar(n % 10)]
  }

  function DigitChar(d: nat): char
    requires d < 10
  {
    "0123456789"[d]
  }

  /** std::string("$") + std::to_string(m_paramCount). */
  function Numbered(n: nat): string { "$" + Decimal(n) }

  lemma {:induction false} DecimalDigits(n: nat)
    ensures '$' !in Decimal(n)
  {
    if n >= 10 {
      DecimalDigits(n / 10);
    }
  }

  predicate AllDigits(s: string) {
    forall i :: 0 <= i < |s| ==> '0' <= s[i] <= '9'
  }

  /** The number that decimal digits stand for. */
  function Reading(s: string): int {
    if s == "" then 0 else 10 * Reading(s[..|s| - 1]) + (s[|s| - 1] as int - '0' as int)
  }

  lemma DigitReads(d: nat)
    requires d < 10
    ensures '0' <= DigitChar(d) <= '9' && DigitChar(d) as int - '0' as int == d
  {
  }

  /** A number is written with digits that stand for it, and without leading zeros. */
  lemma {:induction false} DecimalReads(n: nat)
    ensures Decimal(n) != "" && AllDigits(Decimal(n)) && Reading(Decimal(n)) == n
    ensures Decimal(n)[0] == '0' <==> n == 0
    ensures n == 0 ==> |Decimal(n)| == 1
  {
    hide DigitChar, Reading;
    DigitReads(n % 10);
    var c := DigitChar(n % 10);
    var front := if n < 10 then "" else Decimal(n / 10);
    assert Decimal(n) == front + [c];
    ReadingSnoc(front, c);
    if n < 10 {
      ReadingNothing();
    } else {
      DecimalReads(n / 10);
    }
  }

  lemma ReadingNothing()
    ensures Reading("") == 0
  {
  }

  lemma ReadingSnoc(front: string, c: char)
    ensures Reading(front + [c]) == 10 * Reading(front) + (c as int - '0' as int)
  {
    assert (front + [c])[..|front|] == front;
  }

  /** The n-th numbered placeholder is a dollar sign and a number that reads as n; no two are alike. */
  lemma NumberedReads(n: nat)
    ensures Numbered(n)[0] == '$' && |Numbered(n)| > 1
    ensures AllDigits(Numbered(n)[1..]) && Reading(Numbered(n)[1..]) == n
    ensures Numbered(n)[1] == '0' ==> Numbered(n) == "$0"
    ensures forall m: nat :: Numbered(m) == Numbered(n) ==> m == n
  {
    DecimalReads(n);
    assert Numbered(n)[1..] == Decimal(n);
    forall m: nat | Numbered(m) == Numbered(n)
      ensures m == n
    {
      DecimalReads(m);
      assert Numbered(m)[1..] == Decimal(m);
    }
  }

  /** Where the j-th of the slots stands in the text: behind as many marks as there are slots before it. */
  lemma {:induction false} SlotStands(pieces: seq<Piece>, mark: char, repl: nat -> string, n: nat, j: nat) returns (p: nat)
    requires Marked(repl, mark) && MarkLits(pieces, mark) == 0 && j < |SlotKeys(pieces)|
    ensures var text := Render(pieces, repl, n);
            OccursAt(text, repl(n + j), p) && Count(text[..p], mark) == j
    decreases |pieces|
  {
    var head, tail := pieces[0], pieces[1..];
    var w := if head.Slot? then repl(n) else [head.c];
    var m := if head.Slot? then n + 1 else n;
    var rest := Render(tail, repl, m);
    assert Render(pieces, repl, n) == w + rest;
    assert SlotKeys(pieces) == (if head.Slot? then [head.key] else []) + SlotKeys(tail);
    assert MarkLits(tail, mark) == 0 && (head.Lit? ==> head.c != mark);
    assert |w| > 0 && mark !in w[1..] && (w[0] == mark <==> head.Slot?);
    hide Render, SlotKeys, MarkLits, Marked, OccursAt, Count;
    if head.Slot? && j == 0 {
      p := 0;
      AtFront(w, rest, mark);
    } else {
      var i := if head.Slot? then j - 1 else j;
      var q := SlotStands(tail, mark, repl, m, i);
      p := |w| + q;
      CountWord(w, mark);
      BehindWord(w, rest, repl(m + i), q, mark);
    }
  }

  lemma AtFront(w: string, rest: string, mark: char)
    ensures OccursAt(w + rest, w, 0) && Count((w + rest)[..0], mark) == 0
  {
    assert (w + rest)[0..|w|] == w;
  }

  lemma BehindWord(w: string, rest: string, s: string, q: nat, mark: char)
    requires OccursAt(rest, s, q)
    ensures OccursAt(w + rest, s, |w| + q)
    ensures Count((w + rest)[..|w| + q], mark) == Count(w, mark) + Count(rest[..q], mark)
  {
    OccursBehind(w, rest, s, q);
    hide Count, OccursAt;
    CountFront(w, rest, q, mark);
  }

  lemma OccursBehind(w: string, rest: string, s: string, q: nat)
    requires OccursAt(rest, s, q)
    ensures OccursAt(w + rest, s, |w| + q) && q <= |rest|
  {
    assert q <= |rest|;
    hide OccursAt;
    OccursInSuffix(w + rest, s, |w| + q, |w|);
    assert (w + rest)[|w|..] == rest;
  }

  lemma CountFront(w: string, rest: string, q: nat, mark: char)
    requires q <= |rest|
    ensures Count((w + rest)[..|w| + q], mark) == Count(w, mark) + Count(rest[..q], mark)
  {
    hide Count;
    assert (w + rest)[..|w| + q] == w + rest[..q];
    CountConcat(w, rest[..q], mark);
  }

  lemma CountWord(w: string, mark: char)
    requires |w| > 0 && mark !in w[1..]
    ensures Count(w, mark) == if w[0] == mark then 1 else 0
  {
    CountNone(w[1..], mark);
  }

  /** In the rewritten query the j-th dollar sign, counting from zero, is followed by the number j. */
  lemma PlaceholderReads(q: string, keys: seq<string>, j: nat) returns (p: nat)
    requires NonEmptyKeys(keys) && '$' !in q && (forall k :: k in keys ==> '$' !in k)
    requires j < |SlotKeys(Scan(q, keys))|
    ensures var text := Render(Scan(q, keys), Numbered, 0);
            var end := p + |Numbered(j)|;
            && end <= |text| && text[p] == '$' && Count(text[..p], '$') == j
            && p + 1 < end && AllDigits(text[p + 1..end]) && Reading(text[p + 1..end]) == j
  {
    hide *;
    DriversAreMarked();
    MarkLitsOfScan(q, keys, '$');
    p := SlotStands(Scan(q, keys), '$', Numbered, 0, j);
    NumberedReads(j);
    WordAt(Render(Scan(q, keys), Numbered, 0), Numbered(j), p);
  }

  lemma WordAt(text: string, word: string, p: nat)
    requires OccursAt(text, word, p) && |word| > 1
    ensures p + |word| <= |text| && text[p] == word[0] && text[p + 1..p + |word|] == word[1..]
  {
    var end := p + |word|;
    assert text[p + 1..end] == text[p..end][1..] && text[p] == text[p..end][0];
  }

  /** The placeholders of both drivers are marked. */
  lemma DriversAreMarked()
    ensures Marked(_ => "?", '?') && Marked(Numbered, '$')
  {
    forall n: nat
      ensures '$' !in Numbered(n)[1..]
    {
      DecimalDigits(n);
    }
  }

  /** Writes the keys back, in order, over the placeholders from the n-th on: wherever a mark stands, as many
      characters go as the placeholder whose turn it is has. */
  function Undo(text: string, mark: char, repl: nat -> string, keys: seq<string>, n: nat): string
    decreases |text|
  {
    if text == [] then []
    else if text[0] == mark && keys != [] && 0 < |repl(n)| <= |text| then
      keys[0] + Undo(text[|repl(n)|..], mark, repl, keys[1..], n + 1)
    else [text[0]] + Undo(text[1..], mark, repl, keys, n)
  }

  function Count(text: string, mark: char): nat {
    if text == [] then 0 else (if text[0] == mark then 1 else 0) + Count(text[1..], mark)
  }

  function MarkLits(pieces: seq<Piece>, mark: char): nat {
    if pieces == [] then 0 else (if pieces[0] == Lit(mark) then 1 else 0) + MarkLits(pieces[1..], mark)
  }

  lemma {:induction false} UndoPieces(pieces: seq<Piece>, mark: char, repl: nat -> string, n: nat)
    requires MarkLits(pieces, mark) == 0 && Marked(repl, mark)
    ensures Undo(Render(pieces, repl, n), mark, repl, SlotKeys(pieces), n) == Restore(pieces)
  {
    if pieces != [] {
      var head, keys := pieces[0], SlotKeys(pieces);
      var t := Render(pieces, repl, n);
      if head.Slot? {
        UndoPieces(pieces[1..], mark, repl, n + 1);
        assert keys[1..] == SlotKeys(pieces[1..]);
        assert t[|repl(n)|..] == Render(pieces[1..], repl, n + 1) && t[0] == repl(n)[0];
        assert Undo(t, mark, repl, keys, n) == head.key + Undo(t[|repl(n)|..], mark, repl, keys[1..], n + 1);
      } else {
        UndoPieces(pieces[1..], mark, repl, n);
        assert keys == SlotKeys(pieces[1..]);
        assert t[1..] == Render(pieces[1..], repl, n) && t[0] != mark;
        assert Undo(t, mark, repl, keys, n) == [t[0]] + Undo(t[1..], mark, repl, keys, n);
      }
    }
  }

  lemma {:induction false} CountConcat(a: string, b: string, mark: char)
    ensures Count(a + b, mark) == Count(a, mark) + Count(b, mark)
  {
    if a == [] {
      assert a + b == b;
    } else {
      assert (a + b)[1..] == a[1..] + b;
      CountConcat(a[1..], b, mark);
    }
  }

  lemma {:induction false} CountNone(a: string, mark: char)
    requires mark !in a
    ensures Count(a, mark) == 0
  {
    if a != [] {
      CountNone(a[1..], mark);
    }
  }

  lemma {:induction false} CountPieces(pieces: seq<Piece>, mark: char, repl: nat -> string, n: nat)
    requires Marked(repl, mark)
    ensures Count(Render(pieces, repl, n), mark) == |SlotKeys(pieces)| + MarkLits(pieces, mark)
  {
    if pieces != [] {
      if pieces[0].Slot? {
        CountPieces(pieces[1..], mark, repl, n + 1);
        CountConcat(repl(n), Render(pieces[1..], repl, n + 1), mark);
        CountNone(repl(n)[1..], mark);
      } else {
        CountPieces(pieces[1..], mark, repl, n);
        assert Render(pieces, repl, n)[1..] == Render(pieces[1..], repl, n);
      }
    }
  }

  lemma {:induction false} MarkLitsOfScan(q: string, keys: seq<string>, mark: char)
    requires NonEmptyKeys(keys) && forall k :: k in keys ==> mark !in k
    ensures MarkLits(Scan(q, keys), mark) == 0 <==> mark !in q
    decreases |q|
  {
    if q != [] {
      var k := LongestPrefix(q, keys);
      var n := if k.Some? then |k.value| else 1;
      var head := if k.Some? then Slot(k.value) else Lit(q[0]);
      assert k.Some? ==> q[..n] == k.value;
      assert Scan(q, keys) == [head] + Scan(q[n..], keys);
      hide Scan, LongestPrefix;
      MarkLitsOfScan(q[n..], keys, mark);
      MarkLitsFront(head, Scan(q[n..], keys), mark);
      InPieces(q, n, mark);
    }
  }

  lemma MarkLitsFront(head: Piece, tail: seq<Piece>, mark: char)
    ensures MarkLits([head] + tail, mark) == (if head == Lit(mark) then 1 else 0) + MarkLits(tail, mark)
  {
    assert ([head] + tail)[1..] == tail;
  }

  lemma InPieces(q: string, n: nat, mark: char)
    requires n <= |q|
    ensures mark in q <==> mark in q[..n] || mark in q[n..]
  {
    assert q == q[..n] + q[n..];
  }

  /** With placeholders marked by a character that no key contains: the rewritten query has as many marks as
      bound keys exactly when the original query had none of its own, and then the rewritten text and the keys
      alone restore it. */
  lemma PlaceholdersMatchKeys(q: string, keys: seq<string>, mark: char, repl: nat -> string)
    requires NonEmptyKeys(keys) && Marked(repl, mark) && forall k :: k in keys ==> mark !in k
    ensures var rewritten := Render(Scan(q, keys), repl, 0);
            var bound := SlotKeys(Scan(q, keys));
            && (Count(rewritten, mark) == |bound| <==> mark !in q)
            && (mark !in q ==> Undo(rewritten, mark, repl, bound, 0) == q)
  {
    var pieces := Scan(q, keys);
    CountPieces(pieces, mark, repl, 0);
    MarkLitsOfScan(q, keys, mark);
    ScanRestores(q, keys);
    if mark !in q {
      UndoPieces(pieces, mark, repl, 0);
    }
  }
}
