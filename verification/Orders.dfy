/** Sorting with an explicit order, and the lexicographic order of strings and byte strings.
    `Sort` is stable, as the sorts of Rust and Python are. */
module Orders {

  ghost predicate TotalPreorder<T(!new)>(leq: (T, T) -> bool) {
    && (forall x, y :: leq(x, y) || leq(y, x))
    && (forall x, y, z :: leq(x, y) && leq(y, z) ==> leq(x, z))
  }

  ghost predicate TotalOrder<T(!new)>(leq: (T, T) -> bool) {
    && TotalPreorder(leq)
    && (forall x, y :: leq(x, y) && leq(y, x) ==> x == y)
  }

  ghost predicate Sorted<T>(leq: (T, T) -> bool, s: seq<T>) {
    forall i, j | 0 <= i < j < |s| :: leq(s[i], s[j])
  }

  ghost predicate Distinct<T>(s: seq<T>) {
    forall i, j | 0 <= i < j < |s| :: s[i] != s[j]
  }

  /** Places `x` behind every trailing element that is not above it. */
  function Insert<T>(leq: (T, T) -> bool, s: seq<T>, x: T): (r: seq<T>)
    ensures multiset(r) == multiset(s) + multiset{x}
  {
    if s == [] || leq(s[|s| - 1], x) then s + [x]
    else
      assert s == s[..|s| - 1] + [s[|s| - 1]];
      Insert(leq, s[..|s| - 1], x) + [s[|s| - 1]]
  }

  function Sort<T>(leq: (T, T) -> bool, s: seq<T>): (r: seq<T>)
    ensures multiset(r) == multiset(s)
    ensures |r| == |s|
  {
    if s == [] then []
    else
      assert s == s[..|s| - 1] + [s[|s| - 1]];
      var r := Insert(leq, Sort(leq, s[..|s| - 1]), s[|s| - 1]);
      assert |multiset(r)| == |multiset(s)|;
      r
  }

  lemma SortMembers<T>(leq: (T, T) -> bool, s: seq<T>)
    ensures forall x :: x in Sort(leq, s) <==> x in s
  {
    forall x ensures x in Sort(leq, s) <==> x in s {
      assert x in multiset(Sort(leq, s)) <==> x in multiset(s);
    }
  }

  lemma {:induction false} InsertSorted<T(!new)>(leq: (T, T) -> bool, s: seq<T>, x: T)
    requires TotalPreorder(leq) && Sorted(leq, s)
    ensures Sorted(leq, Insert(leq, s, x))
  {
    if s == [] || leq(s[|s| - 1], x) {
    } else {
      var front, last := s[..|s| - 1], s[|s| - 1];
      InsertSorted(leq, front, x);
      var r := Insert(leq, front, x);
      forall i | 0 <= i < |r| ensures leq(r[i], last) {
        assert r[i] in multiset(r);
        assert r[i] in front || r[i] == x;
      }
    }
  }

  lemma {:induction false} SortSorts<T(!new)>(leq: (T, T) -> bool, s: seq<T>)
    requires TotalPreorder(leq)
    ensures Sorted(leq, Sort(leq, s))
  {
    if s != [] {
      SortSorts(leq, s[..|s| - 1]);
      InsertSorted(leq, Sort(leq, s[..|s| - 1]), s[|s| - 1]);
    }
  }

  lemma Tail<T>(s: seq<T>)
    requires s != []
    ensures multiset(s[1..]) == multiset(s) - multiset{s[0]}
    ensures s == [s[0]] + s[1..]
  {
    assert s == [s[0]] + s[1..];
  }

  lemma SameFirst<T(!new)>(leq: (T, T) -> bool, a: seq<T>, b: seq<T>)
    requires TotalOrder(leq) && Sorted(leq, a) && Sorted(leq, b)
    requires a != [] && b != [] && multiset(a) == multiset(b)
    ensures a[0] == b[0]
  {
    assert a[0] in multiset(b) && b[0] in multiset(a);
    var i :| 0 <= i < |b| && b[i] == a[0];
    var j :| 0 <= j < |a| && a[j] == b[0];
    assert leq(b[0], b[i]) && leq(a[0], a[j]);
  }

  /** Two sorted sequences with the same elements are equal. */
  lemma {:induction false} SortedUnique<T(!new)>(leq: (T, T) -> bool, a: seq<T>, b: seq<T>)
    requires TotalOrder(leq) && Sorted(leq, a) && Sorted(leq, b)
    requires multiset(a) == multiset(b)
    ensures a == b
  {
    assert |a| == |multiset(a)| == |b|;
    if a != [] {
      SameFirst(leq, a, b);
      Tail(a);
      Tail(b);
      SortedUnique(leq, a[1..], b[1..]);
    }
  }

  lemma SortOfSorted<T(!new)>(leq: (T, T) -> bool, s: seq<T>)
    requires TotalOrder(leq) && Sorted(leq, s)
    ensures Sort(leq, s) == s
  {
    SortSorts(leq, s);
    SortedUnique(leq, Sort(leq, s), s);
  }

  /** Sorting depends on the elements only, not on the order they arrive in. */
  lemma SortOfPermutation<T(!new)>(leq: (T, T) -> bool, a: seq<T>, b: seq<T>)
    requires TotalOrder(leq)
    ensures Sort(leq, a) == Sort(leq, b) <==> multiset(a) == multiset(b)
  {
    SortSorts(leq, a);
    SortSorts(leq, b);
    if multiset(a) == multiset(b) {
      SortedUnique(leq, Sort(leq, a), Sort(leq, b));
    }
  }

  lemma {:induction false} DistinctCounts<T>(s: seq<T>)
    ensures Distinct(s) <==> (forall x | x in s :: multiset(s)[x] == 1)
  {
    if s != [] {
      var front, last := s[..|s| - 1], s[|s| - 1];
      assert s == front + [last];
      DistinctCounts(front);
      if last in front {
        assert multiset(s)[last] >= 2;
        var k :| 0 <= k < |front| && front[k] == last;
        assert s[k] == s[|s| - 1];
      } else {
        assert forall x | x in front :: multiset(s)[x] == multiset(front)[x];
      }
    }
  }

  lemma AppendDistinct<T>(a: seq<T>, b: seq<T>)
    requires Distinct(a)
    requires Distinct(b)
    requires forall x | x in a :: x !in b
    ensures Distinct(a + b)
  {
    forall i, j | 0 <= i < j < |a + b| ensures (a + b)[i] != (a + b)[j] {
      assert j >= |a| ==> (a + b)[j] in b;
      assert i < |a| ==> (a + b)[i] in a;
    }
  }

  lemma SortKeepsDistinct<T>(leq: (T, T) -> bool, s: seq<T>)
    requires Distinct(s)
    ensures Distinct(Sort(leq, s))
  {
    DistinctCounts(s);
    SortMembers(leq, s);
    DistinctCounts(Sort(leq, s));
  }

  lemma TakeOneMore<T>(s: seq<T>, i: nat)
    requires i < |s|
    ensures s[..i + 1] == s[..i] + [s[i]]
    ensures s[..i + 1][..i] == s[..i]
  {
  }

  lemma AppendAssociative<T>(a: seq<T>, b: seq<T>, c: seq<T>)
    ensures (a + b) + c == a + (b + c)
  {
  }

  lemma SplitAround<T>(s: seq<T>, k: nat)
    requires k < |s|
    ensures s == (s[..k] + [s[k]]) + s[k + 1..]
  {
  }

  lemma TakeAll<T>(s: seq<T>)
    ensures s[..|s|] == s
  {
  }

  // ---- Lexicographic order ----

  predicate LexLeq<T(==)>(code: T -> int, a: seq<T>, b: seq<T>) {
    || a == []
    || (b != [] && (code(a[0]) < code(b[0]) || (a[0] == b[0] && LexLeq(code, a[1..], b[1..]))))
  }

  ghost predicate Injective<T(!new)>(code: T -> int) {
    forall x, y :: code(x) == code(y) ==> x == y
  }

  lemma {:induction false} LexTotal<T(!new)>(code: T -> int, a: seq<T>, b: seq<T>)
    requires Injective(code)
    ensures LexLeq(code, a, b) || LexLeq(code, b, a)
  {
    if a != [] && b != [] && a[0] == b[0] {
      LexTotal(code, a[1..], b[1..]);
    }
  }

  lemma {:induction false} LexTransitive<T(!new)>(code: T -> int, a: seq<T>, b: seq<T>, c: seq<T>)
    requires LexLeq(code, a, b) && LexLeq(code, b, c)
    ensures LexLeq(code, a, c)
  {
    if a != [] && a[0] == b[0] == c[0] {
      LexTransitive(code, a[1..], b[1..], c[1..]);
    }
  }

  lemma {:induction false} LexAntisymmetric<T(!new)>(code: T -> int, a: seq<T>, b: seq<T>)
    requires LexLeq(code, a, b) && LexLeq(code, b, a)
    ensures a == b
  {
    if a != [] {
      LexAntisymmetric(code, a[1..], b[1..]);
      assert a == [a[0]] + a[1..] && b == [b[0]] + b[1..];
    }
  }

  function CharCode(c: char): int { c as int }

  predicate StringLeq(a: string, b: string) {
    LexLeq(CharCode, a, b)
  }

  lemma StringOrder()
    ensures TotalOrder(StringLeq)
  {
    forall a, b: string ensures StringLeq(a, b) || StringLeq(b, a) {
      LexTotal(CharCode, a, b);
    }
    forall a, b, c: string | StringLeq(a, b) && StringLeq(b, c) ensures StringLeq(a, c) {
      LexTransitive(CharCode, a, b, c);
    }
    forall a, b: string | StringLeq(a, b) && StringLeq(b, a) ensures a == b {
      LexAntisymmetric(CharCode, a, b);
    }
  }

  // ---- Sorted, duplicate-free lists ----

  ghost predicate StrictlySorted(s: seq<string>) {
    && Sorted(StringLeq, s)
    && Distinct(s)
  }

  /** Removes adjacent repetitions. */
  function Dedup(s: seq<string>): (r: seq<string>)
    ensures forall x :: x in r <==> x in s
    ensures s != [] ==> r != [] && r[|r| - 1] == s[|s| - 1]
  {
    if s == [] then []
    else
      var front := s[..|s| - 1];
      assert s == front + [s[|s| - 1]];
      var r := Dedup(front);
      if front != [] && front[|front| - 1] == s[|s| - 1] then r else r + [s[|s| - 1]]
  }

  lemma BelowTheLast(s: seq<string>, r: seq<string>, i: nat)
    requires Sorted(StringLeq, s) && s != [] && i < |r| && r[i] in s[..|s| - 1]
    requires |s| > 1 ==> s[|s| - 2] != s[|s| - 1]
    ensures StringLeq(r[i], s[|s| - 1]) && r[i] != s[|s| - 1]
  {
    StringOrder();
    var j: nat :| j < |s| - 1 && s[j] == r[i];
    assert StringLeq(s[j], s[|s| - 1]);
    assert j < |s| - 2 ==> StringLeq(s[j], s[|s| - 2]) && StringLeq(s[|s| - 2], s[|s| - 1]);
  }

  lemma {:induction false} DedupStrict(s: seq<string>)
    requires Sorted(StringLeq, s)
    ensures StrictlySorted(Dedup(s))
  {
    if s != [] {
      var front, last := s[..|s| - 1], s[|s| - 1];
      DedupStrict(front);
      var r := Dedup(front);
      if !(front != [] && front[|front| - 1] == last) {
        forall i | 0 <= i < |r| ensures StringLeq(r[i], last) && r[i] != last {
          assert r[i] in front;
          BelowTheLast(s, r, i);
        }
      }
    }
  }

  lemma FirstIn(s: seq<string>)
    ensures s != [] ==> s[0] in s
  {
  }

  /** A strictly sorted list is determined by its set of elements. */
  lemma {:induction false} StrictlySortedUnique(a: seq<string>, b: seq<string>)
    requires StrictlySorted(a) && StrictlySorted(b)
    requires forall x :: x in a <==> x in b
    ensures a == b
  {
    FirstIn(a);
    FirstIn(b);
    if a != [] {
      assert a[0] in b && b[0] in a;
      StringOrder();
      assert a[0] == b[0];
      forall x ensures x in a[1..] <==> x in b[1..] {
        assert x in a <==> x in b;
      }
      StrictlySortedUnique(a[1..], b[1..]);
      assert a == [a[0]] + a[1..] && b == [b[0]] + b[1..];
    }
  }

  /** `sort(); dedup()`: the strictly sorted list of the elements of `s`. */
  function SortDedup(s: seq<string>): (r: seq<string>)
    ensures forall x :: x in r <==> x in s
  {
    SortMembers(StringLeq, s);
    Dedup(Sort(StringLeq, s))
  }

  lemma SortDedupStrict(s: seq<string>)
    ensures StrictlySorted(SortDedup(s))
  {
    StringOrder();
    SortSorts(StringLeq, s);
    DedupStrict(Sort(StringLeq, s));
  }
}
