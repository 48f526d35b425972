/** Meaning of the SQL the dataset queries use: filters, ROW_NUMBER in a partition, ORDER BY. */
module Tables {
  import opened Sequences

  function Filter<T>(s: seq<T>, p: T -> bool): seq<T> {
    if s == [] then [] else (if p(s[0]) then [s[0]] else []) + Filter(s[1..], p)
  }

  lemma {:induction false} FilterAppend<T>(s: seq<T>, t: seq<T>, p: T -> bool)
    ensures Filter(s + t, p) == Filter(s, p) + Filter(t, p)
  {
    if s == [] {
      assert s + t == t;
    } else {
      FilterAppend(s[1..], t, p);
      assert (s + t)[0] == s[0] && (s + t)[1..] == s[1..] + t;
      var head := if p(s[0]) then [s[0]] else [];
      assert head + (Filter(s[1..], p) + Filter(t, p)) == head + Filter(s[1..], p) + Filter(t, p);
    }
  }

  lemma {:induction false} FilterMember<T>(s: seq<T>, p: T -> bool, x: T)
    ensures x in Filter(s, p) <==> x in s && p(x)
  {
    if s != [] {
      FilterMember(s[1..], p, x);
      assert x in s <==> x == s[0] || x in s[1..];
    }
  }

  lemma {:induction false} FilterSame<T>(s: seq<T>, p: T -> bool, q: T -> bool)
    requires forall x | x in s :: p(x) == q(x)
    ensures Filter(s, p) == Filter(s, q)
  {
    if s != [] {
      assert s[0] in s && forall x | x in s[1..] :: x in s;
      FilterSame(s[1..], p, q);
    }
  }

  lemma {:induction false} FilterNested<T>(s: seq<T>, p: T -> bool, q: T -> bool, r: T -> bool)
    requires forall x | x in s :: r(x) == (p(x) && q(x))
    ensures Filter(Filter(s, p), q) == Filter(s, r)
  {
    if s != [] {
      assert s[0] in s && forall x | x in s[1..] :: x in s;
      FilterNested(s[1..], p, q, r);
      var head := if p(s[0]) then [s[0]] else [];
      FilterAppend(head, Filter(s[1..], p), q);
    }
  }

  lemma {:induction false} FilterNone<T>(s: seq<T>, p: T -> bool)
    requires forall x | x in s :: !p(x)
    ensures Filter(s, p) == []
  {
    if s != [] {
      assert s[0] in s && forall x | x in s[1..] :: x in s;
      FilterNone(s[1..], p);
    }
  }

  lemma {:induction false} FilterNoDuplicates<T>(s: seq<T>, p: T -> bool)
    requires NoDuplicates(s)
    ensures NoDuplicates(Filter(s, p))
  {
    if s != [] {
      assert s == [s[0]] + s[1..];
      NoDuplicatesParts([s[0]], s[1..]);
      FilterNoDuplicates(s[1..], p);
      FilterMember(s[1..], p, s[0]);
      assert s[0] in [s[0]];
    }
  }

  // -------------------------------------------------------------- ROW_NUMBER

  function Preceding<T>(same: (T, T) -> bool, before: (T, T) -> bool, r: T): T -> bool {
    x => same(x, r) && before(x, r)
  }

  /** The position of `r` among the rows of its partition, from 1. */
  function RowNumber<T>(table: seq<T>, same: (T, T) -> bool, before: (T, T) -> bool, r: T): nat {
    1 + |Filter(table, Preceding(same, before, r))|
  }

  /** Row number 1 is the row of its partition that no other precedes. */
  lemma RowNumberOne<T(!new)>(table: seq<T>, same: (T, T) -> bool, before: (T, T) -> bool, r: T)
    ensures RowNumber(table, same, before, r) == 1 <==> forall x | x in table && same(x, r) :: !before(x, r)
  {
    var p := Preceding(same, before, r);
    if Filter(table, p) == [] {
      forall x | x in table && same(x, r) ensures !before(x, r) {
        FilterMember(table, p, x);
      }
    } else {
      var x := Filter(table, p)[0];
      assert x in Filter(table, p);
      FilterMember(table, p, x);
    }
  }

  ghost predicate StrictOrder<T(!new)>(before: (T, T) -> bool) {
    && (forall a :: !before(a, a))
    && (forall a, b, c | before(a, b) && before(b, c) :: before(a, c))
  }

  /** Any two different rows of `s` are ordered. */
  ghost predicate Decides<T>(before: (T, T) -> bool, s: seq<T>) {
    forall a, b | a in s && b in s :: a == b || before(a, b) || before(b, a)
  }

  ghost predicate Equivalence<T(!new)>(same: (T, T) -> bool) {
    && (forall a :: same(a, a)) && (forall a, b | same(a, b) :: same(b, a))
    && (forall a, b, c | same(a, b) && same(b, c) :: same(a, c))
  }

  /** Every partition has a row with number 1 .. */
  lemma FirstRowExists<T(!new)>(table: seq<T>, same: (T, T) -> bool, before: (T, T) -> bool, r: T) returns (m: T)
    requires StrictOrder(before) && Equivalence(same) && r in table
    ensures m in table && same(m, r) && RowNumber(table, same, before, m) == 1
  {
    m := r;
    var n := 0;
    while n < |table|
      invariant 0 <= n <= |table| && m in table && same(m, r)
      invariant forall k | 0 <= k < n && same(table[k], r) :: !before(table[k], m)
    {
      if same(table[n], r) && before(table[n], m) {
        m := table[n];
      }
      n := n + 1;
    }
    RowNumberOne(table, same, before, m);
  }

  /** .. and only one. */
  lemma FirstRowIsUnique<T(!new)>(table: seq<T>, same: (T, T) -> bool, before: (T, T) -> bool, a: T, b: T)
    requires Decides(before, table) && Equivalence(same) && a in table && b in table && same(a, b)
    requires RowNumber(table, same, before, a) == 1 && RowNumber(table, same, before, b) == 1
    ensures a == b
  {
    RowNumberOne(table, same, before, a);
    RowNumberOne(table, same, before, b);
  }

  // ---------------------------------------------------------------- ORDER BY

  function InsertSorted<T>(s: seq<T>, x: T, before: (T, T) -> bool): seq<T> {
    if s == [] || !before(s[0], x) then [x] + s else [s[0]] + InsertSorted(s[1..], x, before)
  }

  /** Stable: rows that are not ordered keep their order. */
  function Sort<T>(s: seq<T>, before: (T, T) -> bool): seq<T> {
    if s == [] then [] else InsertSorted(Sort(s[1..], before), s[0], before)
  }

  ghost predicate Sorted<T>(s: seq<T>, before: (T, T) -> bool) {
    forall i, j | 0 <= i < j < |s| :: !before(s[j], s[i])
  }

  lemma {:induction false} InsertKeepsRows<T>(s: seq<T>, x: T, before: (T, T) -> bool)
    ensures multiset(InsertSorted(s, x, before)) == multiset(s) + multiset{x}
  {
    if s != [] && before(s[0], x) {
      InsertKeepsRows(s[1..], x, before);
      assert s == [s[0]] + s[1..];
    }
  }

  lemma {:induction false} SortKeepsRows<T>(s: seq<T>, before: (T, T) -> bool)
    ensures multiset(Sort(s, before)) == multiset(s)
  {
    if s != [] {
      SortKeepsRows(s[1..], before);
      InsertKeepsRows(Sort(s[1..], before), s[0], before);
      assert s == [s[0]] + s[1..];
    }
  }

  lemma SameRowsSameMembers<T>(s: seq<T>, t: seq<T>, x: T)
    requires multiset(s) == multiset(t)
    ensures x in s <==> x in t
  {
    assert x in s <==> x in multiset(s);
    assert x in t <==> x in multiset(t);
  }

  lemma {:induction false} InsertSorts<T(!new)>(s: seq<T>, x: T, before: (T, T) -> bool)
    requires StrictOrder(before) && Decides(before, [x] + s) && Sorted(s, before)
    ensures Sorted(InsertSorted(s, x, before), before)
  {
    if s != [] {
      assert x in [x] + s && s[0] in [x] + s;
      if !before(s[0], x) {
        BeforeAll(s, x, before);
      } else {
        assert forall y | y in [x] + s[1..] :: y in [x] + s;
        InsertSorts(s[1..], x, before);
        var t := InsertSorted(s[1..], x, before);
        InsertKeepsRows(s[1..], x, before);
        forall j | 0 <= j < |t| ensures !before(t[j], s[0]) {
          SameRowsSameMembers(t, s[1..] + [x], t[j]);
          if t[j] != x {
            var k :| 0 <= k < |s[1..]| && s[1..][k] == t[j];
            assert s[k + 1] == t[j];
          }
        }
      }
    }
  }

  lemma BeforeAll<T(!new)>(s: seq<T>, x: T, before: (T, T) -> bool)
    requires StrictOrder(before) && Decides(before, [x] + s) && Sorted(s, before) && s != [] && !before(s[0], x)
    ensures Sorted([x] + s, before)
  {
    assert x in [x] + s && s[0] in [x] + s;
    forall j | 0 <= j < |s| ensures !before(s[j], x) {
      assert !before(s[j], s[0]);
    }
  }

  lemma {:induction false} SortSorts<T(!new)>(s: seq<T>, before: (T, T) -> bool)
    requires StrictOrder(before) && Decides(before, s)
    ensures Sorted(Sort(s, before), before)
  {
    if s != [] {
      assert forall y | y in s[1..] :: y in s;
      SortSorts(s[1..], before);
      SortKeepsRows(s[1..], before);
      forall y | y in [s[0]] + Sort(s[1..], before) ensures y in s {
        SameRowsSameMembers(Sort(s[1..], before), s[1..], y);
      }
      InsertSorts(Sort(s[1..], before), s[0], before);
    }
  }

  /** A sorted sequence is determined by its elements. */
  lemma {:induction false} SortedIsUnique<T(!new)>(s: seq<T>, t: seq<T>, before: (T, T) -> bool)
    requires Decides(before, s) && Sorted(s, before) && Sorted(t, before) && multiset(s) == multiset(t)
    ensures s == t
    decreases |s|
  {
    assert |s| == |multiset(s)| == |multiset(t)| == |t|;
    if s != [] {
      SortedHeadsAgree(s, t, before);
      TailsAgree(s, t);
      assert forall x | x in s[1..] :: x in s;
      SortedIsUnique(s[1..], t[1..], before);
      assert s == [s[0]] + s[1..] && t == [t[0]] + t[1..];
    }
  }

  lemma TailsAgree<T>(s: seq<T>, t: seq<T>)
    requires s != [] && t != [] && s[0] == t[0] && multiset(s) == multiset(t)
    ensures multiset(s[1..]) == multiset(t[1..])
  {
    assert s == [s[0]] + s[1..] && t == [t[0]] + t[1..];
    assert multiset(s[1..]) == multiset(s) - multiset{s[0]};
    assert multiset(t[1..]) == multiset(t) - multiset{t[0]};
  }

  lemma SortedHeadsAgree<T(!new)>(s: seq<T>, t: seq<T>, before: (T, T) -> bool)
    requires Decides(before, s) && Sorted(s, before) && Sorted(t, before) && multiset(s) == multiset(t)
    requires s != [] && t != []
    ensures s[0] == t[0]
  {
    SameRowsSameMembers(s, t, s[0]);
    SameRowsSameMembers(s, t, t[0]);
    var i :| 0 <= i < |t| && t[i] == s[0];
    var j :| 0 <= j < |s| && s[j] == t[0];
    assert !before(t[i], t[0]) || i == 0;
    assert !before(s[j], s[0]) || j == 0;
  }

  /** The result of ORDER BY does not depend on the order of the rows. */
  lemma SortIgnoresOrder<T(!new)>(s: seq<T>, t: seq<T>, before: (T, T) -> bool)
    requires StrictOrder(before) && Decides(before, s) && multiset(s) == multiset(t)
    ensures Sort(s, before) == Sort(t, before)
  {
    forall x ensures x in s <==> x in t { SameRowsSameMembers(s, t, x); }
    SortSorts(s, before);
    SortSorts(t, before);
    SortKeepsRows(s, before);
    SortKeepsRows(t, before);
    forall x | x in Sort(s, before) ensures x in s { SameRowsSameMembers(Sort(s, before), s, x); }
    SortedIsUnique(Sort(s, before), Sort(t, before), before);
  }

  // -------------------------------------------------------------------- TEXT

  /** The order of text: the first difference decides, a prefix comes first. */
  predicate TextBefore(a: string, b: string) {
    if b == "" then false
    else if a == "" then true
    else if a[0] != b[0] then a[0] < b[0]
    else TextBefore(a[1..], b[1..])
  }

  lemma {:induction false} TextIrreflexive(a: string)
    ensures !TextBefore(a, a)
  {
    if a != "" { TextIrreflexive(a[1..]); }
  }

  lemma {:induction false} TextTransitive(a: string, b: string, c: string)
    requires TextBefore(a, b) && TextBefore(b, c)
    ensures TextBefore(a, c)
  {
    if a != "" && a[0] == b[0] && b[0] == c[0] {
      TextTransitive(a[1..], b[1..], c[1..]);
    }
  }

  lemma {:induction false} TextTotal(a: string, b: string)
    ensures a == b || TextBefore(a, b) || TextBefore(b, a)
  {
    if a != "" && b != "" && a[0] == b[0] {
      TextTotal(a[1..], b[1..]);
      assert a == [a[0]] + a[1..] && b == [b[0]] + b[1..];
    }
  }

  /** The texts agree up to `n`, where `a` ends or has the smaller character. */
  predicate DiffersAt(a: string, b: string, n: nat) {
    n <= |a| && n < |b| && a[..n] == b[..n] && (n == |a| || a[n] < b[n])
  }

  lemma DiffersLater(a: string, b: string, n: nat)
    requires n > 0 && a != "" && b != ""
    ensures DiffersAt(a, b, n) <==> a[0] == b[0] && DiffersAt(a[1..], b[1..], n - 1)
  {
    if n <= |a| && n < |b| {
      assert a[..n] == [a[0]] + a[1..][..n - 1] && b[..n] == [b[0]] + b[1..][..n - 1];
      assert a[..n][0] == a[0] && b[..n][0] == b[0] && a[..n][1..] == a[1..][..n - 1] && b[..n][1..] == b[1..][..n - 1];
    }
  }

  /** `a` comes before `b` exactly when it is a proper beginning of it, or has the smaller
      character where they first differ. */
  lemma {:induction false} TextBeforeMeans(a: string, b: string)
    ensures TextBefore(a, b) <==> exists n: nat :: DiffersAt(a, b, n)
  {
    assert a[..0] == [] && b[..0] == [];
    if a == "" || b == "" {
      assert b != "" ==> DiffersAt(a, b, 0);
    } else {
      forall n: nat | n > 0 ensures DiffersAt(a, b, n) <==> a[0] == b[0] && DiffersAt(a[1..], b[1..], n - 1) { DiffersLater(a, b, n); }
      assert DiffersAt(a, b, 0) <==> a[0] < b[0];
      if a[0] == b[0] {
        TextBeforeMeans(a[1..], b[1..]);
        if n: nat :| DiffersAt(a[1..], b[1..], n) { assert DiffersAt(a, b, n + 1); }
      }
    }
  }
}
