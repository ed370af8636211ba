/** The contract behind `sort_by` for a comparison that strictly orders the values sorted:
    a sorted permutation exists, is unique, and does not depend on the arrival order. */
module Sorting {

  ghost predicate Sorted<T(!new)>(s: seq<T>, before: (T, T) -> bool) {
    forall i, j | 0 <= i < j < |s| :: before(s[i], s[j])
  }

  ghost predicate Asymmetric<T(!new)>(before: (T, T) -> bool) {
    forall x, y | before(x, y) :: !before(y, x)
  }

  ghost predicate Transitive<T(!new)>(before: (T, T) -> bool) {
    forall x, y, z | before(x, y) && before(y, z) :: before(x, z)
  }

  /** No two values of `s` tie. */
  ghost predicate Comparable<T(!new)>(s: seq<T>, before: (T, T) -> bool) {
    forall i, j | 0 <= i < j < |s| :: before(s[i], s[j]) || before(s[j], s[i])
  }

  function Insert<T>(x: T, s: seq<T>, before: (T, T) -> bool): seq<T> {
    if s == [] then [x]
    else if before(s[0], x) then [s[0]] + Insert(x, s[1..], before)
    else [x] + s
  }

  function Sort<T>(s: seq<T>, before: (T, T) -> bool): seq<T> {
    if s == [] then [] else Insert(s[0], Sort(s[1..], before), before)
  }

  lemma {:induction false} InsertKeeps<T>(x: T, s: seq<T>, before: (T, T) -> bool)
    ensures multiset(Insert(x, s, before)) == multiset{x} + multiset(s)
  {
    if s != [] {
      assert s == [s[0]] + s[1..];
      if before(s[0], x) {
        InsertKeeps(x, s[1..], before);
      }
    }
  }

  lemma {:induction false} SortKeeps<T>(s: seq<T>, before: (T, T) -> bool)
    ensures multiset(Sort(s, before)) == multiset(s)
  {
    if s != [] {
      assert s == [s[0]] + s[1..];
      SortKeeps(s[1..], before);
      InsertKeeps(s[0], Sort(s[1..], before), before);
    }
  }

  lemma SameMembers<T>(s: seq<T>, t: seq<T>)
    requires multiset(s) == multiset(t)
    ensures forall x :: x in s <==> x in t
  {
    forall x ensures x in s <==> x in t {
      assert x in s <==> x in multiset(s);
      assert x in t <==> x in multiset(t);
    }
  }

  lemma {:induction false} InsertSorted<T(!new)>(x: T, s: seq<T>, before: (T, T) -> bool)
    requires Transitive(before) && Sorted(s, before)
    requires forall y | y in s :: before(x, y) || before(y, x)
    ensures Sorted(Insert(x, s, before), before)
  {
    if s != [] {
      assert s[0] in s;
      if before(s[0], x) {
        InsertSorted(x, s[1..], before);
        InsertKeeps(x, s[1..], before);
        var t := Insert(x, s[1..], before);
        forall j | 0 <= j < |t| ensures before(s[0], t[j]) {
          assert t[j] in multiset(t);
          assert t[j] == x || t[j] in s[1..];
        }
      }
    }
  }

  lemma {:induction false} SortSorted<T(!new)>(s: seq<T>, before: (T, T) -> bool)
    requires Transitive(before) && Comparable(s, before)
    ensures Sorted(Sort(s, before), before)
  {
    if s != [] {
      SortSorted(s[1..], before);
      SortKeeps(s[1..], before);
      SameMembers(Sort(s[1..], before), s[1..]);
      InsertSorted(s[0], Sort(s[1..], before), before);
    }
  }

  lemma SortedHeads<T(!new)>(s: seq<T>, t: seq<T>, before: (T, T) -> bool)
    requires Asymmetric(before)
    requires multiset(s) == multiset(t) && Sorted(s, before) && Sorted(t, before) && s != []
    ensures t != [] && s[0] == t[0]
  {
    SameMembers(s, t);
    assert s[0] in t;
    assert t[0] in s;
    var i :| 0 <= i < |t| && t[i] == s[0];
    var j :| 0 <= j < |s| && s[j] == t[0];
  }

  lemma Extract<T>(s: seq<T>, x: T) returns (before: seq<T>, after: seq<T>)
    requires x in s
    ensures s == before + [x] + after
    ensures multiset(before + after) == multiset(s) - multiset{x}
  {
    var k :| 0 <= k < |s| && s[k] == x;
    before, after := s[..k], s[k + 1..];
    assert s == before + [x] + after;
  }

  lemma TailMultiset<T>(s: seq<T>)
    requires s != []
    ensures multiset(s[1..]) == multiset(s) - multiset{s[0]}
  {
    assert s == [s[0]] + s[1..];
  }

  /** Two sorted arrangements of the same values are the same sequence. */
  lemma {:induction false} SortedUnique<T(!new)>(s: seq<T>, t: seq<T>, before: (T, T) -> bool)
    requires Asymmetric(before)
    requires multiset(s) == multiset(t) && Sorted(s, before) && Sorted(t, before)
    ensures s == t
  {
    if s == [] {
      assert |multiset(t)| == |t|;
    } else {
      SortedHeads(s, t, before);
      TailMultiset(s);
      TailMultiset(t);
      SortedUnique(s[1..], t[1..], before);
    }
  }

  /** Sorting values that do not tie gives one result, whatever order they arrive in. */
  lemma SortIgnoresArrival<T(!new)>(s: seq<T>, t: seq<T>, before: (T, T) -> bool)
    requires Asymmetric(before) && Transitive(before)
    requires multiset(s) == multiset(t) && Comparable(s, before) && Comparable(t, before)
    ensures Sort(s, before) == Sort(t, before)
  {
    SortSorted(s, before);
    SortSorted(t, before);
    SortKeeps(s, before);
    SortKeeps(t, before);
    SortedUnique(Sort(s, before), Sort(t, before), before);
  }

  /** Two sorted sequences with the same members are the same sequence. */
  lemma {:induction false} SortedByMembers<T(!new)>(s: seq<T>, t: seq<T>, before: (T, T) -> bool)
    requires Asymmetric(before) && Sorted(s, before) && Sorted(t, before)
    requires forall x :: x in s <==> x in t
    ensures s == t
  {
    assert t != [] ==> t[0] in t;
    if s != [] {
      assert s[0] in t && t[0] in s;
      assert s[0] == t[0];
      forall x ensures x in s[1..] <==> x in t[1..] {
        if x in s[1..] {
          var i :| 1 <= i < |s| && s[i] == x;
          assert before(s[0], x) && x in t;
        }
        if x in t[1..] {
          var i :| 1 <= i < |t| && t[i] == x;
          assert before(t[0], x) && x in s;
        }
      }
      SortedByMembers(s[1..], t[1..], before);
    }
  }

  // ---------- strings ----------

  /** Ids compare by code point, as their UTF-8 bytes do. */
  predicate LexLess(a: string, b: string)
    decreases |a|
  {
    b != [] && (a == [] || a[0] < b[0] || (a[0] == b[0] && LexLess(a[1..], b[1..])))
  }

  lemma {:induction false} LexTotal(a: string, b: string)
    ensures LexLess(a, b) || LexLess(b, a) || a == b
    decreases |a|
  {
    if a != [] && b != [] && a[0] == b[0] {
      LexTotal(a[1..], b[1..]);
      if a[1..] == b[1..] {
        assert a == [a[0]] + a[1..] && b == [b[0]] + b[1..];
      }
    }
  }

  lemma {:induction false} LexAsymmetric(a: string, b: string)
    requires LexLess(a, b)
    ensures !LexLess(b, a)
    decreases |a|
  {
    if a != [] && a[0] == b[0] {
      LexAsymmetric(a[1..], b[1..]);
    }
  }

  lemma {:induction false} LexTransitive(a: string, b: string, c: string)
    requires LexLess(a, b) && LexLess(b, c)
    ensures LexLess(a, c)
    decreases |a|
  {
    if a != [] && a[0] == b[0] == c[0] {
      LexTransitive(a[1..], b[1..], c[1..]);
    }
  }
}
