/** Stable sorting of sequences by a comparator, and string order. */
module Sorting {
  ghost predicate Total<T(!new)>(le: (T, T) -> bool) {
    && (forall x, y :: le(x, y) || le(y, x))
    && (forall x, y, z :: le(x, y) && le(y, z) ==> le(x, z))
  }

  /** No two different elements of `s` tie. */
  ghost predicate TieFree<T(!new)>(le: (T, T) -> bool, s: seq<T>) {
    forall x, y :: x in s && y in s && le(x, y) && le(y, x) ==> x == y
  }

  ghost predicate Sorted<T>(le: (T, T) -> bool, s: seq<T>) {
    forall i, j :: 0 <= i < j < |s| ==> le(s[i], s[j])
  }

  /** `x` goes after everything that may precede it, so equal elements keep their order. */
  function Insert<T>(le: (T, T) -> bool, s: seq<T>, x: T): (r: seq<T>)
    ensures |r| == |s| + 1
  {
    if s == [] || le(s[|s| - 1], x) then s + [x]
    else Insert(le, s[..|s| - 1], x) + [s[|s| - 1]]
  }

  function Sort<T>(le: (T, T) -> bool, a: seq<T>): (r: seq<T>)
    ensures |r| == |a|
  {
    if a == [] then [] else Insert(le, Sort(le, a[..|a| - 1]), a[|a| - 1])
  }

  function Take<T>(k: nat, s: seq<T>): seq<T> { if |s| <= k then s else s[..k] }

  lemma {:induction false} InsertContents<T>(le: (T, T) -> bool, s: seq<T>, x: T)
    ensures multiset(Insert(le, s, x)) == multiset(s) + multiset{x}
  {
    if s != [] && !le(s[|s| - 1], x) {
      var n := |s| - 1;
      InsertContents(le, s[..n], x);
      assert s == s[..n] + [s[n]];
      assert multiset(s) == multiset(s[..n]) + multiset{s[n]};
    }
  }

  lemma {:induction false} InsertSorted<T(!new)>(le: (T, T) -> bool, s: seq<T>, x: T)
    requires Total(le) && Sorted(le, s)
    ensures Sorted(le, Insert(le, s, x))
  {
    if s != [] {
      var n := |s| - 1;
      if le(s[n], x) {
        assert forall i :: 0 <= i < n ==> le(s[i], s[n]);
      } else {
        InsertSorted(le, s[..n], x);
        InsertContents(le, s[..n], x);
        var r := Insert(le, s[..n], x);
        forall i | 0 <= i < |r| ensures le(r[i], s[n]) {
          assert r[i] in multiset(r);
          assert r[i] in s[..n] || r[i] == x;
        }
      }
    }
  }

  /** Sorting permutes its input into order. */
  lemma {:induction false} SortIsSorted<T(!new)>(le: (T, T) -> bool, a: seq<T>)
    requires Total(le)
    ensures Sorted(le, Sort(le, a)) && multiset(Sort(le, a)) == multiset(a)
  {
    if a != [] {
      var n := |a| - 1;
      SortIsSorted(le, a[..n]);
      InsertSorted(le, Sort(le, a[..n]), a[n]);
      InsertContents(le, Sort(le, a[..n]), a[n]);
      assert a == a[..n] + [a[n]];
    }
  }

  lemma {:induction false} SortContents<T>(le: (T, T) -> bool, a: seq<T>)
    ensures multiset(Sort(le, a)) == multiset(a)
  {
    if a != [] {
      var n := |a| - 1;
      SortContents(le, a[..n]);
      InsertContents(le, Sort(le, a[..n]), a[n]);
      assert a == a[..n] + [a[n]];
    }
  }

  lemma SortMembers<T>(le: (T, T) -> bool, a: seq<T>, x: T)
    ensures x in Sort(le, a) <==> x in a
  {
    SortContents(le, a);
    assert x in Sort(le, a) <==> x in multiset(Sort(le, a));
    assert x in a <==> x in multiset(a);
  }

  lemma LastIsGreatest<T(!new)>(le: (T, T) -> bool, s: seq<T>, x: T)
    requires le(x, x) && Sorted(le, s) && x in s
    ensures le(x, s[|s| - 1])
  {
    var i :| 0 <= i < |s| && s[i] == x;
  }

  lemma SameGreatest<T(!new)>(le: (T, T) -> bool, s: seq<T>, t: seq<T>)
    requires s != [] && Sorted(le, s) && Sorted(le, t) && multiset(s) == multiset(t)
    requires forall x :: le(x, x)
    requires TieFree(le, s)
    ensures |s| == |t| && s[|s| - 1] == t[|t| - 1]
  {
    assert |s| == |multiset(s)| == |multiset(t)| == |t|;
    var x, y := s[|s| - 1], t[|t| - 1];
    assert x in multiset(t) && y in multiset(s);
    assert x in t && y in s;
    LastIsGreatest(le, s, y);
    LastIsGreatest(le, t, x);
  }

  lemma WithoutLast<T>(s: seq<T>)
    requires s != []
    ensures multiset(s[..|s| - 1]) == multiset(s) - multiset{s[|s| - 1]}
  {
    assert s == s[..|s| - 1] + [s[|s| - 1]];
  }

  lemma DropSameLast<T>(s: seq<T>, t: seq<T>)
    requires s != [] && t != [] && multiset(s) == multiset(t) && s[|s| - 1] == t[|t| - 1]
    ensures multiset(s[..|s| - 1]) == multiset(t[..|t| - 1])
  {
    WithoutLast(s);
    WithoutLast(t);
  }

  /** Without ties there is only one sorted arrangement. */
  lemma {:induction false} SortedIsUnique<T(!new)>(le: (T, T) -> bool, s: seq<T>, t: seq<T>)
    requires Sorted(le, s) && Sorted(le, t) && multiset(s) == multiset(t)
    requires forall x :: le(x, x)
    requires TieFree(le, s)
    ensures s == t
  {
    assert |s| == |multiset(s)| == |multiset(t)| == |t|;
    if s != [] {
      var n := |s| - 1;
      SameGreatest(le, s, t);
      DropSameLast(s, t);
      SortedIsUnique(le, s[..n], t[..n]);
    }
  }

  /** Hence sorting forgets the order of its input. */
  lemma SortForgetsOrder<T(!new)>(le: (T, T) -> bool, a: seq<T>, b: seq<T>)
    requires Total(le) && TieFree(le, a) && multiset(a) == multiset(b)
    ensures Sort(le, a) == Sort(le, b)
  {
    forall x ensures x in Sort(le, a) <==> x in a { SortMembers(le, a, x); }
    SortIsSorted(le, a);
    SortIsSorted(le, b);
    SortedIsUnique(le, Sort(le, a), Sort(le, b));
  }

  lemma {:induction false} SortOfSorted<T>(le: (T, T) -> bool, s: seq<T>)
    requires Sorted(le, s)
    ensures Sort(le, s) == s
  {
    if s != [] {
      var n := |s| - 1;
      SortOfSorted(le, s[..n]);
      if n > 0 {
        assert le(s[n - 1], s[n]);
      }
      assert s == s[..n] + [s[n]];
    }
  }

  /** Inserting into the first `k` elements is enough to know the first `k` of the insertion. */
  lemma {:induction false} TakeInsert<T(!new)>(le: (T, T) -> bool, s: seq<T>, x: T, k: nat)
    requires Total(le) && Sorted(le, s)
    ensures Take(k, Insert(le, s, x)) == Take(k, Insert(le, Take(k, s), x))
  {
    if |s| > k {
      var n := |s| - 1;
      if le(s[n], x) {
        if k > 0 {
          assert le(s[k - 1], s[n]);
          assert Insert(le, s[..k], x) == s[..k] + [x];
        }
      } else {
        TakeInsert(le, s[..n], x, k);
        assert s[..n][..k] == s[..k];
        assert Take(k, Insert(le, s, x)) == Take(k, Insert(le, s[..n], x));
      }
    }
  }

  lemma {:induction false} DistinctMultiset<T>(s: seq<T>)
    requires forall i, j :: 0 <= i < j < |s| ==> s[i] != s[j]
    ensures forall x :: multiset(s)[x] <= 1
  {
    if s != [] {
      var k := |s| - 1;
      DistinctMultiset(s[..k]);
      assert s == s[..k] + [s[k]];
      assert s[k] !in multiset(s[..k]);
    }
  }

  lemma {:induction false} MultisetDistinct<T>(s: seq<T>)
    requires forall x :: multiset(s)[x] <= 1
    ensures forall i, j :: 0 <= i < j < |s| ==> s[i] != s[j]
  {
    if s != [] {
      var k := |s| - 1;
      assert s == s[..k] + [s[k]];
      assert multiset(s)[s[k]] == multiset(s[..k])[s[k]] + 1;
      forall x ensures multiset(s[..k])[x] <= 1 {
        assert multiset(s[..k])[x] <= multiset(s)[x];
      }
      MultisetDistinct(s[..k]);
      assert forall i :: 0 <= i < k ==> s[..k][i] in multiset(s[..k]);
    }
  }

  /** What the first `k` leave out goes after all of them, and they are `k`. */
  lemma TakeLeavesWorse<T>(le: (T, T) -> bool, s: seq<T>, k: nat, x: T)
    requires Sorted(le, s) && x in s && x !in Take(k, s)
    ensures |Take(k, s)| == k && forall y :: y in Take(k, s) ==> le(y, x)
  {
    var i :| 0 <= i < |s| && s[i] == x;
    assert forall j :: 0 <= j < |Take(k, s)| ==> Take(k, s)[j] in Take(k, s) && Take(k, s)[j] == s[j];
  }

  // ---- Strings ----

  /** Code point by code point, a prefix first: how strings compare. */
  predicate StringLe(a: string, b: string) {
    if a == [] then true
    else if b == [] then false
    else if a[0] != b[0] then a[0] < b[0]
    else StringLe(a[1..], b[1..])
  }

  lemma {:induction false} StringLeTotal(a: string, b: string)
    ensures StringLe(a, b) || StringLe(b, a)
    ensures StringLe(a, b) && StringLe(b, a) ==> a == b
  {
    if a != [] && b != [] && a[0] == b[0] {
      StringLeTotal(a[1..], b[1..]);
      assert a == [a[0]] + a[1..] && b == [b[0]] + b[1..];
    }
  }

  lemma {:induction false} StringLeTransitive(a: string, b: string, c: string)
    requires StringLe(a, b) && StringLe(b, c)
    ensures StringLe(a, c)
  {
    if a != [] && b != [] && c != [] && a[0] == b[0] == c[0] {
      StringLeTransitive(a[1..], b[1..], c[1..]);
    }
  }

  lemma StringOrder()
    ensures Total(StringLe)
  {
    forall x, y ensures StringLe(x, y) || StringLe(y, x) { StringLeTotal(x, y); }
    forall x, y, z | StringLe(x, y) && StringLe(y, z) ensures StringLe(x, z) { StringLeTransitive(x, y, z); }
  }
}
