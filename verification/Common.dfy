/** Small shared vocabulary: optional values, results, and two ways to walk a sequence. */
module Common {
  datatype Option<+T> = None | Some(value: T)

  datatype Result<+T, +E> = Ok(value: T) | Err(error: E)

  newtype Byte = x: int | 0 <= x < 256

  type Bytes = seq<Byte>

  const MAX_U64: nat := 0xFFFF_FFFF_FFFF_FFFF

  /** What a 64-bit counter that stops at the top shows. */
  function Capped(n: nat): nat { if n <= MAX_U64 then n else MAX_U64 }

  function SaturatingAdd(a: nat, b: nat): nat { Capped(a + b) }

  /** One decimal digit. */
  function Digit(d: nat): (c: char)
    requires d < 10
    ensures '0' <= c <= '9' && c as int == '0' as int + d
  {
    ('0' as int + d) as char
  }

  /** A natural number in decimal, without leading zeros. */
  function Decimal(n: nat): (s: string)
    ensures |s| > 0 && '0' <= s[|s| - 1] <= '9'
  {
    (if n < 10 then "" else Decimal(n / 10)) + [Digit(n % 10)]
  }

  /** `f` applied to every element. */
  function Map<A, B>(s: seq<A>, f: A -> B): (r: seq<B>)
    ensures |r| == |s|
    ensures forall i :: 0 <= i < |s| ==> r[i] == f(s[i])
  {
    seq(|s|, i requires 0 <= i < |s| => f(s[i]))
  }

  /** `s` with `f` applied to its first `i` elements, as a loop over `s` leaves it. */
  function PartlyMapped<A>(s: seq<A>, i: nat, f: A -> A): (r: seq<A>)
    requires i <= |s|
    ensures |r| == |s|
  {
    Map(s[..i], f) + s[i..]
  }

  lemma MapNext<A>(s: seq<A>, i: nat, f: A -> A)
    requires i < |s|
    ensures PartlyMapped(s, i, f)[i] == s[i]
    ensures PartlyMapped(s, i, f)[i := f(s[i])] == PartlyMapped(s, i + 1, f)
  {
  }

  lemma MapEnds<A>(s: seq<A>, f: A -> A)
    ensures PartlyMapped(s, 0, f) == s && PartlyMapped(s, |s|, f) == Map(s, f) && s[..|s|] == s
  {
  }

  /** The lists `f` yields for every element, one after the other. */
  function Concat<A, B>(s: seq<A>, f: A -> seq<B>): seq<B> {
    if s == [] then [] else Concat(s[..|s| - 1], f) + f(s[|s| - 1])
  }

  /** The elements that satisfy `p`, in order. */
  function Filter<A>(s: seq<A>, p: A -> bool): seq<A> {
    if s == [] then []
    else Filter(s[..|s| - 1], p) + (if p(s[|s| - 1]) then [s[|s| - 1]] else [])
  }

  lemma TakeNext<T>(s: seq<T>, i: nat)
    requires i < |s|
    ensures s[..i + 1] == s[..i] + [s[i]]
  {
  }

  lemma {:induction false} ConcatSnoc<A, B>(s: seq<A>, x: A, f: A -> seq<B>)
    ensures Concat(s + [x], f) == Concat(s, f) + f(x)
  {
    assert (s + [x])[..|s|] == s;
  }

  lemma {:induction false} ConcatMember<A, B>(s: seq<A>, f: A -> seq<B>, y: B)
    ensures y in Concat(s, f) <==> exists i :: 0 <= i < |s| && y in f(s[i])
  {
    if s != [] {
      var n := |s| - 1;
      ConcatMember(s[..n], f, y);
      assert forall i :: 0 <= i < n ==> s[..n][i] == s[i];
    }
  }

  lemma {:induction false} FilterSnoc<A>(s: seq<A>, x: A, p: A -> bool)
    ensures Filter(s + [x], p) == Filter(s, p) + (if p(x) then [x] else [])
  {
    assert (s + [x])[..|s|] == s;
  }

  lemma {:induction false} FilterMember<A>(s: seq<A>, p: A -> bool, y: A)
    ensures y in Filter(s, p) <==> y in s && p(y)
  {
    if s != [] {
      var n := |s| - 1;
      FilterMember(s[..n], p, y);
      assert s == s[..n] + [s[n]];
    }
  }

  lemma {:induction false} ConcatAppend<A, B>(s: seq<A>, t: seq<A>, f: A -> seq<B>)
    ensures Concat(s + t, f) == Concat(s, f) + Concat(t, f)
  {
    if t == [] {
      assert s + t == s;
    } else {
      var n := |t| - 1;
      assert s + t == (s + t[..n]) + [t[n]];
      ConcatSnoc(s + t[..n], t[n], f);
      ConcatAppend(s, t[..n], f);
    }
  }

  lemma ConcatFront<A, B>(x: A, s: seq<A>, f: A -> seq<B>)
    ensures Concat([x] + s, f) == f(x) + Concat(s, f)
  {
    ConcatSnoc([], x, f);
    assert [] + [x] == [x] && [] + f(x) == f(x);
    ConcatAppend([x], s, f);
  }

  /** Taking one element out of a list takes its share out of the concatenation. */
  lemma ConcatMiddle<A, B>(a: seq<A>, x: A, b: seq<A>, f: A -> seq<B>)
    ensures multiset(Concat(a + [x] + b, f)) == multiset(Concat(a + b, f)) + multiset(f(x))
  {
    ConcatAppend(a + [x], b, f);
    ConcatSnoc(a, x, f);
    ConcatAppend(a, b, f);
  }

  lemma Without<A>(t: seq<A>, i: nat)
    requires i < |t|
    ensures t == t[..i] + [t[i]] + t[i + 1..]
    ensures multiset(t[..i] + t[i + 1..]) == multiset(t) - multiset{t[i]}
  {
    assert t == t[..i] + [t[i]] + t[i + 1..];
    assert multiset(t) == multiset(t[..i]) + multiset{t[i]} + multiset(t[i + 1..]);
  }

  /** Permuting a list permutes the concatenation. */
  lemma {:induction false} ConcatPermutation<A, B>(s: seq<A>, t: seq<A>, f: A -> seq<B>)
    requires multiset(s) == multiset(t)
    ensures multiset(Concat(s, f)) == multiset(Concat(t, f))
  {
    if s == [] {
      assert |multiset(t)| == 0;
    } else {
      var n := |s| - 1;
      var i := IndexOf(t, s[n], s);
      Without(s, n);
      Without(t, i);
      assert s[..n] + s[n + 1..] == s[..n];
      ConcatPermutation(s[..n], t[..i] + t[i + 1..], f);
      TakenOut(t, i, f);
    }
  }

  lemma IndexOf<A>(t: seq<A>, x: A, s: seq<A>) returns (i: nat)
    requires x in s && multiset(s) == multiset(t)
    ensures i < |t| && t[i] == x
  {
    assert x in multiset(t);
    i :| 0 <= i < |t| && t[i] == x;
  }

  lemma TakenOut<A, B>(t: seq<A>, i: nat, f: A -> seq<B>)
    requires i < |t|
    ensures multiset(Concat(t, f)) == multiset(Concat(t[..i] + t[i + 1..], f)) + multiset(f(t[i]))
  {
    Without(t, i);
    ConcatMiddle(t[..i], t[i], t[i + 1..], f);
  }
}
