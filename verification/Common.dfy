/** Types and list helpers shared by every component.

    A predicate whose body begins with `true <==>` means the same without it. The verifier proves the
    conjuncts of a plain body one by one wherever the predicate is a contract; behind the equivalence
    they are a single fact, which keeps the proofs over several components short. */
module Common {

  datatype Option<+T> = None | Some(value: T)

  type byte = x: int | 0 <= x < 0x100
  type uint16 = x: int | 0 <= x < 0x1_0000
  type uint32 = x: int | 0 <= x < 0x1_0000_0000

  function Min(a: int, b: int): int {
    if a < b then a else b
  }

  function Max(a: int, b: int): int {
    if a < b then b else a
  }

  /** No element of the list occurs twice. */
  ghost predicate NoDup<T>(s: seq<T>) {
    forall i, j :: 0 <= i < j < |s| ==> s[i] != s[j]
  }

  /** The list without the first occurrence of x: unlinking a list item. */
  function Without<T(==)>(s: seq<T>, x: T): seq<T> {
    if s == [] then []
    else if s[0] == x then s[1..] else [s[0]] + Without(s[1..], x)
  }

  lemma {:induction false} WithoutCounts<T>(s: seq<T>, x: T)
    ensures multiset(Without(s, x)) == multiset(s) - multiset{x}
  {
    if s != [] {
      assert s == [s[0]] + s[1..];
      if s[0] != x {
        WithoutCounts(s[1..], x);
      }
    }
  }

  lemma {:induction false} WithoutForeign<T>(s: seq<T>, x: T)
    requires x !in s
    ensures Without(s, x) == s
  {
    if s != [] {
      WithoutForeign(s[1..], x);
    }
  }

  /** Unlinking the element at position i of a duplicate-free list. */
  lemma {:induction false} WithoutAt<T>(s: seq<T>, i: nat)
    requires i < |s| && NoDup(s)
    ensures Without(s, s[i]) == s[..i] + s[i + 1..]
  {
    if i != 0 {
      var t := s[1..];
      assert NoDup(t);
      WithoutAt(t, i - 1);
      assert s[0] != s[i] && t[i - 1] == s[i];
      assert [s[0]] + (t[..i - 1] + t[i..]) == s[..i] + s[i + 1..];
    }
  }

  /** Unlinking an element of a duplicate-free list removes that element and no other. */
  lemma WithoutMember<T>(s: seq<T>, x: T, y: T)
    requires NoDup(s)
    ensures NoDup(Without(s, x))
    ensures y in Without(s, x) <==> y in s && y != x
  {
    NoDupCounts(s);
    WithoutCounts(s, x);
    CountsNoDup(Without(s, x));
    assert y in Without(s, x) <==> multiset(Without(s, x))[y] > 0;
    assert y in s <==> multiset(s)[y] > 0;
  }

  /** A duplicate-free list counts nothing twice. */
  lemma {:induction false} NoDupCounts<T>(s: seq<T>)
    requires NoDup(s)
    ensures forall x :: multiset(s)[x] <= 1
  {
    if s != [] {
      var t := s[1..];
      assert s == [s[0]] + t;
      assert NoDup(t);
      NoDupCounts(t);
      assert s[0] !in t;
    }
  }

  lemma CountsTwice<T>(s: seq<T>, i: nat, j: nat)
    requires i < j < |s| && s[i] == s[j]
    ensures multiset(s)[s[i]] >= 2
  {
    var a, b := s[..j], s[j..];
    assert s == a + b;
    assert a[i] == s[i] && b[0] == s[i];
    assert multiset(a + b) == multiset(a) + multiset(b);
  }

  /** A list that counts nothing twice is duplicate-free. */
  lemma CountsNoDup<T>(s: seq<T>)
    requires forall x :: multiset(s)[x] <= 1
    ensures NoDup(s)
  {
    forall i, j | 0 <= i < j < |s| ensures s[i] != s[j] {
      if s[i] == s[j] {
        CountsTwice(s, i, j);
      }
    }
  }

  lemma PrefixTransitive<T>(a: seq<T>, b: seq<T>, c: seq<T>)
    requires a <= b <= c
    ensures a <= c
  {}

  /** How many elements of the list have the property. */
  function Count<T>(s: seq<T>, p: T -> bool): nat {
    if s == [] then 0 else (if p(s[0]) then 1 else 0) + Count(s[1..], p)
  }

  lemma {:induction false} CountChanged<T>(s: seq<T>, i: nat, x: T, p: T -> bool)
    requires i < |s|
    ensures Count(s[i := x], p) == Count(s, p) - (if p(s[i]) then 1 else 0) + (if p(x) then 1 else 0)
  {
    if i == 0 {
      assert s[i := x][1..] == s[1..];
    } else {
      CountChanged(s[1..], i - 1, x, p);
      assert s[i := x][1..] == s[1..][i - 1 := x];
    }
  }

  lemma {:induction false} CountAppend<T>(s: seq<T>, x: T, p: T -> bool)
    ensures Count(s + [x], p) == Count(s, p) + if p(x) then 1 else 0
  {
    if s != [] {
      CountAppend(s[1..], x, p);
      assert (s + [x])[1..] == s[1..] + [x];
    }
  }

  lemma {:induction false} CountNone<T>(s: seq<T>, p: T -> bool)
    ensures Count(s, p) == 0 <==> forall i :: 0 <= i < |s| ==> !p(s[i])
  {
    if s != [] {
      CountNone(s[1..], p);
      assert forall i :: 0 < i < |s| ==> s[i] == s[1..][i - 1];
    }
  }
}
