/** Sums of multisets over lists and over ranges of network ids. */
module Sums {

  predicate Distinct<U(==)>(names: seq<U>) {
    names == [] || (names[0] !in names[1..] && Distinct(names[1..]))
  }

  function Sum<U, T(==)>(names: seq<U>, f: U -> multiset<T>): multiset<T> {
    if names == [] then multiset{} else f(names[0]) + Sum(names[1..], f)
  }

  lemma {:induction false} SumConcat<U, T>(a: seq<U>, b: seq<U>, f: U -> multiset<T>)
    ensures Sum(a + b, f) == Sum(a, f) + Sum(b, f)
  {
    if a == [] {
      assert a + b == b;
    } else {
      assert (a + b)[0] == a[0] && (a + b)[1..] == a[1..] + b;
      SumConcat(a[1..], b, f);
    }
  }

  lemma {:induction false} SumPlus<U, T>(names: seq<U>, f: U -> multiset<T>, g: U -> multiset<T>, h: U -> multiset<T>)
    requires forall i :: i in names ==> f(i) == g(i) + h(i)
    ensures Sum(names, f) == Sum(names, g) + Sum(names, h)
  {
    if names != [] {
      SumPlus(names[1..], f, g, h);
    }
  }

  lemma {:induction false} InSum<U, T>(names: seq<U>, f: U -> multiset<T>, x: T)
    ensures x in Sum(names, f) <==> exists i :: i in names && x in f(i)
  {
    if names != [] {
      InSum(names[1..], f, x);
      assert names == [names[0]] + names[1..];
    }
  }

  lemma InTwoSums<U, T>(names: seq<U>, f: U -> multiset<T>, g: U -> multiset<T>, both: bool, x: T)
    ensures x in Sum(names, f) + (if both then Sum(names, g) else multiset{}) <==>
            exists i :: i in names && (x in f(i) || (both && x in g(i)))
  {
    InSum(names, f, x);
    InSum(names, g, x);
  }

  /** Only one element contributes copies of `x`. */
  lemma {:induction false} CountInSum<U, T>(names: seq<U>, f: U -> multiset<T>, name: U, x: T)
    requires forall i :: i in names && i != name ==> x !in f(i)
    requires Distinct(names)
    ensures Sum(names, f)[x] == if name in names then f(name)[x] else 0
  {
    if names != [] {
      CountInSum(names[1..], f, name, x);
    }
  }

  function SumBelow<T(==)>(bound: nat, g: nat -> multiset<T>): multiset<T> {
    if bound == 0 then multiset{} else SumBelow(bound - 1, g) + g(bound - 1)
  }

  /** Changing one summand changes the sum by that summand. */
  lemma {:induction false} SumBelowUpdate<T>(bound: nat, g: nat -> multiset<T>, g': nat -> multiset<T>, id: nat)
    requires forall i :: i != id ==> g'(i) == g(i)
    ensures bound <= id ==> SumBelow(bound, g') == SumBelow(bound, g)
    ensures id < bound ==> SumBelow(bound, g') + g(id) == SumBelow(bound, g) + g'(id)
  {
    if bound > 0 {
      SumBelowUpdate(bound - 1, g, g', id);
      if id < bound - 1 {
        Swap(SumBelow(bound - 1, g'), g(bound - 1), g(id));
        Swap(SumBelow(bound - 1, g), g(bound - 1), g'(id));
      }
    }
  }

  lemma Swap<T>(a: multiset<T>, b: multiset<T>, c: multiset<T>)
    ensures (a + b) + c == (a + c) + b
  {
  }

  lemma Cancel<T>(a: multiset<T>, b: multiset<T>, c: multiset<T>)
    requires a + c == b + c
    ensures a == b
  {
    assert a == (a + c) - c && b == (b + c) - c;
  }

  lemma {:induction false} InSumBelow<T>(bound: nat, g: nat -> multiset<T>, x: T)
    ensures x in SumBelow(bound, g) <==> exists id :: 0 <= id < bound && x in g(id)
  {
    if bound > 0 {
      InSumBelow(bound - 1, g, x);
    }
  }

  lemma {:induction false} CountInSumBelow<T>(bound: nat, g: nat -> multiset<T>, id: nat, x: T)
    requires forall i :: 0 <= i < bound && i != id ==> x !in g(i)
    ensures SumBelow(bound, g)[x] == if id < bound then g(id)[x] else 0
  {
    if bound > 0 {
      CountInSumBelow(bound - 1, g, id, x);
    }
  }
}
