/** Small helpers shared by the models: an optional value and selection by a predicate. */
module Prelude {

  datatype Option<+T> = None | Some(value: T)

  function Min(a: int, b: int): int {
    if a <= b then a else b
  }

  function Max(a: int, b: int): int {
    if a <= b then b else a
  }

  /** Distance between two instants. */
  function Gap(a: int, b: int): nat {
    if a <= b then b - a else a - b
  }

  predicate Distinct<T(==)>(xs: seq<T>) {
    forall i, j :: 0 <= i < j < |xs| ==> xs[i] != xs[j]
  }

  /** The elements of `xs` that pass `keep`, in order. */
  function Filter<T(!new)>(xs: seq<T>, keep: T -> bool): (kept: seq<T>)
    ensures forall x :: x in kept <==> x in xs && keep(x)
    ensures |kept| <= |xs|
  {
    if xs == [] then []
    else
      assert forall x :: x in xs <==> x == xs[0] || x in xs[1..];
      if keep(xs[0]) then [xs[0]] + Filter(xs[1..], keep) else Filter(xs[1..], keep)
  }

  /** Conditions that agree on the elements select the same ones. */
  lemma {:induction false} FilterAlike<T(!new)>(xs: seq<T>, keep: T -> bool, also: T -> bool)
    requires forall x :: x in xs ==> (keep(x) <==> also(x))
    ensures Filter(xs, keep) == Filter(xs, also)
  {
    if xs != [] {
      FilterAlike(xs[1..], keep, also);
    }
  }

  /** The positions of `xs` whose element passes `keep`, in order: a query against a table. */
  function Select<T>(xs: seq<T>, keep: T -> bool): (found: seq<nat>)
    ensures forall i :: i in found <==> 0 <= i < |xs| && keep(xs[i])
    ensures forall i, j :: 0 <= i < j < |found| ==> found[i] < found[j]
  {
    if xs == [] then []
    else
      var n := |xs| - 1;
      var before := Select(xs[..n], keep);
      assert forall i :: i in before ==> i < n;
      assert forall k :: 0 <= k < |before| ==> before[k] in before;
      if keep(xs[n]) then before + [n] else before
  }

  /** No match is an empty answer. */
  lemma {:induction false} SelectNone<T>(xs: seq<T>, keep: T -> bool)
    requires forall i :: 0 <= i < |xs| ==> !keep(xs[i])
    ensures Select(xs, keep) == []
  {
    if xs != [] {
      SelectNone(xs[..|xs| - 1], keep);
    }
  }

  /** Exactly one match is a one-element answer. */
  lemma {:induction false} SelectOne<T>(xs: seq<T>, keep: T -> bool, at: nat)
    requires at < |xs| && keep(xs[at])
    requires forall i :: 0 <= i < |xs| && keep(xs[i]) ==> i == at
    ensures Select(xs, keep) == [at]
  {
    var n := |xs| - 1;
    if at == n {
      SelectNone(xs[..n], keep);
    } else {
      SelectOne(xs[..n], keep, at);
    }
  }

  /** A number in decimal. */
  function Decimal(n: nat): (s: string)
    ensures |s| > 0 && forall i :: 0 <= i < |s| ==> '0' <= s[i] <= '9'
  {
    if n < 10 then [('0' as int + n) as char] else Decimal(n / 10) + [('0' as int + n % 10) as char]
  }

  lemma {:induction false} DecimalsDiffer(m: nat, n: nat)
    requires m != n
    ensures Decimal(m) != Decimal(n)
  {
    if m >= 10 && n >= 10 {
      if m / 10 != n / 10 {
        DecimalsDiffer(m / 10, n / 10);
        assert Decimal(m)[..|Decimal(m)| - 1] == Decimal(m / 10);
        assert Decimal(n)[..|Decimal(n)| - 1] == Decimal(n / 10);
      } else {
        assert Decimal(m)[|Decimal(m)| - 1] != Decimal(n)[|Decimal(n)| - 1];
      }
    } else if m < 10 && n < 10 {
      assert Decimal(m)[0] != Decimal(n)[0];
    } else {
      assert |Decimal(m)| != |Decimal(n)|;
    }
  }
}
