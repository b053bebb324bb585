/** Big-endian positional numbers: the arithmetic under hexadecimal, Base32 and
    decimal text. */
module Radix {

  type Base = b: nat | b > 1 witness 2

  predicate Digits(base: Base, ds: seq<nat>) {
    forall i :: 0 <= i < |ds| ==> ds[i] < base
  }

  function Pow(base: Base, n: nat): (p: nat)
    ensures p > 0
  {
    if n == 0 then 1 else Pow(base, n - 1) * base
  }

  /** The number a digit sequence stands for. */
  function Value(base: Base, ds: seq<nat>): nat {
    if ds == [] then 0 else Value(base, ds[..|ds| - 1]) * base + ds[|ds| - 1]
  }

  /** The `n` low-order digits of `v`. */
  function Expand(base: Base, n: nat, v: nat): (ds: seq<nat>)
    ensures |ds| == n && Digits(base, ds)
  {
    if n == 0 then [] else Expand(base, n - 1, v / base) + [v % base]
  }

  lemma {:induction false} ValueExpand(base: Base, n: nat, v: nat)
    requires v < Pow(base, n)
    ensures Value(base, Expand(base, n, v)) == v
  {
    if n > 0 {
      DivBound(v, Pow(base, n - 1), base);
      ValueExpand(base, n - 1, v / base);
      ValueAppend(base, Expand(base, n - 1, v / base), v % base);
      DivMod(v, base);
    }
  }

  lemma {:induction false} DivMod(v: nat, base: Base)
    ensures v / base * base + v % base == v
  {
  }

  lemma {:induction false} MulMonotone(x: nat, y: nat, k: nat)
    ensures x <= y ==> x * k <= y * k
  {
    if x <= y {
      assert (y - x) * k >= 0;
    }
  }

  lemma {:induction false} DivBound(v: nat, p: nat, base: Base)
    requires v < p * base
    ensures v / base < p
  {
    MulMonotone(p, v / base, base);
  }

  lemma {:induction false} ExpandValue(base: Base, ds: seq<nat>)
    requires Digits(base, ds)
    ensures Expand(base, |ds|, Value(base, ds)) == ds
  {
    if ds != [] {
      var init, last := ds[..|ds| - 1], ds[|ds| - 1];
      DivModUnique(Value(base, init), last, base);
      ExpandValue(base, init);
      assert init + [last] == ds;
    }
  }

  lemma {:induction false} DivModUnique(q: nat, r: nat, base: Base)
    requires r < base
    ensures (q * base + r) / base == q && (q * base + r) % base == r
  {
    var n := q * base + r;
    MulMonotone(n / base + 1, q, base);
    MulMonotone(q + 1, n / base, base);
  }

  lemma {:induction false} HornerBound(v: nat, p: nat, base: Base, d: nat)
    requires v < p && d < base
    ensures v * base + d < p * base
  {
    MulMonotone(v + 1, p, base);
    assert (v + 1) * base == v * base + base;
  }

  lemma {:induction false} ValueBound(base: Base, ds: seq<nat>)
    requires Digits(base, ds)
    ensures Value(base, ds) < Pow(base, |ds|)
  {
    if ds != [] {
      var init := ds[..|ds| - 1];
      ValueBound(base, init);
      HornerBound(Value(base, init), Pow(base, |init|), base, ds[|ds| - 1]);
    }
  }

  lemma {:induction false} ValueAppend(base: Base, ds: seq<nat>, d: nat)
    ensures Value(base, ds + [d]) == Value(base, ds) * base + d
  {
    assert (ds + [d])[..|ds|] == ds;
  }
}
