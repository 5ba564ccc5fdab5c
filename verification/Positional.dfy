/**
 Big-endian positional notation in an arbitrary base, with leading zeros kept.
 A digit sequence is determined by its number of leading zeros and its value, in every base;
 base58 text and big-endian bytes are two views of such a pair.
 */
module Positional {

  ghost predicate AllBelow(ds: seq<nat>, base: nat) {
    forall i :: 0 <= i < |ds| ==> ds[i] < base
  }

  /** The value of ds read most significant digit first. */
  function Eval(ds: seq<nat>, base: nat): nat {
    if ds == [] then 0 else Eval(ds[..|ds| - 1], base) * base + ds[|ds| - 1]
  }

  /** The digits of v with no leading zero; empty for 0. */
  function Canon(v: nat, base: nat): (ds: seq<nat>)
    requires base >= 2
    ensures AllBelow(ds, base)
    ensures v > 0 <==> |ds| > 0
    ensures |ds| > 0 ==> ds[0] != 0
  {
    if v == 0 then [] else
      DivShrinks(v, base);
      var rest := Canon(v / base, base);
      assert v / base == 0 ==> v % base == v by { DivModRecompose(v, base); }
      rest + [v % base]
  }

  function LeadingZeros(ds: seq<nat>): nat {
    if ds == [] || ds[0] != 0 then 0 else 1 + LeadingZeros(ds[1..])
  }

  function Zeros(n: nat): (ds: seq<nat>)
    ensures |ds| == n && forall i :: 0 <= i < n ==> ds[i] == 0
  {
    seq(n, _ => 0)
  }

  /** The same leading zeros and the same value, written in base `to`. */
  function Rebase(ds: seq<nat>, from: nat, to: nat): (r: seq<nat>)
    requires to >= 2
    ensures AllBelow(r, to)
  {
    Zeros(LeadingZeros(ds)) + Canon(Eval(ds, from), to)
  }

  lemma MulMonotone(x: nat, a: nat, b: nat)
    requires a <= b
    ensures x * a <= x * b
  {}

  lemma DivModRecompose(v: nat, b: nat)
    requires b >= 1
    ensures v == v / b * b + v % b && 0 <= v % b < b
  {}

  lemma DivShrinks(v: nat, b: nat)
    requires v > 0 && b >= 2
    ensures 0 <= v / b < v
  {
    DivModRecompose(v, b);
    MulMonotone(v / b, 2, b);
  }

  lemma DivModUnique(q: nat, b: nat, r: nat)
    requires r < b
    ensures (q * b + r) / b == q && (q * b + r) % b == r
  {
    var v := q * b + r;
    DivModRecompose(v, b);
    var dq: int := v / b - q;
    assert dq * b == r - v % b;
    assert dq >= 1 ==> dq * b >= b;
    assert dq <= -1 ==> -dq * b >= b;
  }

  lemma {:induction false} EvalCanon(v: nat, base: nat)
    requires base >= 2
    ensures Eval(Canon(v, base), base) == v
  {
    if v == 0 {
    } else {
      DivShrinks(v, base);
      EvalCanon(v / base, base);
      var ds := Canon(v, base);
      assert ds[..|ds| - 1] == Canon(v / base, base);
      DivModRecompose(v, base);
    }
  }

  /** Appending a digit appends it to the canonical form, once the value is positive. */
  lemma CanonSnoc(v: nat, d: nat, base: nat)
    requires base >= 2 && d < base && v * base + d > 0
    ensures Canon(v * base + d, base) == Canon(v, base) + [d]
  {
    DivModUnique(v, base, d);
  }

  lemma {:induction false} EvalZeros(n: nat, base: nat)
    ensures Eval(Zeros(n), base) == 0
  {
    if n == 0 {
    } else {
      EvalZeros(n - 1, base);
      assert Zeros(n)[..n - 1] == Zeros(n - 1);
    }
  }

  lemma {:induction false} EvalSkipsZeros(n: nat, ds: seq<nat>, base: nat)
    ensures Eval(Zeros(n) + ds, base) == Eval(ds, base)
  {
    var all := Zeros(n) + ds;
    if ds == [] {
      assert all == Zeros(n);
      EvalZeros(n, base);
    } else {
      EvalSkipsZeros(n, ds[..|ds| - 1], base);
      assert all[..|all| - 1] == Zeros(n) + ds[..|ds| - 1];
    }
  }

  lemma {:induction false} LeadingZerosOfPadded(n: nat, ds: seq<nat>)
    requires |ds| > 0 ==> ds[0] != 0
    ensures LeadingZeros(Zeros(n) + ds) == n
  {
    if n == 0 {
      assert Zeros(0) + ds == ds;
    } else {
      LeadingZerosOfPadded(n - 1, ds);
      assert (Zeros(n) + ds)[1..] == Zeros(n - 1) + ds;
    }
  }

  lemma {:induction false} LeadingZerosSnoc(ds: seq<nat>, d: nat)
    ensures LeadingZeros(ds + [d])
         == if LeadingZeros(ds) < |ds| || d != 0 then LeadingZeros(ds) else |ds| + 1
    ensures LeadingZeros(ds) <= |ds|
  {
    if ds == [] {
    } else {
      LeadingZerosSnoc(ds[1..], d);
      assert (ds + [d])[1..] == ds[1..] + [d];
    }
  }

  /** Appending a digit to a padded canonical form. */
  lemma PaddedSnoc(z: nat, v: nat, d: nat, base: nat)
    requires base >= 2 && d < base
    ensures v > 0 ==> Zeros(z) + Canon(v, base) + [d] == Zeros(z) + Canon(v * base + d, base)
    ensures v == 0 && d > 0 ==> Zeros(z) + [d] == Zeros(z) + Canon(v * base + d, base)
    ensures v == 0 && d == 0 ==> Zeros(z) + [d] == Zeros(z + 1) + Canon(v * base + d, base)
  {
    if v == 0 && d == 0 {
      assert v * base + d == 0;
    } else {
      MulMonotone(base, if v > 0 then 1 else 0, v);
      CanonSnoc(v, d, base);
    }
  }

  /** Leading zeros and value determine the digits: the padded canonical form is the sequence itself. */
  lemma {:induction false} Recompose(ds: seq<nat>, base: nat)
    requires base >= 2 && AllBelow(ds, base)
    ensures ds == Zeros(LeadingZeros(ds)) + Canon(Eval(ds, base), base)
  {
    if ds == [] {
    } else {
      var init, d := ds[..|ds| - 1], ds[|ds| - 1];
      assert ds == init + [d];
      Recompose(init, base);
      LeadingZerosSnoc(init, d);
      PaddedSnoc(LeadingZeros(init), Eval(init, base), d, base);
    }
  }

  /** Changing base and back is the identity, leading zeros included. */
  lemma RebaseRoundTrip(ds: seq<nat>, from: nat, to: nat)
    requires from >= 2 && to >= 2 && AllBelow(ds, from)
    ensures Rebase(Rebase(ds, from, to), to, from) == ds
  {
    var z, c := LeadingZeros(ds), Canon(Eval(ds, from), to);
    LeadingZerosOfPadded(z, c);
    EvalSkipsZeros(z, c, to);
    EvalCanon(Eval(ds, from), to);
    Recompose(ds, from);
  }
}
