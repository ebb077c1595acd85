/** Positional notation in an arbitrary base, shared by decimal amounts and base32 identifiers. */
module Positional {
  function Pow(b: nat, e: nat): (r: nat)
    ensures b > 0 ==> r > 0
  {
    if e == 0 then 1 else b * Pow(b, e - 1)
  }

  lemma {:induction false} PowAdd(b: nat, m: nat, n: nat)
    ensures Pow(b, m + n) == Pow(b, m) * Pow(b, n)
  {
    if m > 0 {
      PowAdd(b, m - 1, n);
      MulAssoc(b, Pow(b, m - 1), Pow(b, n));
    }
  }

  ghost predicate AreDigits(b: nat, ds: seq<nat>) {
    forall i :: 0 <= i < |ds| ==> ds[i] < b
  }

  /** The number that `ds` denotes in base `b`, most significant digit first. */
  function Num(b: nat, ds: seq<nat>): nat {
    if ds == [] then 0 else Num(b, ds[..|ds| - 1]) * b + ds[|ds| - 1]
  }

  lemma {:induction false} NumAppend(b: nat, xs: seq<nat>, ys: seq<nat>)
    ensures Num(b, xs + ys) == Num(b, xs) * Pow(b, |ys|) + Num(b, ys)
  {
    if ys == [] {
      assert xs + ys == xs;
    } else {
      var n := |ys| - 1;
      var zs := xs + ys;
      assert zs[..|zs| - 1] == xs + ys[..n];
      NumAppend(b, xs, ys[..n]);
      calc {
        Num(b, zs);
        Num(b, xs + ys[..n]) * b + ys[n];
        (Num(b, xs) * Pow(b, n) + Num(b, ys[..n])) * b + ys[n];
        Num(b, xs) * Pow(b, n) * b + (Num(b, ys[..n]) * b + ys[n]);
        { assert Pow(b, n) * b == Pow(b, n + 1); MulAssoc(Num(b, xs), Pow(b, n), b); }
        Num(b, xs) * Pow(b, n + 1) + Num(b, ys);
      }
    }
  }

  lemma MulAssoc(x: int, y: int, z: int)
    ensures x * y * z == x * (y * z)
  {}

  lemma {:induction false} NumBound(b: nat, ds: seq<nat>)
    requires AreDigits(b, ds)
    ensures Num(b, ds) < Pow(b, |ds|)
  {
    if ds != [] {
      var n := |ds| - 1;
      NumBound(b, ds[..n]);
      calc {
        Num(b, ds);
        <= (Num(b, ds[..n]) + 1) * b - 1;
        <= { MulMono(Num(b, ds[..n]) + 1, Pow(b, n), b); }
           Pow(b, n) * b - 1;
      }
    }
  }

  lemma MulMono(x: int, y: int, z: nat)
    requires x <= y
    ensures x * z <= y * z
  {}

  /** Quotient and remainder are determined by the number they make up. */
  lemma DivModUnique(b: nat, q1: nat, r1: nat, q2: nat, r2: nat)
    requires r1 < b && r2 < b
    requires q1 * b + r1 == q2 * b + r2
    ensures q1 == q2 && r1 == r2
  {
    if q1 < q2 {
      MulMono(q1 + 1, q2, b);
      assert false;
    } else if q2 < q1 {
      MulMono(q2 + 1, q1, b);
      assert false;
    }
  }

  /** Numerals of one length that denote the same number are the same numeral. */
  lemma {:induction false} NumInjective(b: nat, xs: seq<nat>, ys: seq<nat>)
    requires AreDigits(b, xs) && AreDigits(b, ys)
    requires |xs| == |ys|
    requires Num(b, xs) == Num(b, ys)
    ensures xs == ys
  {
    if xs != [] {
      var n := |xs| - 1;
      DivModUnique(b, Num(b, xs[..n]), xs[n], Num(b, ys[..n]), ys[n]);
      NumInjective(b, xs[..n], ys[..n]);
      assert xs == xs[..n] + [xs[n]] && ys == ys[..n] + [ys[n]];
    }
  }

  lemma {:induction false} NumZero(b: nat, n: nat)
    ensures Num(b, seq(n, _ => 0)) == 0
  {
    if n > 0 {
      var zs := seq(n, _ => 0);
      assert zs[..n - 1] == seq(n - 1, _ => 0);
      NumZero(b, n - 1);
    }
  }

  /** Division with remainder, kept apart so that later proofs see only these three facts. */
  function Quotient(x: nat, b: nat): (q: nat)
    requires b > 0
  {
    x / b
  }

  function Remainder(x: nat, b: nat): (r: nat)
    requires b > 0
    ensures r < b
    ensures x == Quotient(x, b) * b + r
  {
    x % b
  }

  /** The `n` digits of `x` in base `b`, the inverse of `Num` on numbers below `b`^`n`. */
  function ToDigits(b: nat, x: nat, n: nat): (ds: seq<nat>)
    requires b > 0
    ensures |ds| == n && AreDigits(b, ds)
    decreases n
  {
    if n == 0 then [] else ToDigits(b, Quotient(x, b), n - 1) + [Remainder(x, b)]
  }

  lemma {:induction false} NumToDigits(b: nat, x: nat, n: nat)
    requires b > 0 && x < Pow(b, n)
    ensures Num(b, ToDigits(b, x, n)) == x
    decreases n
  {
    if n > 0 {
      var q, r := Quotient(x, b), Remainder(x, b);
      if q >= Pow(b, n - 1) {
        MulMono(Pow(b, n - 1), q, b);
        assert false;
      }
      NumToDigits(b, q, n - 1);
      assert ToDigits(b, x, n)[..n - 1] == ToDigits(b, q, n - 1);
    }
  }
}
