/** Polynomials over the two-element field: coefficient lists, constant term first. */
module Gf2Poly {
  import opened Words

  type Poly = seq<bool>

  function Scale(c: bool, g: Poly): (s: Poly)
    ensures |s| == |g|
  {
    if c then g else Zeros(|g|)
  }

  /** The product, written with exactly |q| + |g| - 1 coefficients. */
  function Mul(q: Poly, g: Poly): (m: Poly)
    requires |g| > 0
    ensures |m| == |q| + |g| - 1
  {
    if q == [] then Zeros(|g| - 1)
    else Xor(Scale(q[0], g) + Zeros(|q| - 1), [false] + Mul(q[1..], g))
  }

  /** `r` is what is left when `a` is divided by `g`: a = q * g + r with r shorter than g. */
  ghost predicate IsRemainder(a: Poly, g: Poly, r: Poly) {
    exists q: Poly :: IsQuotient(a, g, q, r)
  }

  ghost predicate IsQuotient(a: Poly, g: Poly, q: Poly, r: Poly) {
    && |g| > 0
    && |r| == |g| - 1
    && |a| == |q| + |r|
    && a == Xor(Mul(q, g), r + Zeros(|q|))
  }

  lemma {:induction false} MulZeros(n: nat, g: Poly)
    requires |g| > 0
    ensures Mul(Zeros(n), g) == Zeros(n + |g| - 1)
  {
    if n > 0 {
      assert Zeros(n)[1..] == Zeros(n - 1);
      MulZeros(n - 1, g);
    }
  }

  lemma {:induction false} MulXor(q: Poly, q': Poly, g: Poly)
    requires |q| == |q'| && |g| > 0
    ensures Mul(Xor(q, q'), g) == Xor(Mul(q, g), Mul(q', g))
  {
    if q != [] {
      assert Xor(q, q')[1..] == Xor(q[1..], q'[1..]);
      MulXor(q[1..], q'[1..], g);
    }
  }

  /** A multiple of g whose coefficients from the leading one of g upwards vanish is zero. */
  lemma {:induction false} HighPartDetermines(q: Poly, g: Poly)
    requires |g| > 0 && g[|g| - 1]
    requires forall i :: |g| - 1 <= i < |q| + |g| - 1 ==> !Mul(q, g)[i]
    ensures q == Zeros(|q|)
  {
    if q != [] {
      var m := Mul(q, g);
      var tail := Mul(q[1..], g);
      forall i | |g| - 1 <= i < |tail| ensures !tail[i] {
        assert m[i + 1] == tail[i];
      }
      HighPartDetermines(q[1..], g);
      MulZeros(|q| - 1, g);
      assert !m[|g| - 1];
      assert q == [q[0]] + q[1..];
    }
  }

  /** A multiple q * g of a g with constant term 1 whose |q| lowest coefficients vanish is zero. */
  lemma {:induction false} LowPartDetermines(q: Poly, g: Poly)
    requires |g| > 0 && g[0]
    requires forall i :: 0 <= i < |q| ==> !Mul(q, g)[i]
    ensures q == Zeros(|q|)
  {
    if q != [] {
      var m := Mul(q, g);
      var tail := Mul(q[1..], g);
      assert !m[0] && !q[0];
      forall i | 0 <= i < |q| - 1 ensures !tail[i] {
        assert m[i + 1] == tail[i];
      }
      LowPartDetermines(q[1..], g);
      assert q == [q[0]] + q[1..];
    }
  }

  /** Division by a polynomial with leading coefficient 1 has one remainder only. */
  lemma RemainderUnique(a: Poly, g: Poly, r: Poly, r': Poly)
    requires |g| > 0 && g[|g| - 1]
    requires IsRemainder(a, g, r) && IsRemainder(a, g, r')
    ensures r == r'
  {
    var q :| IsQuotient(a, g, q, r);
    var q' :| IsQuotient(a, g, q', r');
    var d := Xor(q, q');
    MulXor(q, q', g);
    forall i | 0 <= i < |a|
      ensures Mul(d, g)[i] == ((r + Zeros(|q|))[i] != (r' + Zeros(|q|))[i])
    {
      assert Xor(Mul(q, g), r + Zeros(|q|))[i] == Xor(Mul(q', g), r' + Zeros(|q|))[i];
    }
    HighPartDetermines(d, g);
    MulZeros(|d|, g);
    forall i | 0 <= i < |r| ensures r[i] == r'[i] {
      assert !Mul(d, g)[i];
    }
  }
}
