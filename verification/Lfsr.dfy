/** The reference form of a CRC register: W bits, fed one message bit at a time, highest degree first.

`g` holds the low W coefficients of the generator; the coefficient of x^W is the implicit 1.
 */
module Lfsr {
  import opened Words
  import opened Gf2Poly

  function BitStep(g: Word, r: Word, b: bool): (s: Word)
    requires |g| == |r| > 0
    ensures |s| == |r|
  {
    var w := [false] + r[..|r| - 1];
    if r[|r| - 1] != b then Xor(w, g) else w
  }

  function Feed(g: Word, r: Word, bits: seq<bool>): (s: Word)
    requires |g| == |r| > 0
    ensures |s| == |r|
  {
    if bits == [] then r
    else BitStep(g, Feed(g, r, bits[..|bits| - 1]), bits[|bits| - 1])
  }

  lemma FeedOne(g: Word, r: Word, bits: seq<bool>, b: bool)
    requires |g| == |r| > 0
    ensures Feed(g, r, bits + [b]) == BitStep(g, Feed(g, r, bits), b)
  {
    assert (bits + [b])[..|bits|] == bits;
  }

  lemma {:induction false} FeedConcat(g: Word, r: Word, a: seq<bool>, b: seq<bool>)
    requires |g| == |r| > 0
    ensures Feed(g, r, a + b) == Feed(g, Feed(g, r, a), b)
  {
    if b == [] {
      assert a + b == a;
    } else {
      var init, last := b[..|b| - 1], b[|b| - 1];
      FeedConcat(g, r, a, init);
      assert a + b == (a + init) + [last];
      FeedOne(g, r, a + init, last);
    }
  }

  lemma BitStepXor(g: Word, r: Word, r': Word, b: bool, b': bool)
    requires |g| == |r| == |r'| > 0
    ensures BitStep(g, Xor(r, r'), b != b') == Xor(BitStep(g, r, b), BitStep(g, r', b'))
  {
    var W := |r|;
    var lhs, rhs := BitStep(g, Xor(r, r'), b != b'), Xor(BitStep(g, r, b), BitStep(g, r', b'));
    var w, w' := [false] + r[..W - 1], [false] + r'[..W - 1];
    forall i | 0 <= i < W ensures lhs[i] == rhs[i] {
      assert ([false] + Xor(r, r')[..W - 1])[i] == (w[i] != w'[i]);
    }
  }

  /** The register is linear in its start value and its input together. */
  lemma {:induction false} FeedXor(g: Word, r: Word, r': Word, e: seq<bool>, e': seq<bool>)
    requires |g| == |r| == |r'| > 0 && |e| == |e'|
    ensures Feed(g, Xor(r, r'), Xor(e, e')) == Xor(Feed(g, r, e), Feed(g, r', e'))
  {
    if e != [] {
      var n := |e| - 1;
      assert Xor(e, e')[..n] == Xor(e[..n], e'[..n]);
      FeedXor(g, r, r', e[..n], e'[..n]);
      BitStepXor(g, Feed(g, r, e[..n]), Feed(g, r', e'[..n]), e[n], e'[n]);
    }
  }

  /** The dividend a CRC is the remainder of: start * x^n + message * x^W. */
  function Dividend(start: Word, bits: seq<bool>): (a: Poly)
    ensures |a| == |start| + |bits|
  {
    Xor(Zeros(|bits|) + start, Zeros(|start|) + Reverse(bits))
  }

  lemma StepDivides(g: Word, r: Word, b: bool)
    requires |g| == |r| > 0
    ensures Xor([false] + r, Zeros(|r|) + [b])
         == Xor(Scale(r[|r| - 1] != b, g + [true]), BitStep(g, r, b) + [false])
  {
    var W := |r|;
    var lhs := Xor([false] + r, Zeros(W) + [b]);
    var rhs := Xor(Scale(r[W - 1] != b, g + [true]), BitStep(g, r, b) + [false]);
    forall i | 0 <= i <= W ensures lhs[i] == rhs[i] {
      var w := [false] + r[..W - 1];
      if i < W {
        assert lhs[i] == w[i];
      }
    }
  }

  /** Feeding a message computes the remainder of its dividend by x^W + g. */
  lemma {:induction false} FeedIsRemainder(g: Word, start: Word, bits: seq<bool>)
    requires |g| == |start| > 0
    ensures IsRemainder(Dividend(start, bits), g + [true], Feed(g, start, bits))
  {
    var q := FeedQuotient(g, start, bits);
    assert IsQuotient(Dividend(start, bits), g + [true], q, Feed(g, start, bits));
  }

  lemma {:induction false} FeedQuotient(g: Word, start: Word, bits: seq<bool>) returns (q: Poly)
    requires |g| == |start| > 0
    ensures IsQuotient(Dividend(start, bits), g + [true], q, Feed(g, start, bits))
  {
    var G := g + [true];
    if bits == [] {
      q := [];
      assert Dividend(start, bits) == start == Xor(Mul(q, G), start + Zeros(0));
    } else {
      var n, b := |bits| - 1, bits[|bits| - 1];
      var r := Feed(g, start, bits[..n]);
      var q' := FeedQuotient(g, start, bits[..n]);
      StepDivides(g, r, b);
      var t := r[|r| - 1] != b;
      q := [t] + q';
      assert q[1..] == q';
      ShiftedDivision(Dividend(start, bits[..n]), G, q', r, t, b, BitStep(g, r, b));
      DividendOne(start, bits[..n], b);
      assert bits == bits[..n] + [b];
    }
  }

  lemma DividendOne(start: Word, bits: seq<bool>, b: bool)
    ensures Dividend(start, bits + [b])
         == Xor([false] + Dividend(start, bits), Zeros(|start|) + [b] + Zeros(|bits|))
  {
    var W, n := |start|, |bits|;
    var lhs := Dividend(start, bits + [b]);
    var rhs := Xor([false] + Dividend(start, bits), Zeros(W) + [b] + Zeros(n));
    ReverseConcat(bits, [b]);
    assert Reverse([b]) == [b];
    forall i | 0 <= i <= W + n ensures lhs[i] == rhs[i] {
      var low := (Zeros(n + 1) + start)[i];
      var high := (Zeros(W) + ([b] + Reverse(bits)))[i];
      assert lhs[i] == (low != high);
      if i > 0 {
        assert Dividend(start, bits)[i - 1] == ((Zeros(n) + start)[i - 1] != (Zeros(W) + Reverse(bits))[i - 1]);
      }
    }
  }

  /** Dividing x * a + b * x^W, given the division of a. */
  lemma ShiftedDivision(a: Poly, G: Poly, q: Poly, r: Poly, t: bool, b: bool, r': Poly)
    requires IsQuotient(a, G, q, r) && |r'| == |r| > 0
    requires Xor([false] + r, Zeros(|r|) + [b]) == Xor(Scale(t, G), r' + [false])
    ensures IsQuotient(Xor([false] + a, Zeros(|r|) + [b] + Zeros(|q|)), G, [t] + q, r')
  {
    var n := |q|;
    var sum := Xor([false] + a, Zeros(|r|) + [b] + Zeros(n));
    var m := Mul([t] + q, G);
    assert ([t] + q)[1..] == q;
    forall i | 0 <= i < |sum| ensures sum[i] == Xor(m, r' + Zeros(n + 1))[i] {
      if i > 0 {
        assert a[i - 1] == (Mul(q, G)[i - 1] != (r + Zeros(n))[i - 1]);
      }
      if i <= |r| {
        assert Xor([false] + r, Zeros(|r|) + [b])[i] == Xor(Scale(t, G), r' + [false])[i];
      }
    }
    assert sum == Xor(m, r' + Zeros(n + 1));
  }

  /** A register with zero low coefficients in both start and generator only uses its upper part. */
  lemma {:induction false} FeedPadded(s: nat, g: Word, r: Word, bits: seq<bool>)
    requires |g| == |r| > 0
    ensures Feed(Zeros(s) + g, Zeros(s) + r, bits) == Zeros(s) + Feed(g, r, bits)
  {
    if bits != [] {
      FeedPadded(s, g, r, bits[..|bits| - 1]);
      var r', b := Feed(g, r, bits[..|bits| - 1]), bits[|bits| - 1];
      assert BitStep(Zeros(s) + g, Zeros(s) + r', b) == Zeros(s) + BitStep(g, r', b);
    }
  }

  /** The n bits a register sends out first, padded with zeros once it is empty. */
  function Top(r: Word, n: nat): (t: seq<bool>)
    ensures |t| == n && forall i :: 0 <= i < n ==> t[i] == (i < |r| && r[|r| - 1 - i])
  {
    seq(n, i requires 0 <= i < n => i < |r| && r[|r| - 1 - i])
  }

  /** The lookup identity: what the leading bits do can be precomputed, the others are only shifted. */
  lemma {:induction false} FeedSplit(g: Word, r: Word, bits: seq<bool>)
    requires |g| == |r| > 0
    ensures Feed(g, r, bits) == Xor(Shl(r, |bits|), Feed(g, Zeros(|r|), Xor(bits, Top(r, |bits|))))
  {
    if bits == [] {
      assert Xor(Shl(r, 0), Zeros(|r|)) == r;
    } else {
      var n, b := |bits| - 1, bits[|bits| - 1];
      FeedSplit(g, r, bits[..n]);
      var mixed := Xor(bits, Top(r, n + 1));
      assert mixed[..n] == Xor(bits[..n], Top(r, n));
      var shifted, rest := Shl(r, n), Feed(g, Zeros(|r|), mixed[..n]);
      var t := Top(r, n + 1)[n];
      BitStepXor(g, shifted, rest, t, mixed[n]);
      ShiftOut(g, r, n);
    }
  }

  lemma ShiftOut(g: Word, r: Word, n: nat)
    requires |g| == |r| > 0
    ensures BitStep(g, Shl(r, n), Top(r, n + 1)[n]) == Shl(r, n + 1)
  {
    var w := [false] + Shl(r, n)[..|r| - 1];
    forall i | 0 <= i < |r| ensures w[i] == Shl(r, n + 1)[i] {}
    assert w == Shl(r, n + 1);
  }

  /** With constant term 1, two registers that differ still differ after the same input. */
  lemma FeedInjective(g: Word, r: Word, r': Word, bits: seq<bool>)
    requires |g| == |r| == |r'| > 0 && g[0]
    requires Feed(g, r, bits) == Feed(g, r', bits)
    ensures r == r'
  {
    FeedXor(g, r, r', bits, bits);
    XorSelf(bits);
    XorSelf(Feed(g, r, bits));
    FeedZeroInput(g, Xor(r, r'), |bits|);
    XorZero(r, r');
  }

  /** With constant term 1, two inputs of at most W bits that leave the same register are equal. */
  lemma FeedWindow(g: Word, r: Word, e: seq<bool>, e': seq<bool>)
    requires |g| == |r| > 0 && g[0] && |e| == |e'| <= |g|
    requires Feed(g, r, e) == Feed(g, r, e')
    ensures e == e'
  {
    FeedXor(g, r, r, e, e');
    XorSelf(r);
    XorSelf(Feed(g, r, e));
    FeedZeroStart(g, |r|, Xor(e, e'));
    XorZero(e, e');
  }

  lemma FeedZeroInput(g: Word, d: Word, n: nat)
    requires |g| == |d| > 0 && g[0] && Feed(g, d, Zeros(n)) == Zeros(|d|)
    ensures d == Zeros(|d|)
  {
    var q := FeedQuotient(g, d, Zeros(n));
    var a := Dividend(d, Zeros(n));
    VanishingQuotient(a, g, q, Feed(g, d, Zeros(n)));
    forall i | 0 <= i < |d| ensures !d[i] {
      assert (Zeros(n) + d)[n + i] == d[i] && !(Zeros(|d|) + Reverse(Zeros(n)))[n + i];
      assert !a[n + i];
    }
  }

  lemma FeedZeroStart(g: Word, w: nat, bits: seq<bool>)
    requires |g| == w > 0 && g[0] && |bits| <= w && Feed(g, Zeros(w), bits) == Zeros(w)
    ensures bits == Zeros(|bits|)
  {
    var q := FeedQuotient(g, Zeros(w), bits);
    var a := Dividend(Zeros(w), bits);
    VanishingQuotient(a, g, q, Feed(g, Zeros(w), bits));
    forall i | 0 <= i < |bits| ensures !bits[i] {
      assert !a[w + (|bits| - 1 - i)];
      assert Reverse(bits)[|bits| - 1 - i] == bits[i];
    }
  }

  lemma XorSelf(a: Word)
    ensures Xor(a, a) == Zeros(|a|)
  {
  }

  lemma XorZero(a: Word, b: Word)
    requires |a| == |b| && Xor(a, b) == Zeros(|a|)
    ensures a == b
  {
    forall i | 0 <= i < |a| ensures a[i] == b[i] {
      assert !Xor(a, b)[i];
    }
  }

  lemma VanishingQuotient(a: Poly, g: Word, q: Poly, r: Poly)
    requires |g| > 0 && g[0]
    requires IsQuotient(a, g + [true], q, r)
    requires forall i :: 0 <= i < |r| ==> !r[i]
    requires forall i :: 0 <= i < |q| ==> !a[i]
    ensures a == Zeros(|a|)
  {
    forall i | 0 <= i < |a| ensures Mul(q, g + [true])[i] == a[i] {
      assert !(r + Zeros(|q|))[i];
    }
    LowPartDetermines(q, g + [true]);
    MulZeros(|q|, g + [true]);
  }

  /* ---------------------------------------------------------------- running backwards */

  /** The register before a step without input. */
  function Back(g: Word, t: Word): (r: Word)
    requires |g| == |t| > 0
    ensures |r| == |t|
  {
    if t[0] then Xor(t, g)[1..] + [true] else t[1..] + [false]
  }

  lemma BackIsInverse(g: Word, t: Word)
    requires |g| == |t| > 0 && g[0]
    ensures BitStep(g, Back(g, t), false) == t
  {
    var r := Back(g, t);
    assert r[..|r| - 1] == if t[0] then Xor(t, g)[1..] else t[1..];
    assert BitStep(g, r, false) == t;
  }

  /** With constant term 1, every register is left by some other one after n steps without input. */
  lemma {:induction false} BackSteps(g: Word, t: Word, n: nat) returns (r: Word)
    requires |g| == |t| > 0 && g[0]
    ensures |r| == |t| && Feed(g, r, Zeros(n)) == t
    decreases n
  {
    if n == 0 {
      return t;
    }
    r := BackSteps(g, Back(g, t), n - 1);
    BackIsInverse(g, t);
    hide Back;
    hide BitStep;
    assert Zeros(n)[..n - 1] == Zeros(n - 1) && !Zeros(n)[n - 1];
  }

  /** With constant term 1, W bits lead from any register to any other; by FeedWindow just one choice of them does. */
  lemma WindowReaches(g: Word, r: Word, t: Word) returns (e: seq<bool>)
    requires |g| == |r| == |t| > 0 && g[0]
    ensures |e| == |g| && Feed(g, r, e) == t
  {
    var W := |g|;
    var zeros, f := Zeros(W), Feed(g, r, Zeros(W));
    var x := BackSteps(g, Xor(t, f), W);
    e := Top(x, W);
    FeedSplit(g, x, zeros);
    assert Shl(x, W) == zeros && Xor(zeros, e) == e && Xor(r, zeros) == r;
    var d := Feed(g, zeros, e);
    assert Xor(zeros, d) == d;
    FeedXor(g, r, zeros, zeros, e);
    assert Xor(f, Xor(t, f)) == t;
  }
}
