/** Machine words as sequences of bits, lowest bit first.

A `CRCType` of T bits is a word of length T, so one model covers every unsigned type the
template can be instantiated with. Shifts and masks keep the length, as a cast back to `CRCType` does.
 */
module Words {

  type Word = seq<bool>

  /** An `unsigned char`. */
  type Byte = b: Word | |b| == 8 witness Zeros(8)

  function Zeros(n: nat): (z: Word)
    ensures |z| == n && forall i :: 0 <= i < n ==> !z[i]
  {
    seq(n, _ => false)
  }

  function Xor(a: Word, b: Word): (c: Word)
    requires |a| == |b|
    ensures |c| == |a| && forall i {:trigger c[i]} :: 0 <= i < |c| ==> c[i] == (a[i] != b[i])
  {
    seq(|a|, i requires 0 <= i < |a| => a[i] != b[i])
  }

  function Or(a: Word, b: Word): (c: Word)
    requires |a| == |b|
    ensures |c| == |a| && forall i {:trigger c[i]} :: 0 <= i < |c| ==> c[i] == (a[i] || b[i])
  {
    seq(|a|, i requires 0 <= i < |a| => a[i] || b[i])
  }

  function Shl(a: Word, k: nat): (c: Word)
    ensures |c| == |a| && forall i {:trigger c[i]} :: 0 <= i < |c| ==> c[i] == (k <= i && a[i - k])
  {
    seq(|a|, i requires 0 <= i < |a| => k <= i && a[i - k])
  }

  function Shr(a: Word, k: nat): (c: Word)
    ensures |c| == |a| && forall i {:trigger c[i]} :: 0 <= i < |c| ==> c[i] == (i + k < |a| && a[i + k])
  {
    seq(|a|, i requires 0 <= i < |a| => i + k < |a| && a[i + k])
  }

  /** `a & BIT_MASK` for a mask of the `n` lowest bits. */
  function Mask(a: Word, n: nat): (c: Word)
    ensures |c| == |a| && forall i {:trigger c[i]} :: 0 <= i < |c| ==> c[i] == (i < n && a[i])
  {
    seq(|a|, i requires 0 <= i < |a| => i < n && a[i])
  }

  function Reverse<T>(a: seq<T>): (c: seq<T>)
    ensures |c| == |a| && forall i {:trigger c[i]} :: 0 <= i < |c| ==> c[i] == a[|a| - 1 - i]
  {
    seq(|a|, i requires 0 <= i < |a| => a[|a| - 1 - i])
  }

  /** The value is below 2^n. */
  predicate Fits(a: Word, n: nat) {
    forall i :: n <= i < |a| ==> !a[i]
  }

  lemma MaskFits(a: Word, n: nat)
    ensures Mask(a, n) == a <==> Fits(a, n)
  {
    if Fits(a, n) {
      assert Mask(a, n) == a;
    } else {
      var i :| n <= i < |a| && a[i];
      assert !Mask(a, n)[i];
    }
  }

  function FromBits(w: Word): nat {
    if w == [] then 0 else (if w[0] then 1 else 0) + 2 * FromBits(w[1..])
  }

  function Pow2(n: nat): nat {
    if n == 0 then 1 else 2 * Pow2(n - 1)
  }

  /** `++w`, wrapping around at 2^|w|. */
  function Increment(w: Word): (c: Word)
    ensures |c| == |w|
  {
    if w == [] then [] else if w[0] then [false] + Increment(w[1..]) else [true] + w[1..]
  }

  lemma {:induction false} FromBitsBound(w: Word)
    ensures FromBits(w) < Pow2(|w|)
  {
    if w != [] {
      FromBitsBound(w[1..]);
    }
  }

  lemma {:induction false} IncrementCounts(w: Word)
    ensures FromBits(Increment(w)) == if FromBits(w) + 1 == Pow2(|w|) then 0 else FromBits(w) + 1
  {
    if w != [] {
      IncrementCounts(w[1..]);
      assert Increment(w)[1..] == if w[0] then Increment(w[1..]) else w[1..];
    }
  }

  lemma {:induction false} FromBitsInjective(a: Word, b: Word)
    requires |a| == |b| && FromBits(a) == FromBits(b)
    ensures a == b
  {
    if a != [] {
      FromBitsInjective(a[1..], b[1..]);
      assert a == [a[0]] + a[1..] && b == [b[0]] + b[1..];
    }
  }

  lemma {:induction false} FromBitsZeros(n: nat)
    ensures FromBits(Zeros(n)) == 0
  {
    if n > 0 {
      assert Zeros(n)[1..] == Zeros(n - 1);
      FromBitsZeros(n - 1);
    }
  }

  /** Four more low bits are one more hexadecimal digit. */
  lemma FromBitsDigit(a: bool, b: bool, c: bool, d: bool, rest: Word)
    ensures FromBits([a, b, c, d] + rest)
         == (if a then 1 else 0) + (if b then 2 else 0) + (if c then 4 else 0) + (if d then 8 else 0)
          + 16 * FromBits(rest)
  {
    assert ([a, b, c, d] + rest)[1..] == [b, c, d] + rest;
    assert ([b, c, d] + rest)[1..] == [c, d] + rest;
    assert ([c, d] + rest)[1..] == [d] + rest;
    assert ([d] + rest)[1..] == rest;
    assert FromBits([d] + rest) == (if d then 1 else 0) + 2 * FromBits(rest);
    assert FromBits([c, d] + rest) == (if c then 1 else 0) + 2 * FromBits([d] + rest);
    assert FromBits([b, c, d] + rest) == (if b then 1 else 0) + 2 * FromBits([c, d] + rest);
  }

  lemma NextCount(b: Byte)
    ensures FromBits(Increment(b)) == if FromBits(b) == 255 then 0 else FromBits(b) + 1
  {
    IncrementCounts(b);
    assert Pow2(8) == 256;
  }

  lemma ByteBound(b: Byte)
    ensures FromBits(b) < 256
  {
    FromBitsBound(b);
    assert Pow2(8) == 256;
  }

  lemma XorLow(a: Word, b: Word, n: nat)
    requires n <= |a| == |b|
    ensures Xor(a, b)[..n] == Xor(a[..n], b[..n])
  {
  }

  lemma ShlLow(a: Word, k: nat, n: nat)
    requires n <= |a|
    ensures Shl(a, k)[..n] == Shl(a[..n], k)
  {
  }

  lemma MaskLow(a: Word, n: nat)
    requires n <= |a|
    ensures Mask(a, n) == a[..n] + Zeros(|a| - n)
  {
  }

  lemma ShlPadded(a: Word, n: nat, k: nat)
    requires |a| + k <= n
    ensures Shl(a + Zeros(n - |a|), k) == Zeros(k) + a + Zeros(n - k - |a|)
  {
    var lhs, rhs := Shl(a + Zeros(n - |a|), k), Zeros(k) + a + Zeros(n - k - |a|);
    forall i | 0 <= i < n ensures lhs[i] == rhs[i] {
      if k <= i {
        assert lhs[i] == (a + Zeros(n - |a|))[i - k];
      }
    }
  }

  lemma ReverseShr(a: Word, k: nat)
    ensures Reverse(Shr(a, k)) == Shl(Reverse(a), k)
  {
  }

  lemma ReverseZeros(n: nat)
    ensures Reverse(Zeros(n)) == Zeros(n)
  {
  }

  lemma XorCancels(a: Word, b: Word)
    requires |a| == |b|
    ensures Xor(Xor(a, b), b) == a && Xor(b, Xor(a, b)) == a
  {
    assert Xor(Xor(a, b), b) == a;
    assert Xor(b, Xor(a, b)) == a;
  }

  lemma ConcatAssociates<T>(a: seq<T>, b: seq<T>, c: seq<T>)
    ensures (a + b) + c == a + (b + c)
  {
  }

  lemma ConcatInjective<T>(a: seq<T>, b: seq<T>, c: seq<T>, d: seq<T>)
    requires |a| == |c| && a + b == c + d
    ensures a == c && b == d
  {
    assert a == (a + b)[..|a|] && b == (a + b)[|a|..];
    assert c == (c + d)[..|c|] && d == (c + d)[|c|..];
  }

  lemma ReverseTwice<T>(a: seq<T>)
    ensures Reverse(Reverse(a)) == a
  {
    assert Reverse(Reverse(a)) == a;
  }

  lemma ReverseConcat<T>(a: seq<T>, b: seq<T>)
    ensures Reverse(a + b) == Reverse(b) + Reverse(a)
  {
    assert Reverse(a + b) == Reverse(b) + Reverse(a);
  }

  lemma ReversePadded(w: Word, f: Word, s: nat)
    requires |w| == |f| + s
    ensures Reverse(w) == Zeros(s) + f <==> w == Reverse(f) + Zeros(s)
  {
    ReverseConcat(Reverse(f), Zeros(s));
    ReverseConcat(Zeros(s), f);
    ReverseTwice(f);
    ReverseTwice(w);
    ReverseZeros(s);
  }

  lemma MaskXor(a: Word, b: Word, n: nat)
    requires n <= |a| == |b|
    ensures Mask(Xor(a, b), n) == Xor(a[..n], b[..n]) + Zeros(|a| - n)
  {
    MaskLow(Xor(a, b), n);
    XorLow(a, b, n);
  }

  lemma ReverseXor(a: Word, b: Word)
    requires |a| == |b|
    ensures Reverse(Xor(a, b)) == Xor(Reverse(a), Reverse(b))
  {
    assert Reverse(Xor(a, b)) == Xor(Reverse(a), Reverse(b));
  }
}
