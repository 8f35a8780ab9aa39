/** 32-bit machine words as sequences of bits, least significant first. */
module Words {

  type Word = w: seq<bool> | |w| == 32 witness seq(32, _ => false)

  function And(a: Word, b: Word): Word { seq(32, i requires 0 <= i < 32 => a[i] && b[i]) }

  function Or(a: Word, b: Word): Word { seq(32, i requires 0 <= i < 32 => a[i] || b[i]) }

  function ShiftLeft(w: Word, s: nat): Word { seq(32, i requires 0 <= i < 32 => i >= s && w[i - s]) }

  function ShiftRight(w: Word, s: nat): Word { seq(32, i requires 0 <= i < 32 => i + s < 32 && w[i + s]) }

  /** (1 << n) - 1. */
  function LowMask(n: nat): Word { seq(32, i => i < n) }

  predicate Disjoint(a: Word, b: Word) { forall i | 0 <= i < 32 :: !(a[i] && b[i]) }

  predicate Within(a: Word, b: Word) { forall i | 0 <= i < 32 :: a[i] ==> b[i] }

  function Pow2(n: nat): (p: nat)
    ensures p > 0
  {
    if n == 0 then 1 else 2 * Pow2(n - 1)
  }

  /** The unsigned value of a sequence of bits. */
  function Val(s: seq<bool>): (v: nat)
    ensures v < Pow2(|s|)
  {
    if s == [] then 0 else (if s[0] then 1 else 0) + 2 * Val(s[1..])
  }

  /** The low n bits of x. */
  function Bits(x: nat, n: nat): (s: seq<bool>)
    ensures |s| == n
  {
    if n == 0 then [] else [x % 2 == 1] + Bits(x / 2, n - 1)
  }

  const MODULUS: int := 0x1_0000_0000

  /** The remainder of x modulo 2^32, as 32-bit unsigned arithmetic leaves it. */
  function Wrap(x: int): (r: int)
    ensures 0 <= r < MODULUS
  {
    x % 0x1_0000_0000
  }

  lemma WordSize()
    ensures Pow2(32) == MODULUS
  {
    assert Pow2(8) == 256 by {
      assert Pow2(4) == 16;
    }
    assert Pow2(12) == 0x1000 by {
      assert Pow2(10) == 1024;
    }
    PowerAdds(12, 4);
    PowerAdds(16, 16);
  }

  lemma Doubled(a: nat, b: nat)
    ensures (2 * a) * b == 2 * (a * b)
  {
  }

  lemma {:induction false} PowerAdds(m: nat, n: nat)
    ensures Pow2(m + n) == Pow2(m) * Pow2(n)
  {
    if m > 0 {
      PowerAdds(m - 1, n);
      Doubled(Pow2(m - 1), Pow2(n));
    }
  }

  /** Bits and values determine each other. */
  lemma {:induction false} BitsOfVal(s: seq<bool>)
    ensures Bits(Val(s), |s|) == s
  {
    if s != [] {
      BitsOfVal(s[1..]);
    }
  }

  lemma {:induction false} ValOfBits(x: nat, n: nat)
    requires x < Pow2(n)
    ensures Val(Bits(x, n)) == x
  {
    if n > 0 {
      ValOfBits(x / 2, n - 1);
    }
  }

  lemma ValInjective(a: seq<bool>, b: seq<bool>)
    requires |a| == |b| && Val(a) == Val(b)
    ensures a == b
  {
    BitsOfVal(a);
    BitsOfVal(b);
  }

  lemma {:induction false} ValSplit(s: seq<bool>, k: nat)
    requires k <= |s|
    ensures Val(s) == Val(s[..k]) + Pow2(k) * Val(s[k..])
  {
    if k == 0 {
      assert s[0..] == s;
    } else {
      ValSplit(s[1..], k - 1);
      assert s[1..][..k - 1] == s[..k][1..] && s[1..][k - 1..] == s[k..];
      assert Val(s[..k]) == (if s[0] then 1 else 0) + 2 * Val(s[..k][1..]);
      Doubled(Pow2(k - 1), Val(s[k..]));
    }
  }
}
