/** Bitwise AND on unbounded naturals, and what it means for the power-of-two masks the code uses. */
module Bits {
  import opened Rings

  function Pow2(k: nat): (p: nat)
    ensures p >= 1
  {
    if k == 0 then 1 else 2 * Pow2(k - 1)
  }

  function BitAnd(a: nat, b: nat): nat
    decreases a
  {
    if a == 0 then 0
    else 2 * BitAnd(a / 2, b / 2) + (if a % 2 == 1 && b % 2 == 1 then 1 else 0)
  }

  /** Masking with 2^k - 1 is reduction modulo 2^k. */
  lemma {:induction false} MaskIsMod(x: nat, k: nat)
    ensures BitAnd(x, Pow2(k) - 1) == x % Pow2(k)
    decreases k
  {
    if k == 0 {
      AndZero(x);
    } else if x > 0 {
      var h := Pow2(k - 1);
      MaskIsMod(x / 2, k - 1);
      HalfMod(x, h);
      AndMask(x, h);
    } else {
      ModUnique(0, Pow2(k), 0, 0);
    }
  }

  /** The lowest bit of a mask is set, and half of it is the next smaller mask. */
  lemma AndMask(x: nat, h: nat)
    requires 0 < x && 0 < h
    ensures BitAnd(x, 2 * h - 1) == 2 * BitAnd(x / 2, h - 1) + x % 2
  {
    assert (2 * h - 1) / 2 == h - 1 && (2 * h - 1) % 2 == 1;
  }

  lemma HalfMod(x: nat, h: nat)
    requires 0 < h
    ensures x % (2 * h) == 2 * ((x / 2) % h) + x % 2
  {
    var q, r := (x / 2) / h, (x / 2) % h;
    assert x / 2 == h * q + r;
    assert 2 * (h * q) == (2 * h) * q;
    ModUnique(x, 2 * h, q, 2 * r + x % 2);
  }

  lemma {:induction false} AndZero(x: nat)
    ensures BitAnd(x, 0) == 0
  {
    if x > 0 {
      AndZero(x / 2);
    }
  }

  lemma {:induction false} AndSelf(x: nat)
    ensures BitAnd(x, x) == x
  {
    if x > 0 {
      AndSelf(x / 2);
    }
  }

  ghost predicate IsPow2(s: nat) {
    exists k: nat :: s == Pow2(k)
  }

  /** The test `s & (s - 1)` of the ring-buffer chardev accepts exactly the powers of two. */
  lemma {:induction false} PowerOfTwoTest(s: nat)
    requires s > 0
    ensures BitAnd(s, s - 1) == 0 <==> IsPow2(s)
  {
    if s == 1 {
      assert s == Pow2(0);
    } else if s % 2 == 1 {
      // an odd number above one keeps a high bit in common with its predecessor
      assert (s - 1) / 2 == s / 2;
      AndSelf(s / 2);
    } else {
      PowerOfTwoTest(s / 2);
      assert (s - 1) / 2 == s / 2 - 1;
      if k: nat :| s / 2 == Pow2(k) {
        assert s == Pow2(k + 1);
      }
      if k: nat :| s == Pow2(k) {
        assert s / 2 == Pow2(k - 1);
      }
    }
  }

  lemma {:induction false} Pow2Adds(a: nat, b: nat)
    ensures Pow2(a + b) == Pow2(a) * Pow2(b)
  {
    if a > 0 {
      Pow2Adds(a - 1, b);
    }
  }
}
