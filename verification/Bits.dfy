// Shifts, masks and bitwise or, bit by bit.  Integers are two's complement
// numbers without a word size: / 2 is an arithmetic shift by one.
module Bits {

  // x << n
  function Shl(x: int, n: nat): (y: int)
    ensures (x >= 0 <==> y >= 0) && (x > 0 <==> y > 0)
  {
    if n == 0 then x else 2 * Shl(x, n - 1)
  }

  function Pow2(n: nat): (p: int)
    ensures p > 0
  {
    Shl(1, n)
  }

  // x >> n
  function Shr(x: int, n: nat): (y: int)
    ensures x >= 0 ==> y >= 0
    decreases n
  {
    if n == 0 then x else Shr(x / 2, n - 1)
  }

  // x & ((1 << n) - 1)
  function Low(x: int, n: nat): (y: nat)
    ensures y < Pow2(n)
    decreases n
  {
    if n == 0 then 0 else x % 2 + 2 * Low(x / 2, n - 1)
  }

  // x | y
  function Or(x: nat, y: nat): nat {
    if x == 0 then y
    else (if x % 2 == 1 || y % 2 == 1 then 1 else 0) + 2 * Or(x / 2, y / 2)
  }

  lemma OrStep(x: nat, y: nat)
    ensures Or(x, y) == (if x % 2 == 1 || y % 2 == 1 then 1 else 0) + 2 * Or(x / 2, y / 2)
  {
  }

  lemma {:induction false} OrZero(x: nat)
    ensures Or(x, 0) == x && Or(0, x) == x
  {
    if x > 0 {
      OrZero(x / 2);
    }
  }

  lemma {:induction false} ShlShl(x: int, m: nat, n: nat)
    ensures Shl(Shl(x, m), n) == Shl(x, m + n)
    decreases n
  {
    if n > 0 {
      ShlShl(x, m, n - 1);
    }
  }

  lemma {:induction false} ShlSum(x: int, y: int, n: nat)
    ensures Shl(x + y, n) == Shl(x, n) + Shl(y, n)
  {
    if n > 0 {
      ShlSum(x, y, n - 1);
    }
  }

  // A number whose low k bits are b: or, shift and mask work on the parts.
  lemma {:induction false} OrParts(a: nat, b: nat, c: nat, d: nat, k: nat)
    requires b < Pow2(k) && d < Pow2(k)
    ensures Or(Shl(a, k) + b, Shl(c, k) + d) == Shl(Or(a, c), k) + Or(b, d)
    decreases k
  {
    if k > 0 {
      OrParts(a, b / 2, c, d / 2, k - 1);
      OrStep(Shl(a, k) + b, Shl(c, k) + d);
      OrStep(b, d);
      hide Or;
    } else {
      OrZero(0);
    }
  }

  lemma {:induction false} ShrParts(a: int, b: nat, k: nat)
    requires b < Pow2(k)
    ensures Shr(Shl(a, k) + b, k) == a && Low(Shl(a, k) + b, k) == b
    decreases k
  {
    if k > 0 {
      ShrParts(a, b / 2, k - 1);
    }
  }

  lemma {:induction false} PartsOf(x: int, k: nat)
    ensures x == Shl(Shr(x, k), k) + Low(x, k)
    decreases k
  {
    if k > 0 {
      PartsOf(x / 2, k - 1);
    }
  }

  lemma Powers()
    ensures Pow2(1) == 2 && Pow2(2) == 4 && Pow2(3) == 8 && Pow2(5) == 32 && Pow2(6) == 64 && Pow2(10) == 0x400
    ensures Pow2(13) == 0x2000 && Pow2(14) == 0x4000 && Pow2(15) == 0x8000 && Pow2(16) == 0x1_0000
    ensures Pow2(23) == 0x80_0000 && Pow2(24) == 0x100_0000 && Pow2(32) == 0x1_0000_0000
  {
  }

  // (w >> low) & ((1 << width) - 1)
  function Extract(w: int, low: nat, width: nat): (v: nat)
    ensures v < Pow2(width)
  {
    Low(Shr(w, low), width)
  }

  // ---- signed fields -------------------------------------------------

  predicate Bit(x: int, n: nat) { Shr(x, n) % 2 == 1 }

  // v |= ~((1 << n) - 1) if bit n - 1 is set
  function SignExtend(v: nat, n: nat): int
    requires n > 0
  {
    if Bit(v, n - 1) then v - Pow2(n) else v
  }

  // The numbers that n bits can hold, signed
  predicate IsSigned(x: int, n: nat)
    requires n > 0
  {
    -Pow2(n - 1) <= x < Pow2(n - 1)
  }

  lemma {:induction false} ShrIs(x: int, n: nat)
    ensures (0 <= x < Pow2(n) <==> Shr(x, n) == 0) && (-Pow2(n) <= x < 0 <==> Shr(x, n) == -1)
    decreases n
  {
    if n > 0 {
      ShrIs(x / 2, n - 1);
    }
  }

  lemma {:induction false} ShrShr(x: int, m: nat, n: nat)
    ensures Shr(Shr(x, m), n) == Shr(x, m + n)
    decreases m
  {
    if m > 0 {
      ShrShr(x / 2, m - 1, n);
    }
  }

  lemma {:induction false} LowTop(x: int, n: nat)
    requires n > 0
    ensures Low(x, n) == Shl(Shr(x, n - 1) % 2, n - 1) + Low(x, n - 1)
    decreases n
  {
    if n > 1 {
      LowTop(x / 2, n - 1);
    }
  }

  lemma {:induction false} ShlNegative(n: nat)
    ensures Shl(-1, n) == -Pow2(n) && Shl(0, n) == 0
  {
    if n > 0 {
      ShlNegative(n - 1);
    }
  }

  lemma LowPeriodic(x: int, a: int, n: nat)
    ensures Low(x + Shl(a, n), n) == Low(x, n)
  {
    PartsOf(x, n);
    ShlSum(Shr(x, n), a, n);
    ShrParts(Shr(x, n) + a, Low(x, n), n);
  }

  // What sign extension leaves: copies of the sign above the other bits
  lemma SignExtendParts(x: int, n: nat)
    requires n > 0
    ensures SignExtend(Low(x, n), n) == Shl(if Shr(x, n - 1) % 2 == 1 then -1 else 0, n - 1) + Low(x, n - 1)
  {
    var top, rest := Shr(x, n - 1) % 2, Low(x, n - 1);
    LowTop(x, n);
    ShlNegative(n - 1);
    ShrParts(top, rest, n - 1);
    assert Pow2(n) == 2 * Pow2(n - 1) && Pow2(n - 1) == Shl(1, n - 1);
    hide Shl, Shr, Low, Pow2;
  }

  // Sign extension undoes the mask on exactly the numbers that fit.
  lemma SignExtendLow(x: int, n: nat)
    requires n > 0
    ensures IsSigned(SignExtend(Low(x, n), n), n)
    ensures SignExtend(Low(x, n), n) == x <==> IsSigned(x, n)
    ensures Low(SignExtend(Low(x, n), n), n) == Low(x, n)
  {
    hide *;
    var rest := Low(x, n - 1);
    var sign := if Shr(x, n - 1) % 2 == 1 then -1 else 0;
    SignExtendParts(x, n);
    ShrParts(sign, rest, n - 1);
    LowTop(x, n);
    LowTop(Shl(sign, n - 1) + rest, n);
    PartsOf(x, n - 1);
    SignedIff(x, n);
    SignedIff(Shl(sign, n - 1) + rest, n);
  }

  lemma SignedIff(x: int, n: nat)
    requires n > 0
    ensures IsSigned(x, n) <==> Shr(x, n - 1) == 0 || Shr(x, n - 1) == -1
  {
    ShrIs(x, n - 1);
    hide Shr, Pow2;
  }
}
