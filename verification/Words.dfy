/** 64-bit words as numbers: powers of two, shifts, and bitwise or. */
module Words {
  const U64 := 0x1_0000_0000_0000_0000
  const I64 := 0x8000_0000_0000_0000

  function Pow2(n: nat): (r: nat)
    ensures r > 0
  {
    if n == 0 then 1 else 2 * Pow2(n - 1)
  }

  lemma Pow2Step(k: nat)
    ensures Pow2(7 * k + 7) == 128 * Pow2(7 * k) && Pow2(7 * (k + 1)) == 128 * Pow2(7 * k)
  {
    var n := 7 * k;
    assert Pow2(n + 1) == 2 * Pow2(n);
    assert Pow2(n + 2) == 2 * Pow2(n + 1);
    assert Pow2(n + 3) == 2 * Pow2(n + 2);
    assert Pow2(n + 4) == 2 * Pow2(n + 3);
    assert Pow2(n + 5) == 2 * Pow2(n + 4);
    assert Pow2(n + 6) == 2 * Pow2(n + 5);
    assert Pow2(n + 7) == 2 * Pow2(n + 6);
    assert 7 * (k + 1) == n + 7;
  }

  lemma Powers()
    ensures Pow2(63) == I64 && Pow2(64) == U64 && Pow2(70) == 64 * U64
  {
    Pow2Step(0); Pow2Step(1); Pow2Step(2); Pow2Step(3); Pow2Step(4);
    Pow2Step(5); Pow2Step(6); Pow2Step(7); Pow2Step(8); Pow2Step(9);
    assert Pow2(64) == 2 * Pow2(63);
  }

  /** `<<` on a 64-bit word: what leaves the word is lost. */
  function ShiftLeft(x: nat, shift: nat): (r: nat)
    ensures r < U64
  {
    if shift == 0 then x % U64 else 2 * ShiftLeft(x, shift - 1) % U64
  }

  function ShiftRight(x: nat, shift: nat): nat {
    if shift == 0 then x else ShiftRight(x / 2, shift - 1)
  }

  /** Bitwise or. */
  function BitOr(a: nat, b: nat): nat {
    if a == 0 then b
    else 2 * BitOr(a / 2, b / 2) + (if a % 2 == 1 || b % 2 == 1 then 1 else 0)
  }

  /** Bits that do not meet add up. */
  lemma {:induction false} BitOrAbove(a: nat, s: nat, k: nat)
    requires a < Pow2(k)
    ensures BitOr(a, s * Pow2(k)) == a + s * Pow2(k)
    decreases k
  {
    if k > 0 {
      var half := s * Pow2(k - 1);
      assert s * Pow2(k) == 2 * half by { Twice(s, Pow2(k - 1)); }
      BitOrAbove(a / 2, s, k - 1);
    }
  }

  lemma Twice(x: int, y: int)
    ensures x * (2 * y) == 2 * (x * y)
  {
  }

  lemma Doubled(x: nat, k: nat)
    requires k > 0
    ensures x * Pow2(k) == 2 * (x * Pow2(k - 1))
  {
    Twice(x, Pow2(k - 1));
  }

  lemma LeftStep(x: nat, half: nat, shift: nat)
    requires shift > 0 && ShiftLeft(x, shift - 1) == half && 2 * half < U64
    ensures ShiftLeft(x, shift) == 2 * half
  {
  }

  lemma {:induction false} LeftWithin(x: nat, y: nat, shift: nat)
    requires y == x * Pow2(shift) < U64
    ensures ShiftLeft(x, shift) == y
  {
    if shift > 0 {
      Doubled(x, shift);
      var half := x * Pow2(shift - 1);
      hide Pow2, ShiftLeft;
      LeftWithin(x, half, shift - 1);
      LeftStep(x, half, shift);
    } else {
      assert Pow2(0) == 1;
    }
  }

  lemma {:induction false} RightBack(x: nat, y: nat, shift: nat)
    requires y == x * Pow2(shift)
    ensures ShiftRight(y, shift) == x
  {
    if shift > 0 {
      Doubled(x, shift);
      var half := x * Pow2(shift - 1);
      hide Pow2;
      RightBack(x, half, shift - 1);
    } else {
      assert Pow2(0) == 1;
    }
  }

  lemma ShiftedWithin(x: nat, shift: nat)
    requires x * Pow2(shift) < U64
    ensures ShiftLeft(x, shift) == x * Pow2(shift) && ShiftRight(x * Pow2(shift), shift) == x
  {
    hide Pow2, ShiftLeft, ShiftRight;
    LeftWithin(x, x * Pow2(shift), shift);
    RightBack(x, x * Pow2(shift), shift);
  }

  lemma {:induction false} ShiftedBack(y: nat, shift: nat)
    ensures ShiftRight(y, shift) * Pow2(shift) <= y
  {
    if shift > 0 {
      ShiftedBack(y / 2, shift - 1);
      Twice(ShiftRight(y / 2, shift - 1), Pow2(shift - 1));
    }
  }

  /** A slice survives shifting there and back exactly if it does not leave the word. */
  lemma ShiftSurvives(x: nat, shift: nat)
    ensures ShiftRight(ShiftLeft(x, shift), shift) == x <==> x * Pow2(shift) < U64
    ensures x * Pow2(shift) < U64 ==> ShiftLeft(x, shift) == x * Pow2(shift)
  {
    if x * Pow2(shift) < U64 {
      ShiftedWithin(x, shift);
    } else {
      ShiftedBack(ShiftLeft(x, shift), shift);
    }
  }

  lemma {:induction false} Pow2Grows(m: nat, n: nat)
    requires m <= n
    ensures Pow2(m) <= Pow2(n)
  {
    if m < n { Pow2Grows(m, n - 1); }
  }

  /** A remainder below the word, uniquely. */
  lemma WordRest(x: int, q: int, r: int)
    requires x == U64 * q + r && 0 <= r < U64
    ensures x % U64 == r
  {
  }

  lemma TwiceInWord(z: nat)
    ensures 2 * (z % U64) % U64 == 2 * z % U64
  {
    var q, r := z / U64, z % U64;
    assert z == U64 * q + r;
    if 2 * r < U64 {
      WordRest(2 * r, 0, 2 * r);
      WordRest(2 * z, 2 * q, 2 * r);
    } else {
      WordRest(2 * r, 1, 2 * r - U64);
      WordRest(2 * z, 2 * q + 1, 2 * r - U64);
    }
  }

  lemma {:induction false} ShiftedOut(x: nat, shift: nat)
    ensures ShiftLeft(x, shift) == x * Pow2(shift) % U64
  {
    if shift > 0 {
      Twice(x, Pow2(shift - 1));
      ShiftedOut(x, shift - 1);
      TwiceInWord(x * Pow2(shift - 1));
    }
  }

  lemma {:induction false} Pow2Sum(m: nat, n: nat)
    ensures Pow2(m + n) == Pow2(m) * Pow2(n)
  {
    if m > 0 {
      Pow2Sum(m - 1, n);
      Associate(Pow2(m - 1), Pow2(n));
    }
  }

  lemma Associate(x: int, y: int)
    ensures 2 * (x * y) == (2 * x) * y
  {
  }
}
