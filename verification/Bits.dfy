// Natural numbers seen as bit strings: the C operators ^ and & on unsigned values.
module Bits {

  function Pow2(k: nat): (r: nat)
    ensures r >= 1
  {
    if k == 0 then 1 else 2 * Pow2(k - 1)
  }

  // x << k and x >> k
  function Shl(x: nat, k: nat): nat
  {
    if k == 0 then x else 2 * Shl(x, k - 1)
  }

  function Shr(x: nat, k: nat): nat
  {
    if k == 0 then x else Shr(x / 2, k - 1)
  }

  // x & (2^k - 1)
  function Low(x: nat, k: nat): nat
  {
    if k == 0 then 0 else 2 * Low(x / 2, k - 1) + x % 2
  }

  // x ^ y
  function Xor(x: nat, y: nat): nat
  {
    if x == 0 && y == 0 then 0 else 2 * Xor(x / 2, y / 2) + if x % 2 == y % 2 then 0 else 1
  }

  // x | y
  function Or(x: nat, y: nat): nat
  {
    if x == 0 && y == 0 then 0 else 2 * Or(x / 2, y / 2) + if x % 2 == 1 || y % 2 == 1 then 1 else 0
  }

  // x | (y << k) is a sum when x has only k bits.
  lemma {:induction false} OrDisjoint(x: nat, k: nat, y: nat)
    requires x < Pow2(k)
    ensures Or(x, Shl(y, k)) == x + Shl(y, k)
  {
    if k == 0 {
      OrZero(y);
    } else {
      OrDisjoint(x / 2, k - 1, y);
      assert Shl(y, k) / 2 == Shl(y, k - 1);
    }
  }

  lemma {:induction false} OrZero(y: nat)
    ensures Or(0, y) == y
  {
    if y != 0 { OrZero(y / 2); }
  }

  lemma {:induction false} XorStep(x: nat, y: nat)
    ensures Xor(x, y) / 2 == Xor(x / 2, y / 2)
    ensures Xor(x, y) % 2 == if x % 2 == y % 2 then 0 else 1
  {
  }

  lemma {:induction false} LowBound(x: nat, k: nat)
    ensures Low(x, k) < Pow2(k)
  {
    if k != 0 { LowBound(x / 2, k - 1); }
  }

  lemma {:induction false} LowSmall(x: nat, k: nat)
    requires x < Pow2(k)
    ensures Low(x, k) == x
  {
    if k != 0 { LowSmall(x / 2, k - 1); }
  }

  lemma {:induction false} LowLow(x: nat, j: nat, k: nat)
    requires j <= k
    ensures Low(Low(x, k), j) == Low(x, j)
  {
    if j != 0 { LowLow(x / 2, j - 1, k - 1); }
  }

  // (x << s) & mask keeps only the low k - s bits of x.
  lemma {:induction false} LowShift(x: nat, s: nat, k: nat)
    requires s <= k
    ensures Low(Shl(x, s), k) == Shl(Low(x, k - s), s)
  {
    if s != 0 { LowShift(x, s - 1, k - 1); }
  }

  // The low k bits of x ^ y depend only on the low k bits of x and of y.
  lemma {:induction false} LowXor(x: nat, y: nat, k: nat)
    ensures Low(Xor(x, y), k) == Xor(Low(x, k), Low(y, k))
  {
    if k != 0 {
      LowXor(x / 2, y / 2, k - 1);
      XorStep(x, y);
      var lx, ly := Low(x, k), Low(y, k);
      assert lx / 2 == Low(x / 2, k - 1) && ly / 2 == Low(y / 2, k - 1);
      assert lx % 2 == x % 2 && ly % 2 == y % 2;
      XorStep(lx, ly);
    }
  }

  // x ^ c determines c once x is known.
  lemma {:induction false} XorCancel(x: nat, c: nat, d: nat)
    requires Xor(x, c) == Xor(x, d)
    ensures c == d
    decreases x + c + d
  {
    XorStep(x, c);
    XorStep(x, d);
    if x != 0 || c != 0 || d != 0 {
      XorCancel(x / 2, c / 2, d / 2);
    }
  }

  lemma {:induction false} FourMore(k: nat)
    ensures Pow2(k + 1) == 2 * Pow2(k) && Pow2(k + 2) == 4 * Pow2(k) && Pow2(k + 3) == 8 * Pow2(k) && Pow2(k + 4) == 16 * Pow2(k)
  {
    assert Pow2(k + 2) == 2 * Pow2(k + 1);
    assert Pow2(k + 4) == 2 * Pow2(k + 3);
  }

  // The powers that occur as sizes.
  lemma {:induction false} Powers()
    ensures Pow2(1) == 2 && Pow2(2) == 4 && Pow2(3) == 8 && Pow2(4) == 16 && Pow2(5) == 32 && Pow2(6) == 64 && Pow2(7) == 128
    ensures Pow2(8) == 256 && Pow2(9) == 512 && Pow2(13) == 0x2000 && Pow2(15) == 0x8000 && Pow2(16) == 0x10000
  {
    assert Pow2(0) == 1;
    hide Pow2;
    FourMore(0);
    FourMore(4);
    FourMore(8);
    FourMore(12);
  }

  lemma {:induction false} Pow2Mono(j: nat, k: nat)
    requires j <= k
    ensures Pow2(j) <= Pow2(k)
  {
    if j < k { Pow2Mono(j, k - 1); }
  }

  lemma {:induction false} ShlBound(x: nat, k: nat, y: nat, n: nat)
    requires x < Pow2(k) && y < Pow2(n)
    ensures x + Shl(y, k) < Pow2(k + n)
  {
    if k != 0 { ShlBound(x / 2, k - 1, y, n); }
  }

  lemma {:induction false} ShrBound(x: nat, a: nat, n: nat)
    requires x < Pow2(a + n)
    ensures Shr(x, a) < Pow2(n)
  {
    if a != 0 { ShrBound(x / 2, a - 1, n); }
  }

  lemma {:induction false} LowAndRest(x: nat, k: nat)
    ensures x == Low(x, k) + Shl(Shr(x, k), k)
  {
    if k != 0 { LowAndRest(x / 2, k - 1); }
  }

  lemma {:induction false} ShlByte(q: nat)
    ensures Shl(q, 8) == 256 * q
  {
    assert Shl(q, 1) == 2 * q;
    assert Shl(q, 2) == 2 * Shl(q, 1);
    assert Shl(q, 3) == 2 * Shl(q, 2);
    assert Shl(q, 4) == 2 * Shl(q, 3);
    assert Shl(q, 5) == 2 * Shl(q, 4);
    assert Shl(q, 6) == 2 * Shl(q, 5);
    assert Shl(q, 7) == 2 * Shl(q, 6);
  }

  // The two bytes of a 16-bit value.
  lemma {:induction false} LowByte(w: nat)
    ensures Low(w, 8) == w % 256 && Shr(w, 8) == w / 256
  {
    LowAndRest(w, 8);
    LowBound(w, 8);
    ShlByte(Shr(w, 8));
    Powers();
    hide Low, Shr, Shl, Pow2;
  }
}
