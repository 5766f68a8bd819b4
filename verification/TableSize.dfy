/**
 next_power_of_two of core.c: smearing the leading bit over the lower ones, in 32-bit arithmetic, and the
 size maybe_resize takes from it.
 */
module TableSize {
  import opened Basics

  const UINT: nat := 0x1_0000_0000
  const INT_MAX: nat := 0x7fff_ffff

  /** The bitwise or. */
  function Or(a: nat, b: nat): nat
  {
    if a == 0 then b
    else if b == 0 then a
    else 2 * Or(a / 2, b / 2) + if a % 2 == 0 && b % 2 == 0 then 0 else 1
  }

  function Min(a: nat, b: nat): nat {
    if a < b then a else b
  }

  /** The number of bits up to the leading one. */
  function Bits(v: nat): nat {
    if v == 0 then 0 else 1 + Bits(v / 2)
  }

  // ---------- shifts ----------

  lemma {:induction false} ShrHalf(v: nat, k: nat)
    requires k > 0
    ensures Shr(v, k) == Shr(v / 2, k - 1)
  {
    if k > 1 { ShrHalf(v, k - 1); }
  }

  lemma {:induction false} ShrTwice(v: nat, a: nat, b: nat)
    ensures Shr(Shr(v, a), b) == Shr(v, a + b)
    decreases b
  {
    if b > 0 { ShrTwice(v, a, b - 1); }
  }

  lemma HalfOnes(k: nat)
    requires k > 0
    ensures (Pow2(k) - 1) / 2 == Pow2(k - 1) - 1 && (Pow2(k) - 1) % 2 == 1
  {
  }

  /** Shifting a number whose bits are all ones. */
  lemma {:induction false} OnesShift(a: nat, b: nat)
    ensures Shr(Pow2(a + b) - 1, a) == Pow2(b) - 1
    decreases a
  {
    if a > 0 {
      HalfOnes(a + b);
      ShrHalf(Pow2(a + b) - 1, a);
      OnesShift(a - 1, b);
    }
  }

  lemma {:induction false} ShrZero(k: nat)
    ensures Shr(0, k) == 0
  {
    if k > 0 { ShrZero(k - 1); }
  }

  lemma {:induction false} PowMono(a: nat, b: nat)
    requires a <= b
    ensures Pow2(a) <= Pow2(b)
  {
    if a < b { PowMono(a, b - 1); }
  }

  lemma PowUint()
    ensures Pow2(31) == UINT / 2 && Pow2(32) == UINT
  {
    assert Pow2(4) == 16;
    assert Pow2(8) == 256;
    assert Pow2(12) == 4096;
    assert Pow2(16) == 65536;
    assert Pow2(20) == 0x10_0000;
    assert Pow2(24) == 0x100_0000;
    assert Pow2(28) == 0x1000_0000;
  }

  lemma {:induction false} BitsBound(v: nat)
    ensures v < Pow2(Bits(v))
    ensures v > 0 ==> Bits(v) > 0 && Pow2(Bits(v) - 1) <= v
  {
    if v > 0 { BitsBound(v / 2); }
  }

  /** The leading bit is a one. */
  lemma {:induction false} LeadingOne(v: nat)
    requires v > 0
    ensures Shr(v, Bits(v) - 1) == 1
  {
    if v / 2 > 0 {
      LeadingOne(v / 2);
      ShrHalf(v, Bits(v) - 1);
    }
  }

  lemma {:induction false} BitsMax(v: nat, k: nat)
    requires v < Pow2(k)
    ensures Bits(v) <= k
    decreases k
  {
    if v > 0 { BitsMax(v / 2, k - 1); }
  }

  // ---------- the smear ----------

  lemma OrHalf(a: nat, b: nat)
    ensures Or(a, b) / 2 == Or(a / 2, b / 2)
  {
  }

  lemma {:induction false} OrShr(a: nat, b: nat, m: nat)
    ensures Shr(Or(a, b), m) == Or(Shr(a, m), Shr(b, m))
    decreases m
  {
    if m > 0 {
      OrShr(a, b, m - 1);
      OrHalf(Shr(a, m - 1), Shr(b, m - 1));
    }
  }

  lemma OrOdd(x: nat, y: nat)
    requires y % 2 == 1
    ensures Or(x, y) == 2 * Or(x / 2, y / 2) + 1
  {
  }

  /** Ones above `k` more ones. */
  lemma {:induction false} OrOnes(x: nat, s: nat, k: nat)
    requires Shr(x, k) == Pow2(s) - 1
    ensures Or(x, Pow2(k) - 1) == Pow2(s + k) - 1
    decreases k
  {
    if k > 0 {
      HalfOnes(k);
      OrOdd(x, Pow2(k) - 1);
      ShrHalf(x, k);
      OrOnes(x / 2, s, k - 1);
    }
  }

  /** `v` has `n` bits, and its upper `k` bits are ones. */
  predicate Topped(v: nat, n: nat, k: nat) {
    k <= n && Shr(v, n - k) == Pow2(k) - 1
  }

  /** A shift by `s` and an or: twice as many ones, or ones only. */
  lemma SmearStep(v: nat, n: nat, s: nat)
    requires Topped(v, n, Min(s, n))
    ensures Topped(Or(v, Shr(v, s)), n, Min(2 * s, n))
  {
    if s >= n {
      Gone(n, s);
    } else {
      Doubled(v, n, s, Min(s, n - s));
    }
  }

  /** A number of `n` bits shifted by `n` or more. */
  lemma Gone(n: nat, s: nat)
    requires n <= s
    ensures Shr(Pow2(n) - 1, s) == 0
  {
    ShrTwice(Pow2(n) - 1, n, s - n);
    OnesShift(n, 0);
    ShrZero(s - n);
  }

  lemma Doubled(v: nat, n: nat, s: nat, low: nat)
    requires low <= s && s + low <= n && Topped(v, n, s)
    ensures Topped(Or(v, Shr(v, s)), n, s + low)
  {
    var m := n - s - low;
    OrShr(v, Shr(v, s), m);
    ShrTwice(v, m, low);
    ShrTwice(v, s, m);
    ShrTwice(v, n - s, s - low);
    OnesShift(s - low, low);
    OrOnes(Shr(v, m), s, low);
  }

  /** Every bit of the bitwise or is set iff one of the two bits there is. */
  lemma {:induction false} OrBits(a: nat, b: nat, k: nat)
    ensures Shr(Or(a, b), k) % 2 == if Shr(a, k) % 2 == 1 || Shr(b, k) % 2 == 1 then 1 else 0
    decreases k
  {
    OrHalves(a, b);
    if k > 0 {
      OrBits(a / 2, b / 2, k - 1);
      ShrHalf(a, k);
      ShrHalf(b, k);
      ShrHalf(Or(a, b), k);
    }
  }

  lemma OrHalves(a: nat, b: nat)
    ensures Or(a, b) % 2 == if a % 2 == 1 || b % 2 == 1 then 1 else 0
    ensures Or(a, b) / 2 == Or(a / 2, b / 2)
  {
  }

  // ---------- next_power_of_two ----------

  /** The least power of two that is not below `val`. */
  function Ceiling(val: nat): nat
    requires val > 0
  {
    Pow2(Bits(val - 1))
  }

  lemma CeilingLeast(val: nat, k: nat)
    requires val > 0
    ensures val <= Ceiling(val)
    ensures val <= Pow2(k) ==> Ceiling(val) <= Pow2(k)
  {
    BitsBound(val - 1);
    if val <= Pow2(k) {
      BitsMax(val - 1, k);
      PowMono(Bits(val - 1), k);
    }
  }

  /** next_power_of_two: zero when the power does not fit in 32 bits. */
  method NextPowerOfTwo(val: nat) returns (r: nat)
    requires val < UINT
    ensures 0 < val <= UINT / 2 ==> r == Ceiling(val)
    ensures val == 0 || val > UINT / 2 ==> r == 0
  {
    r := Smear((val + UINT - 1) % UINT);
    Wrapped(val, Bits((val + UINT - 1) % UINT));
    r := (r + 1) % UINT;
  }

  method Smear(v0: nat) returns (v: nat)
    requires v0 < UINT
    ensures v == Pow2(Bits(v0)) - 1
  {
    SmearStart(v0);
    v := Shifts(v0, Bits(v0));
  }

  lemma SmearStart(v: nat)
    requires v < UINT
    ensures Topped(v, Bits(v), Min(1, Bits(v))) && Bits(v) <= 32
  {
    if v > 0 { LeadingOne(v); }
    PowUint();
    BitsMax(v, 32);
  }

  /** The five shifts. */
  method Shifts(v0: nat, ghost n: nat) returns (v: nat)
    requires Topped(v0, n, Min(1, n)) && n <= 32
    ensures v == Pow2(n) - 1
  {
    v := v0;
    SmearStep(v, n, 1);
    v := Or(v, Shr(v, 1));
    SmearStep(v, n, 2);
    v := Or(v, Shr(v, 2));
    SmearStep(v, n, 4);
    v := Or(v, Shr(v, 4));
    SmearStep(v, n, 8);
    v := Or(v, Shr(v, 8));
    SmearStep(v, n, 16);
    v := Or(v, Shr(v, 16));
  }

  lemma Wrapped(val: nat, n: nat)
    requires val < UINT && n == Bits((val + UINT - 1) % UINT)
    ensures 0 < val <= UINT / 2 ==> Pow2(n) == Ceiling(val) && Pow2(n) < UINT
    ensures val == 0 || val > UINT / 2 ==> Pow2(n) == UINT
  {
    PowUint();
    if 0 < val <= UINT / 2 { CeilingLeast(val, 31); } else { AllBits((val + UINT - 1) % UINT); }
  }

  lemma AllBits(v: nat)
    requires UINT / 2 <= v < UINT
    ensures Bits(v) == 32
  {
    PowUint();
    BitsBound(v);
    BitsMax(v, 32);
    if Bits(v) <= 31 { PowMono(Bits(v), 31); }
  }

  // ---------- the size of the table ----------

  /** maybe_resize's number of entries for `len`, and what it allocates: two entries more, in unsigned ints. */
  function Entries(len: nat): (r: nat)
    requires len + 2 < UINT
  {
    if len + 2 <= UINT / 2 then Ceiling(len + 2) - 2 else UINT - 2
  }

  /** With its two extra entries the table has the least power of two that holds `len` of them, as long as that is
      a 32-bit number. */
  lemma EntriesLeast(len: nat, k: nat)
    requires len + 2 <= 0x8000_0000
    ensures Entries(len) >= len && (exists j :: Entries(len) + 2 == Pow2(j))
    ensures len + 2 <= Pow2(k) ==> Entries(len) + 2 <= Pow2(k)
  {
    CeilingLeast(len + 2, k);
    assert Entries(len) + 2 == Pow2(Bits(len + 1));
  }

  /** The size maybe_resize computes, in unsigned ints. */
  method NewSize(len: nat) returns (n: nat)
    requires len + 2 < UINT
    ensures n == Entries(len) && n >= len
  {
    CeilingLeast(len + 2, 31);
    PowUint();
    var r := NextPowerOfTwo(len + 2);
    n := (r + UINT - 2) % UINT;
  }

  /** The allocation holds the table and its two extra entries iff the file descriptor is below INT_MAX - 1. */
  lemma AllocationFits(fd: nat)
    requires fd < INT_MAX
    ensures fd + 1 <= Entries(fd + 1)
    ensures (Entries(fd + 1) + 2) % UINT == Entries(fd + 1) + 2 <==> fd < INT_MAX - 1
  {
    CeilingLeast(fd + 3, 31);
    PowUint();
  }
}
