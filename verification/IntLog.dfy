/** The integer binary logarithm in all its forms: branchless shifting, de Bruijn
    multiplication with table lookup, the split 64-bit variant, and the compile-time
    macros. Every form computes the same number: the bit length of its argument. */
module IntLog {
  import opened Bits

  /** Bits needed to write `v` without leading zeros. */
  function Ilog(v: nat): nat { if v == 0 then 0 else 1 + Ilog(v / 2) }

  /** floor(log2 v) + 1, spelled out. */
  lemma {:induction false} IlogMeaning(v: nat)
    ensures v == 0 ==> Ilog(v) == 0
    ensures v > 0 ==> Ilog(v) >= 1 && Pow2(Ilog(v) - 1) <= v < Pow2(Ilog(v))
  {
    if v <= 1 {
    } else {
      IlogMeaning(v / 2);
    }
  }

  lemma {:induction false} IlogBelow(v: nat, n: nat)
    ensures v < Pow2(n) <==> Ilog(v) <= n
    decreases n
  {
    if n == 0 {
    } else {
      IlogBelow(v / 2, n - 1);
    }
  }

  lemma {:induction false} IlogShift(v: nat, k: nat)
    requires Shr(v, k) > 0
    ensures Ilog(v) == k + Ilog(Shr(v, k))
    decreases k
  {
    if k == 0 {
    } else {
      if v == 0 { ShrZero(k); }
      IlogShift(v / 2, k - 1);
    }
  }

  lemma {:induction false} ShrBelow(v: nat, k: nat, n: nat)
    ensures v < Pow2(k + n) <==> Shr(v, k) < Pow2(n)
    decreases k
  {
    if k == 0 {
    } else {
      ShrBelow(v / 2, k - 1, n);
    }
  }

  // ---- smearing the top bit downwards ----

  /** Bit `i` of `y` tells whether `x` has a bit among the `w` from `i` up. */
  ghost predicate Window(x: nat, y: nat, w: nat) {
    forall i: nat :: Bit(y, i) <==> exists j: nat :: i <= j < i + w && Bit(x, j)
  }

  lemma WindowStart(x: nat)
    ensures Window(x, x, 1)
  {
    forall i: nat ensures Bit(x, i) <==> exists j: nat :: i <= j < i + 1 && Bit(x, j) {
      if Bit(x, i) { assert i <= i < i + 1 && Bit(x, i); }
    }
  }

  /** `y | y >> w` doubles the window. */
  lemma WindowDoubles(x: nat, y: nat, w: nat)
    requires Window(x, y, w)
    ensures Window(x, Or(y, Shr(y, w)), 2 * w)
  {
    var z := Or(y, Shr(y, w));
    forall i: nat ensures Bit(z, i) <==> exists j: nat :: i <= j < i + 2 * w && Bit(x, j) {
      OrBits(y, Shr(y, w), i);
      ShrAdd(y, w, i);
      assert Bit(Shr(y, w), i) == Bit(y, w + i);
      assert Bit(z, i) <==> Bit(y, i) || Bit(y, i + w);
      if Bit(y, i) {
        var j: nat :| i <= j < i + w && Bit(x, j);
        assert i <= j < i + 2 * w;
      }
      if Bit(y, i + w) {
        var j: nat :| i + w <= j < i + w + w && Bit(x, j);
        assert i <= j < i + 2 * w;
      }
      if j: nat :| i <= j < i + 2 * w && Bit(x, j) {
        if j < i + w { assert Bit(y, i); } else { assert Bit(y, i + w); }
      }
    }
  }

  lemma {:induction false} TopBit(x: nat)
    ensures x > 0 ==> Bit(x, Ilog(x) - 1)
    ensures forall j: nat | j >= Ilog(x) :: !Bit(x, j)
  {
    if x == 0 {
      forall j: nat ensures !Bit(x, j) { ShrZero(j); }
    } else {
      TopBit(x / 2);
      forall j: nat | j >= Ilog(x) ensures !Bit(x, j) { assert !Bit(x / 2, j - 1); }
    }
  }

  /** A window at least as wide as the number sets every bit below its top bit. */
  lemma WindowFull(x: nat, y: nat, w: nat)
    requires Window(x, y, w) && Ilog(x) <= w
    ensures y == Ones(Ilog(x))
  {
    TopBit(x);
    var n := Ilog(x);
    forall i: nat ensures Bit(y, i) == Bit(Ones(n), i) {
      OnesBits(n, i);
      if i < n { assert i <= n - 1 < i + w && Bit(x, n - 1); }
    }
    BitsDetermine(y, Ones(n));
  }

  /** Isolate the top bit: the smeared word, halved and incremented. */
  lemma SmearedTop(x: nat, y: nat, w: nat)
    requires Window(x, y, w) && Ilog(x) <= w
    ensures y / 2 + 1 == if x == 0 then 1 else Pow2(Ilog(x) - 1)
  {
    WindowFull(x, y, w);
    if x > 0 {
      assert Ones(Ilog(x)) / 2 == Ones(Ilog(x) - 1);
      OnesIsPow2(Ilog(x) - 1);
    }
  }

  // ---- de Bruijn tables ----

  /** The lookup tables of the source. */
  function Idx32(i: nat): nat {
    match i
    case 0 => 0 case 1 => 1 case 2 => 28 case 3 => 2 case 4 => 29 case 5 => 14 case 6 => 24 case 7 => 3
    case 8 => 30 case 9 => 22 case 10 => 20 case 11 => 15 case 12 => 25 case 13 => 17 case 14 => 4 case 15 => 8
    case 16 => 31 case 17 => 27 case 18 => 13 case 19 => 23 case 20 => 21 case 21 => 19 case 22 => 16 case 23 => 7
    case 24 => 26 case 25 => 12 case 26 => 18 case 27 => 6 case 28 => 11 case 29 => 5 case 30 => 10 case _ => 9
  }

  function Idx64(i: nat): nat {
    match i
    case 0 => 0 case 1 => 1 case 2 => 2 case 3 => 7 case 4 => 3 case 5 => 13 case 6 => 8 case 7 => 19
    case 8 => 4 case 9 => 25 case 10 => 14 case 11 => 28 case 12 => 9 case 13 => 34 case 14 => 20 case 15 => 40
    case 16 => 5 case 17 => 17 case 18 => 26 case 19 => 38 case 20 => 15 case 21 => 46 case 22 => 29 case 23 => 48
    case 24 => 10 case 25 => 31 case 26 => 35 case 27 => 54 case 28 => 21 case 29 => 50 case 30 => 41 case 31 => 57
    case 32 => 63 case 33 => 6 case 34 => 12 case 35 => 18 case 36 => 24 case 37 => 27 case 38 => 33 case 39 => 39
    case 40 => 16 case 41 => 37 case 42 => 45 case 43 => 47 case 44 => 30 case 45 => 53 case 46 => 49 case 47 => 56
    case 48 => 62 case 49 => 11 case 50 => 23 case 51 => 32 case 52 => 36 case 53 => 44 case 54 => 52 case 55 => 55
    case 56 => 61 case 57 => 22 case 58 => 43 case 59 => 51 case 60 => 60 case 61 => 42 case 62 => 59 case _ => 58
  }

  /** `v*0x77CB531U>>27&0x1F` on 32-bit words. */
  function Slot32(v: nat): (i: nat)
    ensures i < 32
  {
    ((v * 0x77CB531) % 0x1_0000_0000) / 0x800_0000 % 32
  }

  /** `v*0x218A392CD3D5DBFULL>>58&0x3F` on 64-bit words. */
  function Slot64(v: nat): (i: nat)
    ensures i < 64
  {
    ((v * 0x218A392CD3D5DBF) % 0x1_0000_0000_0000_0000) / 0x400_0000_0000_0000 % 64
  }

  /** `v` is 2^j, where `p` is 2^k and `j` is one of the eight exponents from `k`. */
  predicate InRow(k: nat, p: nat, j: nat, v: nat) {
    || (j == k && v == p) || (j == k + 1 && v == 2 * p) || (j == k + 2 && v == 4 * p) || (j == k + 3 && v == 8 * p)
    || (j == k + 4 && v == 16 * p) || (j == k + 5 && v == 32 * p) || (j == k + 6 && v == 64 * p)
    || (j == k + 7 && v == 128 * p)
  }

  lemma RowOf(k: nat, p: nat, j: nat)
    requires Pow2(k) == p && k <= j < k + 8
    ensures InRow(k, p, j, Pow2(j))
  {
    assert Pow2(k + 1) == 2 * Pow2(k);
    assert Pow2(k + 2) == 2 * Pow2(k + 1);
    assert Pow2(k + 3) == 2 * Pow2(k + 2);
    assert Pow2(k + 4) == 2 * Pow2(k + 3);
    assert Pow2(k + 5) == 2 * Pow2(k + 4);
    assert Pow2(k + 6) == 2 * Pow2(k + 5);
  }

  lemma Pow2Add8(k: nat, p: nat)
    requires Pow2(k) == p
    ensures Pow2(k + 8) == 256 * p
  {
    RowOf(k, p, k + 7);
    assert Pow2(k + 8) == 2 * Pow2(k + 7);
  }

  lemma Pow2Values()
    ensures Pow2(0) == 1 && Pow2(8) == 0x100 && Pow2(16) == 0x1_0000 && Pow2(24) == 0x100_0000
    ensures Pow2(32) == 0x1_0000_0000
  {
    Pow2Add8(0, 1);
    Pow2Add8(8, 0x100);
    Pow2Add8(16, 0x1_0000);
    Pow2Add8(24, 0x100_0000);
  }

  lemma Pow2Values64()
    ensures Pow2(32) == 0x1_0000_0000 && Pow2(40) == 0x100_0000_0000
    ensures Pow2(48) == 0x1_0000_0000_0000 && Pow2(56) == 0x100_0000_0000_0000 && Pow2(64) == 0x1_0000_0000_0000_0000
  {
    Pow2Values();
    Pow2Add8(32, 0x1_0000_0000);
    Pow2Add8(40, 0x100_0000_0000);
    Pow2Add8(48, 0x1_0000_0000_0000);
    Pow2Add8(56, 0x100_0000_0000_0000);
  }

  /** A slot from the quotient and remainder of the product. */
  lemma SlotIs32(v: nat, q: nat, m: nat, s: nat)
    requires v * 0x77CB531 == q * 0x1_0000_0000 + m && s * 0x800_0000 <= m < (s + 1) * 0x800_0000 && s < 32
    ensures Slot32(v) == s
  {
    DivisionUnique(v * 0x77CB531, 0x1_0000_0000, q, m);
    DivisionUnique(m, 0x800_0000, s, m - s * 0x800_0000);
    Small(s, 32);
  }

  lemma SlotIs64(v: nat, q: nat, m: nat, s: nat)
    requires v * 0x218A392CD3D5DBF == q * 0x1_0000_0000_0000_0000 + m
    requires s * 0x400_0000_0000_0000 <= m < (s + 1) * 0x400_0000_0000_0000 && s < 64
    ensures Slot64(v) == s
  {
    DivisionUnique(v * 0x218A392CD3D5DBF, 0x1_0000_0000_0000_0000, q, m);
    DivisionUnique(m, 0x400_0000_0000_0000, s, m - s * 0x400_0000_0000_0000);
    Small(s, 64);
  }

  // The table entries of the powers of two, a row of eight exponents at a time.

  lemma Row32At0(j: nat, v: nat)
    requires InRow(0, 0x1, j, v)
    ensures Idx32(Slot32(v)) == j
  {
    match j
    case 0 => SlotIs32(v, 0x0, 0x77CB531, 0);
    case 1 => SlotIs32(v, 0x0, 0xEF96A62, 1);
    case 2 => SlotIs32(v, 0x0, 0x1DF2D4C4, 3);
    case 3 => SlotIs32(v, 0x0, 0x3BE5A988, 7);
    case 4 => SlotIs32(v, 0x0, 0x77CB5310, 14);
    case 5 => SlotIs32(v, 0x0, 0xEF96A620, 29);
    case 6 => SlotIs32(v, 0x1, 0xDF2D4C40, 27);
    case _ => SlotIs32(v, 0x3, 0xBE5A9880, 23);
  }

  lemma Row32At8(j: nat, v: nat)
    requires InRow(8, 0x100, j, v)
    ensures Idx32(Slot32(v)) == j
  {
    match j
    case 8 => SlotIs32(v, 0x7, 0x7CB53100, 15);
    case 9 => SlotIs32(v, 0xE, 0xF96A6200, 31);
    case 10 => SlotIs32(v, 0x1D, 0xF2D4C400, 30);
    case 11 => SlotIs32(v, 0x3B, 0xE5A98800, 28);
    case 12 => SlotIs32(v, 0x77, 0xCB531000, 25);
    case 13 => SlotIs32(v, 0xEF, 0x96A62000, 18);
    case 14 => SlotIs32(v, 0x1DF, 0x2D4C4000, 5);
    case _ => SlotIs32(v, 0x3BE, 0x5A988000, 11);
  }

  lemma Row32At16(j: nat, v: nat)
    requires InRow(16, 0x10000, j, v)
    ensures Idx32(Slot32(v)) == j
  {
    match j
    case 16 => SlotIs32(v, 0x77C, 0xB5310000, 22);
    case 17 => SlotIs32(v, 0xEF9, 0x6A620000, 13);
    case 18 => SlotIs32(v, 0x1DF2, 0xD4C40000, 26);
    case 19 => SlotIs32(v, 0x3BE5, 0xA9880000, 21);
    case 20 => SlotIs32(v, 0x77CB, 0x53100000, 10);
    case 21 => SlotIs32(v, 0xEF96, 0xA6200000, 20);
    case 22 => SlotIs32(v, 0x1DF2D, 0x4C400000, 9);
    case _ => SlotIs32(v, 0x3BE5A, 0x98800000, 19);
  }

  lemma Row32At24(j: nat, v: nat)
    requires InRow(24, 0x1000000, j, v)
    ensures Idx32(Slot32(v)) == j
  {
    match j
    case 24 => SlotIs32(v, 0x77CB5, 0x31000000, 6);
    case 25 => SlotIs32(v, 0xEF96A, 0x62000000, 12);
    case 26 => SlotIs32(v, 0x1DF2D4, 0xC4000000, 24);
    case 27 => SlotIs32(v, 0x3BE5A9, 0x88000000, 17);
    case 28 => SlotIs32(v, 0x77CB53, 0x10000000, 2);
    case 29 => SlotIs32(v, 0xEF96A6, 0x20000000, 4);
    case 30 => SlotIs32(v, 0x1DF2D4C, 0x40000000, 8);
    case _ => SlotIs32(v, 0x3BE5A98, 0x80000000, 16);
  }

  lemma Row64At0(j: nat, v: nat)
    requires InRow(0, 0x1, j, v)
    ensures Idx64(Slot64(v)) == j
  {
    match j
    case 0 => SlotIs64(v, 0x0, 0x218A392CD3D5DBF, 0);
    case 1 => SlotIs64(v, 0x0, 0x43147259A7ABB7E, 1);
    case 2 => SlotIs64(v, 0x0, 0x8628E4B34F576FC, 2);
    case 3 => SlotIs64(v, 0x0, 0x10C51C9669EAEDF8, 4);
    case 4 => SlotIs64(v, 0x0, 0x218A392CD3D5DBF0, 8);
    case 5 => SlotIs64(v, 0x0, 0x43147259A7ABB7E0, 16);
    case 6 => SlotIs64(v, 0x0, 0x8628E4B34F576FC0, 33);
    case _ => SlotIs64(v, 0x1, 0xC51C9669EAEDF80, 3);
  }

  lemma Row64At8(j: nat, v: nat)
    requires InRow(8, 0x100, j, v)
    ensures Idx64(Slot64(v)) == j
  {
    match j
    case 8 => SlotIs64(v, 0x2, 0x18A392CD3D5DBF00, 6);
    case 9 => SlotIs64(v, 0x4, 0x3147259A7ABB7E00, 12);
    case 10 => SlotIs64(v, 0x8, 0x628E4B34F576FC00, 24);
    case 11 => SlotIs64(v, 0x10, 0xC51C9669EAEDF800, 49);
    case 12 => SlotIs64(v, 0x21, 0x8A392CD3D5DBF000, 34);
    case 13 => SlotIs64(v, 0x43, 0x147259A7ABB7E000, 5);
    case 14 => SlotIs64(v, 0x86, 0x28E4B34F576FC000, 10);
    case _ => SlotIs64(v, 0x10C, 0x51C9669EAEDF8000, 20);
  }

  lemma Row64At16(j: nat, v: nat)
    requires InRow(16, 0x10000, j, v)
    ensures Idx64(Slot64(v)) == j
  {
    match j
    case 16 => SlotIs64(v, 0x218, 0xA392CD3D5DBF0000, 40);
    case 17 => SlotIs64(v, 0x431, 0x47259A7ABB7E0000, 17);
    case 18 => SlotIs64(v, 0x862, 0x8E4B34F576FC0000, 35);
    case 19 => SlotIs64(v, 0x10C5, 0x1C9669EAEDF80000, 7);
    case 20 => SlotIs64(v, 0x218A, 0x392CD3D5DBF00000, 14);
    case 21 => SlotIs64(v, 0x4314, 0x7259A7ABB7E00000, 28);
    case 22 => SlotIs64(v, 0x8628, 0xE4B34F576FC00000, 57);
    case _ => SlotIs64(v, 0x10C51, 0xC9669EAEDF800000, 50);
  }

  lemma Row64At24(j: nat, v: nat)
    requires InRow(24, 0x1000000, j, v)
    ensures Idx64(Slot64(v)) == j
  {
    match j
    case 24 => SlotIs64(v, 0x218A3, 0x92CD3D5DBF000000, 36);
    case 25 => SlotIs64(v, 0x43147, 0x259A7ABB7E000000, 9);
    case 26 => SlotIs64(v, 0x8628E, 0x4B34F576FC000000, 18);
    case 27 => SlotIs64(v, 0x10C51C, 0x9669EAEDF8000000, 37);
    case 28 => SlotIs64(v, 0x218A39, 0x2CD3D5DBF0000000, 11);
    case 29 => SlotIs64(v, 0x431472, 0x59A7ABB7E0000000, 22);
    case 30 => SlotIs64(v, 0x8628E4, 0xB34F576FC0000000, 44);
    case _ => SlotIs64(v, 0x10C51C9, 0x669EAEDF80000000, 25);
  }

  lemma Row64At32(j: nat, v: nat)
    requires InRow(32, 0x100000000, j, v)
    ensures Idx64(Slot64(v)) == j
  {
    match j
    case 32 => SlotIs64(v, 0x218A392, 0xCD3D5DBF00000000, 51);
    case 33 => SlotIs64(v, 0x4314725, 0x9A7ABB7E00000000, 38);
    case 34 => SlotIs64(v, 0x8628E4B, 0x34F576FC00000000, 13);
    case 35 => SlotIs64(v, 0x10C51C96, 0x69EAEDF800000000, 26);
    case 36 => SlotIs64(v, 0x218A392C, 0xD3D5DBF000000000, 52);
    case 37 => SlotIs64(v, 0x43147259, 0xA7ABB7E000000000, 41);
    case 38 => SlotIs64(v, 0x8628E4B3, 0x4F576FC000000000, 19);
    case _ => SlotIs64(v, 0x10C51C966, 0x9EAEDF8000000000, 39);
  }

  lemma Row64At40(j: nat, v: nat)
    requires InRow(40, 0x10000000000, j, v)
    ensures Idx64(Slot64(v)) == j
  {
    match j
    case 40 => SlotIs64(v, 0x218A392CD, 0x3D5DBF0000000000, 15);
    case 41 => SlotIs64(v, 0x43147259A, 0x7ABB7E0000000000, 30);
    case 42 => SlotIs64(v, 0x8628E4B34, 0xF576FC0000000000, 61);
    case 43 => SlotIs64(v, 0x10C51C9669, 0xEAEDF80000000000, 58);
    case 44 => SlotIs64(v, 0x218A392CD3, 0xD5DBF00000000000, 53);
    case 45 => SlotIs64(v, 0x43147259A7, 0xABB7E00000000000, 42);
    case 46 => SlotIs64(v, 0x8628E4B34F, 0x576FC00000000000, 21);
    case _ => SlotIs64(v, 0x10C51C9669E, 0xAEDF800000000000, 43);
  }

  lemma Row64At48(j: nat, v: nat)
    requires InRow(48, 0x1000000000000, j, v)
    ensures Idx64(Slot64(v)) == j
  {
    match j
    case 48 => SlotIs64(v, 0x218A392CD3D, 0x5DBF000000000000, 23);
    case 49 => SlotIs64(v, 0x43147259A7A, 0xBB7E000000000000, 46);
    case 50 => SlotIs64(v, 0x8628E4B34F5, 0x76FC000000000000, 29);
    case 51 => SlotIs64(v, 0x10C51C9669EA, 0xEDF8000000000000, 59);
    case 52 => SlotIs64(v, 0x218A392CD3D5, 0xDBF0000000000000, 54);
    case 53 => SlotIs64(v, 0x43147259A7AB, 0xB7E0000000000000, 45);
    case 54 => SlotIs64(v, 0x8628E4B34F57, 0x6FC0000000000000, 27);
    case _ => SlotIs64(v, 0x10C51C9669EAE, 0xDF80000000000000, 55);
  }

  lemma Row64At56(j: nat, v: nat)
    requires InRow(56, 0x100000000000000, j, v)
    ensures Idx64(Slot64(v)) == j
  {
    match j
    case 56 => SlotIs64(v, 0x218A392CD3D5D, 0xBF00000000000000, 47);
    case 57 => SlotIs64(v, 0x43147259A7ABB, 0x7E00000000000000, 31);
    case 58 => SlotIs64(v, 0x8628E4B34F576, 0xFC00000000000000, 63);
    case 59 => SlotIs64(v, 0x10C51C9669EAED, 0xF800000000000000, 62);
    case 60 => SlotIs64(v, 0x218A392CD3D5DB, 0xF000000000000000, 60);
    case 61 => SlotIs64(v, 0x43147259A7ABB7, 0xE000000000000000, 56);
    case 62 => SlotIs64(v, 0x8628E4B34F576F, 0xC000000000000000, 48);
    case _ => SlotIs64(v, 0x10C51C9669EAEDF, 0x8000000000000000, 32);
  }

  /** The de Bruijn product sends every power of two to the slot that holds its exponent. */
  lemma Table32(j: nat)
    requires j < 32
    ensures Idx32(Slot32(Pow2(j))) == j
  {
    var v := Pow2(j);
    Pow2Values();
    if j < 8 {
      RowOf(0, 0x1, j);
      Row32At0(j, v);
    } else if j < 16 {
      RowOf(8, 0x100, j);
      Row32At8(j, v);
    } else if j < 24 {
      RowOf(16, 0x10000, j);
      Row32At16(j, v);
    } else {
      RowOf(24, 0x1000000, j);
      Row32At24(j, v);
    }
  }

  lemma Table64(j: nat)
    requires j < 64
    ensures Idx64(Slot64(Pow2(j))) == j
  {
    var v := Pow2(j);
    Pow2Values();
    Pow2Values64();
    if j < 8 {
      RowOf(0, 0x1, j);
      Row64At0(j, v);
    } else if j < 16 {
      RowOf(8, 0x100, j);
      Row64At8(j, v);
    } else if j < 24 {
      RowOf(16, 0x10000, j);
      Row64At16(j, v);
    } else if j < 32 {
      RowOf(24, 0x1000000, j);
      Row64At24(j, v);
    } else if j < 40 {
      RowOf(32, 0x100000000, j);
      Row64At32(j, v);
    } else if j < 48 {
      RowOf(40, 0x10000000000, j);
      Row64At40(j, v);
    } else if j < 56 {
      RowOf(48, 0x1000000000000, j);
      Row64At48(j, v);
    } else {
      RowOf(56, 0x100000000000000, j);
      Row64At56(j, v);
    }
  }

  // ---- the functions ----

  /** One halving step: drop `e` low bits if anything is left above them. */
  lemma HalfStep(v: nat, e: nat)
    requires v < Pow2(e + e)
    ensures v >= Pow2(e) ==> 0 < Shr(v, e) < Pow2(e) && Ilog(v) == e + Ilog(Shr(v, e))
    ensures And(v, Mask(e, e)) != 0 <==> v >= Pow2(e)
  {
    ShrBelow(v, e, 0);
    ShrBelow(v, e, e);
    if v >= Pow2(e) { IlogShift(v, e); }
    MaskTests(v, e, e);
  }

  lemma OrMultiple(x: nat, j: nat, q: nat)
    requires 0 <= x - 2 * Pow2(j) * q < Pow2(j)
    ensures Or(x, Pow2(j)) == x + Pow2(j)
  {
    assert Pow2(j + 1) == 2 * Pow2(j);
    DivisionUnique(x, Pow2(j + 1), q, x - 2 * Pow2(j) * q);
    OrPow2(x, j);
  }

  /**
   * One branchless step: `m` is `e = 2^j` when `v` exceeds `t`, the largest number of `e` bits, and 0 otherwise;
   * `v` moves down by `m` bits and `m` is or-ed into `ret`, a multiple of `2e` plus less than `e`.
   */
  method Halve(v: nat, ret: nat, t: nat, e: nat, ghost j: nat, ghost q: nat) returns (v': nat, ret': nat)
    requires v < (t + 1) * (t + 1) && e == Pow2(j) && t + 1 == Pow2(e) && 0 <= ret - 2 * e * q < e
    ensures v' <= t && (v' == 0 <==> v == 0)
    ensures ret' + Ilog(v') == ret + Ilog(v)
    ensures ret' == ret || ret' == ret + e
  {
    var m := if v > t then e else 0;
    v', ret' := Shr(v, m), Or(ret, m);
    Pow2Sum(e, e);
    HalfStep(v, e);
    OrZero(ret);
    OrMultiple(ret, j, q);
  }

  /** The steps from 4, 8, 16 and 32 bits down; `ret0` is a multiple `q` of the width, plus 1 if `v0` is not 0. */
  method Finish4(v0: nat, ret0: nat, ghost q: nat) returns (ret: nat)
    requires v0 < 16 && ret0 == 4 * q + if v0 > 0 then 1 else 0
    ensures ret == if v0 > 0 then 4 * q + Ilog(v0) else ret0
  {
    var v;
    v, ret := Halve(v0, ret0, 3, 2, 1, q);
    ret := ret + if v > 1 then 1 else 0;
  }

  method Finish8(v0: nat, ret0: nat, ghost q: nat) returns (ret: nat)
    requires v0 < 256 && ret0 == 8 * q + if v0 > 0 then 1 else 0
    ensures ret == if v0 > 0 then 8 * q + Ilog(v0) else ret0
  {
    var v;
    v, ret := Halve(v0, ret0, 0xF, 4, 2, q);
    ret := Finish4(v, ret, if ret == ret0 then 2 * q else 2 * q + 1);
  }

  method Finish16(v0: nat, ret0: nat, ghost q: nat) returns (ret: nat)
    requires v0 < 0x1_0000 && ret0 == 16 * q + if v0 > 0 then 1 else 0
    ensures ret == if v0 > 0 then 16 * q + Ilog(v0) else ret0
  {
    Pow2Values();
    var v;
    v, ret := Halve(v0, ret0, 0xFF, 8, 3, q);
    ret := Finish8(v, ret, if ret == ret0 then 2 * q else 2 * q + 1);
  }

  method Finish32(v0: nat, ret0: nat, ghost q: nat) returns (ret: nat)
    requires v0 < 0x1_0000_0000 && ret0 == 32 * q + if v0 > 0 then 1 else 0
    ensures ret == if v0 > 0 then 32 * q + Ilog(v0) else ret0
  {
    Pow2Values();
    var v;
    v, ret := Halve(v0, ret0, 0xFFFF, 16, 4, q);
    ret := Finish16(v, ret, if ret == ret0 then 2 * q else 2 * q + 1);
  }

  method Ilog32Branchless(v: nat) returns (ret: nat)
    requires v < 0x1_0000_0000
    ensures ret == Ilog(v)
  {
    ret := Finish32(v, if v > 0 then 1 else 0, 0);
  }

  method Ilog64Branchless(v: nat) returns (ret: nat)
    requires v < 0x1_0000_0000_0000_0000
    ensures ret == Ilog(v)
  {
    var v';
    v', ret := HalveWord(v);
    ret := Finish32(v', ret, if ret <= 1 then 0 else 1);
  }

  /** The first step on a 64-bit word: down to its upper or its lower half. */
  method HalveWord(v: nat) returns (v': nat, ret: nat)
    requires v < 0x1_0000_0000_0000_0000
    ensures v' < 0x1_0000_0000 && (v' == 0 <==> v == 0)
    ensures v == 0 ==> ret == 0
    ensures v > 0 ==> (ret == 1 || ret == 33) && ret - 1 + Ilog(v') == Ilog(v)
  {
    Pow2Values64();
    v', ret := Halve(v, if v > 0 then 1 else 0, 0xFFFF_FFFF, 32, 5, 0);
  }

  /** The shifts by 1, 2, 4, 8 and 16. */
  method Smear(v0: nat) returns (v: nat)
    ensures Window(v0, v, 32)
  {
    v := v0;
    WindowStart(v0);
    WindowDoubles(v0, v, 1);
    v := Or(v, Shr(v, 1));
    WindowDoubles(v0, v, 2);
    v := Or(v, Shr(v, 2));
    WindowDoubles(v0, v, 4);
    v := Or(v, Shr(v, 4));
    WindowDoubles(v0, v, 8);
    v := Or(v, Shr(v, 8));
    WindowDoubles(v0, v, 16);
    v := Or(v, Shr(v, 16));
  }

  /** The 32-bit de Bruijn tail: smear, isolate the top bit, look its exponent up. */
  method TopExponent32(v0: nat) returns (k: nat)
    requires v0 < 0x1_0000_0000
    ensures k == if v0 == 0 then 0 else Ilog(v0) - 1
  {
    var v := Smear(v0);
    Pow2Values();
    IlogBelow(v0, 32);
    SmearedTop(v0, v, 32);
    v := v / 2 + 1;
    Table32(if v0 == 0 then 0 else Ilog(v0) - 1);
    k := Idx32(Slot32(v));
  }

  method Ilog32DeBruijn(v: nat) returns (ret: nat)
    requires v < 0x1_0000_0000
    ensures ret == Ilog(v)
  {
    ret := if v > 0 then 1 else 0;
    var k := TopExponent32(v);
    ret := ret + k;
  }

  /** The variant for platforms without 64-bit words. */
  method Ilog64Split(v: nat) returns (ret: nat)
    requires v < 0x1_0000_0000_0000_0000
    ensures ret == Ilog(v)
  {
    var v';
    v', ret := HalveWord(v);
    var k := TopExponent32(v');
    ret := ret + k;
  }

  lemma IlogOfWord(v: nat)
    requires v < 0x1_0000_0000_0000_0000
    ensures Ilog(v) <= 64
  {
    Pow2Values64();
    IlogBelow(v, 64);
  }

  method Ilog64DeBruijn(v0: nat) returns (ret: nat)
    requires v0 < 0x1_0000_0000_0000_0000
    ensures ret == Ilog(v0)
  {
    ret := if v0 > 0 then 1 else 0;
    var v := Smear(v0);
    WindowDoubles(v0, v, 32);
    v := Or(v, Shr(v, 32));
    IlogOfWord(v0);
    SmearedTop(v0, v, 64);
    v := v / 2 + 1;
    Table64(if v0 == 0 then 0 else Ilog(v0) - 1);
    ret := ret + Idx64(Slot64(v));
  }

  // ---- the compile-time macros ----

  function Static0(v: nat): nat { if v != 0 then 1 else 0 }
  function Static1(v: nat): nat { if And(v, 0x2) != 0 then 2 else Static0(v) }
  function Static2(v: nat): nat { if And(v, 0xC) != 0 then 2 + Static1(Shr(v, 2)) else Static1(v) }
  function Static3(v: nat): nat { if And(v, 0xF0) != 0 then 4 + Static2(Shr(v, 4)) else Static2(v) }
  function Static4(v: nat): nat { if And(v, 0xFF00) != 0 then 8 + Static3(Shr(v, 8)) else Static3(v) }
  function Static5(v: nat): nat { if And(v, 0xFFFF_0000) != 0 then 16 + Static4(Shr(v, 16)) else Static4(v) }
  function Static6(v: nat): nat { if And(v, 0xFFFF_FFFF_0000_0000) != 0 then 32 + Static5(Shr(v, 32)) else Static5(v) }

  lemma Masks()
    ensures Mask(1, 1) == 0x2 && Mask(2, 2) == 0xC && Mask(4, 4) == 0xF0 && Mask(8, 8) == 0xFF00
    ensures Mask(16, 16) == 0xFFFF_0000 && Mask(32, 32) == 0xFFFF_FFFF_0000_0000
  {
    Pow2Values();
    MaskValue(1, 1);
    MaskValue(2, 2);
    MaskValue(4, 4);
    MaskValue(8, 8);
    MaskValue(16, 16);
    MaskValue(32, 32);
  }

  lemma Static1Is(v: nat)
    requires v < 4
    ensures Static1(v) == Ilog(v)
  {
    Masks();
    HalfStep(v, 1);
  }

  lemma Static2Is(v: nat)
    requires v < 16
    ensures Static2(v) == Ilog(v)
  {
    Masks();
    HalfStep(v, 2);
    Static1Is(if v >= 4 then Shr(v, 2) else v);
  }

  lemma Static4Is(v: nat)
    requires v < 0x1_0000
    ensures Static4(v) == Ilog(v)
  {
    Masks();
    Pow2Values();
    assert Pow2(4) == 16;
    HalfStep(v, 8);
    var u := if v >= 0x100 then Shr(v, 8) else v;
    HalfStep(u, 4);
    Static2Is(if u >= 16 then Shr(u, 4) else u);
  }

  /** The 32-bit and the 64-bit macro agree with the functions. */
  lemma Static5Is(v: nat)
    requires v < 0x1_0000_0000
    ensures Static5(v) == Ilog(v)
  {
    Masks();
    Pow2Values();
    HalfStep(v, 16);
    Static4Is(if v >= 0x1_0000 then Shr(v, 16) else v);
  }

  lemma Static6Is(v: nat)
    requires v < 0x1_0000_0000_0000_0000
    ensures Static6(v) == Ilog(v)
  {
    Masks();
    Pow2Values64();
    HalfStep(v, 32);
    Static5Is(if v >= 0x1_0000_0000 then Shr(v, 32) else v);
  }
}
