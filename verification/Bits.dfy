/** Machine words as natural numbers: shifts, bitwise or/and, and what they do bit by bit. */
module Bits {

  type Byte = x: int | 0 <= x < 256

  function Pow2(k: nat): (p: nat)
    ensures p >= 1
  {
    if k == 0 then 1 else 2 * Pow2(k - 1)
  }

  lemma {:induction false} Pow2Sum(a: nat, b: nat)
    ensures Pow2(a + b) == Pow2(a) * Pow2(b)
  {
    if a == 0 {
    } else {
      Pow2Sum(a - 1, b);
      assert Pow2(a) * Pow2(b) == 2 * (Pow2(a - 1) * Pow2(b));
    }
  }

  /** `x >> k` */
  function Shr(x: nat, k: nat): nat
    decreases k
  {
    if k == 0 then x else Shr(x / 2, k - 1)
  }

  function Or(a: nat, b: nat): nat
    decreases a + b
  {
    if a == 0 && b == 0 then 0 else 2 * Or(a / 2, b / 2) + if a % 2 == 1 || b % 2 == 1 then 1 else 0
  }

  function And(a: nat, b: nat): nat {
    if a == 0 || b == 0 then 0 else 2 * And(a / 2, b / 2) + if a % 2 == 1 && b % 2 == 1 then 1 else 0
  }

  function Xor(a: nat, b: nat): nat
    decreases a + b
  {
    if a == 0 && b == 0 then 0 else 2 * Xor(a / 2, b / 2) + if a % 2 != b % 2 then 1 else 0
  }

  predicate Bit(x: nat, i: nat) { Shr(x, i) % 2 == 1 }

  /** The number with its lowest `n` bits set. */
  function Ones(n: nat): nat { if n == 0 then 0 else 2 * Ones(n - 1) + 1 }

  lemma {:induction false} OnesIsPow2(n: nat)
    ensures Ones(n) + 1 == Pow2(n)
  {
    if n == 0 {
    } else {
      OnesIsPow2(n - 1);
    }
  }

  lemma {:induction false} ShrZero(k: nat)
    ensures Shr(0, k) == 0
  {
    if k == 0 {
    } else {
      ShrZero(k - 1);
    }
  }

  lemma {:induction false} ShrAdd(x: nat, a: nat, b: nat)
    ensures Shr(Shr(x, a), b) == Shr(x, a + b)
    decreases a
  {
    if a == 0 {
    } else {
      ShrAdd(x / 2, a - 1, b);
    }
  }

  lemma {:induction false} ShrHalf(x: nat, k: nat)
    ensures Shr(x, k) / 2 == Shr(x / 2, k) == Shr(x, k + 1)
    decreases k
  {
    if k == 0 {
    } else {
      ShrHalf(x / 2, k - 1);
    }
  }

  lemma {:induction false} OrBits(a: nat, b: nat, i: nat)
    ensures Bit(Or(a, b), i) <==> Bit(a, i) || Bit(b, i)
    decreases i
  {
    if a == 0 && b == 0 {
      ShrZero(i);
    } else if i > 0 {
      OrBits(a / 2, b / 2, i - 1);
      assert Or(a, b) / 2 == Or(a / 2, b / 2);
    }
  }

  lemma {:induction false} OnesBits(n: nat, i: nat)
    ensures Bit(Ones(n), i) <==> i < n
    decreases n
  {
    if n == 0 {
      ShrZero(i);
    } else if i > 0 {
      OnesBits(n - 1, i - 1);
      assert Ones(n) / 2 == Ones(n - 1);
    }
  }

  /** Numbers with the same bits are the same. */
  lemma {:induction false} BitsDetermine(a: nat, b: nat)
    requires forall i: nat :: Bit(a, i) == Bit(b, i)
    ensures a == b
    decreases a + b
  {
    if a == 0 && b == 0 {
    } else {
      forall i: nat ensures Bit(a / 2, i) == Bit(b / 2, i) {
        assert Bit(a, i + 1) == Bit(b, i + 1);
      }
      BitsDetermine(a / 2, b / 2);
      assert Bit(a, 0) == Bit(b, 0);
    }
  }

  /** Masking with low ones is reducing modulo a power of two. */
  lemma {:induction false} AndLow(x: nat, e: nat)
    ensures And(x, Ones(e)) == x % Pow2(e)
    decreases e
  {
    if e == 0 {
    } else {
      AndLow(x / 2, e - 1);
      assert Ones(e) / 2 == Ones(e - 1) && Ones(e) % 2 == 1;
      ModDouble(x, Pow2(e - 1));
    }
  }

  lemma ModDouble(x: nat, p: nat)
    requires p >= 1
    ensures x % (2 * p) == 2 * ((x / 2) % p) + x % 2
  {
    var q, r := (x / 2) / p, (x / 2) % p;
    assert x / 2 == q * p + r;
    assert x == q * (2 * p) + (2 * r + x % 2);
    DivisionUnique(x, 2 * p, q, 2 * r + x % 2);
  }

  lemma DivisionUnique(x: nat, d: nat, q: nat, r: nat)
    requires d > 0 && r < d && x == q * d + r
    ensures x / d == q && x % d == r
  {
    var q', r' := x / d, x % d;
    assert x == q' * d + r' && r' < d;
    if q > q' {
      AtLeastOne(q - q', d);
    } else if q < q' {
      AtLeastOne(q' - q, d);
    }
  }

  lemma AtLeastOne(k: nat, d: nat)
    requires k >= 1
    ensures k * d >= d
  {
    assert k * d == (k - 1) * d + d;
  }

  /** `w` ones above `e` zeros. */
  function Mask(e: nat, w: nat): nat
    decreases e
  {
    if e == 0 then Ones(w) else 2 * Mask(e - 1, w)
  }

  /** On a word of `e + w` bits the mask tests for anything at or above bit `e`. */
  lemma {:induction false} MaskTests(x: nat, e: nat, w: nat)
    requires x < Pow2(e + w)
    ensures And(x, Mask(e, w)) != 0 <==> x >= Pow2(e)
    ensures Shr(x, e) < Pow2(w)
    decreases e
  {
    if e == 0 {
      AndLow(x, w);
      Small(x, Pow2(w));
    } else {
      MaskTests(x / 2, e - 1, w);
      AndEven(x, Mask(e - 1, w));
    }
  }

  lemma Small(x: nat, p: nat)
    requires x < p
    ensures x % p == x
  {
  }

  lemma AndEven(x: nat, m: nat)
    ensures And(x, 2 * m) == 2 * And(x / 2, m)
  {
    if x == 0 || m == 0 {
      assert And(x / 2, m) == 0;
    } else {
      assert (2 * m) / 2 == m && (2 * m) % 2 == 0;
    }
  }

  lemma {:induction false} MaskValue(e: nat, w: nat)
    ensures Mask(e, w) == Pow2(e) * (Pow2(w) - 1)
    decreases e
  {
    if e == 0 {
      OnesIsPow2(w);
    } else {
      MaskValue(e - 1, w);
      assert 2 * (Pow2(e - 1) * (Pow2(w) - 1)) == (2 * Pow2(e - 1)) * (Pow2(w) - 1);
    }
  }

  lemma {:induction false} OrZero(x: nat)
    ensures Or(x, 0) == x
  {
    if x == 0 {
    } else {
      OrZero(x / 2);
    }
  }

  /** Setting a clear bit adds its value. */
  lemma {:induction false} OrPow2(x: nat, j: nat)
    requires x % Pow2(j + 1) < Pow2(j)
    ensures Or(x, Pow2(j)) == x + Pow2(j)
    decreases j
  {
    if j == 0 {
      assert Pow2(1) == 2;
      OrZero(x / 2);
    } else {
      ModDouble(x, Pow2(j));
      assert Pow2(j + 1) == 2 * Pow2(j);
      OrPow2(x / 2, j - 1);
      assert Pow2(j) / 2 == Pow2(j - 1) && Pow2(j) % 2 == 0;
    }
  }

  lemma {:induction false} ShrIsDiv(x: nat, k: nat)
    ensures Shr(x, k) == x / Pow2(k)
    decreases k
  {
    if k == 0 {
    } else {
      ShrIsDiv(x / 2, k - 1);
      var p := Pow2(k - 1);
      var q, r := (x / 2) / p, (x / 2) % p;
      assert x / 2 == q * p + r;
      assert x == q * (2 * p) + (2 * r + x % 2);
      DivisionUnique(x, 2 * p, q, 2 * r + x % 2);
    }
  }

  /** A field of `w` bits at bit `e`. */
  lemma {:induction false} AndField(x: nat, e: nat, w: nat)
    ensures And(x, Mask(e, w)) == Pow2(e) * (Shr(x, e) % Pow2(w))
    decreases e
  {
    if e == 0 {
      AndLow(x, w);
    } else {
      AndField(x / 2, e - 1, w);
      AndEven(x, Mask(e - 1, w));
      assert 2 * (Pow2(e - 1) * (Shr(x, e) % Pow2(w))) == (2 * Pow2(e - 1)) * (Shr(x, e) % Pow2(w));
    }
  }

  lemma ReadField(x: nat, e: nat, w: nat)
    ensures Shr(And(x, Mask(e, w)), e) == x / Pow2(e) % Pow2(w)
  {
    var y := Shr(x, e) % Pow2(w);
    AndField(x, e, w);
    ShrIsDiv(x, e);
    ShrIsDiv(Pow2(e) * y, e);
    DivisionUnique(Pow2(e) * y, Pow2(e), y, 0);
  }

  lemma WriteField(x: nat, e: nat, w: nat)
    ensures And(Pow2(e) * x, Mask(e, w)) == Pow2(e) * (x % Pow2(w))
  {
    AndField(Pow2(e) * x, e, w);
    ShrIsDiv(Pow2(e) * x, e);
    DivisionUnique(Pow2(e) * x, Pow2(e), x, 0);
  }

  lemma OrDoubled(a: nat, b: nat)
    ensures Or(a, b) == 2 * Or(a / 2, b / 2) + if a % 2 == 1 || b % 2 == 1 then 1 else 0
  {
  }

  /** Or-ing in a multiple of 4 or of 16 leaves the bits below alone. */
  lemma Or4(a: nat, b: nat)
    ensures Or(a, 4 * b) == 4 * Or(a / 4, b) + a % 4
  {
    OrDoubled(a, 4 * b);
    OrDoubled(a / 2, 2 * b);
  }

  lemma Or16(a: nat, b: nat)
    ensures Or(a, 16 * b) == 16 * Or(a / 16, b) + a % 16
  {
    Or4(a, 4 * b);
    Or4(a / 4, b);
  }

  lemma {:induction false} OrCommutes(a: nat, b: nat)
    ensures Or(a, b) == Or(b, a)
    decreases a + b
  {
    if a == 0 && b == 0 {
    } else {
      OrCommutes(a / 2, b / 2);
    }
  }

  // ---- big-endian numbers ----

  function BigEndian(x: nat, n: nat): (bs: seq<Byte>)
    ensures |bs| == n
    decreases n
  {
    if n == 0 then [] else BigEndian(x / 256, n - 1) + [x % 256]
  }

  function FromBigEndian(bs: seq<Byte>): nat {
    if bs == [] then 0 else 256 * FromBigEndian(bs[..|bs| - 1]) + bs[|bs| - 1]
  }

  function Pow256(n: nat): nat { if n == 0 then 1 else 256 * Pow256(n - 1) }

  lemma {:induction false} FromBigEndianInverts(x: nat, n: nat)
    requires x < Pow256(n)
    ensures FromBigEndian(BigEndian(x, n)) == x
    decreases n
  {
    if n == 0 {
    } else {
      FromBigEndianInverts(x / 256, n - 1);
      assert BigEndian(x, n)[..n - 1] == BigEndian(x / 256, n - 1);
    }
  }

  lemma {:induction false} BigEndianInverts(bs: seq<Byte>)
    ensures FromBigEndian(bs) < Pow256(|bs|)
    ensures BigEndian(FromBigEndian(bs), |bs|) == bs
  {
    if bs == [] {
    } else {
      var init := bs[..|bs| - 1];
      BigEndianInverts(init);
      assert FromBigEndian(bs) / 256 == FromBigEndian(init);
      assert bs == init + [bs[|bs| - 1]];
    }
  }

  lemma DivTwice(x: nat, d: nat)
    requires d > 0
    ensures x / 256 / d == x / (256 * d)
  {
    var q, r := x / 256 / d, x / 256 % d;
    assert x / 256 == q * d + r;
    assert x == q * (256 * d) + (256 * r + x % 256);
    DivisionUnique(x, 256 * d, q, 256 * r + x % 256);
  }

  /** Byte `i` has the weight of the bytes behind it. */
  lemma {:induction false} BigEndianAt(x: nat, n: nat, i: nat)
    requires i < n
    ensures Pow256(n - 1 - i) > 0 && BigEndian(x, n)[i] == x / Pow256(n - 1 - i) % 256
    decreases n
  {
    if i == n - 1 {
      assert Pow256(0) == 1;
    } else {
      BigEndianAt(x / 256, n - 1, i);
      DivTwice(x, Pow256(n - 2 - i));
    }
  }
}
