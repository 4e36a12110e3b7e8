/** Unsigned machine words as bounded naturals, with the C operators the
    sources use on them (&, |, ~, <<, >>) and the law of each, bit by bit. */
module Words {
  type uint8 = x: int | 0 <= x < 0x100
  type uint16 = x: int | 0 <= x < 0x1_0000
  type uint32 = x: int | 0 <= x < 0x1_0000_0000
  type uint64 = x: int | 0 <= x < 0x1_0000_0000_0000_0000

  /** An 8-bit counter's next value. */
  function Next8(n: uint8): uint8 {
    (n + 1) % 0x100
  }

  /** What a 16-bit counter keeps of a number. */
  function Cut16(n: nat): (r: uint16)
    ensures r <= n
  {
    n % 0x1_0000
  }

  lemma NumberWraps(n: nat)
    ensures Next8(n % 0x100) == (n + 1) % 0x100
  {
  }

  function Pow2(n: nat): (r: nat)
    ensures r >= 1
  {
    if n == 0 then 1 else 2 * Pow2(n - 1)
  }

  /** Bit k of x, bit 0 being the least significant. */
  predicate Bit(x: nat, k: nat) {
    if k == 0 then x % 2 == 1 else Bit(x / 2, k - 1)
  }

  function And(x: nat, y: nat): nat
    decreases x
  {
    if x == 0 then 0 else (if x % 2 == 1 && y % 2 == 1 then 1 else 0) + 2 * And(x / 2, y / 2)
  }

  function Or(x: nat, y: nat): nat
    decreases x + y
  {
    if x == 0 && y == 0 then 0
    else (if x % 2 == 1 || y % 2 == 1 then 1 else 0) + 2 * Or(x / 2, y / 2)
  }

  /** The complement of a w-bit word. */
  function Not(x: nat, w: nat): nat
    requires x < Pow2(w)
  {
    Pow2(w) - 1 - x
  }

  /** The low w bits of x: what a conversion to a w-bit word keeps. */
  function Trunc(x: nat, w: nat): nat {
    if w == 0 then 0 else x % 2 + 2 * Trunc(x / 2, w - 1)
  }

  /** Left shift of a w-bit word: bits pushed past the top are lost. */
  function Shl(x: nat, s: nat, w: nat): nat
    decreases s
  {
    if s == 0 then Trunc(x, w) else Shl(2 * x, s - 1, w)
  }

  function Shr(x: nat, s: nat): nat {
    if s == 0 then x else Shr(x / 2, s - 1)
  }

  lemma Pow2Values()
    ensures Pow2(2) == 4 && Pow2(3) == 8 && Pow2(7) == 128 && Pow2(9) == 512 && Pow2(11) == 2048
    ensures Pow2(8) == 0x100 && Pow2(16) == 0x1_0000 && Pow2(24) == 0x100_0000 && Pow2(29) == 0x2000_0000
    ensures Pow2(32) == 0x1_0000_0000
    ensures Pow2(64) == 0x1_0000_0000_0000_0000
  {
    assert Pow2(4) == 16;
    assert Pow2(12) == 0x1000;
    assert Pow2(20) == 0x10_0000;
    assert Pow2(28) == 0x1000_0000;
    Pow2Add(32, 32);
  }

  lemma {:induction false} Pow2Add(a: nat, b: nat)
    ensures Pow2(a + b) == Pow2(a) * Pow2(b)
  {
    if a > 0 {
      Pow2Add(a - 1, b);
      assert Pow2(a + b) == 2 * (Pow2(a - 1) * Pow2(b));
    }
  }

  lemma {:induction false} Pow2Monotone(a: nat, b: nat)
    requires a <= b
    ensures Pow2(a) <= Pow2(b)
  {
    if a < b { Pow2Monotone(a, b - 1); }
  }

  lemma {:induction false} BitAnd(x: nat, y: nat, k: nat)
    ensures Bit(And(x, y), k) == (Bit(x, k) && Bit(y, k))
  {
    if x == 0 {
      BitZero(k);
    } else if k > 0 {
      BitAnd(x / 2, y / 2, k - 1);
    }
  }

  lemma {:induction false} BitZero(k: nat)
    ensures !Bit(0, k)
  {
    if k > 0 { BitZero(k - 1); }
  }

  lemma {:induction false} BitOr(x: nat, y: nat, k: nat)
    ensures Bit(Or(x, y), k) == (Bit(x, k) || Bit(y, k))
  {
    if x == 0 && y == 0 {
      BitZero(k);
    } else if k > 0 {
      BitOr(x / 2, y / 2, k - 1);
    }
  }

  lemma {:induction false} BitNot(x: nat, w: nat, k: nat)
    requires x < Pow2(w) && k < w
    ensures Bit(Not(x, w), k) == !Bit(x, k)
  {
    if k > 0 {
      assert Not(x, w) / 2 == Not(x / 2, w - 1);
      BitNot(x / 2, w - 1, k - 1);
    }
  }

  lemma {:induction false} BitShr(x: nat, s: nat, k: nat)
    ensures Bit(Shr(x, s), k) == Bit(x, k + s)
  {
    if s > 0 { BitShr(x / 2, s - 1, k); }
  }

  lemma {:induction false} ShrBound(x: nat, s: nat)
    ensures Shr(x, s) <= x
  {
    if s > 0 { ShrBound(x / 2, s - 1); }
  }

  lemma {:induction false} ShrValue(x: nat, s: nat)
    ensures Shr(x, s) == x / Pow2(s)
  {
    if s > 0 {
      HalveThenDivide(x, Pow2(s - 1));
      ShrValue(x / 2, s - 1);
    }
  }

  lemma HalveThenDivide(x: nat, d: nat)
    requires d >= 1
    ensures x / (2 * d) == (x / 2) / d
  {
    var q, r := (x / 2) / d, (x / 2) % d;
    assert x / 2 == d * q + r;
    var r2 := 2 * r + x % 2;
    assert x == (2 * d) * q + r2;
    assert 0 <= r2 < 2 * d;
    QuotientUnique(x, 2 * d, q, r2);
  }

  lemma QuotientUnique(x: int, d: int, q: int, r: int)
    requires d > 0 && x == d * q + r && 0 <= r < d
    ensures x / d == q && x % d == r
  {
    var q', r' := x / d, x % d;
    assert x == d * q' + r';
    assert d * (q - q') == r' - r;
    Scaled(d, q - q');
  }

  lemma Scaled(d: int, k: int)
    requires d > 0
    ensures k >= 1 ==> d * k >= d
    ensures k <= -1 ==> d * k <= -d
  {
  }

  lemma {:induction false} BitScaled(x: nat, s: nat, k: nat)
    ensures Bit(x * Pow2(s), k) == (k >= s && Bit(x, k - s))
  {
    if s > 0 {
      assert x * Pow2(s) == 2 * (x * Pow2(s - 1));
      if k > 0 { BitScaled(x, s - 1, k - 1); }
    }
  }

  lemma {:induction false} BitTrunc(x: nat, w: nat, k: nat)
    ensures Bit(Trunc(x, w), k) == (k < w && Bit(x, k))
  {
    if w == 0 {
      BitZero(k);
    } else if k > 0 {
      BitTrunc(x / 2, w - 1, k - 1);
    }
  }

  lemma {:induction false} TruncBound(x: nat, w: nat)
    ensures Trunc(x, w) < Pow2(w)
  {
    if w > 0 { TruncBound(x / 2, w - 1); }
  }

  lemma {:induction false} TruncValue(x: nat, w: nat)
    ensures Trunc(x, w) == x % Pow2(w)
  {
    if w > 0 {
      ModStep(x, Pow2(w - 1));
      TruncValue(x / 2, w - 1);
    }
  }

  lemma BitMod(x: nat, n: nat, k: nat)
    ensures Bit(x % Pow2(n), k) == (k < n && Bit(x, k))
  {
    TruncValue(x, n);
    BitTrunc(x, n, k);
  }

  lemma ModStep(x: nat, d: nat)
    requires d >= 1
    ensures x % (2 * d) == 2 * ((x / 2) % d) + x % 2
  {
    var q, r := (x / 2) / d, (x / 2) % d;
    assert x / 2 == d * q + r;
    assert x == (2 * d) * q + (2 * r + x % 2);
    QuotientUnique(x, 2 * d, q, 2 * r + x % 2);
  }

  lemma {:induction false} BitShl(x: nat, s: nat, w: nat, k: nat)
    ensures Bit(Shl(x, s, w), k) == (s <= k < w && Bit(x, k - s))
    decreases s
  {
    if s == 0 { BitTrunc(x, w, k); } else { BitShl(2 * x, s - 1, w, k); }
  }

  lemma {:induction false} ShlValue(x: nat, s: nat, w: nat)
    ensures Shl(x, s, w) == (x * Pow2(s)) % Pow2(w)
    decreases s
  {
    if s == 0 {
      TruncValue(x, w);
    } else {
      ShlValue(2 * x, s - 1, w);
      MoveFactor(x, Pow2(s - 1));
    }
  }

  lemma MoveFactor(x: nat, p: nat)
    ensures (2 * x) * p == x * (2 * p)
  {
  }

  lemma ShlExact(x: nat, s: nat, w: nat)
    requires x * Pow2(s) < Pow2(w)
    ensures Shl(x, s, w) == x * Pow2(s)
  {
    ShlValue(x, s, w);
    SmallMod(x * Pow2(s), Pow2(w));
  }

  lemma SmallMod(x: nat, m: nat)
    requires x < m
    ensures x % m == x
  {
  }

  lemma {:induction false} ShlBound(x: nat, s: nat, w: nat)
    ensures Shl(x, s, w) < Pow2(w)
    decreases s
  {
    if s == 0 { TruncValue(x, w); } else { ShlBound(2 * x, s - 1, w); }
  }

  lemma {:induction false} BitOnes(n: nat, k: nat)
    ensures Bit(Pow2(n) - 1, k) == (k < n)
  {
    if n == 0 {
      BitZero(k);
    } else if k > 0 {
      assert (Pow2(n) - 1) / 2 == Pow2(n - 1) - 1;
      BitOnes(n - 1, k - 1);
    }
  }

  lemma {:induction false} BitHigh(x: nat, n: nat, k: nat)
    requires x < Pow2(n) && n <= k
    ensures !Bit(x, k)
  {
    if n == 0 {
      BitZero(k);
    } else {
      BitHigh(x / 2, n - 1, k - 1);
    }
  }

  /** Two n-bit words with the same bits are the same word. */
  lemma {:induction false} SameBits(x: nat, y: nat, n: nat)
    requires x < Pow2(n) && y < Pow2(n)
    requires forall k: nat | k < n :: Bit(x, k) == Bit(y, k)
    ensures x == y
  {
    if n > 0 {
      assert Bit(x, 0) == Bit(y, 0);
      forall k: nat | k < n - 1
        ensures Bit(x / 2, k) == Bit(y / 2, k)
      {
        assert Bit(x, k + 1) == Bit(y, k + 1);
      }
      SameBits(x / 2, y / 2, n - 1);
    }
  }

  lemma {:induction false} OrBound(x: nat, y: nat, n: nat)
    requires x < Pow2(n) && y < Pow2(n)
    ensures Or(x, y) < Pow2(n)
  {
    if n > 0 && !(x == 0 && y == 0) { OrBound(x / 2, y / 2, n - 1); }
  }

  lemma {:induction false} AndBound(x: nat, y: nat)
    ensures And(x, y) <= x
  {
    if x > 0 { AndBound(x / 2, y / 2); }
  }

  lemma AndOne(x: nat)
    ensures And(x, 1) == x % 2
  {
    if x != 0 { AndZero(x / 2); }
  }

  lemma {:induction false} AndZero(x: nat)
    ensures And(x, 0) == 0
  {
    if x != 0 { AndZero(x / 2); }
  }

  lemma {:induction false} AndOnes(x: nat, w: nat)
    requires x < Pow2(w)
    ensures And(x, Pow2(w) - 1) == x
  {
    if x > 0 {
      assert (Pow2(w) - 1) / 2 == Pow2(w - 1) - 1;
      AndOnes(x / 2, w - 1);
    }
  }

  lemma {:induction false} AndHigh(x: nat, n: nat, w: nat)
    requires x < Pow2(n + w)
    ensures And(x, (Pow2(w) - 1) * Pow2(n)) == Shr(x, n) * Pow2(n)
  {
    if n == 0 {
      AndOnes(x, w);
    } else {
      AndHigh(x / 2, n - 1, w);
      AndDoubled(x, Pow2(w) - 1, Pow2(n - 1), Shr(x / 2, n - 1));
    }
  }

  lemma AndDoubled(x: nat, m: nat, p: nat, a: nat)
    requires And(x / 2, m * p) == a * p
    ensures And(x, m * (2 * p)) == a * (2 * p)
  {
    DoubleOut(m, p);
    DoubleOut(a, p);
    AndEven(x, m * p);
  }

  lemma DoubleOut(a: nat, p: nat)
    ensures a * (2 * p) == 2 * (a * p)
  {
  }

  lemma AndEven(x: nat, m: nat)
    ensures And(x, 2 * m) == 2 * And(x / 2, m)
  {
    assert 2 * m / 2 == m && 2 * m % 2 == 0;
  }

  lemma {:induction false} OrDisjoint(h: nat, l: nat, n: nat)
    requires l < Pow2(n)
    ensures Or(h * Pow2(n), l) == h * Pow2(n) + l
  {
    if n == 0 {
      OrZero(h);
    } else {
      var m := h * Pow2(n - 1);
      DoubleOut(h, Pow2(n - 1));
      OrDisjoint(h, l / 2, n - 1);
      OrEven(m, l);
    }
  }

  lemma OrEven(m: nat, l: nat)
    ensures Or(2 * m, l) == 2 * Or(m, l / 2) + l % 2
  {
    assert 2 * m / 2 == m && 2 * m % 2 == 0;
  }

  lemma {:induction false} OrZero(x: nat)
    ensures Or(x, 0) == x
  {
    if x > 0 { OrZero(x / 2); }
  }

  /** Testing one flag. */
  lemma {:induction false} AndFlag(x: nat, k: nat)
    ensures And(x, Pow2(k)) == if Bit(x, k) then Pow2(k) else 0
  {
    if k == 0 {
      AndOne(x);
    } else {
      AndEven(x, Pow2(k - 1));
      AndFlag(x / 2, k - 1);
    }
  }

  /** Keeping the low digits. */
  lemma {:induction false} AndLow(x: nat, w: nat)
    ensures And(x, Pow2(w) - 1) == x % Pow2(w)
  {
    if w == 0 {
      AndZero(x);
    } else {
      AndLow(x / 2, w - 1);
      AndLowStep(x, Pow2(w - 1), Pow2(w), And(x / 2, Pow2(w - 1) - 1));
    }
  }

  lemma AndLowStep(x: nat, p: nat, q: nat, a: nat)
    requires p >= 1 && q == 2 * p && a == And(x / 2, p - 1) == x / 2 % p
    ensures And(x, q - 1) == x % q
  {
    AndOddMask(x, p - 1, q - 1);
    ModTwice(x, p, q);
  }

  lemma AndOddMask(x: nat, m: nat, n: nat)
    requires n == 2 * m + 1
    ensures And(x, n) == 2 * And(x / 2, m) + x % 2
  {
    AndOdd(x, m);
  }

  lemma ModTwice(x: nat, p: nat, q: nat)
    requires p >= 1 && q == 2 * p
    ensures x % q == 2 * (x / 2 % p) + x % 2
  {
    ModStep(x, p);
  }

  lemma AndOdd(x: nat, m: nat)
    ensures And(x, 2 * m + 1) == 2 * And(x / 2, m) + x % 2
  {
    assert (2 * m + 1) / 2 == m && (2 * m + 1) % 2 == 1;
  }

  /** Or on the digits above the low n leaves the low n alone. */
  lemma {:induction false} OrAtop(h: nat, l: nat, g: nat, n: nat)
    requires l < Pow2(n)
    ensures Or(h * Pow2(n) + l, g * Pow2(n)) == Or(h, g) * Pow2(n) + l
  {
    if n > 0 {
      OrAtop(h, l / 2, g, n - 1);
      OrAtopStep(h, l, g, Pow2(n - 1));
    } else {
      OrOnes(h, g, l);
    }
  }

  lemma OrOnes(h: nat, g: nat, l: nat)
    requires l < 1
    ensures Or(h * 1 + l, g * 1) == Or(h, g) * 1 + l
  {
  }

  lemma OrAtopStep(h: nat, l: nat, g: nat, p: nat)
    requires Or(h * p + l / 2, g * p) == Or(h, g) * p + l / 2
    ensures Or(h * (2 * p) + l, g * (2 * p)) == Or(h, g) * (2 * p) + l
  {
    DoubleOut(h, p);
    DoubleOut(g, p);
    DoubleOut(Or(h, g), p);
    OrHalves(h * p, l, g * p);
  }

  lemma OrHalves(a: nat, l: nat, b: nat)
    ensures Or(2 * a + l, 2 * b) == 2 * Or(a + l / 2, b) + l % 2
  {
    assert (2 * a + l) / 2 == a + l / 2 && (2 * a + l) % 2 == l % 2;
  }
}
