/** What a bit field of a protocol data unit is: a run of consecutive bits,
    counted from the most significant bit of the first octet. */
module FieldSpec {
  import opened Words

  /** Bit p of the octet string, in transmission order. */
  predicate BitAt(s: seq<uint8>, p: nat)
    requires p < 8 * |s|
  {
    Bit(s[p / 8], 7 - p % 8)
  }

  /** The big-endian value of bits [lo, lo + n). */
  function FieldValue(s: seq<uint8>, lo: nat, n: nat): nat
    requires lo + n <= 8 * |s|
    decreases n, |s|
  {
    if n == 0 then 0
    else 2 * FieldValue(s, lo, n - 1) + (if BitAt(s, lo + n - 1) then 1 else 0)
  }

  function PutBit(s: seq<uint8>, p: nat, b: bool): (r: seq<uint8>)
    requires p < 8 * |s|
    ensures |r| == |s|
    ensures forall q: nat | q < 8 * |s| :: BitAt(r, q) == if q == p then b else BitAt(s, q)
  {
    var m := 7 - p % 8;
    var x := WithBit(s[p / 8], m, 8, b);
    assert x < 0x100 by { Pow2Values(); }
    s[p / 8 := x]
  }

  function WithBit(x: nat, k: nat, w: nat, b: bool): (r: nat)
    requires k < w && x < Pow2(w)
    ensures r < Pow2(w)
    ensures forall j: nat :: Bit(r, j) == if j == k then b else Bit(x, j)
  {
    if k == 0 then
      x / 2 * 2 + (if b then 1 else 0)
    else
      var t := WithBit(x / 2, k - 1, w - 1, b);
      var r := 2 * t + x % 2;
      assert forall j: nat | j > 0 :: Bit(x, j) == Bit(x / 2, j - 1);
      assert forall j: nat | j > 0 :: Bit(r, j) == Bit(t, j - 1);
      r
  }

  /** The octet string with bits [lo, lo + n) replaced by the low n bits of v. */
  function Put(s: seq<uint8>, lo: nat, n: nat, v: nat): (r: seq<uint8>)
    requires lo + n <= 8 * |s|
    ensures |r| == |s|
    decreases n, |s|
  {
    if n == 0 then s else
    PutBit(Put(s, lo, n - 1, v / 2), lo + n - 1, v % 2 == 1)
  }

  lemma {:induction false} PutBitAt(s: seq<uint8>, lo: nat, n: nat, v: nat, p: nat)
    requires lo + n <= 8 * |s| && p < 8 * |s|
    ensures BitAt(Put(s, lo, n, v), p) == if lo <= p < lo + n then Bit(v, lo + n - 1 - p) else BitAt(s, p)
  {
    if n > 0 { PutBitAt(s, lo, n - 1, v / 2, p); }
  }

  lemma {:induction false} FieldBits(s: seq<uint8>, lo: nat, n: nat, k: nat)
    requires lo + n <= 8 * |s|
    ensures Bit(FieldValue(s, lo, n), k) == (k < n && BitAt(s, lo + n - 1 - k))
  {
    if n == 0 {
      BitZero(k);
    } else if k > 0 {
      FieldBits(s, lo, n - 1, k - 1);
    }
  }

  lemma {:induction false} FieldBound(s: seq<uint8>, lo: nat, n: nat)
    requires lo + n <= 8 * |s|
    ensures FieldValue(s, lo, n) < Pow2(n)
  {
    if n > 0 { FieldBound(s, lo, n - 1); }
  }

  /** A word below 2^n with the bits of the field is the value of the field. */
  lemma FieldFromBits(s: seq<uint8>, lo: nat, n: nat, x: nat)
    requires lo + n <= 8 * |s| && x < Pow2(n)
    requires forall k: nat | k < n :: Bit(x, k) == BitAt(s, lo + n - 1 - k)
    ensures x == FieldValue(s, lo, n)
  {
    FieldBound(s, lo, n);
    forall k: nat | k < n
      ensures Bit(x, k) == Bit(FieldValue(s, lo, n), k)
    {
      FieldBits(s, lo, n, k);
    }
    SameBits(x, FieldValue(s, lo, n), n);
  }

  /** Octet strings with the same bits are equal. */
  lemma SameBitString(s: seq<uint8>, t: seq<uint8>)
    requires |s| == |t|
    requires forall p: nat | p < 8 * |s| :: BitAt(s, p) == BitAt(t, p)
    ensures s == t
  {
    Pow2Values();
    forall i | 0 <= i < |s|
      ensures s[i] == t[i]
    {
      forall k: nat | k < 8
        ensures Bit(s[i], k) == Bit(t[i], k)
      {
        assert BitAt(s, 8 * i + 7 - k) == BitAt(t, 8 * i + 7 - k);
      }
      SameBits(s[i], t[i], 8);
    }
  }

  /** Reading back what was written gives the value modulo the field width. */
  lemma GetPut(s: seq<uint8>, lo: nat, n: nat, v: nat)
    requires lo + n <= 8 * |s|
    ensures FieldValue(Put(s, lo, n, v), lo, n) == v % Pow2(n)
  {
    forall k: nat | k < n
      ensures Bit(v % Pow2(n), k) == BitAt(Put(s, lo, n, v), lo + n - 1 - k)
    {
      BitMod(v, n, k);
      PutBitAt(s, lo, n, v, lo + n - 1 - k);
    }
    FieldFromBits(Put(s, lo, n, v), lo, n, v % Pow2(n));
  }

  /** Fields that agree bit for bit have the same value. */
  lemma {:induction false} SameField(s: seq<uint8>, t: seq<uint8>, lo: nat, n: nat)
    requires lo + n <= 8 * |s| && lo + n <= 8 * |t|
    requires forall p: nat | lo <= p < lo + n :: BitAt(s, p) == BitAt(t, p)
    ensures FieldValue(s, lo, n) == FieldValue(t, lo, n)
  {
    if n > 0 { SameField(s, t, lo, n - 1); }
  }

  /** Writing a field leaves every field disjoint from it alone. */
  lemma GetPutOther(s: seq<uint8>, lo: nat, n: nat, v: nat, lo': nat, n': nat)
    requires lo + n <= 8 * |s| && lo' + n' <= 8 * |s|
    requires lo + n <= lo' || lo' + n' <= lo
    ensures FieldValue(Put(s, lo, n, v), lo', n') == FieldValue(s, lo', n')
  {
    forall p: nat | lo' <= p < lo' + n'
      ensures BitAt(Put(s, lo, n, v), p) == BitAt(s, p)
    {
      PutBitAt(s, lo, n, v, p);
    }
    SameField(Put(s, lo, n, v), s, lo', n');
  }

  /** Only octets [from, to) differ. */
  ghost predicate OnlyWithin(s: seq<uint8>, t: seq<uint8>, from: nat, to: nat) {
    |s| == |t| && forall i | 0 <= i < |s| && !(from <= i < to) :: t[i] == s[i]
  }

  lemma OnlyWithinBoth(s: seq<uint8>, t: seq<uint8>, u: seq<uint8>, from: nat, mid: nat, to: nat)
    requires OnlyWithin(s, t, from, mid) && OnlyWithin(t, u, from, to) && mid <= to
    ensures OnlyWithin(s, u, from, to)
  {
  }

  lemma {:induction false} PutKeepsOctet(s: seq<uint8>, lo: nat, n: nat, v: nat, i: nat)
    requires lo + n <= 8 * |s| && i < |s| && (8 * i + 8 <= lo || lo + n <= 8 * i)
    ensures Put(s, lo, n, v)[i] == s[i]
  {
    if n > 0 { PutKeepsOctet(s, lo, n - 1, v / 2, i); }
  }

  lemma PutOnlyWithin(s: seq<uint8>, base: nat, length: nat, lo: nat, n: nat, v: nat)
    requires base + length <= |s| && 8 * base <= lo && lo + n <= 8 * (base + length)
    ensures OnlyWithin(s, Put(s, lo, n, v), base, base + length)
  {
    forall i | 0 <= i < |s| && !(base <= i < base + length) ensures Put(s, lo, n, v)[i] == s[i] {
      PutKeepsOctet(s, lo, n, v, i);
    }
  }
}
