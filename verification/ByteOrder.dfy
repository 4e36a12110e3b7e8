/** Byte swapping and host loads and stores of 32-bit words. */
module ByteOrder {
  import opened Words

  /** How the host lays out a word in memory. */
  datatype Host = LittleEndian | BigEndian

  function Bswap32(x: uint32): nat {
    Or(Or(Or(Shr(And(x, 0xff00_0000), 24), Shr(And(x, 0x00ff_0000), 8)),
          Shl(And(x, 0x0000_ff00), 8, 32)), Shl(And(x, 0x0000_00ff), 24, 32))
  }

  /** The network-order word held by four octets. */
  function BigEndian32(b0: uint8, b1: uint8, b2: uint8, b3: uint8): (w: uint32) {
    (b0 * 0x100 + b1) * 0x1_0000 + (b2 * 0x100 + b3)
  }

  /** What dereferencing a word pointer yields on the given host. */
  function Load32(host: Host, b0: uint8, b1: uint8, b2: uint8, b3: uint8): (w: uint32) {
    match host
    case LittleEndian => BigEndian32(b3, b2, b1, b0)
    case BigEndian => BigEndian32(b0, b1, b2, b3)
  }

  /** The four octets that storing a word leaves in memory, lowest address first. */
  function Store32(host: Host, w: uint32): (b: seq<uint8>)
    ensures |b| == 4
  {
    var hi, lo := w / 0x1_0000, w % 0x1_0000;
    match host
    case LittleEndian => [lo % 0x100, lo / 0x100, hi % 0x100, hi / 0x100]
    case BigEndian => [hi / 0x100, hi % 0x100, lo / 0x100, lo % 0x100]
  }

  function BeToCpu32(host: Host, x: uint32): nat {
    if host.LittleEndian? then Bswap32(x) else x
  }

  function CpuToBe32(host: Host, x: uint32): nat {
    if host.LittleEndian? then Bswap32(x) else x
  }

  lemma WordBit(b0: uint8, b1: uint8, b2: uint8, b3: uint8, k: nat)
    requires k < 32
    ensures Bit(BigEndian32(b0, b1, b2, b3), k)
         == Bit(if k >= 24 then b0 else if k >= 16 then b1 else if k >= 8 then b2 else b3, k % 8)
  {
    var hi, lo: nat := b0 * 0x100 + b1, b2 * 0x100 + b3;
    JoinedBit(hi, lo, 16, 0x1_0000, k);
    if k >= 16 {
      JoinedBit(b0, b1, 8, 0x100, k - 16);
    } else {
      JoinedBit(b2, b3, 8, 0x100, k);
    }
  }

  lemma JoinedBit(hi: nat, lo: nat, n: nat, d: nat, k: nat)
    requires d == (if n == 16 then 0x1_0000 else 0x100) && (n == 8 || n == 16) && lo < d
    ensures Bit(hi * d + lo, k) == if k >= n then Bit(hi, k - n) else Bit(lo, k)
  {
    Pow2Values();
    var w := hi * d + lo;
    QuotientUnique(w, d, hi, lo);
    if k >= n {
      ShrValue(w, n);
      BitShr(w, n, k - n);
    } else {
      BitMod(w, n, k);
    }
  }

  /** The mask 0xff << s selects octet s / 8. */
  lemma OctetMask(m: nat, s: nat, k: nat)
    requires m == 0xff * Pow2(s)
    ensures Bit(m, k) == (s <= k < s + 8)
  {
    BitScaled(0xff, s, k);
    if k >= s {
      assert Pow2(8) == 0x100;
      BitOnes(8, k - s);
    }
  }

  lemma Bswap32Bit(x: uint32, k: nat)
    requires k < 32
    ensures Bit(Bswap32(x), k)
         == Bit(x, if k < 8 then k + 24 else if k < 16 then k + 8 else if k < 24 then k - 8 else k - 24)
  {
    var m3, m2, m1, m0 := And(x, 0xff00_0000), And(x, 0x00ff_0000), And(x, 0x0000_ff00), And(x, 0x0000_00ff);
    BitOr(Or(Or(Shr(m3, 24), Shr(m2, 8)), Shl(m1, 8, 32)), Shl(m0, 24, 32), k);
    BitOr(Or(Shr(m3, 24), Shr(m2, 8)), Shl(m1, 8, 32), k);
    BitOr(Shr(m3, 24), Shr(m2, 8), k);
    MaskedBit(x, 0xff00_0000, 24, k + 24);
    BitShr(m3, 24, k);
    MaskedBit(x, 0x00ff_0000, 16, k + 8);
    BitShr(m2, 8, k);
    if k >= 8 { MaskedBit(x, 0x0000_ff00, 8, k - 8); }
    BitShl(m1, 8, 32, k);
    if k >= 24 { MaskedBit(x, 0x0000_00ff, 0, k - 24); }
    BitShl(m0, 24, 32, k);
  }

  lemma MaskedBit(x: nat, m: nat, s: nat, k: nat)
    requires (m, s) in {(0xff00_0000, 24), (0x00ff_0000, 16), (0x0000_ff00, 8), (0x0000_00ff, 0)}
    ensures Bit(And(x, m), k) == (s <= k < s + 8 && Bit(x, k))
  {
    Pow2Values();
    OctetMask(m, s, k);
    BitAnd(x, m, k);
  }

  lemma Bswap32Bound(x: uint32)
    ensures Bswap32(x) < Pow2(32)
  {
    Pow2Values();
    var m3, m2, m1, m0 := And(x, 0xff00_0000), And(x, 0x00ff_0000), And(x, 0x0000_ff00), And(x, 0x0000_00ff);
    AndBound(x, 0xff00_0000);
    AndBound(x, 0x00ff_0000);
    ShrBound(m3, 24);
    ShrBound(m2, 8);
    ShlBound(m1, 8, 32);
    ShlBound(m0, 24, 32);
    OrBound(Shr(m3, 24), Shr(m2, 8), 32);
    OrBound(Or(Shr(m3, 24), Shr(m2, 8)), Shl(m1, 8, 32), 32);
    OrBound(Or(Or(Shr(m3, 24), Shr(m2, 8)), Shl(m1, 8, 32)), Shl(m0, 24, 32), 32);
  }

  lemma SwappedBit(b0: uint8, b1: uint8, b2: uint8, b3: uint8, k: nat)
    requires k < 32
    ensures Bit(Bswap32(BigEndian32(b0, b1, b2, b3)), k) == Bit(BigEndian32(b3, b2, b1, b0), k)
  {
    var j := if k < 8 then k + 24 else if k < 16 then k + 8 else if k < 24 then k - 8 else k - 24;
    assert j % 8 == k % 8 && j / 8 == 3 - k / 8;
    Bswap32Bit(BigEndian32(b0, b1, b2, b3), k);
    WordBit(b0, b1, b2, b3, j);
    WordBit(b3, b2, b1, b0, k);
  }

  /** Swapping reverses the four octets. */
  lemma Bswap32Reverses(b0: uint8, b1: uint8, b2: uint8, b3: uint8)
    ensures Bswap32(BigEndian32(b0, b1, b2, b3)) == BigEndian32(b3, b2, b1, b0)
  {
    var x, y := Bswap32(BigEndian32(b0, b1, b2, b3)), BigEndian32(b3, b2, b1, b0);
    Bswap32Bound(BigEndian32(b0, b1, b2, b3));
    Pow2Values();
    forall k: nat | k < 32 ensures Bit(x, k) == Bit(y, k) { SwappedBit(b0, b1, b2, b3, k); }
    SameBits(x, y, 32);
  }

  /** Whatever the host, loading then converting gives the network-order word. */
  lemma LoadIsBigEndian(host: Host, b0: uint8, b1: uint8, b2: uint8, b3: uint8)
    ensures BeToCpu32(host, Load32(host, b0, b1, b2, b3)) == BigEndian32(b0, b1, b2, b3)
  {
    if host.LittleEndian? { Bswap32Reverses(b3, b2, b1, b0); }
  }

  lemma SplitOctets(w: uint32)
    ensures var b := Store32(BigEndian, w); w == BigEndian32(b[0], b[1], b[2], b[3])
  {
  }

  lemma OctetsOf(b0: uint8, b1: uint8, b2: uint8, b3: uint8)
    ensures Store32(BigEndian, BigEndian32(b0, b1, b2, b3)) == [b0, b1, b2, b3]
    ensures Store32(LittleEndian, BigEndian32(b0, b1, b2, b3)) == [b3, b2, b1, b0]
  {
    var hi, lo := b0 * 0x100 + b1, b2 * 0x100 + b3;
    QuotientUnique(hi * 0x1_0000 + lo, 0x1_0000, hi, lo);
    QuotientUnique(hi, 0x100, b0, b1);
    QuotientUnique(lo, 0x100, b2, b3);
  }

  /** Whatever the host, converting then storing lays the word out in network order. */
  lemma StoreIsBigEndian(host: Host, w: uint32)
    ensures 0 <= CpuToBe32(host, w) < 0x1_0000_0000
    ensures Store32(host, CpuToBe32(host, w)) == Store32(BigEndian, w)
  {
    if host.LittleEndian? {
      var b := Store32(BigEndian, w);
      SplitOctets(w);
      Bswap32Reverses(b[0], b[1], b[2], b[3]);
      OctetsOf(b[3], b[2], b[1], b[0]);
    }
  }
}
