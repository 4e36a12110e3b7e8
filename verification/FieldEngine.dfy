/** The field access engine: reads and writes a bit field of up to 64 bits,
    one 32-bit quadlet at a time, in place. */
module FieldEngine {
  import opened Words
  import opened ByteOrder
  import opened FieldSpec

  /** Where a field lies: first quadlet, bit offset in it, width in bits. */
  datatype Descriptor = Descriptor(quadlet: uint8, offset: uint8, bits: uint8) {
    function Start(base: nat): nat { 8 * base + 32 * quadlet + offset }

    function End(base: nat): nat { Start(base) + bits }

    /** The engine can process the field in a buffer of the given length: the
        quadlets that hold it can be numbered in 8 bits and lie in the buffer. */
    predicate Fits(base: nat, length: nat) {
      && offset < 32 && bits <= 64
      && quadlet + (offset + bits + 31) / 32 <= 256
      && base + 4 * (quadlet + (offset + bits + 31) / 32) <= length
    }
  }

  type Table = seq<Descriptor>

  /** The value the table assigns to a field number; 0 for a number outside it. */
  function Get(table: Table, s: seq<uint8>, base: nat, field: nat): nat
    requires field < |table| ==> table[field].Fits(base, |s|)
  {
    if field < |table| then FieldValue(s, table[field].Start(base), table[field].bits) else 0
  }

  /** The octets after a field has been set; unchanged for a number outside the table. */
  function Set(table: Table, s: seq<uint8>, base: nat, field: nat, value: nat): (r: seq<uint8>)
    requires field < |table| ==> table[field].Fits(base, |s|)
    ensures |r| == |s|
  {
    if field < |table| then Put(s, table[field].Start(base), table[field].bits, value) else s
  }

  function MinU8(a: uint8, b: uint8): uint8 {
    if a < b then a else b
  }

  /** The slice of the field held by the quadlet at hand. */
  function QuadletBits(d: Descriptor, processed: nat): (n: uint8)
    requires d.offset < 32 && processed < d.bits
    ensures 0 < n <= 32 && processed + n <= d.bits
  {
    if processed == 0 then MinU8(32 - d.offset, d.bits - processed)
    else MinU8(32, d.bits - processed)
  }

  function QuadletShift(d: Descriptor, processed: nat): (n: uint8)
    requires d.offset < 32 && processed < d.bits
    ensures n + QuadletBits(d, processed) <= 32
  {
    if processed == 0 then 32 - QuadletBits(d, processed) - d.offset
    else 32 - QuadletBits(d, processed)
  }

  /** ((1 << bits) - 1) << shift, computed in 64 bits and cut to 32. */
  function Mask(bits: nat, shift: nat): nat
    requires bits < 64
  {
    ShlOne(bits, 64);
    Trunc(Shl(Shl(1, bits, 64) - 1, shift, 64), 32)
  }

  lemma ShlOne(s: nat, w: nat)
    requires s < w
    ensures Shl(1, s, w) == Pow2(s)
  {
    Pow2Monotone(s, w - 1);
    ShlExact(1, s, w);
  }

  lemma BitOfMask(bits: nat, shift: nat, k: nat)
    requires bits + shift <= 32
    ensures Bit(Mask(bits, shift), k) == (shift <= k < shift + bits)
  {
    ShlOne(bits, 64);
    BitTrunc(Shl(Pow2(bits) - 1, shift, 64), 32, k);
    BitShl(Pow2(bits) - 1, shift, 64, k);
    if k >= shift { BitOnes(bits, k - shift); }
  }

  lemma MaskBound(bits: nat, shift: nat)
    requires bits < 64
    ensures Mask(bits, shift) < Pow2(32)
  {
    ShlOne(bits, 64);
    TruncBound(Shl(Pow2(bits) - 1, shift, 64), 32);
  }

  /** The quadlet at octet i, in host order: its bits are those of the buffer. */
  method ReadQuadlet(host: Host, pdu: array<uint8>, i: nat) returns (q: uint32)
    requires i + 4 <= pdu.Length
    ensures forall k: nat | k < 32 :: Bit(q, k) == BitAt(pdu[..], 8 * i + 31 - k)
  {
    LoadIsBigEndian(host, pdu[i], pdu[i + 1], pdu[i + 2], pdu[i + 3]);
    q := BeToCpu32(host, Load32(host, pdu[i], pdu[i + 1], pdu[i + 2], pdu[i + 3]));
    forall k: nat | k < 32
      ensures Bit(q, k) == BitAt(pdu[..], 8 * i + 31 - k)
    {
      QuadletBitAt(pdu[..], i, k);
    }
  }

  /** Stores a host-order word at octet i in network order. */
  method WriteQuadlet(host: Host, pdu: array<uint8>, i: nat, q: uint32)
    requires i + 4 <= pdu.Length
    modifies pdu
    ensures forall p: nat | p < 8 * pdu.Length ::
      BitAt(pdu[..], p) == if 8 * i <= p < 8 * i + 32 then Bit(q, 8 * i + 31 - p) else BitAt(old(pdu[..]), p)
  {
    StoreIsBigEndian(host, q);
    var b := Store32(host, CpuToBe32(host, q));
    pdu[i], pdu[i + 1], pdu[i + 2], pdu[i + 3] := b[0], b[1], b[2], b[3];
    SplitOctets(q);
    StoredBits(old(pdu[..]), pdu[..], i, q);
  }

  lemma StoredBits(s: seq<uint8>, t: seq<uint8>, i: nat, q: uint32)
    requires i + 4 <= |s| == |t|
    requires q == BigEndian32(t[i], t[i + 1], t[i + 2], t[i + 3])
    requires forall j | 0 <= j < |s| && !(i <= j < i + 4) :: t[j] == s[j]
    ensures forall p: nat | p < 8 * |s| ::
      BitAt(t, p) == if 8 * i <= p < 8 * i + 32 then Bit(q, 8 * i + 31 - p) else BitAt(s, p)
  {
    forall p: nat | p < 8 * |s|
      ensures BitAt(t, p) == if 8 * i <= p < 8 * i + 32 then Bit(q, 8 * i + 31 - p) else BitAt(s, p)
    {
      if 8 * i <= p < 8 * i + 32 { QuadletBitAt(t, i, 8 * i + 31 - p); }
    }
  }

  lemma QuadletBitAt(s: seq<uint8>, i: nat, k: nat)
    requires i + 4 <= |s| && k < 32
    ensures Bit(BigEndian32(s[i], s[i + 1], s[i + 2], s[i + 3]), k) == BitAt(s, 8 * i + 31 - k)
  {
    WordBit(s[i], s[i + 1], s[i + 2], s[i + 3], k);
    var p := 8 * i + 31 - k;
    assert p / 8 == i + 3 - k / 8 && 7 - p % 8 == k % 8;
  }

  /** (quadlet & mask) >> shift: the digits under the mask, moved to the bottom. */
  method ExtractDigits(q: uint32, bits: uint8, shift: uint8) returns (partial: uint32)
    requires bits + shift <= 32
    ensures forall k: nat | k < 64 :: Bit(partial, k) == (k < bits && Bit(q, k + shift))
  {
    var quadletMask := Mask(bits, shift);
    AndBound(q, quadletMask);
    ShrBound(And(q, quadletMask), shift);
    partial := Shr(And(q, quadletMask), shift);
    forall k: nat | k < 64
      ensures Bit(partial, k) == (k < bits && Bit(q, k + shift))
    {
      BitShr(And(q, quadletMask), shift, k);
      BitAnd(q, quadletMask, k + shift);
      BitOfMask(bits, shift, k + shift);
    }
  }

  /** result | (partial << up), in 64 bits. */
  method CombineDigits(result: uint64, partial: uint32, up: uint8) returns (r: uint64)
    ensures forall k: nat | k < 64 :: Bit(r, k) == (Bit(result, k) || (up <= k && Bit(partial, k - up)))
  {
    ShlBound(partial, up, 64);
    Pow2Values();
    OrBound(result, Shl(partial, up, 64), 64);
    r := Or(result, Shl(partial, up, 64));
    forall k: nat | k < 64
      ensures Bit(r, k) == (Bit(result, k) || (up <= k && Bit(partial, k - up)))
    {
      BitOr(result, Shl(partial, up, 64), k);
      BitShl(partial, up, 64, k);
    }
  }

  /** (uint32_t)(value >> down). */
  method TakeDigits(value: uint64, down: uint8) returns (partial: uint32)
    ensures forall k: nat | k < 32 :: Bit(partial, k) == Bit(value, k + down)
  {
    TruncBound(Shr(value, down), 32);
    Pow2Values();
    partial := Trunc(Shr(value, down), 32);
    forall k: nat | k < 32
      ensures Bit(partial, k) == Bit(value, k + down)
    {
      BitTrunc(Shr(value, down), 32, k);
      BitShr(value, down, k);
    }
  }

  /** (quadlet & ~mask) | ((partial << shift) & mask). */
  method ReplaceDigits(q: uint32, partial: uint32, bits: uint8, shift: uint8) returns (r: uint32)
    requires bits + shift <= 32
    ensures forall k: nat | k < 32 ::
      Bit(r, k) == if shift <= k < shift + bits then Bit(partial, k - shift) else Bit(q, k)
  {
    var quadletMask := Mask(bits, shift);
    MaskBound(bits, shift);
    var kept := And(q, Not(quadletMask, 32));
    var put := And(Shl(partial, shift, 32), quadletMask);
    MergeBound(q, partial, quadletMask, shift);
    r := Or(kept, put);
    forall k: nat | k < 32
      ensures Bit(r, k) == if shift <= k < shift + bits then Bit(partial, k - shift) else Bit(q, k)
    {
      BitOr(kept, put, k);
      BitAnd(q, Not(quadletMask, 32), k);
      BitNot(quadletMask, 32, k);
      BitAnd(Shl(partial, shift, 32), quadletMask, k);
      BitShl(partial, shift, 32, k);
      BitOfMask(bits, shift, k);
    }
  }

  lemma MergeBound(q: uint32, x: nat, m: nat, shift: nat)
    requires m < Pow2(32)
    ensures Or(And(q, Not(m, 32)), And(Shl(x, shift, 32), m)) < 0x1_0000_0000
  {
    Pow2Values();
    ShlBound(x, shift, 32);
    AndBound(q, Not(m, 32));
    AndBound(Shl(x, shift, 32), m);
    OrBound(And(q, Not(m, 32)), And(Shl(x, shift, 32), m), 32);
  }

  /** The `bits` digits of the field that the quadlet at octet i holds above bit `shift`. */
  method ReadSlice(host: Host, pdu: array<uint8>, i: nat, bits: uint8, shift: uint8) returns (partial: uint32)
    requires i + 4 <= pdu.Length && bits + shift <= 32
    ensures forall k: nat | k < 64 ::
      Bit(partial, k) == (k < bits && BitAt(pdu[..], 8 * i + 31 - shift - k))
  {
    var quadletHostOrder := ReadQuadlet(host, pdu, i);
    partial := ExtractDigits(quadletHostOrder, bits, shift);
  }

  /** Replaces those digits, in place. */
  method WriteSlice(host: Host, pdu: array<uint8>, i: nat, bits: uint8, shift: uint8, partial: uint32)
    requires i + 4 <= pdu.Length && bits + shift <= 32
    modifies pdu
    ensures forall p: nat | p < 8 * pdu.Length ::
      BitAt(pdu[..], p) == (if 8 * i + 32 - shift - bits <= p < 8 * i + 32 - shift
                            then Bit(partial, 8 * i + 31 - shift - p)
                            else BitAt(old(pdu[..]), p))
  {
    var quadletHostOrder := ReadQuadlet(host, pdu, i);
    quadletHostOrder := ReplaceDigits(quadletHostOrder, partial, bits, shift);
    WriteQuadlet(host, pdu, i, quadletHostOrder);
  }

  /** The loop counters agree: past the first quadlet, the next bit is at a quadlet start. */
  predicate AtQuadlet(d: Descriptor, quadletOffset: uint8, processed: uint8) {
    && quadletOffset <= 4
    && (processed == 0 ==> quadletOffset == 0)
    && (0 < processed < d.bits ==> d.offset + processed == 32 * quadletOffset)
  }

  lemma QuadletInside(d: Descriptor, base: nat, length: nat, quadletOffset: uint8, done: uint8)
    requires d.Fits(base, length) && done < d.bits && AtQuadlet(d, quadletOffset, done)
    ensures d.quadlet + quadletOffset < 256
    ensures base + 4 * (d.quadlet + quadletOffset) + 4 <= length
    ensures 8 * (base + 4 * (d.quadlet + quadletOffset)) + 32 - QuadletShift(d, done) - QuadletBits(d, done)
         == d.Start(base) + done
    ensures AtQuadlet(d, quadletOffset + 1, done + QuadletBits(d, done))
    ensures d.End(base) <= 8 * length
  {
  }

  /** All but the last `rest` bits of the field ending at `end` are in place. */
  ghost predicate HasRead(s: seq<uint8>, end: nat, bits: nat, rest: nat, x: nat)
    requires bits <= end <= 8 * |s|
  {
    forall k: nat | k < 64 :: (Bit(x, k) == (rest <= k < bits && BitAt(s, end - 1 - k)))
  }

  /** One round gathers the next slice of the field, just below the bits already read. */
  lemma ReadStep(s: seq<uint8>, end: nat, bits: nat, rest: nat, n: nat, x: nat, x': nat, partial: nat)
    requires bits <= end <= 8 * |s| && rest + n <= bits <= 64 && HasRead(s, end, bits, rest + n, x)
    requires forall k: nat | k < 64 :: Bit(partial, k) == (k < n && BitAt(s, end - rest - 1 - k))
    requires forall k: nat | k < 64 :: Bit(x', k) == (Bit(x, k) || (rest <= k && Bit(partial, k - rest)))
    ensures HasRead(s, end, bits, rest, x')
  {
  }

  lemma NothingRead(s: seq<uint8>, end: nat, bits: nat)
    requires bits <= end <= 8 * |s|
    ensures HasRead(s, end, bits, bits, 0)
  {
    forall k: nat | k < 64 ensures !Bit(0, k) { BitZero(k); }
  }

  /** Reads the next slice and joins it to the bits already read: `end` and `total` are those of the field. */
  method GatherSlice(host: Host, pdu: array<uint8>, i: nat, bits: uint8, shift: uint8, up: uint8, before: uint64,
                     ghost end: nat, ghost total: nat)
    returns (result: uint64)
    requires i + 4 <= pdu.Length && bits + shift <= 32 && up + bits <= total <= 64 && total <= end <= 8 * pdu.Length
    requires 8 * i + 32 - shift == end - up && HasRead(pdu[..], end, total, up + bits, before)
    ensures HasRead(pdu[..], end, total, up, result)
  {
    var partialValue := ReadSlice(host, pdu, i, bits, shift);
    result := CombineDigits(before, partialValue, up);
    ReadStep(pdu[..], end, total, up, bits, before, result, partialValue);
  }

  /** Avtp_GetField. */
  method GetField(host: Host, table: Table, pdu: array<uint8>, base: nat, field: uint8) returns (result: uint64)
    requires field < |table| ==> table[field].Fits(base, pdu.Length)
    ensures result == Get(table, pdu[..], base, field)
  {
    result := 0;
    if field < |table| {
      var d := table[field];
      var quadletOffset: uint8, processedBits: uint8 := 0, 0;
      NothingRead(pdu[..], d.End(base), d.bits);
      while processedBits < d.bits
        invariant processedBits <= d.bits
        invariant AtQuadlet(d, quadletOffset, processedBits)
        invariant HasRead(pdu[..], d.End(base), d.bits, d.bits - processedBits, result)
        decreases d.bits - processedBits
      {
        QuadletInside(d, base, pdu.Length, quadletOffset, processedBits);
        var quadletId := d.quadlet + quadletOffset;
        var quadletBits := QuadletBits(d, processedBits);
        var quadletShift := QuadletShift(d, processedBits);
        result := GatherSlice(host, pdu, base + quadletId * 4, quadletBits, quadletShift,
                              d.bits - processedBits - quadletBits, result, d.End(base), d.bits);
        quadletOffset := quadletOffset + 1;
        processedBits := processedBits + quadletBits;
      }
      ReadComplete(pdu[..], d.Start(base), d.bits, result);
    }
  }

  lemma ReadComplete(s: seq<uint8>, lo: nat, n: nat, x: uint64)
    requires n <= 64 && lo + n <= 8 * |s| && HasRead(s, lo + n, n, 0, x)
    ensures x == FieldValue(s, lo, n)
  {
    var v := FieldValue(s, lo, n);
    Pow2Values();
    FieldBound(s, lo, n);
    Pow2Monotone(n, 64);
    forall k: nat | k < 64 ensures Bit(x, k) == Bit(v, k) { FieldBits(s, lo, n, k); }
    SameBits(x, v, 64);
  }

  /** The first `done` bits of the field at lo hold those of the value; nothing else has changed. */
  ghost predicate HasWritten(s: seq<uint8>, t: seq<uint8>, lo: nat, bits: nat, done: nat, value: nat)
    requires done <= bits
  {
    && |t| == |s|
    && forall p: nat | p < 8 * |s| ::
         (BitAt(t, p) == if lo <= p < lo + done then Bit(value, lo + bits - 1 - p) else BitAt(s, p))
  }

  /** One round writes the next slice of the field and leaves all other bits alone. */
  lemma WriteStep(s: seq<uint8>, t: seq<uint8>, u: seq<uint8>, lo: nat, bits: nat, done: nat, n: nat, value: nat,
                  partial: nat)
    requires done + n <= bits && n <= 32 && |t| == |u| && HasWritten(s, t, lo, bits, done, value)
    requires forall k: nat | k < 32 :: Bit(partial, k) == Bit(value, k + (bits - done - n))
    requires forall p: nat | p < 8 * |t| ::
      BitAt(u, p) == (if lo + done <= p < lo + done + n then Bit(partial, lo + done + n - 1 - p) else BitAt(t, p))
    ensures HasWritten(s, u, lo, bits, done + n, value)
  {
  }

  lemma WriteComplete(s: seq<uint8>, t: seq<uint8>, lo: nat, bits: nat, value: nat)
    requires lo + bits <= 8 * |s| && HasWritten(s, t, lo, bits, bits, value)
    ensures t == Put(s, lo, bits, value)
  {
    forall p: nat | p < 8 * |s|
      ensures BitAt(t, p) == BitAt(Put(s, lo, bits, value), p)
    {
      PutBitAt(s, lo, bits, value, p);
    }
    SameBitString(t, Put(s, lo, bits, value));
  }

  /** Avtp_SetField. */
  method SetField(host: Host, table: Table, pdu: array<uint8>, base: nat, field: uint8, value: uint64)
    requires field < |table| ==> table[field].Fits(base, pdu.Length)
    modifies pdu
    ensures pdu[..] == Set(table, old(pdu[..]), base, field, value)
  {
    if field < |table| {
      var d := table[field];
      var quadletOffset: uint8, processedBits: uint8 := 0, 0;
      while processedBits < d.bits
        invariant processedBits <= d.bits
        invariant AtQuadlet(d, quadletOffset, processedBits)
        invariant HasWritten(old(pdu[..]), pdu[..], d.Start(base), d.bits, processedBits, value)
        decreases d.bits - processedBits
      {
        QuadletInside(d, base, pdu.Length, quadletOffset, processedBits);
        var quadletId := d.quadlet + quadletOffset;
        var quadletBits := QuadletBits(d, processedBits);
        var quadletShift := QuadletShift(d, processedBits);
        var partialValue := TakeDigits(value, d.bits - processedBits - quadletBits);
        ghost var before := pdu[..];
        WriteSlice(host, pdu, base + quadletId * 4, quadletBits, quadletShift, partialValue);
        WriteStep(old(pdu[..]), before, pdu[..], d.Start(base), d.bits, processedBits, quadletBits, value,
                  partialValue);
        quadletOffset := quadletOffset + 1;
        processedBits := processedBits + quadletBits;
      }
      WriteComplete(old(pdu[..]), pdu[..], d.Start(base), d.bits, value);
    }
  }
}
