/** Encoding and decoding a whole header through its descriptor table, for a table
    whose fields, with subtype and version, cover every bit of the header exactly once. */
module HeaderCodec {
  import opened Words
  import opened FieldSpec
  import opened FieldEngine
  import opened HeaderTables
  import opened HeaderRecord

  /** The field occupies bit p of a header. */
  predicate Covers(d: Descriptor, p: nat) {
    32 * d.quadlet + d.offset <= p < 32 * d.quadlet + d.offset + d.bits
  }

  /** Bits that hold the subtype or the version. */
  predicate DispatchBit(p: nat) {
    p < 8 || 9 <= p < 12
  }

  /** Subtype, version and the fields of the table share out the bits of the header. */
  ghost predicate Partitions(table: Table, length: nat) {
    && length >= 4 && Within(table, length) && FormatTable(table)
    && (forall p: nat | p < 8 * length && !DispatchBit(p) :: exists f :: 0 <= f < |table| && Covers(table[f], p))
  }

  /** Everything a header says: subtype, version and the value of every field. */
  datatype Contents = Contents(subtype: nat, version: nat, fields: Record)

  predicate WithinWidths(table: Table, c: Contents) {
    && c.subtype < 0x100 && c.version < 8
    && |c.fields| == |table|
    && forall f | 0 <= f < |table| :: c.fields[f] < Pow2(table[f].bits)
  }

  function Decode(table: Table, s: seq<uint8>): Contents
    requires |s| >= 4 && Placed(table, 0, |s|)
  {
    Contents(Subtype(s, 0), Version(s, 0), Fields(table, s, 0))
  }

  /** Writing subtype, version and then every field in turn into a buffer. */
  function Encode(table: Table, s: seq<uint8>, c: Contents): (r: seq<uint8>)
    requires |s| >= 4 && Placed(table, 0, |s|) && |c.fields| == |table|
    ensures |r| == |s|
  {
    WriteAll(table, Put(Put(s, 0, 8, c.subtype), 9, 3, c.version), c.fields, |table|)
  }

  function WriteAll(table: Table, s: seq<uint8>, r: Record, n: nat): (t: seq<uint8>)
    requires n <= |table| == |r| && Placed(table, 0, |s|)
    ensures |t| == |s|
  {
    if n == 0 then s else Set(table, WriteAll(table, s, r, n - 1), 0, n - 1, r[n - 1])
  }

  /** Writing all fields puts the value of each field in its bits. */
  lemma {:induction false} WrittenBit(table: Table, s: seq<uint8>, r: Record, n: nat, p: nat, f: nat)
    requires f < n <= |table| == |r| && Placed(table, 0, |s|) && Separate(table)
    requires p < 8 * |s| && Covers(table[f], p)
    ensures BitAt(WriteAll(table, s, r, n), p) == Bit(r[f], table[f].End(0) - 1 - p)
  {
    PutBitAt(WriteAll(table, s, r, n - 1), table[n - 1].Start(0), table[n - 1].bits, r[n - 1], p);
    if f < n - 1 {
      SeparateAt(table, f, n - 1);
      WrittenBit(table, s, r, n - 1, p, f);
    }
  }

  /** Writing all fields touches no bit outside them. */
  lemma {:induction false} UnwrittenBit(table: Table, s: seq<uint8>, r: Record, n: nat, p: nat)
    requires n <= |table| == |r| && Placed(table, 0, |s|) && p < 8 * |s|
    requires forall g | 0 <= g < n :: !Covers(table[g], p)
    ensures BitAt(WriteAll(table, s, r, n), p) == BitAt(s, p)
  {
    if n > 0 {
      assert !Covers(table[n - 1], p);
      PutBitAt(WriteAll(table, s, r, n - 1), table[n - 1].Start(0), table[n - 1].bits, r[n - 1], p);
      UnwrittenBit(table, s, r, n - 1, p);
    }
  }

  lemma EncodedDispatchBit(table: Table, s: seq<uint8>, c: Contents, p: nat)
    requires FormatTable(table) && 4 <= |s| && |c.fields| == |table| && DispatchBit(p)
    requires Placed(table, 0, |s|)
    ensures BitAt(Encode(table, s, c), p) == if p < 8 then Bit(c.subtype, 7 - p) else Bit(c.version, 11 - p)
  {
    var u := Put(s, 0, 8, c.subtype);
    PutBitAt(s, 0, 8, c.subtype, p);
    PutBitAt(u, 9, 3, c.version, p);
    NotDispatch(table, p);
    UnwrittenBit(table, Put(u, 9, 3, c.version), c.fields, |table|, p);
  }

  lemma NotDispatch(table: Table, p: nat)
    requires FormatTable(table) && DispatchBit(p)
    ensures forall g | 0 <= g < |table| :: !Covers(table[g], p)
  {
    forall g | 0 <= g < |table| ensures !Covers(table[g], p) {
      AvoidsAt(table, SUBTYPE, g);
      AvoidsAt(table, VERSION, g);
    }
  }

  /** Encoding what was decoded from one header into any other buffer reproduces the header,
      octet for octet, and leaves what follows the header alone. */
  lemma EncodeDecode(table: Table, length: nat, src: seq<uint8>, dst: seq<uint8>)
    requires Partitions(table, length) && |src| == length && |dst| >= length
    requires Placed(table, 0, |src|) && Placed(table, 0, |dst|)
    ensures Encode(table, dst, Decode(table, src)) == src + dst[length..]
  {
    var r := Encode(table, dst, Decode(table, src));
    forall p: nat | p < 8 * |dst|
      ensures BitAt(r, p) == BitAt(src + dst[length..], p)
    {
      if p < 8 * length {
        EncodedHeaderBit(table, length, src, dst, p);
      } else {
        EncodedTrailingBit(table, length, src, dst, p);
      }
    }
    SameBitString(r, src + dst[length..]);
  }

  lemma EncodedTrailingBit(table: Table, length: nat, src: seq<uint8>, dst: seq<uint8>, p: nat)
    requires Partitions(table, length) && |src| == length && 8 * length <= p < 8 * |dst|
    requires Placed(table, 0, |src|) && Placed(table, 0, |dst|)
    ensures BitAt(Encode(table, dst, Decode(table, src)), p) == BitAt(dst, p)
  {
    var c := Decode(table, src);
    PutBitAt(dst, 0, 8, c.subtype, p);
    PutBitAt(Put(dst, 0, 8, c.subtype), 9, 3, c.version, p);
    UnwrittenBit(table, Put(Put(dst, 0, 8, c.subtype), 9, 3, c.version), c.fields, |table|, p);
  }

  lemma EncodedHeaderBit(table: Table, length: nat, src: seq<uint8>, dst: seq<uint8>, p: nat)
    requires Partitions(table, length) && |src| == length && |dst| >= length && p < 8 * length
    requires Placed(table, 0, |src|) && Placed(table, 0, |dst|)
    ensures BitAt(Encode(table, dst, Decode(table, src)), p) == BitAt(src, p)
  {
    if DispatchBit(p) {
      EncodedDispatchBit(table, dst, Decode(table, src), p);
      if p < 8 { SourceBit(src, 0, 8, p); } else { SourceBit(src, 9, 3, p); }
    } else {
      var f :| 0 <= f < |table| && Covers(table[f], p);
      EncodedFieldBit(table, src, dst, p, f);
    }
  }

  lemma EncodedFieldBit(table: Table, src: seq<uint8>, dst: seq<uint8>, p: nat, f: nat)
    requires Separate(table) && 4 <= |src| <= |dst| && p < 8 * |src| && f < |table| && Covers(table[f], p)
    requires Placed(table, 0, |src|) && Placed(table, 0, |dst|)
    ensures BitAt(Encode(table, dst, Decode(table, src)), p) == BitAt(src, p)
  {
    var c := Decode(table, src);
    assert c.fields[f] == FieldValue(src, table[f].Start(0), table[f].bits);
    var u := Put(Put(dst, 0, 8, c.subtype), 9, 3, c.version);
    WrittenSourceBit(table, u, c.fields, |table|, Encode(table, dst, c), src, p, f);
  }

  /** Writing the value a field has in src puts the bits of src in its place. */
  lemma WrittenSourceBit(table: Table, s: seq<uint8>, r: Record, n: nat, t: seq<uint8>, src: seq<uint8>, p: nat, f: nat)
    requires f < n <= |table| == |r| && Placed(table, 0, |s|) && Separate(table)
    requires p < 8 * |s| && Covers(table[f], p) && p < 8 * |src| && table[f].End(0) <= 8 * |src|
    requires r[f] == FieldValue(src, table[f].Start(0), table[f].bits)
    requires t == WriteAll(table, s, r, n)
    ensures BitAt(t, p) == BitAt(src, p)
  {
    WrittenBit(table, s, r, n, p, f);
    SourceBit(src, table[f].Start(0), table[f].bits, p);
  }

  lemma SourceBit(src: seq<uint8>, lo: nat, n: nat, p: nat)
    requires lo <= p < lo + n <= 8 * |src|
    ensures Bit(FieldValue(src, lo, n), lo + n - 1 - p) == BitAt(src, p)
  {
    FieldBits(src, lo, n, lo + n - 1 - p);
  }

  /** Each field holds the value written for it, cut to its width. */
  lemma {:induction false} WrittenField(table: Table, s: seq<uint8>, r: Record, n: nat, f: nat)
    requires f < n <= |table| == |r| && Placed(table, 0, |s|) && Separate(table)
    ensures Get(table, WriteAll(table, s, r, n), 0, f) == r[f] % Pow2(table[f].bits)
  {
    if f < n - 1 { WrittenField(table, s, r, n - 1, f); }
    GetSet(table, WriteAll(table, s, r, n - 1), 0, n - 1, r[n - 1], f);
  }

  /** The dispatch bits stay. */
  lemma {:induction false} DispatchKept(table: Table, s: seq<uint8>, r: Record, n: nat)
    requires n <= |table| == |r| && Placed(table, 0, |s|) && FormatTable(table) && |s| >= 4
    ensures Subtype(WriteAll(table, s, r, n), 0) == Subtype(s, 0)
    ensures Version(WriteAll(table, s, r, n), 0) == Version(s, 0)
  {
    if n > 0 {
      DispatchKept(table, s, r, n - 1);
      SetKeepsDispatch(table, WriteAll(table, s, r, n - 1), 0, n - 1, r[n - 1]);
    }
  }

  lemma WrittenDispatch(s: seq<uint8>, subtype: uint8, version: nat)
    requires |s| >= 4 && version < 8
    ensures Subtype(Put(Put(s, 0, 8, subtype), 9, 3, version), 0) == subtype
    ensures Version(Put(Put(s, 0, 8, subtype), 9, 3, version), 0) == version
  {
    Pow2Values();
    TwoFields(s, 0, 8, subtype, 9, 3, version);
  }

  lemma TwoFields(s: seq<uint8>, lo: nat, n: nat, v: nat, lo': nat, n': nat, v': nat)
    requires lo + n <= lo' && lo' + n' <= 8 * |s| && v < Pow2(n) && v' < Pow2(n')
    ensures FieldValue(Put(Put(s, lo, n, v), lo', n', v'), lo, n) == v
    ensures FieldValue(Put(Put(s, lo, n, v), lo', n', v'), lo', n') == v'
  {
    var u := Put(s, lo, n, v);
    GetPut(s, lo, n, v);
    GetPutOther(u, lo', n', v', lo, n);
    GetPut(u, lo', n', v');
    SmallMod(v, Pow2(n));
    SmallMod(v', Pow2(n'));
  }

  /** A record whose values fit their widths survives encoding and decoding. */
  lemma DecodeEncode(table: Table, s: seq<uint8>, c: Contents)
    requires FormatTable(table) && 4 <= |s| && WithinWidths(table, c) && Placed(table, 0, |s|)
    ensures Decode(table, Encode(table, s, c)) == c
  {
    var v := Put(Put(s, 0, 8, c.subtype), 9, 3, c.version);
    WrittenDispatch(s, c.subtype, c.version);
    DispatchKept(table, v, c.fields, |table|);
    FieldsWritten(table, v, c.fields, WriteAll(table, v, c.fields, |table|));
  }

  /** Every contents within its widths is that of some header. */
  lemma HeaderWith(table: Table, length: nat, size: nat, c: Contents) returns (s: seq<uint8>)
    requires FormatTable(table) && Within(table, length) && 4 <= size && length <= size && WithinWidths(table, c)
    ensures |s| == size && Placed(table, 0, size) && Decode(table, s) == c
  {
    Place(table, length, 0, size);
    var zeros := seq(size, i => 0);
    DecodeEncode(table, zeros, c);
    s := Encode(table, zeros, c);
  }

  lemma FieldWritten(table: Table, s: seq<uint8>, r: Record, f: nat)
    requires Separate(table) && f < |table| == |r| && Placed(table, 0, |s|) && r[f] < Pow2(table[f].bits)
    ensures Get(table, WriteAll(table, s, r, |table|), 0, f) == r[f]
  {
    WrittenField(table, s, r, |table|, f);
    SmallMod(r[f], Pow2(table[f].bits));
  }

  lemma FieldsWritten(table: Table, s: seq<uint8>, r: Record, u: seq<uint8>)
    requires Separate(table) && |r| == |table| && Placed(table, 0, |s|)
    requires forall f | 0 <= f < |table| :: r[f] < Pow2(table[f].bits)
    requires u == WriteAll(table, s, r, |table|)
    ensures Fields(table, u, 0) == r
  {
    forall f | 0 <= f < |table| ensures Get(table, u, 0, f) == r[f] { FieldWritten(table, s, r, f); }
  }
}
