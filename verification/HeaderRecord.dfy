/** Headers with run-time version dispatch, and the record they implement: after
    any sequence of setter calls every field holds what was last written to it. */
module HeaderRecord {
  import opened Words
  import opened ByteOrder
  import opened FieldSpec
  import opened FieldEngine
  import opened HeaderTables

  /** A header with one descriptor table per version. */
  datatype Header = Header(v0: Table, v1: Table)

  const STREAM_HEADER := Header(CSH_V0, CSH_V1)
  const ALTERNATIVE_HEADER := Header(AH_V0, AH_V1)
  const CRF_HEADER := Header(CRF_V0, CRF_V1)
  const NTSCF_HEADER := Header(NTSCF_V0, NTSCF_V1)
  const TSCF_HEADER := Header(TSCF_V0, TSCF_V1)

  predicate Placed(table: Table, base: nat, length: nat) {
    |table| < 256 && forall f | 0 <= f < |table| :: table[f].Fits(base, length)
  }

  lemma Place(table: Table, header: nat, base: nat, length: nat)
    requires Within(table, header) && base + header <= length
    ensures Placed(table, base, length)
  {
  }

  function Subtype(s: seq<uint8>, base: nat): nat
    requires base + 4 <= |s|
  {
    FieldValue(s, 8 * base, 8)
  }

  function Version(s: seq<uint8>, base: nat): nat
    requires base + 4 <= |s|
  {
    FieldValue(s, 8 * base + 9, 3)
  }

  /** Any version other than 1 is treated as version 0. */
  function TableFor(h: Header, s: seq<uint8>, base: nat): Table
    requires base + 4 <= |s|
  {
    if Version(s, base) == 1 then h.v1 else h.v0
  }

  /** The buffer holds a header of the version it declares. */
  predicate Usable(h: Header, s: seq<uint8>, base: nat) {
    base + 4 <= |s| && FormatTable(TableFor(h, s, base)) && Placed(TableFor(h, s, base), base, |s|)
  }

  function GetDispatched(h: Header, s: seq<uint8>, base: nat, field: nat): nat
    requires Usable(h, s, base)
  {
    Get(TableFor(h, s, base), s, base, field)
  }

  function SetDispatched(h: Header, s: seq<uint8>, base: nat, field: nat, value: nat): (r: seq<uint8>)
    requires Usable(h, s, base)
    ensures |r| == |s|
  {
    Set(TableFor(h, s, base), s, base, field, value)
  }

  /** Avtp_AvtpduVersion_IsSupported. */
  predicate VersionSupported(versionMask: uint8, version: uint8) {
    version < 8 && And(Shr(versionMask, version), 1) != 0
  }

  /** The mask that CRF, NTSCF and TSCF share supports versions 0 and 1 only. */
  lemma SupportedVersions(version: uint8)
    ensures VersionSupported(3, version) <==> version == 0 || version == 1
  {
    if version < 8 {
      AndOne(Shr(3, version));
      BitShr(3, version, 0);
      if version >= 2 { BitHigh(3, 2, version); }
    }
  }

  /** GetVersion. */
  method GetVersion(host: Host, pdu: array<uint8>, base: nat) returns (version: uint8)
    requires base + 4 <= pdu.Length
    ensures version == Version(pdu[..], base)
  {
    var v := GetField(host, COMMON, pdu, base, COMMON_VERSION);
    FieldBound(pdu[..], 8 * base + 9, 3);
    Pow2Values();
    version := v;
  }

  /** GetSubtype. */
  method GetSubtype(host: Host, pdu: array<uint8>, base: nat) returns (subtype: uint8)
    requires base + 4 <= pdu.Length
    ensures subtype == Subtype(pdu[..], base)
  {
    var v := GetField(host, COMMON, pdu, base, COMMON_SUBTYPE);
    FieldBound(pdu[..], 8 * base, 8);
    Pow2Values();
    subtype := v;
  }

  /** SetSubtype. */
  method SetSubtype(host: Host, pdu: array<uint8>, base: nat, subtype: uint8)
    requires base + 4 <= pdu.Length
    modifies pdu
    ensures pdu[..] == Put(old(pdu[..]), 8 * base, 8, subtype)
  {
    SetCommon(pdu[..], base, subtype);
    SetField(host, COMMON, pdu, base, COMMON_SUBTYPE, subtype);
  }

  /** SetVersion. */
  method SetVersion(host: Host, pdu: array<uint8>, base: nat, version: uint8)
    requires base + 4 <= pdu.Length
    modifies pdu
    ensures pdu[..] == Put(old(pdu[..]), 8 * base + 9, 3, version)
  {
    SetCommon(pdu[..], base, version);
    SetField(host, COMMON, pdu, base, COMMON_VERSION, version);
  }

  /** The subtype and version fields after they have been set. */
  lemma SubtypeWritten(s: seq<uint8>, base: nat, subtype: uint8)
    requires base + 4 <= |s|
    ensures Subtype(Put(s, 8 * base, 8, subtype), base) == subtype
    ensures Version(Put(s, 8 * base, 8, subtype), base) == Version(s, base)
  {
    Pow2Values();
    GetPut(s, 8 * base, 8, subtype);
    GetPutOther(s, 8 * base, 8, subtype, 8 * base + 9, 3);
    SmallMod(subtype, 0x100);
  }

  lemma VersionWritten(s: seq<uint8>, base: nat, version: uint8)
    requires base + 4 <= |s| && version < 8
    ensures Version(Put(s, 8 * base + 9, 3, version), base) == version
    ensures Subtype(Put(s, 8 * base + 9, 3, version), base) == Subtype(s, base)
  {
    Pow2Values();
    GetPut(s, 8 * base + 9, 3, version);
    GetPutOther(s, 8 * base + 9, 3, version, 8 * base, 8);
    SmallMod(version, 8);
  }

  /** The version-dispatched GetField of every two-version header. */
  method GetFieldDispatched(host: Host, h: Header, pdu: array<uint8>, base: nat, field: uint8) returns (result: uint64)
    requires Usable(h, pdu[..], base)
    ensures result == GetDispatched(h, pdu[..], base, field)
  {
    var version := GetVersion(host, pdu, base);
    if version == 1 {
      result := GetField(host, h.v1, pdu, base, field);
    } else {
      result := GetField(host, h.v0, pdu, base, field);
    }
  }

  /** The version-dispatched SetField of every two-version header. */
  method SetFieldDispatched(host: Host, h: Header, pdu: array<uint8>, base: nat, field: uint8, value: uint64)
    requires Usable(h, pdu[..], base)
    modifies pdu
    ensures pdu[..] == SetDispatched(h, old(pdu[..]), base, field, value)
  {
    var version := GetVersion(host, pdu, base);
    if version == 1 {
      SetField(host, h.v1, pdu, base, field, value);
    } else {
      SetField(host, h.v0, pdu, base, field, value);
    }
  }

  // ---------- Clearing a header ----------

  function Zeroed(s: seq<uint8>, base: nat, n: nat): (r: seq<uint8>)
    requires base + n <= |s|
    ensures |r| == |s|
  {
    s[..base] + seq(n, i => 0) + s[base + n..]
  }

  method Memset0(pdu: array<uint8>, base: nat, n: nat)
    requires base + n <= pdu.Length
    modifies pdu
    ensures pdu[..] == Zeroed(old(pdu[..]), base, n)
  {
    for i := 0 to n
      invariant forall j | 0 <= j < pdu.Length ::
        pdu[j] == if base <= j < base + i then 0 else old(pdu[j])
    {
      pdu[base + i] := 0;
    }
  }

  lemma {:induction false} ZeroField(s: seq<uint8>, lo: nat, n: nat)
    requires lo + n <= 8 * |s|
    requires forall p: nat | lo <= p < lo + n :: s[p / 8] == 0
    ensures FieldValue(s, lo, n) == 0
  {
    if n > 0 {
      ZeroField(s, lo, n - 1);
      BitZero(7 - (lo + n - 1) % 8);
    }
  }

  lemma ZeroedField(s: seq<uint8>, base: nat, n: nat, lo: nat, bits: nat)
    requires base + n <= |s| && 8 * base <= lo && lo + bits <= 8 * (base + n)
    ensures FieldValue(Zeroed(s, base, n), lo, bits) == 0
  {
    ZeroField(Zeroed(s, base, n), lo, bits);
  }

  /** Setting the subtype and the version through the common header table. */
  lemma SetCommon(s: seq<uint8>, base: nat, v: nat)
    requires base + 4 <= |s|
    ensures Set(COMMON, s, base, COMMON_SUBTYPE, v) == Put(s, 8 * base, 8, v)
    ensures Set(COMMON, s, base, COMMON_VERSION, v) == Put(s, 8 * base + 9, 3, v)
  {
  }

  /** A field set is read back modulo its width, and no other field is disturbed. */
  lemma GetSet(table: Table, s: seq<uint8>, base: nat, f: nat, v: nat, g: nat)
    requires Separate(table) && Placed(table, base, |s|) && g < |table|
    ensures Get(table, Set(table, s, base, f, v), base, g)
         == if f == g then v % Pow2(table[g].bits) else Get(table, s, base, g)
  {
    var d := table[g];
    if f == g {
      GetPut(s, d.Start(base), d.bits, v);
    } else if f < |table| {
      SeparateAt(table, f, g);
      DisjointFields(table[f], d, s, base, v);
    }
  }

  lemma DisjointFields(c: Descriptor, d: Descriptor, s: seq<uint8>, base: nat, v: nat)
    requires c.Fits(base, |s|) && d.Fits(base, |s|) && (Disjoint(c, d) || Disjoint(d, c))
    ensures FieldValue(Put(s, c.Start(base), c.bits, v), d.Start(base), d.bits) == FieldValue(s, d.Start(base), d.bits)
  {
    if c.bits != 0 && d.bits != 0 {
      GetPutOther(s, c.Start(base), c.bits, v, d.Start(base), d.bits);
    }
  }

  /** Setting a format field keeps the bits that the dispatch reads. */
  lemma SetKeepsDispatch(table: Table, s: seq<uint8>, base: nat, f: nat, v: nat)
    requires FormatTable(table) && Placed(table, base, |s|) && base + 4 <= |s|
    ensures Version(Set(table, s, base, f, v), base) == Version(s, base)
    ensures Subtype(Set(table, s, base, f, v), base) == Subtype(s, base)
  {
    SetKeepsVersion(table, s, base, f, v);
    SetKeepsSubtype(table, s, base, f, v);
  }

  lemma SetKeepsVersion(table: Table, s: seq<uint8>, base: nat, f: nat, v: nat)
    requires Avoids(table, VERSION) && Placed(table, base, |s|) && base + 4 <= |s|
    ensures Version(Set(table, s, base, f, v), base) == Version(s, base)
  {
    SetAvoids(table, s, base, f, v, VERSION, 8 * base + 9, 3);
  }

  lemma SetKeepsSubtype(table: Table, s: seq<uint8>, base: nat, f: nat, v: nat)
    requires Avoids(table, SUBTYPE) && Placed(table, base, |s|) && base + 4 <= |s|
    ensures Subtype(Set(table, s, base, f, v), base) == Subtype(s, base)
  {
    SetAvoids(table, s, base, f, v, SUBTYPE, 8 * base, 8);
  }

  lemma SetAvoids(table: Table, s: seq<uint8>, base: nat, f: nat, v: nat, d: Descriptor, lo: nat, n: nat)
    requires Avoids(table, d) && Placed(table, base, |s|) && d.Fits(base, |s|) && lo == d.Start(base) && n == d.bits
    ensures FieldValue(Set(table, s, base, f, v), lo, n) == FieldValue(s, lo, n)
  {
    if f < |table| {
      AvoidsAt(table, d, f);
      DisjointFields(table[f], d, s, base, v);
    }
  }

  /** The record a header of a given version implements: one value per field. */
  type Record = seq<nat>

  function Fields(table: Table, s: seq<uint8>, base: nat): (r: Record)
    requires Placed(table, base, |s|)
    ensures |r| == |table|
  {
    seq(|table|, f requires 0 <= f < |table| => Get(table, s, base, f))
  }

  function ZeroRecord(n: nat): (r: Record)
    ensures |r| == n
  {
    seq(n, i => 0)
  }

  lemma FieldInside(table: Table, length: nat, base: nat, f: nat)
    requires Within(table, length) && f < |table|
    ensures 8 * base <= table[f].Start(base) && table[f].End(base) <= 8 * (base + length)
  {
    assert table[f].Fits(0, length);
  }

  /** Clearing a header clears all of its fields. */
  lemma ClearedFields(table: Table, s: seq<uint8>, base: nat, length: nat)
    requires Within(table, length) && base + length <= |s|
    ensures Placed(table, base, |s|) && Fields(table, Zeroed(s, base, length), base) == ZeroRecord(|table|)
  {
    Place(table, length, base, |s|);
    var z := Zeroed(s, base, length);
    forall g | 0 <= g < |table| ensures Get(table, z, base, g) == 0 {
      FieldInside(table, length, base, g);
      ZeroedField(s, base, length, table[g].Start(base), table[g].bits);
    }
  }

  /** Writing bits that belong to no field, such as subtype and version, leaves the fields alone. */
  lemma FieldsApart(table: Table, s: seq<uint8>, base: nat, d: Descriptor, v: nat)
    requires Avoids(table, d) && Placed(table, base, |s|) && d.Fits(base, |s|)
    ensures Fields(table, Put(s, d.Start(base), d.bits, v), base) == Fields(table, s, base)
  {
    forall g | 0 <= g < |table|
      ensures Get(table, Put(s, d.Start(base), d.bits, v), base, g) == Get(table, s, base, g)
    {
      AvoidsAt(table, d, g);
      DisjointFields(d, table[g], s, base, v);
    }
  }

  /** Setting a field is assigning to the record. */
  lemma SetUpdates(table: Table, s: seq<uint8>, base: nat, f: nat, v: nat, w: nat)
    requires Separate(table) && Placed(table, base, |s|) && f < |table| && w == v % Pow2(table[f].bits)
    ensures Fields(table, Set(table, s, base, f, v), base) == Fields(table, s, base)[f := w]
  {
    forall g | 0 <= g < |table|
      ensures Get(table, Set(table, s, base, f, v), base, g) == Fields(table, s, base)[f := w][g]
    {
      GetSet(table, s, base, f, v, g);
    }
  }

  /** Setting a field of a header is assigning to its record, and leaves the dispatch alone. */
  lemma SetAssigns(table: Table, s: seq<uint8>, base: nat, f: nat, v: nat, w: nat)
    requires FormatTable(table) && Placed(table, base, |s|) && base + 4 <= |s|
    requires f < |table| && w == v % Pow2(table[f].bits)
    ensures Fields(table, Set(table, s, base, f, v), base) == Fields(table, s, base)[f := w]
    ensures Version(Set(table, s, base, f, v), base) == Version(s, base)
    ensures Subtype(Set(table, s, base, f, v), base) == Subtype(s, base)
  {
    SetKeepsDispatch(table, s, base, f, v);
    SetUpdates(table, s, base, f, v, w);
  }

  /** The value fits in a field of that width. */
  predicate FitsWidth(v: nat, bits: nat) {
    || (bits == 1 && v < 2) || (bits == 2 && v < 4) || (bits == 3 && v < 8) || (bits == 7 && v < 0x80)
    || (bits == 8 && v < 0x100)
    || (bits == 9 && v < 0x200) || (bits == 11 && v < 0x800) || (bits == 16 && v < 0x1_0000)
    || (bits == 29 && v < 0x2000_0000) || (bits == 32 && v < 0x1_0000_0000)
    || (bits == 64 && v < 0x1_0000_0000_0000_0000)
  }

  lemma FittingValue(v: nat, bits: nat)
    requires FitsWidth(v, bits)
    ensures v == v % Pow2(bits)
  {
    Pow2Values();
    SmallMod(v, Pow2(bits));
  }

  /** A value that fits its field is stored as it is. */
  lemma SetStores(table: Table, s: seq<uint8>, base: nat, f: nat, v: nat)
    requires FormatTable(table) && Placed(table, base, |s|) && base + 4 <= |s|
    requires f < |table| && FitsWidth(v, table[f].bits)
    ensures Fields(table, Set(table, s, base, f, v), base) == Fields(table, s, base)[f := v]
    ensures Version(Set(table, s, base, f, v), base) == Version(s, base)
    ensures Subtype(Set(table, s, base, f, v), base) == Subtype(s, base)
  {
    FittingValue(v, table[f].bits);
    SetAssigns(table, s, base, f, v, v);
  }

  datatype Call = Call(field: nat, value: nat)

  function Assign(table: Table, r: Record, c: Call): (r': Record)
    requires |r| == |table|
    ensures |r'| == |r|
  {
    if c.field < |table| then r[c.field := c.value % Pow2(table[c.field].bits)] else r
  }

  function RunRecord(table: Table, r: Record, calls: seq<Call>): (r': Record)
    requires |r| == |table|
    ensures |r'| == |r|
    decreases |calls|
  {
    if calls == [] then r else RunRecord(table, Assign(table, r, calls[0]), calls[1..])
  }

  /** Setter calls applied one after the other, each dispatched on the bytes as they then are. */
  ghost predicate Runs(h: Header, s: seq<uint8>, base: nat, calls: seq<Call>, t: seq<uint8>)
    decreases |calls|
  {
    if calls == [] then t == s
    else Usable(h, s, base) && Runs(h, SetDispatched(h, s, base, calls[0].field, calls[0].value), base, calls[1..], t)
  }

  /** Bit p of the buffer belongs to none of the fields. */
  predicate Untouched(table: Table, base: nat, p: nat) {
    forall f | 0 <= f < |table| :: !(table[f].Start(base) <= p < table[f].End(base))
  }

  lemma StepRefines(h: Header, s: seq<uint8>, base: nat, c: Call)
    requires Usable(h, s, base)
    ensures var t, table := SetDispatched(h, s, base, c.field, c.value), TableFor(h, s, base);
      && Version(t, base) == Version(s, base) && Subtype(t, base) == Subtype(s, base)
      && Usable(h, t, base) && TableFor(h, t, base) == table
      && Fields(table, t, base) == Assign(table, Fields(table, s, base), c)
      && forall p: nat | p < 8 * |s| && Untouched(table, base, p) :: BitAt(t, p) == BitAt(s, p)
  {
    var table := TableFor(h, s, base);
    var t := SetDispatched(h, s, base, c.field, c.value);
    SetKeepsDispatch(table, s, base, c.field, c.value);
    forall g | 0 <= g < |table|
      ensures Get(table, t, base, g) == Assign(table, Fields(table, s, base), c)[g]
    {
      GetSet(table, s, base, c.field, c.value, g);
    }
    forall p: nat | p < 8 * |s| && Untouched(table, base, p)
      ensures BitAt(t, p) == BitAt(s, p)
    {
      if c.field < |table| {
        PutBitAt(s, table[c.field].Start(base), table[c.field].bits, c.value, p);
      }
    }
  }

  /** The bytes with their dispatch refine the record, over every sequence of setter calls. */
  lemma {:induction false} RunRefinesRecord(h: Header, s: seq<uint8>, base: nat, calls: seq<Call>, t: seq<uint8>)
    requires Usable(h, s, base) && Runs(h, s, base, calls, t)
    ensures |t| == |s| && Usable(h, t, base) && TableFor(h, t, base) == TableFor(h, s, base)
    ensures Version(t, base) == Version(s, base) && Subtype(t, base) == Subtype(s, base)
    ensures var table := TableFor(h, s, base);
      Fields(table, t, base) == RunRecord(table, Fields(table, s, base), calls)
    ensures forall p: nat | p < 8 * |s| && Untouched(TableFor(h, s, base), base, p) :: BitAt(t, p) == BitAt(s, p)
    decreases |calls|
  {
    if calls != [] {
      var u := SetDispatched(h, s, base, calls[0].field, calls[0].value);
      StepRefines(h, s, base, calls[0]);
      RunRefinesRecord(h, u, base, calls[1..], t);
    }
  }

  /** Every sequence of calls runs to completion: no call makes the next one unusable. */
  lemma {:induction false} RunExists(h: Header, s: seq<uint8>, base: nat, calls: seq<Call>) returns (t: seq<uint8>)
    requires Usable(h, s, base)
    ensures Runs(h, s, base, calls, t)
    decreases |calls|
  {
    if calls == [] {
      t := s;
    } else {
      StepRefines(h, s, base, calls[0]);
      t := RunExists(h, SetDispatched(h, s, base, calls[0].field, calls[0].value), base, calls[1..]);
    }
  }

  /** What a field should hold after the calls: the last value written to it, cut to its width. */
  function LastWritten(calls: seq<Call>, f: nat, width: nat, initial: nat): nat {
    if calls == [] then initial
    else if calls[|calls| - 1].field == f then calls[|calls| - 1].value % Pow2(width)
    else LastWritten(calls[..|calls| - 1], f, width, initial)
  }

  lemma {:induction false} RunRecordHoldsLastWritten(table: Table, r: Record, calls: seq<Call>, f: nat)
    requires |r| == |table| && f < |table|
    ensures RunRecord(table, r, calls)[f] == LastWritten(calls, f, table[f].bits, r[f])
  {
    if calls != [] {
      var n := |calls| - 1;
      RunRecordSnoc(table, r, calls[..n], calls[n]);
      assert calls == calls[..n] + [calls[n]];
      RunRecordHoldsLastWritten(table, r, calls[..n], f);
    }
  }

  lemma {:induction false} RunRecordSnoc(table: Table, r: Record, calls: seq<Call>, c: Call)
    requires |r| == |table|
    ensures RunRecord(table, r, calls + [c]) == Assign(table, RunRecord(table, r, calls), c)
    decreases |calls|
  {
    if calls == [] {
      assert ([] + [c])[1..] == [];
    } else {
      assert (calls + [c])[1..] == calls[1..] + [c];
      RunRecordSnoc(table, Assign(table, r, calls[0]), calls[1..], c);
    }
  }

  /** After any sequence of dispatched setter calls, the dispatched getter returns the last
      value written modulo the field width, the initial value of a field never written, and
      0 for a field the version does not have; version and subtype are what they were. */
  lemma LastWriteWins(h: Header, s: seq<uint8>, base: nat, calls: seq<Call>, t: seq<uint8>, f: nat)
    requires Usable(h, s, base) && Runs(h, s, base, calls, t)
    ensures Usable(h, t, base)
    ensures Version(t, base) == Version(s, base) && Subtype(t, base) == Subtype(s, base)
    ensures var table := TableFor(h, s, base);
      GetDispatched(h, t, base, f) ==
        if f >= |table| || table[f].bits == 0 then 0
        else LastWritten(calls, f, table[f].bits, GetDispatched(h, s, base, f))
  {
    RunRefinesRecord(h, s, base, calls, t);
    var table := TableFor(h, s, base);
    if f < |table| {
      RunRecordHoldsLastWritten(table, Fields(table, s, base), calls, f);
      assert Fields(table, t, base)[f] == Get(table, t, base, f);
    }
  }

  /** A buffer that has room for the header of the version it declares is usable. */
  lemma StreamHeaderUsable(s: seq<uint8>, base: nat)
    requires base + 4 <= |s| && base + (if Version(s, base) == 1 then 40 else 24) <= |s|
    ensures Usable(STREAM_HEADER, s, base)
  {
    if Version(s, base) == 1 {
      CshV1Format();
      Place(CSH_V1, 40, base, |s|);
    } else {
      CshV0Format();
      Place(CSH_V0, 24, base, |s|);
    }
  }

  lemma AlternativeHeaderUsable(s: seq<uint8>, base: nat)
    requires base + 4 <= |s| && base + (if Version(s, base) == 1 then 16 else 4) <= |s|
    ensures Usable(ALTERNATIVE_HEADER, s, base)
  {
    if Version(s, base) == 1 {
      AhV1Format();
      Place(AH_V1, 16, base, |s|);
    } else {
      AhV0Format();
      Place(AH_V0, 4, base, |s|);
    }
  }
}
