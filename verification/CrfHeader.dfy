/** The clock reference format header: initialisation, validity, the mirrored
    sequence number, and the exact correspondence between headers and records. */
module CrfHeader {
  import opened Words
  import opened ByteOrder
  import opened FieldSpec
  import opened FieldEngine
  import opened HeaderTables
  import opened HeaderRecord
  import opened HeaderCodec

  const HEADER_LEN_V0 := 20
  const HEADER_LEN_V1 := 36

  function HeaderLen(version: nat): nat {
    if version == 1 then HEADER_LEN_V1 else HEADER_LEN_V0
  }

  function CrfTable(version: nat): Table {
    if version == 1 then CRF_V1 else CRF_V0
  }

  lemma CrfUsable(s: seq<uint8>, base: nat)
    requires base + 4 <= |s| && base + HeaderLen(Version(s, base)) <= |s|
    ensures Usable(CRF_HEADER, s, base)
  {
    if Version(s, base) == 1 {
      CrfV1Format();
      Place(CRF_V1, 36, base, |s|);
    } else {
      CrfV0Format();
      Place(CRF_V0, 20, base, |s|);
    }
  }

  /** Avtp_Crf_IsValid. */
  method IsValid(host: Host, pdu: array<uint8>, base: nat, bufferSize: nat) returns (valid: bool)
    requires base + 4 <= pdu.Length && base + bufferSize <= pdu.Length
    ensures valid <==>
      && Subtype(pdu[..], base) == SUBTYPE_CRF
      && Version(pdu[..], base) <= 1
      && HeaderLen(Version(pdu[..], base)) <= bufferSize
      && Usable(CRF_HEADER, pdu[..], base)
      && var length := GetDispatched(CRF_HEADER, pdu[..], base, CRF_DATA_LENGTH);
         length != 0 && length % 8 == 0 && HeaderLen(Version(pdu[..], base)) + length <= bufferSize
  {
    var subtype := GetSubtype(host, pdu, base);
    if subtype != SUBTYPE_CRF { return false; }
    var version := GetVersion(host, pdu, base);
    SupportedVersions(version);
    if !VersionSupported(3, version) { return false; }
    var headerLen := HeaderLen(version);
    if bufferSize < headerLen { return false; }
    CrfUsable(pdu[..], base);
    var length := GetFieldDispatched(host, CRF_HEADER, pdu, base, CRF_DATA_LENGTH);
    if length == 0 || length % 8 != 0 { return false; }
    return headerLen + length <= bufferSize;
  }

  // ---------- Initialisation and the mirrored sequence number ----------

  /** The octets Avtp_Crf_InitV1 leaves. */
  function InitializedV1(s: seq<uint8>, base: nat): (r: seq<uint8>)
    requires base + HEADER_LEN_V1 <= |s|
    ensures |r| == |s|
  {
    CrfV1Format();
    Set(CRF_V1, Put(Put(Zeroed(s, base, HEADER_LEN_V1), 8 * base, 8, SUBTYPE_CRF), 8 * base + 9, 3, 1), base, CRF_SV, 1)
  }

  /** Avtp_Crf_InitV1. */
  method InitV1(host: Host, pdu: array<uint8>, base: nat)
    requires base + HEADER_LEN_V1 <= pdu.Length
    modifies pdu
    ensures pdu[..] == InitializedV1(old(pdu[..]), base)
  {
    Memset0(pdu, base, HEADER_LEN_V1);
    SetSubtype(host, pdu, base, SUBTYPE_CRF);
    ghost var s := pdu[..];
    SetVersion(host, pdu, base, 1);
    VersionWritten(s, base, 1);
    CrfUsable(pdu[..], base);
    SetFieldDispatched(host, CRF_HEADER, pdu, base, CRF_SV, 1);
  }

  /** Avtp_Crf_SetSequenceNum: version 1 also writes the low octet to the mirror. */
  function WithSequenceNum(s: seq<uint8>, base: nat, value: nat): (r: seq<uint8>)
    requires Usable(CRF_HEADER, s, base)
    ensures |r| == |s|
  {
    if Version(s, base) == 1 then
      Set(CRF_V1, Set(CRF_V1, s, base, AH_SEQUENCE_NUM, value), base, CRF_SEQUENCE_NUM_LSB, value % 0x100)
    else
      Set(CRF_V0, s, base, CRF_SEQUENCE_NUM_LSB, value % 0x100)
  }

  method SetSequenceNum(host: Host, pdu: array<uint8>, base: nat, value: uint32)
    requires Usable(CRF_HEADER, pdu[..], base)
    modifies pdu
    ensures pdu[..] == WithSequenceNum(old(pdu[..]), base, value)
  {
    var version := GetVersion(host, pdu, base);
    if version == 1 {
      SetField(host, CRF_V1, pdu, base, AH_SEQUENCE_NUM, value);
      SetField(host, CRF_V1, pdu, base, CRF_SEQUENCE_NUM_LSB, value % 0x100);
    } else {
      SetField(host, CRF_V0, pdu, base, CRF_SEQUENCE_NUM_LSB, value % 0x100);
    }
  }

  /** The named setters of a CRF PDU. */
  datatype Setter = SetSv | SetMr | SetFs | SetTu | SetSequenceNumber | SetPtpGrandmasterIdentity | SetType
                  | SetStreamId | SetPull | SetBaseFrequency | SetCrfDataLength | SetTimestampInterval
  {
    function Field(): nat {
      match this
      case SetSv => CRF_SV
      case SetMr => CRF_MR
      case SetFs => CRF_FS
      case SetTu => CRF_TU
      case SetSequenceNumber => AH_SEQUENCE_NUM
      case SetPtpGrandmasterIdentity => AH_PTP_GRANDMASTER_IDENTITY
      case SetType => CRF_TYPE
      case SetStreamId => CRF_STREAM_ID
      case SetPull => CRF_PULL
      case SetBaseFrequency => CRF_BASE_FREQUENCY
      case SetCrfDataLength => CRF_DATA_LENGTH
      case SetTimestampInterval => CRF_TIMESTAMP_INTERVAL
    }
  }

  /** A call of a named setter, through version dispatch or typed for version 1. */
  datatype NamedCall = NamedCall(setter: Setter, typedV1: bool, value: uint64)

  /** A named setter, typed for one version's table. */
  function Applied(t: Table, s: seq<uint8>, base: nat, c: NamedCall): (r: seq<uint8>)
    requires Placed(t, base, |s|)
    ensures |r| == |s|
  {
    if c.setter.SetSequenceNumber? then
      Set(t, Set(t, s, base, AH_SEQUENCE_NUM, c.value), base, CRF_SEQUENCE_NUM_LSB, c.value % 0x100)
    else
      Set(t, s, base, c.setter.Field(), c.value)
  }

  function ApplyNamed(s: seq<uint8>, base: nat, c: NamedCall): (r: seq<uint8>)
    requires base + HEADER_LEN_V1 <= |s|
    ensures |r| == |s|
  {
    CrfUsable(s, base);
    CrfV1Format();
    if c.typedV1 then Applied(CRF_V1, s, base, c)
    else if c.setter.SetSequenceNumber? then WithSequenceNum(s, base, c.value)
    else Set(TableFor(CRF_HEADER, s, base), s, base, c.setter.Field(), c.value)
  }

  function ApplyAll(s: seq<uint8>, base: nat, calls: seq<NamedCall>): (r: seq<uint8>)
    requires base + HEADER_LEN_V1 <= |s|
    ensures |r| == |s|
  {
    if calls == [] then s else ApplyNamed(ApplyAll(s, base, calls[..|calls| - 1]), base, calls[|calls| - 1])
  }

  /** A version 1 CRF PDU whose mirror agrees with its sequence number. */
  predicate Mirrored(s: seq<uint8>, base: nat)
    requires base + HEADER_LEN_V1 <= |s|
  {
    CrfV1Format();
    && Version(s, base) == 1 && Subtype(s, base) == SUBTYPE_CRF
    && Get(CRF_V1, s, base, CRF_SEQUENCE_NUM_LSB) == Get(CRF_V1, s, base, AH_SEQUENCE_NUM) % 0x100
  }

  /** A field that initialisation does not set is left zero. */
  lemma ZeroAfterInit(t: Table, s: seq<uint8>, base: nat, f: nat)
    requires FormatTable(t) && Within(t, HEADER_LEN_V1) && base + HEADER_LEN_V1 <= |s| && Placed(t, base, |s|)
    requires f < |t| && f != CRF_SV
    ensures var z := Zeroed(s, base, HEADER_LEN_V1);
      Get(t, Set(t, Put(Put(z, 8 * base, 8, SUBTYPE_CRF), 8 * base + 9, 3, 1), base, CRF_SV, 1), base, f) == 0
  {
    var z := Zeroed(s, base, HEADER_LEN_V1);
    var d := t[f];
    ZeroedField(s, base, HEADER_LEN_V1, d.Start(base), d.bits);
    AvoidsAt(t, SUBTYPE, f);
    AvoidsAt(t, VERSION, f);
    DispatchWritesKeep(d, z, base);
    GetSet(t, Put(Put(z, 8 * base, 8, SUBTYPE_CRF), 8 * base + 9, 3, 1), base, CRF_SV, 1, f);
  }

  lemma DispatchWritesKeep(d: Descriptor, z: seq<uint8>, base: nat)
    requires d.Fits(base, |z|) && base + 4 <= |z| && Disjoint(d, SUBTYPE) && Disjoint(d, VERSION)
    ensures FieldValue(Put(Put(z, 8 * base, 8, SUBTYPE_CRF), 8 * base + 9, 3, 1), d.Start(base), d.bits)
         == FieldValue(z, d.Start(base), d.bits)
  {
    if d.bits != 0 {
      assert d.Start(base) >= 8 * base + 8 && (d.End(base) <= 8 * base + 9 || 8 * base + 12 <= d.Start(base));
      KeptByTwo(z, 8 * base, 8, SUBTYPE_CRF, 8 * base + 9, 3, 1, d.Start(base), d.bits);
    }
  }

  lemma KeptByTwo(s: seq<uint8>, lo: nat, n: nat, v: nat, lo': nat, n': nat, v': nat, at: nat, bits: nat)
    requires lo + n <= 8 * |s| && lo' + n' <= 8 * |s| && at + bits <= 8 * |s|
    requires (lo + n <= at || at + bits <= lo) && (lo' + n' <= at || at + bits <= lo')
    ensures FieldValue(Put(Put(s, lo, n, v), lo', n', v'), at, bits) == FieldValue(s, at, bits)
  {
    GetPutOther(s, lo, n, v, at, bits);
    GetPutOther(Put(s, lo, n, v), lo', n', v', at, bits);
  }

  lemma InitializedDispatch(t: Table, z: seq<uint8>, base: nat)
    requires FormatTable(t) && base + 4 <= |z| && Placed(t, base, |z|)
    ensures var b := Set(t, Put(Put(z, 8 * base, 8, SUBTYPE_CRF), 8 * base + 9, 3, 1), base, CRF_SV, 1);
      Version(b, base) == 1 && Subtype(b, base) == SUBTYPE_CRF
  {
    Pow2Values();
    TwoFields(z, 8 * base, 8, SUBTYPE_CRF, 8 * base + 9, 3, 1);
    SetKeepsDispatch(t, Put(Put(z, 8 * base, 8, SUBTYPE_CRF), 8 * base + 9, 3, 1), base, CRF_SV, 1);
  }

  /** The low octet of the sequence number and its mirror, in any table with both. */
  predicate Agrees(t: Table, s: seq<uint8>, base: nat)
    requires |t| == 16 && Placed(t, base, |s|)
  {
    Get(t, s, base, CRF_SEQUENCE_NUM_LSB) == Get(t, s, base, AH_SEQUENCE_NUM) % 0x100
  }

  lemma InitializedAgrees(t: Table, s: seq<uint8>, base: nat)
    requires |t| == 16 && FormatTable(t) && Within(t, HEADER_LEN_V1) && base + HEADER_LEN_V1 <= |s|
    requires Placed(t, base, |s|)
    ensures var typed := Put(Zeroed(s, base, HEADER_LEN_V1), 8 * base, 8, SUBTYPE_CRF);
      var b := Set(t, Put(typed, 8 * base + 9, 3, 1), base, CRF_SV, 1);
      Agrees(t, b, base) && Version(b, base) == 1 && Subtype(b, base) == SUBTYPE_CRF
  {
    ZeroAfterInit(t, s, base, AH_SEQUENCE_NUM);
    ZeroAfterInit(t, s, base, CRF_SEQUENCE_NUM_LSB);
    InitializedDispatch(t, Zeroed(s, base, HEADER_LEN_V1), base);
  }

  lemma InitializedMirrors(s: seq<uint8>, base: nat)
    requires base + HEADER_LEN_V1 <= |s|
    ensures Mirrored(InitializedV1(s, base), base)
  {
    CrfV1Format();
    Place(CRF_V1, 36, base, |s|);
    InitializedAgrees(CRF_V1, s, base);
  }

  lemma OtherFieldKeepsAgreement(t: Table, s: seq<uint8>, base: nat, f: nat, v: nat)
    requires |t| == 16 && FormatTable(t) && Placed(t, base, |s|) && |s| >= base + 4 && Agrees(t, s, base)
    requires f != AH_SEQUENCE_NUM && f != CRF_SEQUENCE_NUM_LSB
    ensures var u := Set(t, s, base, f, v);
      Agrees(t, u, base) && Version(u, base) == Version(s, base) && Subtype(u, base) == Subtype(s, base)
  {
    SetKeepsDispatch(t, s, base, f, v);
    GetSet(t, s, base, f, v, AH_SEQUENCE_NUM);
    GetSet(t, s, base, f, v, CRF_SEQUENCE_NUM_LSB);
  }

  /** Two fields written one after the other. */
  lemma WriteBoth(t: Table, s: seq<uint8>, base: nat, f: nat, v: nat, g: nat, w: nat)
    requires FormatTable(t) && Placed(t, base, |s|) && |s| >= base + 4 && f < |t| && g < |t| && f != g
    ensures var u := Set(t, Set(t, s, base, f, v), base, g, w);
      && Get(t, u, base, f) == v % Pow2(t[f].bits) && Get(t, u, base, g) == w % Pow2(t[g].bits)
      && Version(u, base) == Version(s, base) && Subtype(u, base) == Subtype(s, base)
  {
    var u := Set(t, s, base, f, v);
    SetKeepsDispatch(t, s, base, f, v);
    SetKeepsDispatch(t, u, base, g, w);
    GetSet(t, s, base, f, v, f);
    GetSet(t, u, base, g, w, f);
    GetSet(t, u, base, g, w, g);
  }

  lemma LowOctet(v: nat)
    ensures (v % 0x100) % Pow2(8) == (v % Pow2(32)) % 0x100
  {
    Pow2Values();
    DropHighOctets(v);
  }

  lemma DropHighOctets(v: nat)
    ensures (v % 0x1_0000_0000) % 0x100 == v % 0x100
  {
    var q, r := v / 0x1_0000_0000, v % 0x1_0000_0000;
    QuotientUnique(v, 0x100, 0x100_0000 * q + r / 0x100, r % 0x100);
  }

  lemma AppliedAgrees(t: Table, s: seq<uint8>, base: nat, c: NamedCall)
    requires |t| == 16 && FormatTable(t) && Placed(t, base, |s|) && |s| >= base + 4 && Agrees(t, s, base)
    requires t[AH_SEQUENCE_NUM].bits == 32 && t[CRF_SEQUENCE_NUM_LSB].bits == 8
    ensures var u := Applied(t, s, base, c);
      |u| == |s| && Agrees(t, u, base) && Version(u, base) == Version(s, base) && Subtype(u, base) == Subtype(s, base)
  {
    if c.setter.SetSequenceNumber? {
      SequenceNumberAgrees(t, s, base, c.value);
    } else {
      OtherFieldKeepsAgreement(t, s, base, c.setter.Field(), c.value);
    }
  }

  lemma V1Layout(t: Table)
    requires t == CRF_V1
    ensures |t| == 16 && FormatTable(t) && Within(t, HEADER_LEN_V1)
    ensures t[AH_SEQUENCE_NUM].bits == 32 && t[CRF_SEQUENCE_NUM_LSB].bits == 8
  {
    CrfV1Format();
  }

  lemma V1Dispatched(t: Table, s: seq<uint8>, base: nat)
    requires t == CRF_V1 && Usable(CRF_HEADER, s, base) && Version(s, base) == 1
    ensures TableFor(CRF_HEADER, s, base) == t
  {
  }

  /** For a version 1 PDU dispatched and typed setters are the same. */
  lemma NamedIsApplied(t: Table, s: seq<uint8>, base: nat, c: NamedCall)
    requires t == CRF_V1 && base + HEADER_LEN_V1 <= |s| && Placed(t, base, |s|) && Version(s, base) == 1
    ensures ApplyNamed(s, base, c) == Applied(t, s, base, c)
  {
    CrfUsable(s, base);
    V1Dispatched(t, s, base);
  }

  lemma MirrorIs(t: Table, s: seq<uint8>, base: nat)
    requires t == CRF_V1 && base + HEADER_LEN_V1 <= |s| && |t| == 16 && Placed(t, base, |s|)
    ensures Mirrored(s, base) <==> Version(s, base) == 1 && Subtype(s, base) == SUBTYPE_CRF && Agrees(t, s, base)
  {
  }

  lemma NamedCallKeepsMirror(t: Table, s: seq<uint8>, base: nat, c: NamedCall)
    requires t == CRF_V1 && base + HEADER_LEN_V1 <= |s| && Mirrored(s, base)
    ensures Mirrored(ApplyNamed(s, base, c), base)
  {
    V1Layout(t);
    Place(t, HEADER_LEN_V1, base, |s|);
    MirrorIs(t, s, base);
    NamedIsApplied(t, s, base, c);
    AppliedAgrees(t, s, base, c);
    MirrorIs(t, ApplyNamed(s, base, c), base);
  }

  /** Writing the sequence number and its low octet makes the two agree. */
  lemma SequenceNumberAgrees(t: Table, s: seq<uint8>, base: nat, v: nat)
    requires |t| == 16 && FormatTable(t) && Placed(t, base, |s|) && |s| >= base + 4
    requires t[AH_SEQUENCE_NUM].bits == 32 && t[CRF_SEQUENCE_NUM_LSB].bits == 8
    ensures var u := Set(t, Set(t, s, base, AH_SEQUENCE_NUM, v), base, CRF_SEQUENCE_NUM_LSB, v % 0x100);
      Agrees(t, u, base) && Version(u, base) == Version(s, base) && Subtype(u, base) == Subtype(s, base)
  {
    WriteBoth(t, s, base, AH_SEQUENCE_NUM, v, CRF_SEQUENCE_NUM_LSB, v % 0x100);
    LowOctet(v);
  }

  /** From initialisation, through any sequence of named setter calls, dispatched or typed
      for version 1, the PDU stays a version 1 CRF PDU whose mirror agrees. */
  lemma {:induction false} MirrorAgreement(s: seq<uint8>, base: nat, calls: seq<NamedCall>)
    requires base + HEADER_LEN_V1 <= |s|
    ensures Mirrored(ApplyAll(InitializedV1(s, base), base, calls), base)
  {
    if calls == [] {
      InitializedMirrors(s, base);
    } else {
      var n := |calls| - 1;
      MirrorAgreement(s, base, calls[..n]);
      NamedCallKeepsMirror(CRF_V1, ApplyAll(InitializedV1(s, base), base, calls[..n]), base, calls[n]);
    }
  }

  // ---------- Encoding and decoding ----------

  lemma CrfV0Covers(p: nat) returns (f: nat)
    requires p < 160 && !DispatchBit(p)
    ensures f < |CRF_V0| && Covers(CRF_V0[f], p)
  {
    f := if p < 12 then 3 else if p < 16 then p - 7 else if p < 24 then 9 else if p < 32 then 10
         else if p < 96 then 11 else if p < 99 then 12 else if p < 128 then 13 else if p < 144 then 14 else 15;
  }

  lemma CrfV1Covers(p: nat) returns (f: nat)
    requires p < 288 && !DispatchBit(p)
    ensures f < |CRF_V1| && Covers(CRF_V1[f], p)
  {
    f := if p < 12 then 3 else if p < 32 then 0 else if p < 64 then 1 else if p < 128 then 2 else if p < 140 then 4
         else if p < 144 then p - 135 else if p < 152 then 9 else if p < 160 then 10 else if p < 224 then 11
         else if p < 227 then 12 else if p < 256 then 13 else if p < 272 then 14 else 15;
  }

  /** In each version, subtype, version and the table share out all bits of the header. */
  lemma CrfPartitions(version: nat)
    ensures Partitions(CrfTable(version), HeaderLen(version))
  {
    if version == 1 { CrfV1Format(); } else { CrfV0Format(); }
    forall p: nat | p < 8 * HeaderLen(version) && !DispatchBit(p)
      ensures exists f :: 0 <= f < |CrfTable(version)| && Covers(CrfTable(version)[f], p)
    {
      if version == 1 {
        var f := CrfV1Covers(p);
        assert Covers(CrfTable(version)[f], p);
      } else {
        var f := CrfV0Covers(p);
        assert Covers(CrfTable(version)[f], p);
      }
    }
  }

  /** Decoding any CRF header and encoding the result into any buffer of that size gives the header back. */
  lemma CrfEncodeDecode(src: seq<uint8>, dst: seq<uint8>)
    requires |src| >= 4 && |src| == HeaderLen(Version(src, 0)) == |dst|
    ensures var table := CrfTable(Version(src, 0));
      Placed(table, 0, |src|) && Encode(table, dst, Decode(table, src)) == src
  {
    var table := CrfTable(Version(src, 0));
    CrfPartitions(Version(src, 0));
    Place(table, |src|, 0, |src|);
    EncodeDecode(table, |src|, src, dst);
    assert src + dst[|src|..] == src;
  }

  /** Field values within their widths survive encoding into any buffer and decoding,
      and the header written declares the version it was laid out for. */
  lemma CrfDecodeEncode(dst: seq<uint8>, c: Contents)
    requires |dst| == HeaderLen(c.version) && WithinWidths(CrfTable(c.version), c)
    ensures var table := CrfTable(c.version);
      Placed(table, 0, |dst|) && Decode(table, Encode(table, dst, c)) == c
    ensures Version(Encode(CrfTable(c.version), dst, c), 0) == c.version
  {
    var table := CrfTable(c.version);
    CrfPartitions(c.version);
    Place(table, |dst|, 0, |dst|);
    DecodeEncode(table, dst, c);
  }
}
