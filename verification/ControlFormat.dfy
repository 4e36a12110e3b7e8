/** The four control formats that carry CAN messages: NTSCF and TSCF, each in
    versions 0 and 1. What the CAN bridge does with them is the same for all. */
module ControlFormat {
  import opened Words
  import opened ByteOrder
  import opened FieldSpec
  import opened FieldEngine
  import opened HeaderTables
  import opened HeaderRecord

  /** A control format: its header, and which fields hold what the bridge reads and writes. Version 1
      mirrors the low octet of the sequence number in a second field. */
  datatype Shape = Shape(header: Header, version: uint8, subtype: uint8, length: nat, sv: uint8, number: uint8,
                         mirror: uint8, streamId: uint8, dataLength: uint8)
  {
    function Table(): Table {
      if version == 1 then header.v1 else header.v0
    }
  }

  const NTSCF_FORMAT_V0 := Shape(NTSCF_HEADER, 0, SUBTYPE_NTSCF, 12, NTSCF_SV, NTSCF_SEQUENCE_NUM_LSB,
                                 NTSCF_SEQUENCE_NUM_LSB, NTSCF_STREAM_ID, NTSCF_DATA_LENGTH)
  const NTSCF_FORMAT_V1 := Shape(NTSCF_HEADER, 1, SUBTYPE_NTSCF, 28, NTSCF_SV, AH_SEQUENCE_NUM, NTSCF_SEQUENCE_NUM_LSB,
                                 NTSCF_STREAM_ID, NTSCF_DATA_LENGTH)
  const TSCF_FORMAT_V0 := Shape(TSCF_HEADER, 0, SUBTYPE_TSCF, 24, CSH_SV, CSH_SEQUENCE_NUM, CSH_SEQUENCE_NUM,
                                CSH_STREAM_ID, CSH_STREAM_DATA_LENGTH)
  const TSCF_FORMAT_V1 := Shape(TSCF_HEADER, 1, SUBTYPE_TSCF, 40, CSH_SV, CSH_SEQUENCE_NUM, CSH_FSD0,
                                CSH_STREAM_ID, CSH_STREAM_DATA_LENGTH)

  /** Which fields there are, how wide they are, and that they are different. */
  predicate Layout(f: Shape) {
    var t := f.Table();
    && f.version <= 1 && 12 <= f.length <= 40
    && f.sv < |t| && f.number < |t| && f.mirror < |t| && f.streamId < |t| && f.dataLength < |t|
    && t[f.sv].bits == 1 && t[f.streamId].bits == 64 && t[f.mirror].bits == 8
    && t[f.number].bits == (if f.version == 1 then 32 else 8)
    && (t[f.dataLength].bits == 11 || t[f.dataLength].bits == 16)
    && (f.version == 1 <==> f.number != f.mirror)
    && f.streamId != f.number && f.streamId != f.mirror && f.dataLength != f.number && f.dataLength != f.mirror
    && f.dataLength != f.streamId && f.sv != f.number && f.sv != f.mirror && f.sv != f.streamId && f.sv != f.dataLength
    && (f.subtype == SUBTYPE_TSCF ==>
          && CSH_TU < |t| && t[CSH_TU].bits == 1
          && f.sv != CSH_TU && f.number != CSH_TU && f.mirror != CSH_TU
          && f.streamId != CSH_TU && f.dataLength != CSH_TU)
  }

  /** What the bridge relies on in a format. */
  predicate Sound(f: Shape) {
    Layout(f) && FormatTable(f.Table()) && Within(f.Table(), f.length)
  }

  lemma NtscfV0Layout()
    ensures Layout(NTSCF_FORMAT_V0)
  {
  }

  lemma NtscfV0Sound()
    ensures Sound(NTSCF_FORMAT_V0)
  {
    NtscfV0Layout();
    NtscfV0Format();
  }

  lemma NtscfV1Layout()
    ensures Layout(NTSCF_FORMAT_V1)
  {
  }

  lemma NtscfV1Sound()
    ensures Sound(NTSCF_FORMAT_V1)
  {
    NtscfV1Layout();
    NtscfV1Format();
  }

  lemma TscfV0Layout()
    ensures Layout(TSCF_FORMAT_V0)
  {
  }

  lemma TscfV0Sound()
    ensures Sound(TSCF_FORMAT_V0)
  {
    TscfV0Layout();
    TscfV0Format();
  }

  lemma TscfV1Layout()
    ensures Layout(TSCF_FORMAT_V1)
  {
  }

  lemma TscfV1Sound()
    ensures Sound(TSCF_FORMAT_V1)
  {
    TscfV1Layout();
    TscfV1Format();
  }

  /** A control format that the bridge can handle. */
  type Format = f: Shape | Sound(f) witness SomeFormat()

  function SomeFormat(): (f: Shape)
    ensures Sound(f)
  {
    TscfV0Sound();
    TSCF_FORMAT_V0
  }

  /** The fields of the header at `base`. */
  function CfHeader(f: Format, s: seq<uint8>, base: nat): (r: Record)
    requires base + f.length <= |s|
    ensures |r| == |f.Table()|
  {
    Place(f.Table(), f.length, base, |s|);
    Fields(f.Table(), s, base)
  }

  lemma FormatUsable(f: Format, s: seq<uint8>, base: nat)
    requires base + f.length <= |s| && Version(s, base) == f.version
    ensures Usable(f.header, s, base) && TableFor(f.header, s, base) == f.Table()
  {
    Place(f.Table(), f.length, base, |s|);
  }

  /** A typed setter of a header field: stores the low bits of the value. */
  method SetCfField(host: Host, f: Format, pdu: array<uint8>, base: nat, field: uint8, v: uint64, ghost w: nat)
    requires base + f.length <= pdu.Length && field < |f.Table()| && w == v % Pow2(f.Table()[field].bits)
    modifies pdu
    ensures CfHeader(f, pdu[..], base) == old(CfHeader(f, pdu[..], base))[field := w]
    ensures Subtype(pdu[..], base) == old(Subtype(pdu[..], base))
    ensures Version(pdu[..], base) == old(Version(pdu[..], base))
    ensures OnlyWithin(old(pdu[..]), pdu[..], base, base + f.length)
  {
    Place(f.Table(), f.length, base, pdu.Length);
    SetAssigns(f.Table(), pdu[..], base, field, v, w);
    FieldInside(f.Table(), f.length, base, field);
    PutOnlyWithin(pdu[..], base, f.length, f.Table()[field].Start(base), f.Table()[field].bits, v);
    SetField(host, f.Table(), pdu, base, field, v);
  }

  lemma ClearedHeader(f: Format, s: seq<uint8>, base: nat)
    requires base + f.length <= |s|
    ensures CfHeader(f, Zeroed(s, base, f.length), base) == ZeroRecord(|f.Table()|)
    ensures Version(Zeroed(s, base, f.length), base) == 0
    ensures OnlyWithin(s, Zeroed(s, base, f.length), base, base + f.length)
  {
    ClearedFields(f.Table(), s, base, f.length);
    ZeroedField(s, base, f.length, 8 * base + 9, 3);
  }

  lemma Apart(f: Format, s: seq<uint8>, base: nat, d: Descriptor, v: nat, lo: nat, n: nat)
    requires base + f.length <= |s| && Avoids(f.Table(), d) && d.Fits(0, 4) && lo == d.Start(base) && n == d.bits
    ensures lo + n <= 8 * |s|
    ensures CfHeader(f, Put(s, lo, n, v), base) == CfHeader(f, s, base)
    ensures OnlyWithin(s, Put(s, lo, n, v), base, base + f.length)
  {
    Place(f.Table(), f.length, base, |s|);
    PutOnlyWithin(s, base, f.length, lo, n, v);
    FieldsApart(f.Table(), s, base, d, v);
  }

  /** Subtype and version are apart from the fields. */
  lemma SubtypeApart(f: Format, s: seq<uint8>, base: nat, v: nat)
    requires base + f.length <= |s|
    ensures CfHeader(f, Put(s, 8 * base, 8, v), base) == CfHeader(f, s, base)
    ensures OnlyWithin(s, Put(s, 8 * base, 8, v), base, base + f.length)
  {
    Apart(f, s, base, SUBTYPE, v, 8 * base, 8);
  }

  lemma VersionApart(f: Format, s: seq<uint8>, base: nat, v: nat)
    requires base + f.length <= |s|
    ensures CfHeader(f, Put(s, 8 * base + 9, 3, v), base) == CfHeader(f, s, base)
    ensures OnlyWithin(s, Put(s, 8 * base + 9, 3, v), base, base + f.length)
  {
    Apart(f, s, base, VERSION, v, 8 * base + 9, 3);
  }

  /** The common header's SetSubtype and SetVersion. */
  method SetCfSubtype(host: Host, f: Format, pdu: array<uint8>, base: nat)
    requires base + f.length <= pdu.Length
    modifies pdu
    ensures CfHeader(f, pdu[..], base) == old(CfHeader(f, pdu[..], base))
    ensures Subtype(pdu[..], base) == f.subtype && Version(pdu[..], base) == old(Version(pdu[..], base))
    ensures OnlyWithin(old(pdu[..]), pdu[..], base, base + f.length)
  {
    SubtypeApart(f, pdu[..], base, f.subtype);
    SubtypeWritten(pdu[..], base, f.subtype);
    SetSubtype(host, pdu, base, f.subtype);
  }

  method SetCfVersion(host: Host, f: Format, pdu: array<uint8>, base: nat)
    requires base + f.length <= pdu.Length
    modifies pdu
    ensures CfHeader(f, pdu[..], base) == old(CfHeader(f, pdu[..], base))
    ensures Subtype(pdu[..], base) == old(Subtype(pdu[..], base)) && Version(pdu[..], base) == f.version
    ensures OnlyWithin(old(pdu[..]), pdu[..], base, base + f.length)
  {
    VersionApart(f, pdu[..], base, f.version);
    VersionWritten(pdu[..], base, f.version);
    SetVersion(host, pdu, base, f.version);
  }

  /** The part of initialisation that is the same for all formats: a cleared header with subtype and version. */
  method ClearCfHeader(host: Host, f: Format, pdu: array<uint8>, base: nat)
    requires base + f.length <= pdu.Length
    modifies pdu
    ensures CfHeader(f, pdu[..], base) == ZeroRecord(|f.Table()|)
    ensures Subtype(pdu[..], base) == f.subtype && Version(pdu[..], base) == f.version
    ensures OnlyWithin(old(pdu[..]), pdu[..], base, base + f.length)
  {
    ClearedHeader(f, pdu[..], base);
    Memset0(pdu, base, f.length);
    ghost var s := pdu[..];
    SetCfSubtype(host, f, pdu, base);
    ghost var u := pdu[..];
    OnlyWithinBoth(old(pdu[..]), s, u, base, base + f.length, base + f.length);
    if f.version == 1 {
      SetCfVersion(host, f, pdu, base);
      OnlyWithinBoth(old(pdu[..]), u, pdu[..], base, base + f.length, base + f.length);
    }
  }

  /** The dispatched SetSv. */
  method SetSv(host: Host, f: Format, pdu: array<uint8>, base: nat)
    requires base + f.length <= pdu.Length && Version(pdu[..], base) == f.version
    modifies pdu
    ensures CfHeader(f, pdu[..], base) == old(CfHeader(f, pdu[..], base))[f.sv := 1]
    ensures Subtype(pdu[..], base) == old(Subtype(pdu[..], base))
    ensures Version(pdu[..], base) == old(Version(pdu[..], base))
    ensures OnlyWithin(old(pdu[..]), pdu[..], base, base + f.length)
  {
    FormatUsable(f, pdu[..], base);
    FittingValue(1, 1);
    SetAssigns(f.Table(), pdu[..], base, f.sv, 1, 1);
    FieldInside(f.Table(), f.length, base, f.sv);
    PutOnlyWithin(pdu[..], base, f.length, f.Table()[f.sv].Start(base), 1, 1);
    SetFieldDispatched(host, f.header, pdu, base, f.sv, 1);
  }

  /** Version 0 has one field for the number, of 8 bits. */
  lemma OneNumberField(f: Format, h: seq<nat>, seqNum: uint32)
    requires f.version == 0 && f.number < |h|
    ensures f.mirror < |h|
    ensures h[f.number := StoredNumber(f, seqNum)][f.mirror := seqNum % 0x100] == h[f.number := seqNum % 0x100]
  {
  }

  /** The typed SetSequenceNum: version 1 also writes the mirror; NTSCF cuts the number to 8 bits itself. */
  method SetCfNumber(host: Host, f: Format, pdu: array<uint8>, base: nat, seqNum: uint32)
    requires base + f.length <= pdu.Length
    modifies pdu
    ensures CfHeader(f, pdu[..], base)
         == old(CfHeader(f, pdu[..], base))[f.number := StoredNumber(f, seqNum)][f.mirror := seqNum % 0x100]
    ensures Subtype(pdu[..], base) == old(Subtype(pdu[..], base))
    ensures Version(pdu[..], base) == old(Version(pdu[..], base))
    ensures OnlyWithin(old(pdu[..]), pdu[..], base, base + f.length)
  {
    NumberWidths(seqNum);
    if f.version == 0 { OneNumberField(f, CfHeader(f, pdu[..], base), seqNum); }
    if f.version == 1 {
      SetMirroredNumber(host, f, pdu, base, seqNum);
    } else if f.subtype == SUBTYPE_NTSCF {
      SetCfField(host, f, pdu, base, f.number, seqNum % 0x100, seqNum % 0x100);
    } else {
      SetCfField(host, f, pdu, base, f.number, seqNum, seqNum % 0x100);
    }
  }

  method SetMirroredNumber(host: Host, f: Format, pdu: array<uint8>, base: nat, seqNum: uint32)
    requires base + f.length <= pdu.Length && f.version == 1
    modifies pdu
    ensures CfHeader(f, pdu[..], base)
         == old(CfHeader(f, pdu[..], base))[f.number := seqNum][f.mirror := seqNum % 0x100]
    ensures Subtype(pdu[..], base) == old(Subtype(pdu[..], base))
    ensures Version(pdu[..], base) == old(Version(pdu[..], base))
    ensures OnlyWithin(old(pdu[..]), pdu[..], base, base + f.length)
  {
    NumberWidths(seqNum);
    SetCfField(host, f, pdu, base, f.number, seqNum, seqNum);
    ghost var s := pdu[..];
    SetCfField(host, f, pdu, base, f.mirror, seqNum % 0x100, seqNum % 0x100);
    OnlyWithinBoth(old(pdu[..]), s, pdu[..], base, base + f.length, base + f.length);
  }

  /** Version 0 has room for the low octet of the number only. */
  function StoredNumber(f: Format, seqNum: uint32): uint32 {
    if f.version == 1 then seqNum else seqNum % 0x100
  }

  lemma NumberWidths(n: uint32)
    ensures n == n % Pow2(32) && n % 0x100 == n % Pow2(8) && n % 0x100 == n % 0x100 % Pow2(8)
  {
    Pow2Values();
    SmallMod(n, Pow2(32));
    SmallMod(n % 0x100, 0x100);
  }

  /** The header as init_cf_pdu leaves it. */
  function InitialHeader(f: Format, streamId: uint64, seqNum: uint32): (r: Record)
    ensures |r| == |f.Table()|
  {
    ZeroRecord(|f.Table()|)[f.sv := 1][f.number := StoredNumber(f, seqNum)][f.mirror := seqNum % 0x100]
      [f.streamId := streamId]
  }

  /** init_cf_pdu. */
  method InitCfPdu(host: Host, f: Format, pdu: array<uint8>, base: nat, streamId: uint64, seqNum: uint32)
    returns (length: nat)
    requires base + f.length <= pdu.Length
    modifies pdu
    ensures length == f.length && CfHeader(f, pdu[..], base) == InitialHeader(f, streamId, seqNum)
    ensures Subtype(pdu[..], base) == f.subtype && Version(pdu[..], base) == f.version
    ensures OnlyWithin(old(pdu[..]), pdu[..], base, base + f.length)
  {
    StartCfPdu(host, f, pdu, base);
    ghost var s := pdu[..];
    SetCfNumber(host, f, pdu, base, seqNum);
    ghost var u := pdu[..];
    FittingValue(streamId, 64);
    SetCfField(host, f, pdu, base, f.streamId, streamId, streamId);
    OnlyWithinBoth(s, u, pdu[..], base, base + f.length, base + f.length);
    OnlyWithinBoth(old(pdu[..]), s, pdu[..], base, base + f.length, base + f.length);
    length := f.length;
  }

  /** Init, and for TSCF the clearing of the tu bit. */
  method StartCfPdu(host: Host, f: Format, pdu: array<uint8>, base: nat)
    requires base + f.length <= pdu.Length
    modifies pdu
    ensures CfHeader(f, pdu[..], base) == ZeroRecord(|f.Table()|)[f.sv := 1]
    ensures Subtype(pdu[..], base) == f.subtype && Version(pdu[..], base) == f.version
    ensures OnlyWithin(old(pdu[..]), pdu[..], base, base + f.length)
  {
    ClearCfHeader(host, f, pdu, base);
    ghost var s := pdu[..];
    SetSv(host, f, pdu, base);
    OnlyWithinBoth(old(pdu[..]), s, pdu[..], base, base + f.length, base + f.length);
    if f.subtype == SUBTYPE_TSCF {
      ghost var u := pdu[..];
      FittingValue(0, 1);
      SetCfField(host, f, pdu, base, CSH_TU, 0, 0);
      OnlyWithinBoth(old(pdu[..]), u, pdu[..], base, base + f.length, base + f.length);
    }
  }

  /** The data length as the header holds it: NTSCF has 11 bits for it, TSCF 16. */
  function StoredLength(f: Format, n: nat): nat
    requires f.dataLength < |f.Table()|
  {
    n % Pow2(f.Table()[f.dataLength].bits)
  }

  lemma LengthStored(f: Format, n: nat)
    requires n < 2048
    ensures StoredLength(f, n) == n
  {
    FittingValue(n, f.Table()[f.dataLength].bits);
  }

  /** update_cf_length. */
  method UpdateCfLength(host: Host, f: Format, pdu: array<uint8>, base: nat, length: uint16)
    requires base + f.length <= pdu.Length && f.length <= length
    modifies pdu
    ensures CfHeader(f, pdu[..], base)
         == old(CfHeader(f, pdu[..], base))[f.dataLength := StoredLength(f, length - f.length)]
    ensures Subtype(pdu[..], base) == old(Subtype(pdu[..], base))
    ensures Version(pdu[..], base) == old(Version(pdu[..], base))
    ensures OnlyWithin(old(pdu[..]), pdu[..], base, base + f.length)
  {
    SetCfField(host, f, pdu, base, f.dataLength, length - f.length, StoredLength(f, length - f.length));
  }
}
