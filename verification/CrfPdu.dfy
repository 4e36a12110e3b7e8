/** The CRF packet that carries six timestamps, as the talker fills it and the
    listener reads it. */
module CrfPdu {
  import opened Words
  import opened Octets
  import opened ByteOrder
  import opened FieldSpec
  import opened FieldEngine
  import opened HeaderTables
  import opened HeaderRecord

  const REFERENCE_STREAM_ID: uint64 := 0xAABB_CCDD_EEFF_0002
  const CRF_SAMPLE_RATE := 48_000
  const TIMESTAMP_INTERVAL := 160
  const TIMESTAMPS_PER_PKT := 6
  const CRF_HEADER_LEN := 20
  const CRF_DATA_LEN := 48
  const CRF_PDU_SIZE := 68
  const TYPE_AUDIO_SAMPLE := 1
  const PULL_MULT_BY_1 := 0

  /** What this module uses of the header table. */
  predicate IsClockTable(t: Table) {
    && |t| == 16 && FormatTable(t) && Within(t, CRF_HEADER_LEN)
    && t[CRF_SV].bits == t[CRF_FS].bits == 1 && t[CRF_SEQUENCE_NUM_LSB].bits == t[CRF_TYPE].bits == 8
    && t[CRF_STREAM_ID].bits == 64 && t[CRF_PULL].bits == 3 && t[CRF_BASE_FREQUENCY].bits == 29
    && t[CRF_DATA_LENGTH].bits == t[CRF_TIMESTAMP_INTERVAL].bits == 16
  }

  type ClockTable = t: Table | IsClockTable(t) witness ClockTableV0()

  /** The table in use. */
  function ClockTableV0(): (t: Table)
    ensures t == CRF_V0 && IsClockTable(t)
  {
    CrfIsClockTable();
    CRF_V0
  }

  lemma CrfIsClockTable()
    ensures IsClockTable(CRF_V0)
  {
    CrfV0Format();
    CrfWidths();
  }

  lemma CrfWidths()
    ensures var t := CRF_V0;
      && |t| == 16 && t[CRF_SV].bits == t[CRF_FS].bits == 1 && t[CRF_SEQUENCE_NUM_LSB].bits == t[CRF_TYPE].bits == 8
      && t[CRF_STREAM_ID].bits == 64 && t[CRF_PULL].bits == 3 && t[CRF_BASE_FREQUENCY].bits == 29
      && t[CRF_DATA_LENGTH].bits == t[CRF_TIMESTAMP_INTERVAL].bits == 16
  {
  }

  /** The values of the header fields of a packet. */
  function ClockHeader(t: ClockTable, s: seq<uint8>): (r: Record)
    requires |s| >= CRF_HEADER_LEN
    ensures |r| == 16
  {
    Place(t, CRF_HEADER_LEN, 0, |s|);
    Fields(t, s, 0)
  }

  lemma SetClock(t: ClockTable, s: seq<uint8>, f: nat, v: nat)
    requires |s| >= CRF_HEADER_LEN && f < |t| && FitsWidth(v, t[f].bits)
    ensures Placed(t, 0, |s|)
    ensures ClockHeader(t, Set(t, s, 0, f, v)) == ClockHeader(t, s)[f := v]
    ensures Version(Set(t, s, 0, f, v), 0) == Version(s, 0) && Subtype(Set(t, s, 0, f, v), 0) == Subtype(s, 0)
    ensures OnlyWithin(s, Set(t, s, 0, f, v), 0, CRF_HEADER_LEN)
  {
    Place(t, CRF_HEADER_LEN, 0, |s|);
    SetStores(t, s, 0, f, v);
    assert t[f].Fits(0, CRF_HEADER_LEN);
    PutOnlyWithin(s, 0, CRF_HEADER_LEN, t[f].Start(0), t[f].bits, v);
  }

  /** A header setter of the version 0 table, as an assignment to the record. */
  method SetClockField(host: Host, t: ClockTable, pdu: array<uint8>, f: uint8, v: uint64)
    requires pdu.Length >= CRF_HEADER_LEN && f < |t| && FitsWidth(v, t[f].bits)
    modifies pdu
    ensures ClockHeader(t, pdu[..]) == old(ClockHeader(t, pdu[..]))[f := v]
    ensures Version(pdu[..], 0) == old(Version(pdu[..], 0)) && Subtype(pdu[..], 0) == old(Subtype(pdu[..], 0))
    ensures OnlyWithin(old(pdu[..]), pdu[..], 0, CRF_HEADER_LEN)
    ensures pdu[CRF_HEADER_LEN..] == old(pdu[CRF_HEADER_LEN..])
  {
    SetClock(t, pdu[..], f, v);
    SetField(host, t, pdu, 0, f, v);
  }

  /** What initialisation fixes once for all packets of the stream. */
  predicate ReadyClock(t: ClockTable, s: seq<uint8>)
    requires |s| >= CRF_HEADER_LEN
  {
    var r := ClockHeader(t, s);
    && Subtype(s, 0) == SUBTYPE_CRF && Version(s, 0) == 0 && r[CRF_SV] == 1 && r[CRF_FS] == 0
    && r[CRF_TYPE] == TYPE_AUDIO_SAMPLE && r[CRF_STREAM_ID] == REFERENCE_STREAM_ID && r[CRF_PULL] == PULL_MULT_BY_1
    && r[CRF_BASE_FREQUENCY] == CRF_SAMPLE_RATE && r[CRF_DATA_LENGTH] == CRF_DATA_LEN
  }

  /** The memset and SetSubtype of Avtp_Crf_InitV0. */
  method ClearClock(host: Host, t: ClockTable, pdu: array<uint8>)
    requires pdu.Length >= CRF_HEADER_LEN
    modifies pdu
    ensures Version(pdu[..], 0) == 0 && Subtype(pdu[..], 0) == SUBTYPE_CRF && ClockHeader(t, pdu[..]) == ZeroRecord(16)
    ensures pdu[CRF_HEADER_LEN..] == old(pdu[CRF_HEADER_LEN..])
  {
    ghost var s := pdu[..];
    ClearedDispatch(s);
    ClearedClock(t, s);
    Memset0(pdu, 0, CRF_HEADER_LEN);
    ghost var z := pdu[..];
    SetSubtype(host, pdu, 0, SUBTYPE_CRF);
    PutOnlyWithin(z, 0, CRF_HEADER_LEN, 0, 8, SUBTYPE_CRF);
  }

  lemma ClearedDispatch(s: seq<uint8>)
    requires |s| >= CRF_HEADER_LEN
    ensures Version(Put(Zeroed(s, 0, CRF_HEADER_LEN), 0, 8, SUBTYPE_CRF), 0) == 0
    ensures Subtype(Put(Zeroed(s, 0, CRF_HEADER_LEN), 0, 8, SUBTYPE_CRF), 0) == SUBTYPE_CRF
  {
    ZeroedField(s, 0, CRF_HEADER_LEN, 9, 3);
    SubtypeWritten(Zeroed(s, 0, CRF_HEADER_LEN), 0, SUBTYPE_CRF);
  }

  lemma ClearedClock(t: ClockTable, s: seq<uint8>)
    requires |s| >= CRF_HEADER_LEN
    ensures ClockHeader(t, Put(Zeroed(s, 0, CRF_HEADER_LEN), 0, 8, SUBTYPE_CRF)) == ZeroRecord(16)
  {
    ClearedFields(t, s, 0, CRF_HEADER_LEN);
    FieldsApart(t, Zeroed(s, 0, CRF_HEADER_LEN), 0, SUBTYPE, SUBTYPE_CRF);
  }

  /** The header as the talker's init_pdu leaves it. */
  function InitialClock(): (r: Record)
    ensures |r| == 16
  {
    ZeroRecord(16)[CRF_SV := 1][CRF_TYPE := TYPE_AUDIO_SAMPLE][CRF_STREAM_ID := REFERENCE_STREAM_ID]
      [CRF_PULL := PULL_MULT_BY_1][CRF_BASE_FREQUENCY := CRF_SAMPLE_RATE]
      [CRF_TIMESTAMP_INTERVAL := TIMESTAMP_INTERVAL][CRF_DATA_LENGTH := CRF_DATA_LEN]
  }

  /** init_pdu of the talker. */
  method InitPdu(host: Host, t: ClockTable, pdu: array<uint8>)
    requires pdu.Length >= CRF_HEADER_LEN
    modifies pdu
    ensures Subtype(pdu[..], 0) == SUBTYPE_CRF && Version(pdu[..], 0) == 0 && ClockHeader(t, pdu[..]) == InitialClock()
    ensures ReadyClock(t, pdu[..])
    ensures pdu[CRF_HEADER_LEN..] == old(pdu[CRF_HEADER_LEN..])
  {
    ClearClock(host, t, pdu);
    SetClockField(host, t, pdu, CRF_SV, 1);
    SetClockField(host, t, pdu, CRF_TYPE, TYPE_AUDIO_SAMPLE);
    SetClockField(host, t, pdu, CRF_STREAM_ID, REFERENCE_STREAM_ID);
    SetClockField(host, t, pdu, CRF_PULL, PULL_MULT_BY_1);
    SetClockField(host, t, pdu, CRF_BASE_FREQUENCY, CRF_SAMPLE_RATE);
    SetClockField(host, t, pdu, CRF_TIMESTAMP_INTERVAL, TIMESTAMP_INTERVAL);
    SetClockField(host, t, pdu, CRF_DATA_LENGTH, CRF_DATA_LEN);
  }

  /** Timestamp number idx of the payload. */
  function Timestamp(s: seq<uint8>, idx: nat): nat
    requires CRF_HEADER_LEN + 8 * idx + 8 <= |s|
  {
    FromOctets(s[CRF_HEADER_LEN + 8 * idx..CRF_HEADER_LEN + 8 * idx + 8])
  }

  lemma {:induction false} OctetsBound(b: Bytes)
    ensures FromOctets(b) < Pow2(8 * |b|)
    decreases |b|
  {
    if b != [] {
      var n := |b| - 1;
      OctetsBound(b[..n]);
      Pow2Add(8, 8 * n);
      assert Pow2(8) == 0x100;
    }
  }

  /** What the listener makes of a packet: a first timestamp with a sequence number, or nothing. */
  datatype Parsed = Ignored | Reference(base: uint64, seqNum: nat)

  function ParseClock(t: ClockTable, p: seq<uint8>): Parsed
  {
    if |p| != CRF_PDU_SIZE || !ReadyClock(t, p) then Ignored
    else
      TimestampFits(p, 0);
      Reference(Timestamp(p, 0), ClockHeader(t, p)[CRF_SEQUENCE_NUM_LSB])
  }

  lemma TimestampFits(p: seq<uint8>, idx: nat)
    requires CRF_HEADER_LEN + 8 * idx + 8 <= |p|
    ensures Timestamp(p, idx) < 0x1_0000_0000_0000_0000
  {
    OctetsBound(p[CRF_HEADER_LEN + 8 * idx..CRF_HEADER_LEN + 8 * idx + 8]);
    Pow2Values();
  }

  /** A packet's header says what its first 20 octets say. */
  lemma SameClock(t: ClockTable, s: seq<uint8>, p: seq<uint8>)
    requires |s| >= CRF_HEADER_LEN && |p| >= CRF_HEADER_LEN && s[..CRF_HEADER_LEN] == p[..CRF_HEADER_LEN]
    ensures Subtype(s, 0) == Subtype(p, 0) && Version(s, 0) == Version(p, 0) && ClockHeader(t, s) == ClockHeader(t, p)
  {
    forall q: nat | q < 8 * CRF_HEADER_LEN ensures BitAt(s, q) == BitAt(p, q) {
      assert s[q / 8] == s[..CRF_HEADER_LEN][q / 8] == p[..CRF_HEADER_LEN][q / 8];
    }
    SameField(s, p, 0, 8);
    SameField(s, p, 9, 3);
    forall f | 0 <= f < |t| ensures ClockHeader(t, s)[f] == ClockHeader(t, p)[f] {
      assert t[f].Fits(0, CRF_HEADER_LEN);
      SameField(s, p, t[f].Start(0), t[f].bits);
    }
  }
}
