/** The CVF packet that carries one H.264 unit, as the talker fills it and the
    listener reads it. */
module CvfPdu {
  import opened Words
  import opened ByteOrder
  import opened FieldSpec
  import opened FieldEngine
  import opened HeaderTables
  import opened HeaderRecord

  const STREAM_ID: uint64 := 0xAABB_CCDD_EEFF_0001
  const DATA_LEN := 1400
  const CVF_HEADER_LEN := 24
  const H264_HEADER_LEN := 4
  const FULL_HEADER_LEN := 28
  const MAX_PDU_SIZE := 1428
  const FORMAT_RFC := 2
  const SUBTYPE_H264 := 1

  /** What this module uses of the header table. */
  predicate IsVideoTable(t: Table) {
    && |t| == 20 && FormatTable(t) && Within(t, CVF_HEADER_LEN)
    && t[CSH_SV].bits == t[CSH_TV].bits == t[CVF_M].bits == t[CVF_PTV].bits == 1
    && t[CSH_SEQUENCE_NUM].bits == 8 && t[CSH_STREAM_ID].bits == 64
    && t[CSH_AVTP_TIMESTAMP].bits == 32 && t[CSH_STREAM_DATA_LENGTH].bits == 16
    && t[CVF_FORMAT].bits == 8 && t[CVF_FORMAT_SUBTYPE].bits == 8
  }

  type VideoTable = t: Table | IsVideoTable(t) witness VideoTableV0()

  /** The table in use. */
  function VideoTableV0(): (t: Table)
    ensures t == CVF_V0 && IsVideoTable(t)
  {
    CvfIsVideoTable();
    CVF_V0
  }

  lemma CvfIsVideoTable()
    ensures IsVideoTable(CVF_V0)
  {
    CvfV0Format();
    CvfWidths();
  }

  lemma CvfWidths()
    ensures var t := CVF_V0;
      && |t| == 20
      && t[CSH_SV].bits == t[CSH_TV].bits == t[CVF_M].bits == t[CVF_PTV].bits == 1
      && t[CSH_SEQUENCE_NUM].bits == 8 && t[CSH_STREAM_ID].bits == 64
      && t[CSH_AVTP_TIMESTAMP].bits == 32 && t[CSH_STREAM_DATA_LENGTH].bits == 16
      && t[CVF_FORMAT].bits == 8 && t[CVF_FORMAT_SUBTYPE].bits == 8
  {
  }

  /** The values of the header fields of a packet. */
  function VideoHeader(t: VideoTable, s: seq<uint8>): (r: Record)
    requires |s| >= CVF_HEADER_LEN
    ensures |r| == 20
  {
    Place(t, CVF_HEADER_LEN, 0, |s|);
    Fields(t, s, 0)
  }

  function With(t: VideoTable, s: seq<uint8>, f: nat, v: nat): (r: seq<uint8>)
    requires |s| >= CVF_HEADER_LEN
    ensures |r| == |s|
  {
    Set(t, s, 0, f, v)
  }

  lemma WithAssigns(t: VideoTable, s: seq<uint8>, f: nat, v: nat)
    requires |s| >= CVF_HEADER_LEN && f < |t|
    requires FitsWidth(v, t[f].bits)
    ensures VideoHeader(t, With(t, s, f, v)) == VideoHeader(t, s)[f := v]
    ensures Version(With(t, s, f, v), 0) == Version(s, 0) && Subtype(With(t, s, f, v), 0) == Subtype(s, 0)
  {
    Place(t, CVF_HEADER_LEN, 0, |s|);
    SetStores(t, s, 0, f, v);
  }

  /** A header setter of the version 0 table, as an assignment to the record. */
  method SetHeaderField(host: Host, t: VideoTable, pdu: array<uint8>, f: uint8, v: uint64)
    requires pdu.Length >= CVF_HEADER_LEN && f < |t| && FitsWidth(v, t[f].bits)
    modifies pdu
    ensures VideoHeader(t, pdu[..]) == old(VideoHeader(t, pdu[..]))[f := v]
    ensures Version(pdu[..], 0) == old(Version(pdu[..], 0)) && Subtype(pdu[..], 0) == old(Subtype(pdu[..], 0))
  {
    WithAssigns(t, pdu[..], f, v);
    Place(t, CVF_HEADER_LEN, 0, pdu.Length);
    SetField(host, t, pdu, 0, f, v);
  }

  /** The header as init_pdu leaves it. */
  function InitialVideo(): (r: Record)
    ensures |r| == 20
  {
    ZeroRecord(20)[CVF_FORMAT := FORMAT_RFC][CSH_SV := 1][CVF_FORMAT_SUBTYPE := SUBTYPE_H264][CSH_TV := 1]
      [CSH_STREAM_ID := STREAM_ID][CVF_M := 1][CVF_PTV := 0]
  }

  /** init_pdu: clears the header, and fixes what all packets of the stream share. */
  method InitPdu(host: Host, t: VideoTable, pdu: array<uint8>)
    requires pdu.Length >= FULL_HEADER_LEN
    modifies pdu
    ensures Subtype(pdu[..], 0) == SUBTYPE_CVF && Version(pdu[..], 0) == 0 && VideoHeader(t, pdu[..]) == InitialVideo()
    ensures pdu[CVF_HEADER_LEN..FULL_HEADER_LEN] == [0, 0, 0, 0]
    ensures Ready(t, pdu[..])
  {
    ClearHeader(host, t, pdu);
    SetHeaderField(host, t, pdu, CVF_FORMAT, FORMAT_RFC);
    SetHeaderField(host, t, pdu, CSH_SV, 1);
    SetHeaderField(host, t, pdu, CVF_FORMAT_SUBTYPE, SUBTYPE_H264);
    SetHeaderField(host, t, pdu, CSH_TV, 1);
    SetHeaderField(host, t, pdu, CSH_STREAM_ID, STREAM_ID);
    SetHeaderField(host, t, pdu, CVF_M, 1);
    SetHeaderField(host, t, pdu, CVF_PTV, 0);
    ClearH264Header(t, pdu);
  }

  /** The memset and SetSubtype of Avtp_Cvf_InitV0. */
  method ClearHeader(host: Host, t: VideoTable, pdu: array<uint8>)
    requires pdu.Length >= CVF_HEADER_LEN
    modifies pdu
    ensures Version(pdu[..], 0) == 0 && Subtype(pdu[..], 0) == SUBTYPE_CVF && VideoHeader(t, pdu[..]) == ZeroRecord(20)
  {
    ghost var s := pdu[..];
    ClearedVideo(t, s);
    Memset0(pdu, 0, CVF_HEADER_LEN);
    ZeroedField(s, 0, CVF_HEADER_LEN, 9, 3);
    ghost var zeroed := pdu[..];
    SetSubtype(host, pdu, 0, SUBTYPE_CVF);
    SubtypeWritten(zeroed, 0, SUBTYPE_CVF);
  }

  lemma ClearedVideo(t: VideoTable, s: seq<uint8>)
    requires |s| >= CVF_HEADER_LEN
    ensures VideoHeader(t, Put(Zeroed(s, 0, CVF_HEADER_LEN), 0, 8, SUBTYPE_CVF)) == ZeroRecord(20)
  {
    ClearedFields(t, s, 0, CVF_HEADER_LEN);
    FieldsApart(t, Zeroed(s, 0, CVF_HEADER_LEN), 0, SUBTYPE, SUBTYPE_CVF);
  }

  /** Avtp_H264_Init; its timestamp stays zero. */
  method ClearH264Header(t: VideoTable, pdu: array<uint8>)
    requires pdu.Length >= FULL_HEADER_LEN
    modifies pdu
    ensures pdu[CVF_HEADER_LEN..FULL_HEADER_LEN] == [0, 0, 0, 0]
    ensures Subtype(pdu[..], 0) == old(Subtype(pdu[..], 0)) && Version(pdu[..], 0) == old(Version(pdu[..], 0))
    ensures VideoHeader(t, pdu[..]) == old(VideoHeader(t, pdu[..]))
  {
    ghost var s := pdu[..];
    Memset0(pdu, CVF_HEADER_LEN, H264_HEADER_LEN);
    SameHeader(t, s, pdu[..]);
  }

  /** What initialisation fixes once for all packets of the stream. */
  predicate ReadyHeader(r: Record)
    requires |r| == 20
  {
    && r[CSH_TV] == 1 && r[CSH_STREAM_ID] == STREAM_ID
    && r[CVF_FORMAT] == FORMAT_RFC && r[CVF_FORMAT_SUBTYPE] == SUBTYPE_H264
  }

  predicate Ready(t: VideoTable, s: seq<uint8>)
    requires |s| >= CVF_HEADER_LEN
  {
    Subtype(s, 0) == SUBTYPE_CVF && Version(s, 0) == 0 && ReadyHeader(VideoHeader(t, s))
  }

  lemma StampFits(t: VideoTable, p: seq<uint8>)
    requires |p| >= CVF_HEADER_LEN
    ensures VideoHeader(t, p)[CSH_AVTP_TIMESTAMP] < 0x1_0000_0000 && VideoHeader(t, p)[CSH_SEQUENCE_NUM] < 0x100
  {
    Place(t, CVF_HEADER_LEN, 0, |p|);
    Pow2Values();
    FieldBound(p, t[CSH_AVTP_TIMESTAMP].Start(0), 32);
    FieldBound(p, t[CSH_SEQUENCE_NUM].Start(0), 8);
  }

  /** What the listener makes of a packet: a unit with its time and sequence number, or nothing. */
  datatype Parsed = Rejected | Packet(unit: seq<uint8>, time: uint32, seqNum: uint8)

  function Parse(t: VideoTable, p: seq<uint8>): (r: Parsed)
    ensures r.Packet? && |p| <= MAX_PDU_SIZE ==> |r.unit| <= DATA_LEN
  {
    if |p| < CVF_HEADER_LEN || !Ready(t, p) then Rejected
    else
      var h := VideoHeader(t, p);
      var length := h[CSH_STREAM_DATA_LENGTH];
      if length > |p| - CVF_HEADER_LEN || length < H264_HEADER_LEN then Rejected
      else
        StampFits(t, p);
        Packet(p[FULL_HEADER_LEN..CVF_HEADER_LEN + length], h[CSH_AVTP_TIMESTAMP], h[CSH_SEQUENCE_NUM])
  }

  /** The packet buffer after prepare_packet's three setters. */
  function Prepared(t: VideoTable, s: seq<uint8>, time: nat, seqNum: nat, length: nat): (r: seq<uint8>)
    requires |s| >= CVF_HEADER_LEN
    ensures |r| == |s|
  {
    With(t, With(t, With(t, s, CSH_AVTP_TIMESTAMP, time), CSH_SEQUENCE_NUM, seqNum),
         CSH_STREAM_DATA_LENGTH, length + H264_HEADER_LEN)
  }

  lemma PreparedHeader(t: VideoTable, s: seq<uint8>, time: uint32, seqNum: uint8, length: nat)
    requires |s| >= CVF_HEADER_LEN && length <= DATA_LEN
    ensures VideoHeader(t, Prepared(t, s, time, seqNum, length)) == VideoHeader(t, s)
      [CSH_AVTP_TIMESTAMP := time][CSH_SEQUENCE_NUM := seqNum][CSH_STREAM_DATA_LENGTH := length + H264_HEADER_LEN]
    ensures Version(Prepared(t, s, time, seqNum, length), 0) == Version(s, 0)
    ensures Subtype(Prepared(t, s, time, seqNum, length), 0) == Subtype(s, 0)
  {
    var a := With(t, s, CSH_AVTP_TIMESTAMP, time);
    WithAssigns(t, s, CSH_AVTP_TIMESTAMP, time);
    var b := With(t, a, CSH_SEQUENCE_NUM, seqNum);
    WithAssigns(t, a, CSH_SEQUENCE_NUM, seqNum);
    WithAssigns(t, b, CSH_STREAM_DATA_LENGTH, length + H264_HEADER_LEN);
  }

  lemma PreparedIsReady(t: VideoTable, s: seq<uint8>, time: uint32, seqNum: uint8, length: nat)
    requires |s| >= CVF_HEADER_LEN && Ready(t, s) && length <= DATA_LEN
    ensures Ready(t, Prepared(t, s, time, seqNum, length))
  {
    PreparedHeader(t, s, time, seqNum, length);
  }

  /** A packet says what its first 24 octets say. */
  lemma SameHeader(t: VideoTable, s: seq<uint8>, p: seq<uint8>)
    requires |s| >= CVF_HEADER_LEN && |p| >= CVF_HEADER_LEN
    requires s[..CVF_HEADER_LEN] == p[..CVF_HEADER_LEN]
    ensures Subtype(s, 0) == Subtype(p, 0) && Version(s, 0) == Version(p, 0) && VideoHeader(t, s) == VideoHeader(t, p)
  {
    forall q: nat | q < 8 * CVF_HEADER_LEN ensures BitAt(s, q) == BitAt(p, q) {
      assert s[q / 8] == s[..CVF_HEADER_LEN][q / 8] == p[..CVF_HEADER_LEN][q / 8];
    }
    SameField(s, p, 0, 8);
    SameField(s, p, 9, 3);
    forall f | 0 <= f < |t| ensures VideoHeader(t, s)[f] == VideoHeader(t, p)[f] {
      SameField(s, p, t[f].Start(0), t[f].bits);
    }
  }

  lemma PreparedPacket(t: VideoTable, s: seq<uint8>, p: seq<uint8>, unit: seq<uint8>, time: uint32, seqNum: uint8)
    requires |s| >= CVF_HEADER_LEN && Ready(t, s) && |unit| <= DATA_LEN
    requires |p| == FULL_HEADER_LEN + |unit| && p[FULL_HEADER_LEN..] == unit
    requires p[..CVF_HEADER_LEN] == Prepared(t, s, time, seqNum, |unit|)[..CVF_HEADER_LEN]
    ensures Parse(t, p) == Packet(unit, time, seqNum)
  {
    PreparedHeader(t, s, time, seqNum, |unit|);
    PreparedIsReady(t, s, time, seqNum, |unit|);
    SameHeader(t, Prepared(t, s, time, seqNum, |unit|), p);
    assert p[FULL_HEADER_LEN..CVF_HEADER_LEN + |unit| + H264_HEADER_LEN] == unit;
  }
}
