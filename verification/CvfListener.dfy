/** The video listener: checks each packet it receives and schedules the unit in
    it. */
module CvfListener {
  import opened Words
  import opened Octets
  import opened ByteOrder
  import opened FieldSpec
  import opened FieldEngine
  import opened HeaderTables
  import opened HeaderRecord
  import opened StartCodes
  import opened CvfPdu
  import opened Timestamps
  import opened Presentation

  /** The packet passes all checks up to that of its sequence number. */
  predicate Numbered(t: VideoTable, p: seq<uint8>)
  {
    && |p| >= CVF_HEADER_LEN && Subtype(p, 0) == SUBTYPE_CVF && Version(p, 0) == 0
    && var h := VideoHeader(t, p);
       h[CSH_STREAM_DATA_LENGTH] <= |p| - CVF_HEADER_LEN && h[CSH_TV] == 1 && h[CSH_STREAM_ID] == STREAM_ID
  }

  /** The listener: what it has scheduled, the sequence number it expects, and the number of
      mismatches it has reported. */
  datatype View = View(sched: State, expected: uint8, reports: nat)

  /** expected_seq is resynchronised on a mismatch, and counts on in 8 bits. */
  function CountPacket(t: VideoTable, v: View, p: seq<uint8>): View
  {
    if !Numbered(t, p) then v
    else
      StampFits(t, p);
      var seqNum := VideoHeader(t, p)[CSH_SEQUENCE_NUM];
      v.(expected := Next8(seqNum), reports := v.reports + (if seqNum != v.expected then 1 else 0))
  }

  /** The queue entry of a unit received when the clock shows `clock`. */
  function Scheduled(clock: nat, unit: Bytes, time: uint32): Entry {
    Entry(ToTimespec(Recover(clock % TWO_64, time)), unit)
  }

  /** An accepted unit is scheduled for the time its packet gives, recovered from the clock. */
  function Deliver(v: View, r: Parsed): View {
    match r
    case Rejected => v
    case Packet(unit, time, _) =>
      v.(sched := Step(v.sched, Accept(Scheduled(v.sched.clock, unit, time))))
  }

  /** What the listener has become once it has received packet p. */
  function Receive(t: VideoTable, v: View, p: seq<uint8>): View
  {
    Deliver(CountPacket(t, v, p), Parse(t, p))
  }

  /** One header field read from the packet buffer. */
  method ReadHeaderField(host: Host, t: VideoTable, pdu: array<uint8>, f: uint8) returns (v: uint64)
    requires pdu.Length >= CVF_HEADER_LEN && f < |t|
    ensures v == VideoHeader(t, pdu[..])[f]
  {
    Place(t, CVF_HEADER_LEN, 0, pdu.Length);
    v := GetField(host, t, pdu, 0, f);
  }

  lemma SamePrefix(t: VideoTable, s: seq<uint8>, n: nat)
    requires CVF_HEADER_LEN <= n <= |s|
    ensures Subtype(s, 0) == Subtype(s[..n], 0) && Version(s, 0) == Version(s[..n], 0)
    ensures VideoHeader(t, s) == VideoHeader(t, s[..n])
  {
    SameHeader(t, s, s[..n]);
  }

  /** The checks of is_valid_packet up to that of the sequence number. A version 1 packet is rejected
      whatever Avtp_Cvf_IsValid makes of it, since only version 0 is expected. */
  method IsNumbered(host: Host, t: VideoTable, pdu: array<uint8>, received: nat) returns (numbered: bool)
    requires CVF_HEADER_LEN <= pdu.Length && received <= pdu.Length
    ensures numbered == Numbered(t, pdu[..received])
  {
    var subtype := GetSubtype(host, pdu, 0);
    if received < CVF_HEADER_LEN { return false; }
    SamePrefix(t, pdu[..], received);
    if subtype != SUBTYPE_CVF { return false; }
    var version := GetVersion(host, pdu, 0);
    if version != 0 { return false; }
    var length := ReadHeaderField(host, t, pdu, CSH_STREAM_DATA_LENGTH);
    if length > received - CVF_HEADER_LEN { return false; }
    var tv := ReadHeaderField(host, t, pdu, CSH_TV);
    if tv != 1 { return false; }
    var streamId := ReadHeaderField(host, t, pdu, CSH_STREAM_ID);
    return streamId == STREAM_ID;
  }

  /** The format checks that follow. */
  predicate HasFormat(t: VideoTable, p: seq<uint8>)
    requires |p| >= CVF_HEADER_LEN
  {
    VideoHeader(t, p)[CVF_FORMAT] == FORMAT_RFC && VideoHeader(t, p)[CVF_FORMAT_SUBTYPE] == SUBTYPE_H264
  }

  /** A packet yields a unit exactly when it passes all checks and has room for the H.264 header. */
  predicate Acceptable(t: VideoTable, p: seq<uint8>)
  {
    Numbered(t, p) && HasFormat(t, p) && VideoHeader(t, p)[CSH_STREAM_DATA_LENGTH] >= H264_HEADER_LEN
  }

  lemma Refused(t: VideoTable, p: seq<uint8>)
    ensures Parse(t, p) == Rejected <==> !Acceptable(t, p)
  {
  }

  lemma Granted(t: VideoTable, p: seq<uint8>, length: nat, time: uint32, seqNum: uint8)
    requires Acceptable(t, p) && length == VideoHeader(t, p)[CSH_STREAM_DATA_LENGTH]
    requires time == VideoHeader(t, p)[CSH_AVTP_TIMESTAMP] && seqNum == VideoHeader(t, p)[CSH_SEQUENCE_NUM]
    ensures Parse(t, p) == Packet(p[FULL_HEADER_LEN..CVF_HEADER_LEN + length], time, seqNum)
  {
  }

  class Listener {
    const host: Host
    const table: VideoTable
    const scheduler: Scheduler
    var expectedSeq: uint8
    var reports: nat

    ghost predicate Valid()
      reads scheduler
    {
      scheduler.Valid()
    }

    function Now(): View
      reads this, scheduler
    {
      View(scheduler.View(), expectedSeq, reports)
    }

    constructor (host: Host, table: VideoTable)
      ensures Valid() && fresh(scheduler) && Now() == View(IDLE, 0, 0) && this.table == table
    {
      this.host, this.table := host, table;
      scheduler := new Scheduler();
      expectedSeq, reports := 0, 0;
    }

    /** The resynchronisation in is_valid_packet. */
    method CountNumber(sequenceNum: uint8)
      modifies this
      ensures expectedSeq == Next8(sequenceNum)
      ensures reports == old(reports) + (if sequenceNum != old(expectedSeq) then 1 else 0)
    {
      if sequenceNum != expectedSeq {
        reports := reports + 1;
        expectedSeq := sequenceNum;
      }
      expectedSeq := Next8(expectedSeq);
    }

    /** is_valid_packet: `received` is what the packet buffer holds of a packet. */
    method IsValidPacket(pdu: array<uint8>, received: nat) returns (valid: bool)
      requires CVF_HEADER_LEN <= pdu.Length && received <= pdu.Length
      modifies this
      ensures Now() == CountPacket(table, old(Now()), pdu[..received])
      ensures valid == (Numbered(table, pdu[..received]) && HasFormat(table, pdu[..received]))
    {
      valid := IsNumbered(host, table, pdu, received);
      if !valid { return; }
      SamePrefix(table, pdu[..], received);
      var sequenceNum := ReadHeaderField(host, table, pdu, CSH_SEQUENCE_NUM);
      StampFits(table, pdu[..]);
      CountNumber(sequenceNum);
      var format := ReadHeaderField(host, table, pdu, CVF_FORMAT);
      var formatSubtype := ReadHeaderField(host, table, pdu, CVF_FORMAT_SUBTYPE);
      valid := format == FORMAT_RFC && formatSubtype == SUBTYPE_H264;
    }

    /** new_packet: recv leaves the packet at the front of a buffer of MAX_PDU_SIZE octets. */
    method NewPacket(packet: seq<uint8>)
      requires Valid() && |packet| <= MAX_PDU_SIZE
      modifies this, scheduler
      ensures Valid() && Now() == Receive(table, old(Now()), packet)
    {
      var cvf := new uint8[MAX_PDU_SIZE](_ => 1);
      CopyIn(cvf, 0, packet);
      assert cvf[..|packet|] == packet;
      var valid := IsValidPacket(cvf, |packet|);
      Refused(table, packet);
      if !valid { return; }
      SamePrefix(table, cvf[..], |packet|);
      StampFits(table, packet);
      var length := ReadHeaderField(host, table, cvf, CSH_STREAM_DATA_LENGTH);
      if length < H264_HEADER_LEN { return; }
      var avtpTime := ReadHeaderField(host, table, cvf, CSH_AVTP_TIMESTAMP);
      Granted(table, packet, length, avtpTime, VideoHeader(table, packet)[CSH_SEQUENCE_NUM]);
      SlicePrefix(cvf[..], |packet|, FULL_HEADER_LEN, CVF_HEADER_LEN + length);
      ScheduleNal(avtpTime, cvf[FULL_HEADER_LEN..CVF_HEADER_LEN + length],
                  VideoHeader(table, packet)[CSH_SEQUENCE_NUM]);
    }

    /** The end of new_packet: the time is recovered and the unit scheduled. */
    method ScheduleNal(avtpTime: uint32, unit: Bytes, ghost seqNum: uint8)
      requires Valid()
      modifies scheduler
      ensures Valid() && Now() == Deliver(old(Now()), Packet(unit, avtpTime, seqNum))
    {
      var tspec := GetPresentationTime(avtpTime, ToTimespec(scheduler.clock));
      scheduler.Schedule(tspec, unit);
    }
  }

  lemma SlicePrefix(s: seq<uint8>, n: nat, from: nat, to: nat)
    requires from <= to <= n <= |s|
    ensures s[from..to] == s[..n][from..to]
  {
  }
}
