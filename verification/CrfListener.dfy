/** The listener of the clock reference stream: it recovers the media clock and
    checks the audio stream against it. */
module CrfListener {
  import opened Words
  import opened Octets
  import opened ByteOrder
  import opened FieldSpec
  import opened FieldEngine
  import opened HeaderTables
  import opened HeaderRecord
  import opened CrfPdu
  import opened Timestamps
  import opened MediaClock
  import opened ClockLookup

  // ---------- Alignment ----------

  /** The sample period of the reference stream in nanoseconds. */
  const TIME_PERIOD_NS: real := 1_000_000_000.0 / 48_000.0

  /** The conversion of a floating point number to an integer: towards zero. */
  function ToInt(x: real): int {
    if x >= 0.0 then x.Floor else -((-x).Floor)
  }

  /** A 32-bit difference taken as a signed number. */
  function Signed32(x: int): int {
    var r := x % TWO_32;
    if r < 0x8000_0000 then r else r - TWO_32
  }

  /** Equation 16 of IEEE 1722 with n = 0: less than a quarter period apart. */
  predicate Equation16(mclkTs: int, avtpTs: int) {
    -(TIME_PERIOD_NS / 4.0) < Signed32(avtpTs - mclkTs) as real < TIME_PERIOD_NS / 4.0
  }

  /** is_ts_aligned. */
  method IsTsAligned(mclkTs: uint32, avtpTs: uint32) returns (r: bool)
    ensures r <==> Equation16(mclkTs, avtpTs)
  {
    var n := 0;
    var tOffset := Signed32(avtpTs - mclkTs);
    var deltaLl := ToInt(n as real * TIME_PERIOD_NS - TIME_PERIOD_NS / 4.0);
    var deltaHl := ToInt(n as real * TIME_PERIOD_NS + TIME_PERIOD_NS / 4.0);
    QuarterPeriod();
    if deltaLl > tOffset || tOffset > deltaHl { return false; }
    return true;
  }

  lemma QuarterPeriod()
    ensures (TIME_PERIOD_NS / 4.0).Floor == 5208
  {
    assert 5208.0 <= TIME_PERIOD_NS / 4.0 < 5209.0;
  }

  // ---------- Audio packets on a contiguous clock ----------

  /** What an audio packet with that time makes of the clock. */
  function AafStep(s: State, avtpTime: uint32): State {
    if s.needLookup then Ticks(s, Remaining(s.queue, s.prev, avtpTime)).(needLookup := false) else Tick(s)
  }

  datatype Arrival = Aaf(avtpTime: uint32) | Crf(base: nat)

  function Arrived(s: State, e: Arrival): State {
    match e
    case Aaf(avtpTime) => AafStep(s, avtpTime)
    case Crf(base) => Recovered(s, base)
  }

  /** The audio packets carry the times of the clock one after the other, from `at` on; the
      reference packets follow each other without a gap. */
  predicate OnClock(events: seq<Arrival>, at: nat, next: nat)
    decreases |events|
  {
    events == [] ||
    match events[0]
    case Aaf(avtpTime) => avtpTime == at % TWO_32 && OnClock(events[1..], at + MCLK_PERIOD, next)
    case Crf(base) => base == next && OnClock(events[1..], at, next + CRF_SPAN)
  }

  /** Every lookup ends with the first timestamp it draws, and every audio packet is found aligned. */
  ghost predicate AllAligned(s: State, events: seq<Arrival>)
    decreases |events|
  {
    events == [] ||
    ((events[0].Aaf? ==>
      && (s.needLookup ==>
            Findable(s.queue, s.prev, events[0].avtpTime) && Remaining(s.queue, s.prev, events[0].avtpTime) == 1)
      && Equation16(AafStep(s, events[0].avtpTime).prev % TWO_32, events[0].avtpTime))
    && AllAligned(Arrived(s, events[0]), events[1..]))
  }

  lemma SameTimeAligned(t: int)
    ensures Equation16(t, t)
  {
    QuarterPeriod();
  }

  /** An audio packet that is next on the clock draws exactly one timestamp, lookup or not. */
  lemma AafInStream(s: State, at: nat, ahead: int)
    requires InStream(s, at, ahead) && at < TWO_64
    ensures s.needLookup ==> Findable(s.queue, s.prev, at % TWO_32) && Remaining(s.queue, s.prev, at % TWO_32) == 1
    ensures AafStep(s, at % TWO_32).prev == at && InStream(AafStep(s, at % TWO_32), at + MCLK_PERIOD, ahead - 1)
  {
    DrawInStream(s, at, ahead);
    if ahead > 0 {
      GridFront(at, ahead);
    } else {
      NextMatches(s, at % TWO_32);
      HitsReachable(s.prev, at % TWO_32, 1);
      OneDrawCloser(s, at % TWO_32);
    }
    assert Ticks(s, 1) == Tick(s) by { assert Ticks(s, 0) == s; }
  }

  /** An audio stream on the media clock is found aligned packet after packet, through late reference
      packets and stretches without any, and every lookup this causes ends at once. */
  lemma {:induction false} StaysAligned(s: State, at: nat, ahead: int, next: nat, events: seq<Arrival>)
    requires InStream(s, at, ahead) && next == at + ahead * MCLK_PERIOD && OnClock(events, at, next)
    requires at + |events| * MCLK_PERIOD <= TWO_64 && next + |events| * CRF_SPAN <= TWO_64
    ensures AllAligned(s, events)
    decreases |events|
  {
    if events == [] {
    } else if events[0].Aaf? {
      AafInStream(s, at, ahead);
      SameTimeAligned(at % TWO_32);
      StaysAligned(AafStep(s, at % TWO_32), at + MCLK_PERIOD, ahead - 1, next, events[1..]);
    } else {
      PacketInStream(s, at, ahead, next);
      StaysAligned(Recovered(s, next), at, ahead + TS_PER_CRF, next + CRF_SPAN, events[1..]);
    }
  }

  lemma {:induction false} TicksInStream(s: State, at: nat, ahead: int, k: nat)
    requires InStream(s, at, ahead) && at + k * MCLK_PERIOD <= TWO_64
    ensures InStream(Ticks(s, k), at + k * MCLK_PERIOD, ahead - k)
    ensures k > 0 ==> Ticks(s, k).prev == at + (k - 1) * MCLK_PERIOD
  {
    if k > 0 {
      TicksInStream(s, at, ahead, k - 1);
      DrawInStream(Ticks(s, k - 1), at + (k - 1) * MCLK_PERIOD, ahead - (k - 1));
    }
  }

  // ---------- Reference packets ----------

  /** The packet passes all checks up to that of its sequence number. */
  predicate Numbered(t: ClockTable, p: seq<uint8>)
  {
    && |p| == CRF_PDU_SIZE && Subtype(p, 0) == SUBTYPE_CRF && Version(p, 0) == 0
    && var h := ClockHeader(t, p);
       h[CRF_DATA_LENGTH] != 0 && h[CRF_DATA_LENGTH] % 8 == 0 && CRF_HEADER_LEN + h[CRF_DATA_LENGTH] <= CRF_PDU_SIZE
       && h[CRF_SV] == 1 && h[CRF_FS] == 0
  }

  /** The checks that follow. */
  predicate HasRate(t: ClockTable, p: seq<uint8>)
    requires |p| == CRF_PDU_SIZE
  {
    var h := ClockHeader(t, p);
    && h[CRF_TYPE] == TYPE_AUDIO_SAMPLE && h[CRF_STREAM_ID] == REFERENCE_STREAM_ID && h[CRF_PULL] == PULL_MULT_BY_1
    && h[CRF_BASE_FREQUENCY] == CRF_SAMPLE_RATE && h[CRF_DATA_LENGTH] == CRF_DATA_LEN
  }

  lemma ReadyExactly(t: ClockTable, p: seq<uint8>)
    requires |p| == CRF_PDU_SIZE
    ensures ReadyClock(t, p) <==> Numbered(t, p) && HasRate(t, p)
  {
  }

  lemma ClockNumberFits(t: ClockTable, p: seq<uint8>)
    requires |p| >= CRF_HEADER_LEN
    ensures ClockHeader(t, p)[CRF_SEQUENCE_NUM_LSB] < 0x100
  {
    Place(t, CRF_HEADER_LEN, 0, |p|);
    Pow2Values();
    FieldBound(p, t[CRF_SEQUENCE_NUM_LSB].Start(0), 8);
  }

  /** The number expected next: that of a numbered packet plus one, whether or not it was the one expected. */
  function NextExpected(t: ClockTable, p: seq<uint8>, expected: uint8): nat
  {
    if Numbered(t, p) then (ClockHeader(t, p)[CRF_SEQUENCE_NUM_LSB] + 1) % 0x100 else expected
  }

  /** The mismatches a packet makes the listener report. */
  function Mismatches(t: ClockTable, p: seq<uint8>, expected: uint8): nat
  {
    if Numbered(t, p) && ClockHeader(t, p)[CRF_SEQUENCE_NUM_LSB] != expected then 1 else 0
  }

  /** One header field read from the packet buffer. */
  method ReadClockField(host: Host, t: ClockTable, pdu: array<uint8>, f: uint8) returns (v: uint64)
    requires pdu.Length >= CRF_HEADER_LEN && f < |t|
    ensures v == ClockHeader(t, pdu[..])[f]
  {
    Place(t, CRF_HEADER_LEN, 0, pdu.Length);
    v := GetField(host, t, pdu, 0, f);
  }

  /** The checks of is_valid_crf_pdu up to that of the sequence number. A version 1 packet is rejected
      whatever Avtp_Crf_IsValid makes of it, since only version 0 is expected. */
  method IsNumbered(host: Host, t: ClockTable, pdu: array<uint8>) returns (numbered: bool)
    requires pdu.Length == CRF_PDU_SIZE
    ensures numbered == Numbered(t, pdu[..])
  {
    var subtype := GetSubtype(host, pdu, 0);
    if subtype != SUBTYPE_CRF { return false; }
    var version := GetVersion(host, pdu, 0);
    if version != 0 { return false; }
    var length := ReadClockField(host, t, pdu, CRF_DATA_LENGTH);
    if length == 0 || length % 8 != 0 { return false; }
    if CRF_HEADER_LEN > CRF_PDU_SIZE - length { return false; }
    var sv := ReadClockField(host, t, pdu, CRF_SV);
    if sv != 1 { return false; }
    var fs := ReadClockField(host, t, pdu, CRF_FS);
    return fs == 0;
  }

  method CheckRate(host: Host, t: ClockTable, pdu: array<uint8>) returns (ok: bool)
    requires pdu.Length == CRF_PDU_SIZE
    ensures ok == HasRate(t, pdu[..])
  {
    var kind := ReadClockField(host, t, pdu, CRF_TYPE);
    if kind != TYPE_AUDIO_SAMPLE { return false; }
    var streamId := ReadClockField(host, t, pdu, CRF_STREAM_ID);
    if streamId != REFERENCE_STREAM_ID { return false; }
    var pull := ReadClockField(host, t, pdu, CRF_PULL);
    if pull != PULL_MULT_BY_1 { return false; }
    var baseFrequency := ReadClockField(host, t, pdu, CRF_BASE_FREQUENCY);
    if baseFrequency != CRF_SAMPLE_RATE { return false; }
    var length := ReadClockField(host, t, pdu, CRF_DATA_LENGTH);
    return length == CRF_DATA_LEN;
  }

  /** be64toh of the first eight octets of the payload. */
  method FirstTimestamp(pdu: array<uint8>) returns (ts: uint64)
    requires pdu.Length == CRF_PDU_SIZE
    ensures ts == Timestamp(pdu[..], 0)
  {
    TimestampFits(pdu[..], 0);
    assert pdu[..][20..28] == pdu[20..28];
    ts := FromOctets(pdu[20..28]);
  }

  /** An audio packet sent: its time and its number. */
  datatype AafStamp = AafStamp(time: uint32, seqNum: uint8)

  /** The audio packets for n expirations of the timer. */
  function AafStamps(s: State, n: nat, seqNum: nat): seq<AafStamp> {
    if n == 0 then [] else AafStamps(s, n - 1, seqNum) + [AafStamp(Ticks(s, n).prev % TWO_32, (seqNum + n - 1) % 0x100)]
  }

  /** The clock after a reference packet. */
  function Heard(t: ClockTable, s: State, p: seq<uint8>, shift: nat): State
  {
    match ParseClock(t, p)
    case Ignored => s
    case Reference(base, _) => Recovered(s, base + shift)
  }

  lemma HeardNothing(t: ClockTable, s: State, p: seq<uint8>, shift: nat)
    requires |p| == CRF_PDU_SIZE
    ensures !ReadyClock(t, p) ==> Heard(t, s, p, shift) == s
  {
  }

  lemma HeardReference(t: ClockTable, s: State, p: seq<uint8>, shift: nat)
    requires |p| == CRF_PDU_SIZE && ReadyClock(t, p)
    ensures Heard(t, s, p, shift) == Recovered(s, Timestamp(p, 0) + shift)
  {
  }

  // ---------- The listener ----------

  class Clock {
    const host: Host
    const table: ClockTable
    const talkerMode: bool
    const roundedMtt: uint64
    var queue: seq<uint64>
    var prev: uint64
    var needLookup: bool
    var aligned: bool            // whether the last audio packet was
    var messages: seq<bool>      // changes of that, as reported
    var crfSeqNum: uint8
    var reports: nat             // mismatches of the reference sequence number, as reported
    var aafSeqNum: uint8
    var aafSent: seq<AafStamp>
    var firstPdu: bool
    var timerStart: Timespec     // when the transmission timer starts, once it has been set

    function View(): State
      reads this
    {
      State(queue, prev, needLookup)
    }

    constructor (host: Host, table: ClockTable, talkerMode: bool, roundedMtt: uint64)
      ensures View() == State([], 0, true) && this.talkerMode == talkerMode && this.roundedMtt == roundedMtt
      ensures this.table == table && firstPdu && crfSeqNum == aafSeqNum == 0 && aafSent == [] && reports == 0
    {
      this.host, this.table, this.talkerMode, this.roundedMtt := host, table, talkerMode, roundedMtt;
      crfSeqNum, reports, aafSeqNum, aafSent, firstPdu, timerStart := 0, 0, 0, [], true, Timespec(0, 0);
      queue, prev, needLookup, aligned, messages := [], 0, true, false, [];
    }

    /** mclk_dequeue_ts. */
    method DequeueTs() returns (timestamp: uint64)
      requires queue != []
      modifies this`queue
      ensures old(queue) == [timestamp] + queue
    {
      timestamp := queue[0];
      queue := queue[1..];
    }

    /** mclk_enqueue_ts. */
    method EnqueueTs(ts: uint64)
      modifies this`queue
      ensures queue == old(queue) + [ts]
    {
      queue := queue + [ts];
    }

    /** get_next_mclk_timestamp. */
    method GetNext() returns (timestamp: uint64)
      modifies this`queue, this`prev, this`needLookup
      ensures View() == Tick(old(View())) && timestamp == prev
    {
      if queue == [] {
        timestamp := (prev + MCLK_PERIOD) % TWO_64;
        needLookup := true;
      } else {
        timestamp := DequeueTs();
      }
      prev := timestamp;
    }

    /** The maximum transit time that talker mode adds to every recovered timestamp. */
    function Shift(): uint64 {
      if talkerMode then roundedMtt else 0
    }

    /** recover_mclk, for a packet whose first timestamp is tsCrf. */
    method RecoverMclk(tsCrf: uint64)
      modifies this`queue
      ensures View() == Recovered(old(View()), tsCrf + Shift())
    {
      ghost var base, queue0 := tsCrf + Shift(), queue;
      for idx := 0 to TS_PER_CRF
        invariant queue == queue0 + Above(Grid(base, idx), prev)
      {
        var tsMclk: uint64 := (tsCrf + idx * MCLK_PERIOD) % TWO_64;
        if talkerMode {
          WrapTwice(tsCrf, idx * MCLK_PERIOD, roundedMtt);
          tsMclk := (tsMclk + roundedMtt) % TWO_64;
        }
        GridOneMore(base, idx);
        AboveOneMore(Grid(base, idx), tsMclk, prev);
        Regrouped(queue0, Above(Grid(base, idx), prev), if tsMclk <= prev then [] else [tsMclk]);
        if tsMclk <= prev { continue; }
        EnqueueTs(tsMclk);
      }
    }

    /** mclk_lookup; for other times the loop would not end. */
    method Lookup(avtpTime: uint32) returns (timestamp: uint64)
      requires Findable(queue, prev, avtpTime)
      modifies this`queue, this`prev, this`needLookup
      ensures View() == Ticks(old(View()), Remaining(old(queue), old(prev), avtpTime))
      ensures timestamp == prev && Matches(timestamp, avtpTime)
    {
      ghost var s, n, k := View(), Remaining(queue, prev, avtpTime), 1;
      OneDrawCloser(View(), avtpTime);
      timestamp := GetNext();
      assert Ticks(s, 0) == s;
      while timestamp % TWO_32 != avtpTime
        invariant 1 <= k && timestamp == prev && View() == Ticks(s, k)
        invariant if Matches(prev, avtpTime) then n == k
                  else Findable(queue, prev, avtpTime) && Remaining(queue, prev, avtpTime) + k == n
        decreases n - k
      {
        OneDrawCloser(View(), avtpTime);
        timestamp := GetNext();
        k := k + 1;
      }
    }

    /** handle_aaf_pdu, for a valid packet. */
    method HandleAaf(avtpTime: uint32)
      requires needLookup ==> Findable(queue, prev, avtpTime)
      modifies this
      ensures View() == AafStep(old(View()), avtpTime)
      ensures aligned == Equation16(prev % TWO_32, avtpTime)
      ensures old(needLookup) ==> aligned
      ensures messages == old(messages) + (if aligned != old(aligned) then [aligned] else [])
    {
      var mclkTime;
      if needLookup {
        mclkTime := Lookup(avtpTime);
        SameTimeAligned(avtpTime);
        needLookup := false;
      } else {
        mclkTime := GetNext();
      }
      var state := IsTsAligned(mclkTime % TWO_32, avtpTime);
      if aligned != state { messages := messages + [state]; }
      aligned := state;
    }

    /** The resynchronisation in is_valid_crf_pdu. */
    method CountReference(sequenceNum: uint8)
      modifies this`crfSeqNum, this`reports
      ensures crfSeqNum == Next8(sequenceNum)
      ensures reports == old(reports) + (if sequenceNum != old(crfSeqNum) then 1 else 0)
    {
      if sequenceNum != crfSeqNum {
        reports := reports + 1;
        crfSeqNum := sequenceNum;
      }
      crfSeqNum := Next8(crfSeqNum);
    }

    /** is_valid_crf_pdu. */
    method IsValidCrfPdu(pdu: array<uint8>) returns (valid: bool)
      requires pdu.Length == CRF_PDU_SIZE
      modifies this`crfSeqNum, this`reports
      ensures valid == ReadyClock(table, pdu[..])
      ensures crfSeqNum == NextExpected(table, pdu[..], old(crfSeqNum))
      ensures reports == old(reports) + Mismatches(table, pdu[..], old(crfSeqNum))
    {
      ReadyExactly(table, pdu[..]);
      valid := IsNumbered(host, table, pdu);
      if !valid { return; }
      ClockNumberFits(table, pdu[..]);
      var sequenceNum := ReadClockField(host, table, pdu, CRF_SEQUENCE_NUM_LSB);
      CountReference(sequenceNum);
      valid := CheckRate(host, table, pdu);
    }

    /** handle_crf_pdu, for a packet of the right size. */
    method HandleCrf(pdu: array<uint8>)
      requires pdu.Length == CRF_PDU_SIZE
      modifies this`queue, this`crfSeqNum, this`reports
      ensures View() == Heard(table, old(View()), old(pdu[..]), Shift())
      ensures crfSeqNum == NextExpected(table, old(pdu[..]), old(crfSeqNum))
      ensures reports == old(reports) + Mismatches(table, old(pdu[..]), old(crfSeqNum))
    {
      HeardNothing(table, View(), pdu[..], Shift());
      var valid := IsValidCrfPdu(pdu);
      if valid { RecoverFrom(pdu); }
    }

    /** The call of recover_mclk for a valid packet. */
    method RecoverFrom(pdu: array<uint8>)
      requires pdu.Length == CRF_PDU_SIZE && ReadyClock(table, pdu[..])
      modifies this`queue
      ensures View() == Heard(table, old(View()), old(pdu[..]), Shift())
    {
      HeardReference(table, View(), pdu[..], Shift());
      var tsCrf := FirstTimestamp(pdu);
      RecoverMclk(tsCrf);
    }

    /** aaf_talker_recv_pdu: the first packet also starts the transmission timer, for which something
        must have been queued. */
    method RecvPdu(pdu: array<uint8>, n: nat)
      requires pdu.Length == CRF_PDU_SIZE
      requires firstPdu && n == CRF_PDU_SIZE ==> Heard(table, View(), pdu[..], Shift()).queue != []
      modifies this`queue, this`crfSeqNum, this`reports, this`firstPdu, this`timerStart
      ensures n != CRF_PDU_SIZE ==>
        && View() == old(View()) && firstPdu == old(firstPdu) && timerStart == old(timerStart)
        && crfSeqNum == old(crfSeqNum) && reports == old(reports)
      ensures n == CRF_PDU_SIZE ==>
        && !firstPdu && crfSeqNum == NextExpected(table, old(pdu[..]), old(crfSeqNum))
        && reports == old(reports) + Mismatches(table, old(pdu[..]), old(crfSeqNum))
      ensures n == CRF_PDU_SIZE && !old(firstPdu) ==>
        View() == Heard(table, old(View()), old(pdu[..]), Shift()) && timerStart == old(timerStart)
      ensures n == CRF_PDU_SIZE && old(firstPdu) ==>
        var s := Heard(table, old(View()), old(pdu[..]), Shift());
        View() == s.(queue := s.queue[1..]) && timerStart == ToTimespec(s.queue[0])
    {
      if n != CRF_PDU_SIZE { return; }
      HandleCrf(pdu);
      if firstPdu {
        var ts := DequeueTs();
        firstPdu := false;
        timerStart := ToTimespec(ts);
      }
    }

    /** aaf_talker_tx_timeout. */
    method TxTimeout(expirations: nat)
      modifies this`queue, this`prev, this`needLookup, this`aafSeqNum, this`aafSent
      ensures View() == Ticks(old(View()), expirations)
      ensures aafSeqNum == (old(aafSeqNum) + expirations) % 0x100
      ensures aafSent == old(aafSent) + AafStamps(old(View()), expirations, old(aafSeqNum))
    {
      ghost var s, sent, first := View(), aafSent, aafSeqNum;
      SmallMod(first, 0x100);
      for i := 0 to expirations
        invariant View() == Ticks(s, i) && aafSeqNum == (first + i) % 0x100
        invariant aafSent == sent + AafStamps(s, i, first)
      {
        var avtpTime := GetNext();
        aafSent := aafSent + [AafStamp(avtpTime % TWO_32, aafSeqNum)];
        NumberWraps(first + i);
        aafSeqNum := Next8(aafSeqNum);
      }
    }
  }
}
