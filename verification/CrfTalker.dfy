/** The talker of the clock reference stream: every 20 ms a packet with six
    timestamps, from a clock that it advances itself. */
module CrfTalker {
  import opened Words
  import opened Octets
  import opened ByteOrder
  import opened FieldSpec
  import opened FieldEngine
  import opened HeaderTables
  import opened HeaderRecord
  import opened Timestamps
  import opened MediaClock
  import opened CrfPdu

  const TIMESTAMPS_PER_SEC := 300
  const CRF_PERIOD := 3_333_333      // NSEC_PER_SEC / TIMESTAMPS_PER_SEC, in integers
  const TX_INTERVAL := 20_000_000

  // ---------- The clock of the talker ----------

  predicate Normalised(t: Timespec) {
    t.nsec < NSEC_PER_SEC
  }

  /** The clock after a packet has been sent. */
  function Advanced(t: Timespec): Timespec {
    if t.nsec + TX_INTERVAL >= NSEC_PER_SEC then Timespec(t.sec + 1, t.nsec + TX_INTERVAL - NSEC_PER_SEC)
    else Timespec(t.sec, t.nsec + TX_INTERVAL)
  }

  function ClockAfter(start: Timespec, k: nat): Timespec {
    if k == 0 then start else Advanced(ClockAfter(start, k - 1))
  }

  /** The clock stays normalised, and does not drift. */
  lemma {:induction false} NoDrift(start: Timespec, k: nat)
    requires Normalised(start)
    ensures Normalised(ClockAfter(start, k))
    ensures Nanoseconds(ClockAfter(start, k)) == Nanoseconds(start) + k * TX_INTERVAL
  {
    if k > 0 { NoDrift(start, k - 1); }
  }

  /** calculate_crf_timestamp, in nanoseconds before it is cut to 64 bits. */
  function CrfTime(clock: Timespec, mtt: uint64): nat {
    Nanoseconds(clock) + mtt
  }

  /** Timestamp number j of the stream: number j % 6 of packet j / 6. */
  function StreamTime(start: Timespec, mtt: uint64, j: nat): nat {
    CrfTime(ClockAfter(start, j / TIMESTAMPS_PER_PKT), mtt) + CRF_PERIOD * (j % TIMESTAMPS_PER_PKT)
  }

  /** The timestamps lag the ideal ones, 300 a second from the start, by less than 2 ns, and this does
      not add up. In units of 1/300 ns: */
  lemma BoundedLag(start: Timespec, mtt: uint64, j: nat)
    requires Normalised(start)
    ensures 0 <= j * NSEC_PER_SEC - TIMESTAMPS_PER_SEC * (StreamTime(start, mtt, j) - CrfTime(start, mtt))
          < 2 * TIMESTAMPS_PER_SEC
  {
    NoDrift(start, j / TIMESTAMPS_PER_PKT);
  }

  /** They rise strictly, across packets too. */
  lemma StrictlyRising(start: Timespec, mtt: uint64, j: nat)
    requires Normalised(start)
    ensures StreamTime(start, mtt, j) < StreamTime(start, mtt, j + 1)
  {
    BoundedLag(start, mtt, j);
    BoundedLag(start, mtt, j + 1);
  }

  /** Packets follow each other as the media clock recovery needs it: their first timestamps are 160
      clock periods apart. */
  lemma PacketsContiguous(start: Timespec, mtt: uint64, k: nat)
    requires Normalised(start)
    ensures StreamTime(start, mtt, k * TIMESTAMPS_PER_PKT) == CrfTime(start, mtt) + k * CRF_SPAN
    ensures CRF_SPAN == TX_INTERVAL == TS_PER_CRF * MCLK_PERIOD
  {
    NoDrift(start, k);
    QuotientUnique(k * TIMESTAMPS_PER_PKT, TIMESTAMPS_PER_PKT, k, 0);
  }

  // ---------- The packets ----------

  /** What the listener makes of the packets. */
  function ParseEach(t: ClockTable, packets: seq<seq<uint8>>): seq<Parsed>
  {
    if packets == [] then [] else ParseEach(t, packets[..|packets| - 1]) + [ParseClock(t, packets[|packets| - 1])]
  }

  /** The first timestamps of the stream's packets, and numbers from 0 modulo 256. */
  function References(start: Timespec, mtt: uint64, n: nat): (r: seq<Parsed>)
    ensures |r| == n
  {
    if n == 0 then []
    else References(start, mtt, n - 1) + [NthReference(start, mtt, n - 1)]
  }

  /** What packet number k says. */
  function NthReference(start: Timespec, mtt: uint64, k: nat): Parsed {
    Reference(CrfTime(ClockAfter(start, k), mtt) % TWO_64, k % 0x100)
  }

  /** Timestamp number j of the packets sent, six to a packet. */
  function SentTime(sent: seq<seq<uint8>>, j: nat): nat
    requires j < TIMESTAMPS_PER_PKT * |sent| && |sent[j / TIMESTAMPS_PER_PKT]| == CRF_PDU_SIZE
  {
    Timestamp(sent[j / TIMESTAMPS_PER_PKT], j % TIMESTAMPS_PER_PKT)
  }

  ghost predicate AllFull(sent: seq<seq<uint8>>) {
    forall k | 0 <= k < |sent| :: |sent[k]| == CRF_PDU_SIZE
  }

  /** The timestamps sent are those of the stream, in 64 bits. */
  ghost predicate SentInStream(sent: seq<seq<uint8>>, start: Timespec, mtt: uint64) {
    && AllFull(sent)
    && forall j: nat | j < TIMESTAMPS_PER_PKT * |sent| :: SentTime(sent, j) == StreamTime(start, mtt, j) % TWO_64
  }

  lemma StreamGrows(sent: seq<seq<uint8>>, p: seq<uint8>, start: Timespec, mtt: uint64)
    requires SentInStream(sent, start, mtt) && |p| == CRF_PDU_SIZE
    requires Stamped(p, CrfTime(ClockAfter(start, |sent|), mtt) % TWO_64, TIMESTAMPS_PER_PKT)
    ensures SentInStream(sent + [p], start, mtt)
  {
    var all, k := sent + [p], |sent|;
    forall j: nat | j < TIMESTAMPS_PER_PKT * |all| ensures SentTime(all, j) == StreamTime(start, mtt, j) % TWO_64 {
      if j < TIMESTAMPS_PER_PKT * k {
        assert all[j / TIMESTAMPS_PER_PKT] == sent[j / TIMESTAMPS_PER_PKT];
        assert SentTime(sent, j) == StreamTime(start, mtt, j) % TWO_64;
      } else {
        assert j / TIMESTAMPS_PER_PKT == k && all[k] == p;
        StampWraps(CrfTime(ClockAfter(start, k), mtt), CRF_PERIOD * (j % TIMESTAMPS_PER_PKT));
      }
    }
  }

  lemma StampWraps(x: nat, y: nat)
    ensures (x % TWO_64 + y) % TWO_64 == (x + y) % TWO_64
  {
    WrapTwice(x, 0, y);
  }

  lemma {:induction false} StreamRises(start: Timespec, mtt: uint64, i: nat, j: nat)
    requires Normalised(start) && i < j
    ensures StreamTime(start, mtt, i) < StreamTime(start, mtt, j)
  {
    StrictlyRising(start, mtt, j - 1);
    if i < j - 1 { StreamRises(start, mtt, i, j - 1); }
  }

  /** The timestamps in the packets sent, as long as the last of them does not overflow 64 bits: each lags
      the ideal one by less than 2 ns, and they rise strictly from first to last. */
  lemma SentOnTime(sent: seq<seq<uint8>>, start: Timespec, mtt: uint64, i: nat, j: nat)
    requires SentInStream(sent, start, mtt) && Normalised(start) && i < j < TIMESTAMPS_PER_PKT * |sent|
    requires StreamTime(start, mtt, j) < TWO_64
    ensures 0 <= j * NSEC_PER_SEC - TIMESTAMPS_PER_SEC * (SentTime(sent, j) - CrfTime(start, mtt))
          < 2 * TIMESTAMPS_PER_SEC
    ensures SentTime(sent, i) < SentTime(sent, j)
  {
    BoundedLag(start, mtt, j);
    StreamRises(start, mtt, i, j);
    SmallMod(StreamTime(start, mtt, j), TWO_64);
    SmallMod(StreamTime(start, mtt, i), TWO_64);
  }

  lemma OneMorePacket(t: ClockTable, sent: seq<seq<uint8>>, p: seq<uint8>)
    ensures ParseEach(t, sent + [p]) == ParseEach(t, sent) + [ParseClock(t, p)]
  {
    assert (sent + [p])[..|sent|] == sent;
  }

  /** The payload holds the timestamps crfTime, crfTime + CRF_PERIOD and so on. */
  ghost predicate Stamped(s: seq<uint8>, crfTime: uint64, n: nat)
    requires |s| >= CRF_HEADER_LEN + 8 * n
  {
    forall idx | 0 <= idx < n :: Timestamp(s, idx) == (crfTime + CRF_PERIOD * idx) % TWO_64
  }

  class Talker {
    const host: Host
    const table: ClockTable
    const mtt: uint64
    const pdu: array<uint8>
    var clock: Timespec
    var seqNum: uint8
    var sent: seq<seq<uint8>>

    ghost predicate Valid()
      reads this`clock, pdu
    {
      pdu.Length == CRF_PDU_SIZE && ReadyClock(table, pdu[..]) && Normalised(clock)
    }

    constructor (host: Host, table: ClockTable, mtt: uint64, now: Timespec)
      requires Normalised(now)
      ensures Valid() && fresh(pdu) && clock == now && seqNum == 0 && sent == []
      ensures this.table == table && this.mtt == mtt
    {
      this.host, this.table, this.mtt := host, table, mtt;
      pdu := new uint8[CRF_PDU_SIZE];
      clock, seqNum, sent := now, 0, [];
      new;
      InitPdu(host, table, pdu);
    }

    /** The loop that fills the payload. */
    method FillPayload(crfTime: uint64)
      requires pdu.Length == CRF_PDU_SIZE
      modifies pdu
      ensures pdu[..CRF_HEADER_LEN] == old(pdu[..CRF_HEADER_LEN])
      ensures Stamped(pdu[..], crfTime, TIMESTAMPS_PER_PKT)
    {
      for idx := 0 to TIMESTAMPS_PER_PKT
        invariant pdu[..CRF_HEADER_LEN] == old(pdu[..CRF_HEADER_LEN])
        invariant Stamped(pdu[..], crfTime, idx)
      {
        var timestamp := (crfTime + CRF_PERIOD * idx) % TWO_64;
        ghost var s := pdu[..];
        CopyIn(pdu, CRF_HEADER_LEN + idx * 8, ToOctets(timestamp, 8));
        OneMoreStamp(s, pdu[..], crfTime, idx);
      }
    }

    /** One packet: payload, sequence number, transmission, and the step of the clock. */
    method SendPdu() returns (ghost p: seq<uint8>)
      requires Valid()
      modifies this`clock, this`seqNum, this`sent, pdu
      ensures Valid() && clock == Advanced(old(clock)) && seqNum == Next8(old(seqNum))
      ensures sent == old(sent) + [p] && |p| == CRF_PDU_SIZE
      ensures ParseClock(table, p) == Reference(CrfTime(old(clock), mtt) % TWO_64, old(seqNum))
      ensures Stamped(p, CrfTime(old(clock), mtt) % TWO_64, TIMESTAMPS_PER_PKT)
    {
      var crfTime := CrfTime(clock, mtt) % TWO_64;
      ghost var s := pdu[..];
      FillPayload(crfTime);
      ghost var u := pdu[..];
      SetClockField(host, table, pdu, CRF_SEQUENCE_NUM_LSB, seqNum);
      p := pdu[..];
      HeaderBuilt(table, s, u, p, seqNum);
      StampsKept(u, p, crfTime);
      sent := sent + [pdu[..]];
      seqNum := Next8(seqNum);
      clock := Advanced(clock);
    }

    /** The first n rounds of the main loop. */
    method Run(n: nat)
      requires Valid() && seqNum == 0 && sent == []
      modifies this`clock, this`seqNum, this`sent, pdu
      ensures Valid() && clock == ClockAfter(old(clock), n)
      ensures ParseEach(table, sent) == References(old(clock), mtt, n)
      ensures |sent| == n && SentInStream(sent, old(clock), mtt)
    {
      ghost var start := clock;
      for k := 0 to n
        invariant Valid() && clock == ClockAfter(start, k) && seqNum == k % 0x100
        invariant ParseEach(table, sent) == References(start, mtt, k)
        invariant |sent| == k && SentInStream(sent, start, mtt)
      {
        ghost var before := sent;
        ghost var p := SendPdu();
        LogGrows(table, before, p, start, mtt, k);
        StreamGrows(before, p, start, mtt);
        NumberWraps(k);
      }
    }
  }

  lemma LogGrows(t: ClockTable, sent: seq<seq<uint8>>, p: seq<uint8>, start: Timespec, mtt: uint64, k: nat)
    requires ParseEach(t, sent) == References(start, mtt, k)
    requires ParseClock(t, p) == NthReference(start, mtt, k)
    ensures ParseEach(t, sent + [p]) == References(start, mtt, k + 1)
  {
    OneMorePacket(t, sent, p);
  }

  lemma OneMoreStamp(s: seq<uint8>, u: seq<uint8>, crfTime: uint64, idx: nat)
    requires idx < TIMESTAMPS_PER_PKT && |s| == |u| == CRF_PDU_SIZE && Stamped(s, crfTime, idx)
    requires u[..CRF_HEADER_LEN + idx * 8] == s[..CRF_HEADER_LEN + idx * 8]
    requires u[CRF_HEADER_LEN + idx * 8..CRF_HEADER_LEN + idx * 8 + 8]
          == ToOctets((crfTime + CRF_PERIOD * idx) % TWO_64, 8)
    ensures Stamped(u, crfTime, idx + 1) && u[..CRF_HEADER_LEN] == s[..CRF_HEADER_LEN]
  {
    StampStored(u, idx, (crfTime + CRF_PERIOD * idx) % TWO_64);
    forall i | 0 <= i < idx ensures Timestamp(u, i) == Timestamp(s, i) {
      EarlierSlice(s, u, CRF_HEADER_LEN + idx * 8, CRF_HEADER_LEN + 8 * i);
    }
    EarlierPrefix(s, u, CRF_HEADER_LEN + idx * 8, CRF_HEADER_LEN);
  }

  lemma StampStored(u: seq<uint8>, idx: nat, v: uint64)
    requires CRF_HEADER_LEN + 8 * idx + 8 <= |u|
    requires u[CRF_HEADER_LEN + 8 * idx..CRF_HEADER_LEN + 8 * idx + 8] == ToOctets(v, 8)
    ensures Timestamp(u, idx) == v
  {
    FitsOctets(v);
    OctetsRoundTrip(v, 8);
  }

  lemma FitsOctets(v: uint64)
    ensures v < Pow2(8 * 8)
  {
    Pow2Values();
  }

  lemma EarlierSlice(s: seq<uint8>, u: seq<uint8>, n: nat, at: nat)
    requires n <= |s| && n <= |u| && s[..n] == u[..n] && at + 8 <= n
    ensures s[at..at + 8] == u[at..at + 8]
  {
    assert s[at..at + 8] == s[..n][at..at + 8];
    assert u[at..at + 8] == u[..n][at..at + 8];
  }

  lemma EarlierPrefix(s: seq<uint8>, u: seq<uint8>, n: nat, m: nat)
    requires n <= |s| && n <= |u| && s[..n] == u[..n] && m <= n
    ensures s[..m] == u[..m]
  {
    assert s[..m] == s[..n][..m] && u[..m] == u[..n][..m];
  }

  /** The header of the packet with its number in place. */
  lemma HeaderBuilt(t: ClockTable, s: seq<uint8>, u: seq<uint8>, p: seq<uint8>, seqNum: uint8)
    requires |s| == |u| == |p| == CRF_PDU_SIZE && ReadyClock(t, s)
    requires s[..CRF_HEADER_LEN] == u[..CRF_HEADER_LEN]
    requires ClockHeader(t, p) == ClockHeader(t, u)[CRF_SEQUENCE_NUM_LSB := seqNum]
    requires Version(p, 0) == Version(u, 0) && Subtype(p, 0) == Subtype(u, 0)
    ensures ReadyClock(t, p)
    ensures ParseClock(t, p) == (TimestampFits(p, 0); Reference(Timestamp(p, 0), seqNum))
  {
    SameClock(t, s, u);
  }

  /** The number does not disturb the timestamps. */
  lemma StampsKept(u: seq<uint8>, p: seq<uint8>, crfTime: uint64)
    requires |u| == |p| == CRF_PDU_SIZE && Stamped(u, crfTime, TIMESTAMPS_PER_PKT)
    requires OnlyWithin(u, p, 0, CRF_HEADER_LEN)
    ensures Stamped(p, crfTime, TIMESTAMPS_PER_PKT) && Timestamp(p, 0) == crfTime
  {
    forall i | 0 <= i < TIMESTAMPS_PER_PKT ensures Timestamp(p, i) == Timestamp(u, i) {
      assert p[CRF_HEADER_LEN + 8 * i..CRF_HEADER_LEN + 8 * i + 8]
          == u[CRF_HEADER_LEN + 8 * i..CRF_HEADER_LEN + 8 * i + 8];
    }
    assert Timestamp(p, 0) == (crfTime + CRF_PERIOD * 0) % TWO_64;
    SmallMod(crfTime, TWO_64);
  }
}
