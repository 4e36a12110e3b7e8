/** The reference stream from its talker's clock to the audio packets that a
    receiver stamps with the media clock recovered from it, over a link that
    neither loses nor reorders packets. */
module ReferenceStream {
  import opened Words
  import opened Octets
  import opened ByteOrder
  import opened FieldEngine
  import opened HeaderTables
  import opened Timestamps
  import opened MediaClock
  import opened ClockLookup
  import opened CrfPdu
  import opened CrfTalker
  import opened CrfListener

  /** What happens to the receiver: it is handed the octets of a packet, or its transmission timer has
      expired so many times. */
  datatype Input = Incoming(packet: seq<uint8>) | Expired(count: nat)

  /** What the receiver makes of the packets that it does not ignore, in order. */
  function Arrivals(t: ClockTable, inputs: seq<Input>): seq<Parsed>
  {
    if inputs == [] then []
    else
      var before, last := Arrivals(t, inputs[..|inputs| - 1]), inputs[|inputs| - 1];
      if last.Incoming? && ParseClock(t, last.packet).Reference? then before + [ParseClock(t, last.packet)] else before
  }

  function Expirations(inputs: seq<Input>): nat {
    if inputs == [] then 0
    else
      var before, last := Expirations(inputs[..|inputs| - 1]), inputs[|inputs| - 1];
      if last.Expired? then before + last.count else before
  }

  /** The receiver's clock after an input; `shift` is what it adds to every timestamp. */
  function After(t: ClockTable, s: State, e: Input, shift: nat): State
  {
    match e
    case Incoming(packet) => Heard(t, s, packet, shift)
    case Expired(count) => Ticks(s, count)
  }

  function Served(t: ClockTable, s: State, inputs: seq<Input>, shift: nat): State
  {
    if inputs == [] then s else After(t, Served(t, s, inputs[..|inputs| - 1], shift), inputs[|inputs| - 1], shift)
  }

  /** The first timestamps follow each other without a gap, from `base` on. */
  ghost predicate Consecutive(arrivals: seq<Parsed>, base: nat) {
    forall i | 0 <= i < |arrivals| :: arrivals[i].Reference? && arrivals[i].base == base + i * CRF_SPAN
  }

  /** The first timestamp of packet k, as long as the 64-bit count does not overflow. */
  lemma NthBase(start: Timespec, mtt: uint64, k: nat)
    requires Normalised(start) && CrfTime(start, mtt) + k * CRF_SPAN < TWO_64
    ensures NthReference(start, mtt, k) == Reference(CrfTime(start, mtt) + k * CRF_SPAN, k % 0x100)
  {
    NoDrift(start, k);
    SmallMod(CrfTime(start, mtt) + k * CRF_SPAN, TWO_64);
  }

  lemma {:induction false} ReferenceAt(start: Timespec, mtt: uint64, n: nat, k: nat)
    requires k < n
    ensures References(start, mtt, n)[k] == NthReference(start, mtt, k)
    decreases n
  {
    if k < n - 1 { ReferenceAt(start, mtt, n - 1, k); }
  }

  /** As many of the talker's packets as have arrived, from the second on, are consecutive. */
  lemma TalkerIsConsecutive(arrivals: seq<Parsed>, start: Timespec, mtt: uint64, n: nat)
    requires Normalised(start) && n >= 1 && arrivals <= References(start, mtt, n)[1..]
    requires CrfTime(start, mtt) + n * CRF_SPAN <= TWO_64
    ensures Consecutive(arrivals, CrfTime(start, mtt) + CRF_SPAN)
  {
    forall i | 0 <= i < |arrivals|
      ensures arrivals[i] == Reference(CrfTime(start, mtt) + (i + 1) * CRF_SPAN, (i + 1) % 0x100)
    {
      assert arrivals[i] == References(start, mtt, n)[1..][i];
      ReferenceAt(start, mtt, n, i + 1);
      NthBase(start, mtt, i + 1);
    }
  }

  /** How many reference packets an input brings. */
  function Heralds(t: ClockTable, e: Input): nat
  {
    if e.Incoming? && ParseClock(t, e.packet).Reference? then 1 else 0
  }

  function Drawn(e: Input): nat {
    if e.Expired? then e.count else 0
  }

  lemma ArrivedOneMore(t: ClockTable, inputs: seq<Input>, e: Input)
    ensures var all := inputs + [e];
      && all[..|all| - 1] == inputs && all[|all| - 1] == e
      && Arrivals(t, all) == Arrivals(t, inputs) + (if Heralds(t, e) == 1 then [ParseClock(t, e.packet)] else [])
      && Expirations(all) == Expirations(inputs) + Drawn(e)
  {
    assert (inputs + [e])[..|inputs|] == inputs;
  }

  /** The clock is on its stream: the first packet started `ahead` periods past `at`, since then `heard`
      packets have arrived and `drawn` timestamps have been drawn. */
  ghost predicate Synced(s: State, at: nat, ahead: nat, heard: nat, drawn: nat) {
    InStream(s, at + drawn * MCLK_PERIOD, ahead - drawn + heard * TS_PER_CRF)
  }

  lemma PacketKeepsSync(s: State, at: nat, ahead: nat, heard: nat, drawn: nat, base: nat)
    requires Synced(s, at, ahead, heard, drawn) && base == at + ahead * MCLK_PERIOD + heard * CRF_SPAN
    requires base + CRF_SPAN <= TWO_64
    ensures Synced(Recovered(s, base), at, ahead, heard + 1, drawn)
  {
    PacketInStream(s, at + drawn * MCLK_PERIOD, ahead - drawn + heard * TS_PER_CRF, base);
  }

  lemma DrawsKeepSync(s: State, at: nat, ahead: nat, heard: nat, drawn: nat, n: nat)
    requires Synced(s, at, ahead, heard, drawn) && at + (drawn + n) * MCLK_PERIOD <= TWO_64
    ensures Synced(Ticks(s, n), at, ahead, heard, drawn + n)
  {
    TicksInStream(s, at + drawn * MCLK_PERIOD, ahead - drawn + heard * TS_PER_CRF, n);
  }

  /** One input keeps the clock on its stream. */
  lemma InputKeepsSync(t: ClockTable, s: State, e: Input, shift: nat, at: nat, ahead: nat, heard: nat, drawn: nat,
                       next: nat)
    requires Synced(s, at, ahead, heard, drawn) && next == at + ahead * MCLK_PERIOD + heard * CRF_SPAN
    requires Heralds(t, e) == 1 ==> ParseClock(t, e.packet).base + shift == next && next + CRF_SPAN <= TWO_64
    requires at + (drawn + Drawn(e)) * MCLK_PERIOD <= TWO_64
    ensures Synced(After(t, s, e, shift), at, ahead, heard + Heralds(t, e), drawn + Drawn(e))
  {
    if e.Expired? {
      DrawsKeepSync(s, at, ahead, heard, drawn, e.count);
    } else if Heralds(t, e) == 1 {
      PacketKeepsSync(s, at, ahead, heard, drawn, next);
    }
  }

  lemma LastArrival(t: ClockTable, before: seq<Input>, e: Input, base: nat)
    requires Consecutive(Arrivals(t, before + [e]), base)
    ensures Consecutive(Arrivals(t, before), base)
    ensures |Arrivals(t, before + [e])| == |Arrivals(t, before)| + Heralds(t, e)
    ensures Expirations(before + [e]) == Expirations(before) + Drawn(e)
    ensures Heralds(t, e) == 1 ==> ParseClock(t, e.packet).base == base + |Arrivals(t, before)| * CRF_SPAN
  {
    ArrivedOneMore(t, before, e);
    var all, some := Arrivals(t, before + [e]), Arrivals(t, before);
    forall i | 0 <= i < |some| ensures some[i].Reference? && some[i].base == base + i * CRF_SPAN {
      assert some[i] == all[i];
    }
    if Heralds(t, e) == 1 { assert all[|some|] == ParseClock(t, e.packet); }
  }

  lemma ServedOneMore(t: ClockTable, s: State, before: seq<Input>, e: Input, shift: nat)
    ensures Served(t, s, before + [e], shift) == After(t, Served(t, s, before, shift), e, shift)
  {
    assert (before + [e])[..|before|] == before;
  }

  /** The packets follow each other from `base` on, and no timestamp of the run overflows 64 bits. */
  ghost predicate Orderly(t: ClockTable, inputs: seq<Input>, shift: nat, at: nat, base: nat)
  {
    && Consecutive(Arrivals(t, inputs), base)
    && at + Expirations(inputs) * MCLK_PERIOD <= TWO_64
    && base + shift + |Arrivals(t, inputs)| * CRF_SPAN <= TWO_64
  }

  ghost predicate ServedSync(t: ClockTable, s: State, inputs: seq<Input>, shift: nat, at: nat, ahead: nat)
  {
    Synced(Served(t, s, inputs, shift), at, ahead, |Arrivals(t, inputs)|, Expirations(inputs))
  }

  lemma ServedStep(t: ClockTable, s: State, before: seq<Input>, e: Input, shift: nat, at: nat, ahead: nat, base: nat)
    requires Orderly(t, before + [e], shift, at, base) && base + shift == at + ahead * MCLK_PERIOD
    requires ServedSync(t, s, before, shift, at, ahead)
    ensures ServedSync(t, s, before + [e], shift, at, ahead)
  {
    LastArrival(t, before, e, base);
    ServedOneMore(t, s, before, e, shift);
    var heard := |Arrivals(t, before)|;
    InputKeepsSync(t, Served(t, s, before, shift), e, shift, at, ahead, heard, Expirations(before),
                   base + shift + heard * CRF_SPAN);
  }

  lemma OrderlyBefore(t: ClockTable, before: seq<Input>, e: Input, shift: nat, at: nat, base: nat)
    requires Orderly(t, before + [e], shift, at, base)
    ensures Orderly(t, before, shift, at, base)
  {
    LastArrival(t, before, e, base);
  }

  /** Consecutive packets keep the clock on its stream, however they interleave with expirations. */
  lemma {:induction false} ServedInStream(t: ClockTable, s: State, inputs: seq<Input>, shift: nat, at: nat, ahead: nat,
                                          base: nat)
    requires InStream(s, at, ahead)
    requires Orderly(t, inputs, shift, at, base) && base + shift == at + ahead * MCLK_PERIOD
    ensures ServedSync(t, s, inputs, shift, at, ahead)
    decreases |inputs|
  {
    if inputs != [] {
      var before, e := inputs[..|inputs| - 1], inputs[|inputs| - 1];
      assert inputs == before + [e];
      OrderlyBefore(t, before, e, shift, at, base);
      ServedInStream(t, s, before, shift, at, ahead, base);
      ServedStep(t, s, before, e, shift, at, ahead, base);
    }
  }

  lemma {:induction false} OrderlyPrefix(t: ClockTable, inputs: seq<Input>, i: nat, shift: nat, at: nat, base: nat)
    requires i <= |inputs| && Orderly(t, inputs, shift, at, base)
    ensures Orderly(t, inputs[..i], shift, at, base)
    decreases |inputs|
  {
    if i == |inputs| {
      assert inputs[..i] == inputs;
    } else {
      var n := |inputs| - 1;
      assert inputs == inputs[..n] + [inputs[n]] && inputs[..n][..i] == inputs[..i];
      OrderlyBefore(t, inputs[..n], inputs[n], shift, at, base);
      OrderlyPrefix(t, inputs[..n], i, shift, at, base);
    }
  }

  // ---------- The audio packets ----------

  /** n audio packets, stamped with consecutive times of the media clock from `at` on. */
  function StreamStamps(at: nat, n: nat): seq<AafStamp> {
    if n == 0 then [] else StreamStamps(at, n - 1) + [AafStamp((at + (n - 1) * MCLK_PERIOD) % TWO_32, (n - 1) % 0x100)]
  }

  /** The 8-bit number n packets after the first. */
  function NumberAfter(first: nat, n: nat): nat {
    (first + n) % 0x100
  }

  lemma NumberSum(a: nat, b: nat)
    ensures NumberAfter(NumberAfter(0, a), b) == NumberAfter(0, a + b)
  {
    var q, r := (a % 0x100 + b) / 0x100, (a % 0x100 + b) % 0x100;
    QuotientUnique(a + b, 0x100, a / 0x100 + q, r);
  }

  /** On its stream, the clock stamps the next packets with the next times. */
  lemma {:induction false} StampsInStream(s: State, at: nat, ahead: nat, heard: nat, drawn: nat, n: nat)
    requires Synced(s, at, ahead, heard, drawn) && at + (drawn + n) * MCLK_PERIOD <= TWO_64
    ensures StreamStamps(at, drawn) + AafStamps(s, n, NumberAfter(0, drawn)) == StreamStamps(at, drawn + n)
    decreases n
  {
    if n == 0 {
      assert StreamStamps(at, drawn) + [] == StreamStamps(at, drawn);
    } else {
      TicksInStream(s, at + drawn * MCLK_PERIOD, ahead - drawn + heard * TS_PER_CRF, n);
      NumberSum(drawn, n - 1);
      StampsInStream(s, at, ahead, heard, drawn, n - 1);
      var last := AafStamp((at + (drawn + n - 1) * MCLK_PERIOD) % TWO_32, (drawn + n - 1) % 0x100);
      Regrouped(StreamStamps(at, drawn), AafStamps(s, n - 1, NumberAfter(0, drawn)), [last]);
    }
  }

  /** One round of the receiver's main loop; recv delivers at most as many octets as a CRF packet has. */
  method ServeOne(clock: Clock, e: Input)
    requires !clock.firstPdu && (e.Incoming? ==> |e.packet| <= CRF_PDU_SIZE)
    modifies clock
    ensures !clock.firstPdu && clock.timerStart == old(clock.timerStart)
    ensures clock.View() == After(clock.table, old(clock.View()), e, clock.Shift())
    ensures clock.aafSeqNum == NumberAfter(old(clock.aafSeqNum), Drawn(e))
    ensures clock.aafSent == old(clock.aafSent) + AafStamps(old(clock.View()), Drawn(e), old(clock.aafSeqNum))
  {
    match e
    case Incoming(packet) =>
      var pdu := new uint8[CRF_PDU_SIZE](_ => 0);
      CopyIn(pdu, 0, packet);
      assert |packet| == CRF_PDU_SIZE ==> pdu[..] == packet;
      SmallMod(clock.aafSeqNum, 0x100);
      clock.RecvPdu(pdu, |packet|);
    case Expired(count) =>
      clock.TxTimeout(count);
  }

  lemma NothingServed(t: ClockTable, s: State, inputs: seq<Input>, shift: nat)
    requires |inputs| == 0
    ensures Served(t, s, inputs, shift) == s && Expirations(inputs) == 0
  {
  }

  /** The main loop of the receiver in talker mode, from when its timer has been started. */
  method Serve(clock: Clock, inputs: seq<Input>, ghost at: nat, ghost ahead: nat, ghost base: nat)
    requires !clock.firstPdu && clock.aafSeqNum == 0 && clock.aafSent == []
    requires forall i | 0 <= i < |inputs| && inputs[i].Incoming? :: |inputs[i].packet| <= CRF_PDU_SIZE
    requires InStream(clock.View(), at, ahead) && Orderly(clock.table, inputs, clock.Shift(), at, base)
    requires base + clock.Shift() == at + ahead * MCLK_PERIOD
    modifies clock
    ensures clock.timerStart == old(clock.timerStart)
    ensures clock.View() == Served(clock.table, old(clock.View()), inputs, clock.Shift())
    ensures clock.aafSent == StreamStamps(at, Expirations(inputs))
  {
    ghost var t, s, shift := clock.table, clock.View(), clock.Shift();
    NothingServed(t, s, inputs[..0], shift);
    for i := 0 to |inputs|
      invariant !clock.firstPdu && clock.timerStart == old(clock.timerStart)
      invariant clock.View() == Served(t, s, inputs[..i], shift)
      invariant clock.aafSeqNum == NumberAfter(0, Expirations(inputs[..i]))
      invariant clock.aafSent == StreamStamps(at, Expirations(inputs[..i]))
    {
      OrderlyPrefix(t, inputs, i + 1, shift, at, base);
      PrefixGrows(inputs, i);
      RoundInStream(t, s, inputs[..i], inputs[i], shift, at, ahead, base);
      ServeOne(clock, inputs[i]);
    }
    assert inputs[..|inputs|] == inputs;
  }

  /** One more input: what it does to the clock, and to the stamps of the audio packets. */
  lemma RoundInStream(t: ClockTable, s: State, before: seq<Input>, e: Input, shift: nat, at: nat, ahead: nat, base: nat)
    requires InStream(s, at, ahead)
    requires Orderly(t, before + [e], shift, at, base) && base + shift == at + ahead * MCLK_PERIOD
    ensures Served(t, s, before + [e], shift) == After(t, Served(t, s, before, shift), e, shift)
    ensures StampsFollow(Served(t, s, before, shift), at, Expirations(before), Drawn(e), Expirations(before + [e]))
  {
    OrderlyBefore(t, before, e, shift, at, base);
    ServedInStream(t, s, before, shift, at, ahead, base);
    ServedOneMore(t, s, before, e, shift);
    ArrivedOneMore(t, before, e);
    RoundStamps(Served(t, s, before, shift), at, ahead, |Arrivals(t, before)|, Expirations(before), Drawn(e),
                Expirations(before + [e]));
  }

  /** With `drawn` timestamps drawn, the next n bring the audio packets up to `total`, in stamps and numbers. */
  ghost predicate StampsFollow(now: State, at: nat, drawn: nat, n: nat, total: nat) {
    && total == drawn + n && NumberAfter(NumberAfter(0, drawn), n) == NumberAfter(0, total)
    && StreamStamps(at, drawn) + AafStamps(now, n, NumberAfter(0, drawn)) == StreamStamps(at, total)
  }

  lemma RoundStamps(now: State, at: nat, ahead: nat, heard: nat, drawn: nat, n: nat, total: nat)
    requires Synced(now, at, ahead, heard, drawn) && total == drawn + n && at + total * MCLK_PERIOD <= TWO_64
    ensures StampsFollow(now, at, drawn, n, total)
  {
    NumberSum(drawn, n);
    StampsInStream(now, at, ahead, heard, drawn, n);
  }

  // ---------- End to end ----------

  /** With its first timestamp taken off the queue, the clock is on the stream from the next on. */
  ghost predicate Landed(r: State, at: nat) {
    r.queue != [] && r.queue[0] == at && InStream(r.(queue := r.queue[1..]), at + MCLK_PERIOD, TS_PER_CRF - 1)
  }

  lemma FirstLanded(s: State, at: nat)
    requires s.queue == [] && s.prev < at && at + CRF_SPAN <= TWO_64
    ensures Landed(Recovered(s, at), at)
  {
    var k := FirstPacket(s, at);
    TimerStart(Recovered(s, at), at, TS_PER_CRF);
  }

  lemma HeardAs(t: ClockTable, s: State, p: seq<uint8>, base: uint64, seqNum: nat, shift: nat)
    requires ParseClock(t, p) == Reference(base, seqNum)
    ensures Heard(t, s, p, shift) == Recovered(s, base + shift) && |p| == CRF_PDU_SIZE
  {
  }

  /** The receiver is handed its first packet: the first timestamp queued starts the timer. */
  method Start(clock: Clock, first: seq<uint8>, ghost r: State)
    requires clock.firstPdu && |first| == CRF_PDU_SIZE
    requires r == Heard(clock.table, clock.View(), first, clock.Shift()) && r.queue != []
    modifies clock
    ensures !clock.firstPdu && clock.aafSeqNum == old(clock.aafSeqNum) && clock.aafSent == old(clock.aafSent)
    ensures clock.timerStart == ToTimespec(r.queue[0]) && clock.View() == r.(queue := r.queue[1..])
  {
    var pdu := new uint8[CRF_PDU_SIZE](_ => 0);
    CopyIn(pdu, 0, first);
    assert pdu[..] == first;
    clock.RecvPdu(pdu, CRF_PDU_SIZE);
  }

  /** What the link hands the receiver after the first packet: the talker's packets from the second on, in
      order and without a loss, as far as they have come, among others that the receiver ignores. */
  ghost predicate Carried(t: ClockTable, inputs: seq<Input>, sent: seq<seq<uint8>>)
  {
    && sent != [] && Arrivals(t, inputs) <= ParseEach(t, sent)[1..]
    && forall i | 0 <= i < |inputs| && inputs[i].Incoming? :: |inputs[i].packet| <= CRF_PDU_SIZE
  }

  /** The first time of the stream, as the receiver counts it. */
  function Origin(start: Timespec, mtt: uint64, shift: nat): nat {
    CrfTime(start, mtt) + shift
  }

  lemma CarriedOrderly(t: ClockTable, inputs: seq<Input>, sent: seq<seq<uint8>>, start: Timespec, mtt: uint64,
                       shift: nat)
    requires Carried(t, inputs, sent) && Normalised(start)
    requires ParseEach(t, sent) == References(start, mtt, |sent|)
    requires Origin(start, mtt, shift) + |sent| * CRF_SPAN + (Expirations(inputs) + 1) * MCLK_PERIOD <= TWO_64
    ensures Orderly(t, inputs, shift, Origin(start, mtt, shift) + MCLK_PERIOD, CrfTime(start, mtt) + CRF_SPAN)
  {
    TalkerIsConsecutive(Arrivals(t, inputs), start, mtt, |sent|);
  }

  lemma {:induction false} ParsedAt(t: ClockTable, sent: seq<seq<uint8>>, k: nat)
    requires k < |sent|
    ensures |ParseEach(t, sent)| == |sent| && ParseEach(t, sent)[k] == ParseClock(t, sent[k])
  {
    var n := |sent| - 1;
    if k < n { ParsedAt(t, sent[..n], k); } else if n > 0 { ParsedAt(t, sent[..n], 0); }
  }

  lemma FirstReference(t: ClockTable, sent: seq<seq<uint8>>, start: Timespec, mtt: uint64)
    requires sent != [] && Normalised(start) && CrfTime(start, mtt) < TWO_64
    requires ParseEach(t, sent) == References(start, mtt, |sent|)
    ensures ParseClock(t, sent[0]) == Reference(CrfTime(start, mtt), 0)
  {
    ParsedAt(t, sent, 0);
    ReferenceAt(start, mtt, |sent|, 0);
    NthBase(start, mtt, 0);
  }

  /** The first packet sets the clock going on the stream. */
  lemma FirstHeard(t: ClockTable, s: State, sent: seq<seq<uint8>>, start: Timespec, mtt: uint64, shift: nat)
    requires sent != [] && Normalised(start) && CrfTime(start, mtt) < TWO_64
    requires ParseEach(t, sent) == References(start, mtt, |sent|)
    ensures |sent[0]| == CRF_PDU_SIZE && Heard(t, s, sent[0], shift) == Recovered(s, Origin(start, mtt, shift))
  {
    FirstReference(t, sent, start, mtt);
    HeardAs(t, s, sent[0], CrfTime(start, mtt), 0, shift);
  }

  /** The receiver, fresh, is handed a first packet that starts a stream at `origin`, and then the rest. */
  method ReceiveFrom(clock: Clock, first: seq<uint8>, inputs: seq<Input>, ghost origin: nat, ghost base: nat)
    requires clock.firstPdu && clock.aafSeqNum == 0 && clock.aafSent == [] && |first| == CRF_PDU_SIZE
    requires forall i | 0 <= i < |inputs| && inputs[i].Incoming? :: |inputs[i].packet| <= CRF_PDU_SIZE
    requires origin < TWO_64 && base + clock.Shift() == origin + CRF_SPAN
    requires Heard(clock.table, clock.View(), first, clock.Shift()) == Recovered(clock.View(), origin)
    requires Landed(Recovered(clock.View(), origin), origin)
    requires Orderly(clock.table, inputs, clock.Shift(), origin + MCLK_PERIOD, base)
    modifies clock
    ensures clock.timerStart == ToTimespec(origin)
    ensures clock.aafSent == StreamStamps(origin + MCLK_PERIOD, Expirations(inputs))
  {
    Start(clock, first, Recovered(clock.View(), origin));
    Serve(clock, inputs, origin + MCLK_PERIOD, TS_PER_CRF - 1, base);
  }

  /** End to end: the receiver, fresh, is handed the talker's first packet, and then further packets and
      expirations of its timer in any order. Its timer starts at the first time of the talker's stream, and
      audio packet number i carries the time i + 1 periods later, however late the reference packets come. */
  method ReceiveStream(clock: Clock, sent: seq<seq<uint8>>, inputs: seq<Input>, ghost start: Timespec,
                       ghost mtt: uint64)
    requires Carried(clock.table, inputs, sent) && Normalised(start)
    requires ParseEach(clock.table, sent) == References(start, mtt, |sent|)
    requires clock.firstPdu && clock.queue == [] && clock.aafSeqNum == 0 && clock.aafSent == []
    requires clock.prev < Origin(start, mtt, clock.Shift())
    requires Origin(start, mtt, clock.Shift()) + |sent| * CRF_SPAN + (Expirations(inputs) + 1) * MCLK_PERIOD <= TWO_64
    modifies clock
    ensures clock.timerStart == ToTimespec(Origin(start, mtt, clock.Shift()))
    ensures clock.aafSent == StreamStamps(Origin(start, mtt, clock.Shift()) + MCLK_PERIOD, Expirations(inputs))
  {
    ghost var origin := Origin(start, mtt, clock.Shift());
    FirstHeard(clock.table, clock.View(), sent, start, mtt, clock.Shift());
    FirstLanded(clock.View(), origin);
    CarriedOrderly(clock.table, inputs, sent, start, mtt, clock.Shift());
    ReceiveFrom(clock, sent[0], inputs, origin, CrfTime(start, mtt) + CRF_SPAN);
  }

  /** The link carries what a talker has sent, and no time of the run overflows 64 bits. */
  ghost predicate Faithful(t: ClockTable, link: seq<seq<uint8>> -> seq<Input>, n: nat, origin: nat)
  {
    forall sent | |sent| == n ::
      Carried(t, link(sent), sent) && origin + n * CRF_SPAN + (Expirations(link(sent)) + 1) * MCLK_PERIOD <= TWO_64
  }

  /** The same from the packets of the CRF format that a talker sends in n rounds from `now`, to a receiver
      in talker mode behind such a link. */
  method TalkerToReceiver(talkerHost: Host, host: Host, now: Timespec, mtt: uint64, n: nat, roundedMtt: uint64,
                          link: seq<seq<uint8>> -> seq<Input>)
    returns (inputs: seq<Input>, timerStart: Timespec, aafSent: seq<AafStamp>)
    requires Normalised(now) && Origin(now, mtt, roundedMtt) > 0
    requires Faithful(ClockTableV0(), link, n, Origin(now, mtt, roundedMtt))
    ensures timerStart == ToTimespec(Origin(now, mtt, roundedMtt))
    ensures aafSent == StreamStamps(Origin(now, mtt, roundedMtt) + MCLK_PERIOD, Expirations(inputs))
  {
    var t: ClockTable := ClockTableV0();
    var talker := new Talker(talkerHost, t, mtt, now);
    talker.Run(n);
    inputs := link(talker.sent);
    var clock := new Clock(host, t, true, roundedMtt);
    ReceiveStream(clock, talker.sent, inputs, now, mtt);
    timerStart, aafSent := clock.timerStart, clock.aafSent;
  }
}
