/** The video stream from the talker's input to the listener's output, over a
    link that may lose packets but keeps their order. */
module VideoStream {
  import opened Words
  import opened Octets
  import opened ByteOrder
  import opened FieldEngine
  import opened HeaderTables
  import opened StartCodes
  import opened CvfPdu
  import opened CvfTalker
  import opened CvfListener
  import opened Timestamps
  import opened Presentation

  // ---------- The talker's stream ----------

  /** For every stream, however the reads split it: the talker sends the units from the first start code on,
      unit by unit and no octet of them lost, if and only if the stream is sendable; and if p octets are in
      front of the first code, the buffer then holds at most p + 1402 octets at every read. */
  lemma StreamConserved(input: Bytes, chunk: nat -> nat)
    requires forall i: nat :: chunk(i) >= 1
    ensures Main([], input, chunk, 0).outcome == Outcome(PayloadUnits(input), true) <==> Sendable(input)
    ensures Concat(Main([], input, chunk, 0).outcome.units) <= Payload(input) == Concat(PayloadUnits(input))
    ensures forall i | 0 <= i < |PayloadUnits(input)| :: IsUnit(PayloadUnits(input)[i])
    ensures Sendable(input) && Find(input, 0) != -1 ==>
      forall i | 0 <= i < |Main([], input, chunk, 0).levels| ::
        Main([], input, chunk, 0).levels[i] <= Find(input, 0) + DATA_LEN + 2
  {
    SentExactly(input);
    ChunkIndependence(input, chunk);
    PayloadPartition(input);
    assert [] + input == input;
    if Sendable(input) && Find(input, 0) != -1 { LevelsBounded([], input, chunk, 0, Find(input, 0)); }
  }

  // ---------- The listener's runs ----------

  /** A packet comes in, or time, timer and timeout do their part. */
  datatype Input = Incoming(packet: seq<uint8>) | Local(event: Event)

  predicate Possible(s: State, e: Event) {
    !e.Accept? && Enabled(s, e) && (e == Timeout ==> s.queue != [])
  }

  /** An event that is not possible does not happen. */
  function After(t: VideoTable, v: View, e: Input): View
  {
    match e
    case Incoming(packet) => Receive(t, v, packet)
    case Local(event) => if Possible(v.sched, event) then v.(sched := Step(v.sched, event)) else v
  }

  const FRESH := View(IDLE, 0, 0)

  /** The listener after all these inputs. */
  function Ran(t: VideoTable, inputs: seq<Input>): View
  {
    if inputs == [] then FRESH else After(t, Ran(t, inputs[..|inputs| - 1]), inputs[|inputs| - 1])
  }

  function Packets(inputs: seq<Input>): seq<seq<uint8>> {
    if inputs == [] then []
    else
      var before := Packets(inputs[..|inputs| - 1]);
      if inputs[|inputs| - 1].Incoming? then before + [inputs[|inputs| - 1].packet] else before
  }

  function Data(entries: seq<Entry>): (r: seq<Bytes>)
    ensures |r| == |entries|
  {
    if entries == [] then [] else Data(entries[..|entries| - 1]) + [entries[|entries| - 1].data]
  }

  lemma DataOneMore(h: seq<Entry>, e: Entry)
    ensures Data(h + [e]) == Data(h) + [e.data]
  {
    assert (h + [e])[..|h|] == h;
  }

  lemma {:induction false} DataSum(a: seq<Entry>, b: seq<Entry>)
    ensures Data(a + b) == Data(a) + Data(b)
    decreases |b|
  {
    if b == [] {
      assert a + b == a;
    } else {
      var n := |b| - 1;
      assert b == b[..n] + [b[n]];
      assert a + b == (a + b[..n]) + [b[n]];
      DataOneMore(a + b[..n], b[n]);
      DataSum(a, b[..n]);
    }
  }

  /** The scheduler has accepted exactly the units `done`. */
  ghost predicate Holds(s: State, done: seq<Bytes>) {
    Inv(s) && Data(History(s)) == done
  }

  lemma AcceptHolds(s: State, done: seq<Bytes>, entry: Entry)
    requires Holds(s, done)
    ensures Holds(Step(s, Accept(entry)), done + [entry.data])
  {
    StepKeepsTimer(s, Accept(entry));
    StepInTime(s, Accept(entry));
    StepHistory(s, Accept(entry));
    DataOneMore(History(s), entry);
  }

  lemma EventHolds(s: State, done: seq<Bytes>, e: Event)
    requires Holds(s, done) && Possible(s, e)
    ensures Holds(Step(s, e), done)
  {
    StepKeepsTimer(s, e);
    StepInTime(s, e);
    StepHistory(s, e);
    assert History(s) + [] == History(s);
  }

  // ---------- The link ----------

  /** Numbers of packets sent, in the order of sending. */
  predicate InOrder(picks: seq<nat>, n: nat) {
    && (forall i | 0 <= i < |picks| :: picks[i] < n)
    && forall i, j | 0 <= i < j < |picks| :: picks[i] < picks[j]
  }

  /** The packets received are those sent with these numbers: the link loses some, and reorders none. */
  ghost predicate Delivers(packets: seq<seq<uint8>>, sent: seq<seq<uint8>>, picks: seq<nat>) {
    && |packets| == |picks| && InOrder(picks, |sent|)
    && forall i | 0 <= i < |picks| :: packets[i] == sent[picks[i]]
  }

  function Picked(units: seq<Bytes>, picks: seq<nat>): (r: seq<Bytes>)
    requires InOrder(picks, |units|)
    ensures |r| == |picks|
  {
    seq(|picks|, i requires 0 <= i < |picks| => units[picks[i]])
  }

  /** The number of the packet that comes next if none is lost. */
  function Awaited(picks: seq<nat>): nat {
    if picks == [] then 0 else picks[|picks| - 1] + 1
  }

  /** In how many places packets are missing, if not a multiple of 256 of them. */
  function Gaps(picks: seq<nat>): nat {
    if picks == [] then 0
    else
      var before, last := picks[..|picks| - 1], picks[|picks| - 1];
      Gaps(before) + (if (last - Awaited(before)) % 0x100 != 0 then 1 else 0)
  }

  /** A link that loses nothing delivers the first n packets. */
  function Upto(n: nat): (picks: seq<nat>)
    ensures |picks| == n && InOrder(picks, n)
  {
    seq(n, i => i)
  }

  lemma UptoOneMore(n: nat)
    ensures Upto(n + 1)[..n] == Upto(n) && Upto(n + 1)[n] == n && Awaited(Upto(n)) == n
  {
  }

  lemma {:induction false} NoGaps(n: nat)
    ensures Gaps(Upto(n)) == 0
  {
    if n > 0 {
      UptoOneMore(n - 1);
      NoGaps(n - 1);
    }
  }

  /** Each packet sent holds its unit, time and number. */
  ghost predicate Carries(t: VideoTable, sent: seq<seq<uint8>>, units: seq<Bytes>, times: nat -> uint32) {
    |sent| == |units| && forall k | 0 <= k < |sent| :: Parse(t, sent[k]) == Packet(units[k], times(k), k % 0x100)
  }

  lemma LastStamped(t: VideoTable, sent: seq<seq<uint8>>, units: seq<Bytes>, times: nat -> uint32, n: nat)
    requires ParseAll(t, sent) == Stamped(units, times) && |sent| == |units| == n + 1
    ensures ParseAll(t, sent[..n]) == Stamped(units[..n], times)
    ensures Parse(t, sent[n]) == Packet(units[n], times(n), n % 0x100)
  {
    SnocEqual(ParseAll(t, sent[..n]), Parse(t, sent[n]), Stamped(units[..n], times),
              Packet(units[n], times(n), n % 0x100));
  }

  lemma {:induction false} StampedCarries(t: VideoTable, sent: seq<seq<uint8>>, units: seq<Bytes>, times: nat -> uint32)
    requires ParseAll(t, sent) == Stamped(units, times)
    ensures Carries(t, sent, units, times)
    decreases |sent|
  {
    SameNumber(t, sent, units, times);
    if sent != [] {
      var n := |sent| - 1;
      LastStamped(t, sent, units, times, n);
      StampedCarries(t, sent[..n], units[..n], times);
      CarriesOneMore(t, sent, units, times, n);
    }
  }

  lemma CarriesOneMore(t: VideoTable, sent: seq<seq<uint8>>, units: seq<Bytes>, times: nat -> uint32, n: nat)
    requires |sent| == |units| == n + 1 && Carries(t, sent[..n], units[..n], times)
    requires Parse(t, sent[n]) == Packet(units[n], times(n), n % 0x100)
    ensures Carries(t, sent, units, times)
  {
    forall k | 0 <= k < n ensures Parse(t, sent[k]) == Packet(units[k], times(k), k % 0x100) {
      assert sent[..n][k] == sent[k] && units[..n][k] == units[k];
    }
  }

  lemma {:induction false} SameNumber(t: VideoTable, sent: seq<seq<uint8>>, units: seq<Bytes>, times: nat -> uint32)
    ensures |ParseAll(t, sent)| == |sent| && |Stamped(units, times)| == |units|
    decreases |sent| + |units|
  {
    if sent != [] { SameNumber(t, sent[..|sent| - 1], units, times); }
    if units != [] { SameNumber(t, sent, units[..|units| - 1], times); }
  }

  lemma SnocEqual<T>(a: seq<T>, x: T, b: seq<T>, y: T)
    requires a + [x] == b + [y]
    ensures a == b && x == y
  {
    assert (a + [x])[|a|] == x && (b + [y])[|b|] == y;
    assert (a + [x])[..|a|] == a && (b + [y])[..|b|] == b;
  }

  // ---------- The listener behind the link ----------

  /** The listener has accepted exactly the units `done`, of the packets with these numbers. */
  ghost predicate Following(v: View, done: seq<Bytes>, picks: seq<nat>) {
    Holds(v.sched, done) && v.reports == Gaps(picks) && v.expected == Awaited(picks) % 0x100
  }

  lemma NumberOfAccepted(t: VideoTable, p: seq<uint8>, unit: Bytes, time: uint32, seqNum: uint8)
    requires Parse(t, p) == Packet(unit, time, seqNum)
    ensures Numbered(t, p) && VideoHeader(t, p)[CSH_SEQUENCE_NUM] == seqNum
  {
    Refused(t, p);
    StampFits(t, p);
    var length, stamp, number :=
      VideoHeader(t, p)[CSH_STREAM_DATA_LENGTH], VideoHeader(t, p)[CSH_AVTP_TIMESTAMP],
      VideoHeader(t, p)[CSH_SEQUENCE_NUM];
    Granted(t, p, length, stamp, number);
  }

  /** One more packet: its number modulo 256 tells whether packets are missing in front of it. */
  lemma PickOneMore(picks: seq<nat>, k: nat)
    ensures Awaited(picks + [k]) == k + 1
    ensures Gaps(picks + [k]) == Gaps(picks) + (if k % 0x100 != Awaited(picks) % 0x100 then 1 else 0)
  {
    assert (picks + [k])[..|picks|] == picks;
  }

  lemma Counted(t: VideoTable, v: View, p: seq<uint8>, unit: Bytes, time: uint32, picks: seq<nat>, k: nat)
    requires Parse(t, p) == Packet(unit, time, k % 0x100)
    requires v.reports == Gaps(picks) && v.expected == Awaited(picks) % 0x100
    ensures CountPacket(t, v, p) == v.(expected := Awaited(picks + [k]) % 0x100, reports := Gaps(picks + [k]))
  {
    NumberOfAccepted(t, p, unit, time, k % 0x100);
    PickOneMore(picks, k);
    NumberWraps(k);
  }

  lemma IncomingFollows(t: VideoTable, v: View, done: seq<Bytes>, p: seq<uint8>, unit: Bytes, time: uint32,
                        picks: seq<nat>, k: nat)
    requires Following(v, done, picks) && Parse(t, p) == Packet(unit, time, k % 0x100)
    ensures Following(Receive(t, v, p), done + [unit], picks + [k])
  {
    Counted(t, v, p, unit, time, picks, k);
    AcceptHolds(v.sched, done, Scheduled(v.sched.clock, unit, time));
  }

  lemma CarriedFollows(t: VideoTable, v: View, done: seq<Bytes>, p: seq<uint8>, sent: seq<seq<uint8>>,
                       units: seq<Bytes>, times: nat -> uint32, picks: seq<nat>, k: nat)
    requires Following(v, done, picks) && Carries(t, sent, units, times) && k < |sent| && p == sent[k]
    ensures Following(Receive(t, v, p), done + [units[k]], picks + [k])
  {
    IncomingFollows(t, v, done, p, units[k], times(k), picks, k);
  }

  lemma LocalFollows(t: VideoTable, v: View, done: seq<Bytes>, picks: seq<nat>, e: Event)
    requires Following(v, done, picks)
    ensures Following(After(t, v, Local(e)), done, picks)
  {
    if Possible(v.sched, e) { EventHolds(v.sched, done, e); }
  }

  /** The last packet received, and the unit in it. */
  lemma LastDelivered(packets: seq<seq<uint8>>, p: seq<uint8>, sent: seq<seq<uint8>>, units: seq<Bytes>,
                      picks: seq<nat>)
    returns (before: seq<nat>, k: nat)
    requires Delivers(packets + [p], sent, picks) && |units| == |sent|
    ensures picks == before + [k] && k < |sent| && p == sent[k] && Delivers(packets, sent, before)
    ensures Picked(units, picks) == Picked(units, before) + [units[k]]
  {
    var m := |packets|;
    before, k := picks[..m], picks[m];
    assert (packets + [p])[m] == p;
    forall i | 0 <= i < m ensures packets[i] == sent[before[i]] { assert (packets + [p])[i] == packets[i]; }
    assert Picked(units, picks)[..m] == Picked(units, before);
  }

  lemma NothingHeld(done: seq<Bytes>)
    requires |done| == 0
    ensures Holds(IDLE, done)
  {
    assert History(IDLE) == [];
  }

  lemma NothingFollows(units: seq<Bytes>, picks: seq<nat>)
    requires |picks| == 0
    ensures Following(FRESH, Picked(units, picks), picks)
  {
    NothingHeld(Picked(units, picks));
  }

  /** Whatever the link loses, the listener accepts exactly the units of the packets delivered, and reports
      exactly the gaps that the numbers show. */
  lemma {:induction false} RunFollows(t: VideoTable, inputs: seq<Input>, sent: seq<seq<uint8>>, units: seq<Bytes>,
                                      times: nat -> uint32, picks: seq<nat>)
    requires Carries(t, sent, units, times) && Delivers(Packets(inputs), sent, picks)
    ensures Following(Ran(t, inputs), Picked(units, picks), picks)
    decreases |inputs|
  {
    if inputs == [] {
      NothingFollows(units, picks);
    } else {
      var first, e := inputs[..|inputs| - 1], inputs[|inputs| - 1];
      if e.Incoming? {
        var before, k := LastDelivered(Packets(first), e.packet, sent, units, picks);
        RunFollows(t, first, sent, units, times, before);
        CarriedFollows(t, Ran(t, first), Picked(units, before), e.packet, sent, units, times, before, k);
      } else {
        RunFollows(t, first, sent, units, times, picks);
        LocalFollows(t, Ran(t, first), Picked(units, picks), picks, e.event);
      }
    }
  }

  /** Over a link that loses packets but keeps their order, and whatever time and timer have done: what is
      presented and then waiting is the units of the packets delivered, in order, and the listener has reported
      as many gaps as there are places where packets are missing, but for multiples of 256 of them. */
  lemma LossyLink(t: VideoTable, input: Bytes, sent: seq<seq<uint8>>, times: nat -> uint32, inputs: seq<Input>,
                  picks: seq<nat>)
    requires ParseAll(t, sent) == Stamped(Reference(input).units, times) && Delivers(Packets(inputs), sent, picks)
    ensures |sent| == |Reference(input).units|
    ensures var v := Ran(t, inputs);
      && v.reports == Gaps(picks) && Inv(v.sched)
      && Data(v.sched.presented) + Data(v.sched.queue) == Picked(Reference(input).units, picks)
  {
    StampedCarries(t, sent, Reference(input).units, times);
    RunFollows(t, inputs, sent, Reference(input).units, times, picks);
    DataSum(Ran(t, inputs).sched.presented, Ran(t, inputs).sched.queue);
  }

  /** End to end, for every input: as long as the link has lost nothing, no gap is reported and the octets
      presented are the first ones of those from the input's first start code on. When everything sent has been
      received and presented, they are all of them if and only if the input is sendable. */
  lemma EndToEnd(t: VideoTable, input: Bytes, sent: seq<seq<uint8>>, times: nat -> uint32, inputs: seq<Input>)
    requires ParseAll(t, sent) == Stamped(Reference(input).units, times) && Packets(inputs) <= sent
    ensures var v := Ran(t, inputs);
      && v.reports == 0 && Concat(Data(v.sched.presented)) <= Payload(input)
      && (Packets(inputs) == sent && v.sched.queue == [] ==>
            (Concat(Data(v.sched.presented)) == Payload(input) <==> Sendable(input)))
  {
    var n, units := |Packets(inputs)|, Reference(input).units;
    assert Delivers(Packets(inputs), sent, Upto(n));
    LossyLink(t, input, sent, times, inputs, Upto(n));
    NoGaps(n);
    PickedFirst(units, n);
    PresentedAre(units, Data(Ran(t, inputs).sched.presented), Data(Ran(t, inputs).sched.queue), n, input);
  }

  lemma PickedFirst(units: seq<Bytes>, n: nat)
    requires n <= |units|
    ensures InOrder(Upto(n), |units|) && Picked(units, Upto(n)) == units[..n]
  {
  }

  /** The octets presented, of the first n units sent. */
  lemma PresentedAre(units: seq<Bytes>, presented: seq<Bytes>, waiting: seq<Bytes>, n: nat, input: Bytes)
    requires n <= |units| && presented + waiting == units[..n] && units == Reference(input).units
    ensures Concat(presented) <= Payload(input)
    ensures n == |units| && waiting == [] ==> (Concat(presented) == Payload(input) <==> Sendable(input))
  {
    SentExactly(input);
    FirstOf(units, presented, waiting, n);
    ConcatPrefix(presented, units);
  }

  lemma FirstOf(units: seq<Bytes>, presented: seq<Bytes>, waiting: seq<Bytes>, n: nat)
    requires n <= |units| && presented + waiting == units[..n]
    ensures presented <= units
    ensures n == |units| && waiting == [] ==> presented == units
  {
    assert units == units[..n] + units[n..];
    Regrouped(presented, waiting, units[n..]);
  }

  // ---------- When the units are due ----------

  /** Every packet is received before the talker's deadline for its unit, and less than 2^32 ns ahead of it. */
  ghost predicate OnTime(t: VideoTable, inputs: seq<Input>, picks: seq<nat>, deadlines: nat -> nat)
    requires |Packets(inputs)| <= |picks|
    decreases |inputs|
  {
    inputs == [] ||
    var first, e := inputs[..|inputs| - 1], inputs[|inputs| - 1];
    && OnTime(t, first, picks, deadlines)
    && (e.Incoming? ==> Within32(Ran(t, first).sched.clock, deadlines(picks[|Packets(first)|])))
  }

  /** The listener can recover the deadline from its low 32 bits. */
  predicate Within32(now: nat, deadline: nat) {
    now <= deadline < now + TWO_32 && deadline < TWO_64
  }

  /** The units delivered, each due at the talker's full deadline. */
  function Entries(units: seq<Bytes>, picks: seq<nat>, deadlines: nat -> nat): (r: seq<Entry>)
    requires InOrder(picks, |units|)
    ensures |r| == |picks|
  {
    seq(|picks|, i requires 0 <= i < |picks| => Entry(ToTimespec(deadlines(picks[i])), units[picks[i]]))
  }

  /** The deadline is recovered from the low 32 bits that the packet carries. */
  lemma DueAtDeadline(now: nat, unit: Bytes, deadline: nat)
    requires Within32(now, deadline)
    ensures Scheduled(now, unit, deadline % TWO_32) == Entry(ToTimespec(deadline), unit)
  {
    SmallMod(now, TWO_64);
    RecoversExactly(now, deadline);
  }

  lemma ReceivedEntry(t: VideoTable, v: View, p: seq<uint8>, unit: Bytes, time: uint32, seqNum: uint8, entry: Entry)
    requires Parse(t, p) == Packet(unit, time, seqNum) && entry == Scheduled(v.sched.clock, unit, time)
    ensures History(Receive(t, v, p).sched) == History(v.sched) + [entry]
  {
    StepHistory(v.sched, Accept(entry));
  }

  lemma ReceivedOnTime(t: VideoTable, v: View, p: seq<uint8>, units: seq<Bytes>, before: seq<nat>, k: nat,
                       deadlines: nat -> nat)
    requires InOrder(before + [k], |units|) && k < |units|
    requires Parse(t, p) == Packet(units[k], deadlines(k) % TWO_32, k % 0x100)
    requires InOrder(before, |units|) && History(v.sched) == Entries(units, before, deadlines)
    requires Within32(v.sched.clock, deadlines(k))
    ensures History(Receive(t, v, p).sched) == Entries(units, before + [k], deadlines)
  {
    var entry := Entry(ToTimespec(deadlines(k)), units[k]);
    DueAtDeadline(v.sched.clock, units[k], deadlines(k));
    ReceivedEntry(t, v, p, units[k], deadlines(k) % TWO_32, k % 0x100, entry);
    assert Entries(units, before + [k], deadlines) == Entries(units, before, deadlines) + [entry];
  }

  lemma LocalHistory(s: State, e: Event)
    requires Possible(s, e)
    ensures History(Step(s, e)) == History(s)
  {
    StepHistory(s, e);
    assert History(s) + [] == History(s);
  }

  lemma {:induction false} OnTimeBefore(t: VideoTable, inputs: seq<Input>, picks: seq<nat>, before: seq<nat>,
                                        deadlines: nat -> nat)
    requires before <= picks && |Packets(inputs)| <= |before| && OnTime(t, inputs, picks, deadlines)
    ensures OnTime(t, inputs, before, deadlines)
    decreases |inputs|
  {
    if inputs != [] { OnTimeBefore(t, inputs[..|inputs| - 1], picks, before, deadlines); }
  }

  /** Presented and waiting are exactly the units received, in order, each at its full deadline. */
  lemma {:induction false} RunOnTime(t: VideoTable, inputs: seq<Input>, sent: seq<seq<uint8>>, units: seq<Bytes>,
                                     times: nat -> uint32, picks: seq<nat>, deadlines: nat -> nat)
    requires Carries(t, sent, units, times) && Delivers(Packets(inputs), sent, picks)
    requires OnTime(t, inputs, picks, deadlines) && forall k: nat :: times(k) == deadlines(k) % TWO_32
    ensures History(Ran(t, inputs).sched) == Entries(units, picks, deadlines)
    decreases |inputs|
  {
    if inputs != [] {
      var first, e := inputs[..|inputs| - 1], inputs[|inputs| - 1];
      var v := Ran(t, first);
      if e.Incoming? {
        var before, k := LastDelivered(Packets(first), e.packet, sent, units, picks);
        OnTimeBefore(t, first, picks, before, deadlines);
        RunOnTime(t, first, sent, units, times, before, deadlines);
        ReceivedOnTime(t, v, e.packet, units, before, k, deadlines);
      } else {
        RunOnTime(t, first, sent, units, times, picks, deadlines);
        if Possible(v.sched, e.event) { LocalHistory(v.sched, e.event); }
      }
    }
  }

  /** Presented are the units delivered, from the first on, none before its deadline; the rest waits for its. */
  ghost predicate PresentedOnTime(s: State, units: seq<Bytes>, picks: seq<nat>, deadlines: nat -> nat)
    requires InOrder(picks, |units|)
  {
    && |s.presented| == |s.times| && |s.presented| + |s.queue| == |picks|
    && (forall i | 0 <= i < |s.presented| ::
          s.presented[i].data == units[picks[i]] && deadlines(picks[i]) <= s.times[i])
    && forall i | |s.presented| <= i < |picks| ::
         s.queue[i - |s.presented|] == Entry(ToTimespec(deadlines(picks[i])), units[picks[i]])
  }

  lemma EntriesOnTime(s: State, units: seq<Bytes>, picks: seq<nat>, deadlines: nat -> nat)
    requires InOrder(picks, |units|) && Inv(s) && History(s) == Entries(units, picks, deadlines)
    ensures PresentedOnTime(s, units, picks, deadlines)
  {
    forall i | 0 <= i < |s.presented|
      ensures s.presented[i].data == units[picks[i]] && deadlines(picks[i]) <= s.times[i]
    {
      assert History(s)[i] == s.presented[i];
    }
    forall i | |s.presented| <= i < |picks|
      ensures s.queue[i - |s.presented|] == Entry(ToTimespec(deadlines(picks[i])), units[picks[i]])
    {
      assert History(s)[i] == s.queue[i - |s.presented|];
    }
  }

  /** With delivery in time, what the listener presents is each unit delivered, in order, never before the
      talker's deadline for it; and what it has still to present is due at that deadline. */
  lemma EndToEndOnTime(t: VideoTable, input: Bytes, sent: seq<seq<uint8>>, times: nat -> uint32, inputs: seq<Input>,
                       picks: seq<nat>, deadlines: nat -> nat)
    requires ParseAll(t, sent) == Stamped(Reference(input).units, times) && Delivers(Packets(inputs), sent, picks)
    requires OnTime(t, inputs, picks, deadlines) && forall k: nat :: times(k) == deadlines(k) % TWO_32
    ensures InOrder(picks, |Reference(input).units|)
    ensures PresentedOnTime(Ran(t, inputs).sched, Reference(input).units, picks, deadlines)
  {
    var units := Reference(input).units;
    LossyLink(t, input, sent, times, inputs, picks);
    StampedCarries(t, sent, units, times);
    RunOnTime(t, inputs, sent, units, times, picks, deadlines);
    EntriesOnTime(Ran(t, inputs).sched, units, picks, deadlines);
  }

  // ---------- Talker, link and listener ----------

  /** The listener's main loop: packets are received, time passes, the timer goes off and its expiry is handled. */
  method Serve(listener: Listener, inputs: seq<Input>)
    requires listener.Valid() && listener.Now() == FRESH && Sized(inputs)
    modifies listener, listener.scheduler
    ensures listener.Valid() && listener.Now() == Ran(listener.table, inputs)
  {
    for i := 0 to |inputs|
      invariant listener.Valid() && listener.Now() == Ran(listener.table, inputs[..i])
    {
      assert inputs[..i + 1][..i] == inputs[..i];
      ServeOne(listener, inputs[i]);
    }
    assert inputs[..|inputs|] == inputs;
  }

  method ServeOne(listener: Listener, e: Input)
    requires listener.Valid() && (e.Incoming? ==> |e.packet| <= MAX_PDU_SIZE)
    modifies listener, listener.scheduler
    ensures listener.Valid() && listener.Now() == After(listener.table, old(listener.Now()), e)
  {
    match e
    case Incoming(packet) => listener.NewPacket(packet);
    case Local(event) => Happen(listener.scheduler, event);
  }

  method Happen(scheduler: Scheduler, e: Event)
    requires scheduler.Valid()
    modifies scheduler
    ensures scheduler.Valid()
    ensures scheduler.View() == if Possible(old(scheduler.View()), e) then Step(old(scheduler.View()), e)
                                else old(scheduler.View())
  {
    TimerIsLive(scheduler.View());
    match e
    case Accept(_) =>
    case Advance(to) => if scheduler.clock <= to { scheduler.Elapse(to); }
    case Fire => if Enabled(scheduler.View(), Fire) { scheduler.GoOff(); }
    case Timeout => if scheduler.timer.Expired? { scheduler.HandleExpiry(); }
  }

  /** What comes of the packets sent: what happens at the listener, and the numbers of those it receives. */
  datatype Delivery = Delivery(inputs: seq<Input>, picks: seq<nat>)

  /** The link may lose packets; it keeps their order and delivers in time. */
  ghost predicate Faithful(t: VideoTable, link: seq<seq<uint8>> -> Delivery, deadlines: nat -> nat)
  {
    forall sent ::
      && Delivers(Packets(link(sent).inputs), sent, link(sent).picks)
      && OnTime(t, link(sent).inputs, link(sent).picks, deadlines)
      && Sized(link(sent).inputs)
  }

  predicate Sized(inputs: seq<Input>) {
    forall i | 0 <= i < |inputs| && inputs[i].Incoming? :: |inputs[i].packet| <= MAX_PDU_SIZE
  }

  /** What the receiving side has come to, of the units the talker has sent. */
  ghost predicate Shown(s: State, reports: nat, input: Bytes, picks: seq<nat>, deadlines: nat -> nat) {
    var units := Reference(input).units;
    && InOrder(picks, |units|) && PresentedOnTime(s, units, picks, deadlines) && reports == Gaps(picks)
    && (picks == Upto(|picks|) ==> reports == 0 && Concat(Data(s.presented)) <= Payload(input))
    && (picks == Upto(|units|) && s.queue == [] ==> (Concat(Data(s.presented)) == Payload(input) <==> Sendable(input)))
  }

  lemma FirstDelivered(packets: seq<seq<uint8>>, sent: seq<seq<uint8>>, n: nat)
    requires Delivers(packets, sent, Upto(n))
    ensures packets <= sent && |packets| == n
  {
    if n > 0 { assert Upto(n)[n - 1] < |sent|; }
    forall i | 0 <= i < n ensures packets[i] == sent[i] { assert Upto(n)[i] == i; }
  }

  lemma StreamShown(t: VideoTable, input: Bytes, sent: seq<seq<uint8>>, times: nat -> uint32, inputs: seq<Input>,
                    picks: seq<nat>, deadlines: nat -> nat)
    requires ParseAll(t, sent) == Stamped(Reference(input).units, times) && Delivers(Packets(inputs), sent, picks)
    requires OnTime(t, inputs, picks, deadlines) && forall k: nat :: times(k) == deadlines(k) % TWO_32
    ensures Shown(Ran(t, inputs).sched, Ran(t, inputs).reports, input, picks, deadlines)
  {
    EndToEndOnTime(t, input, sent, times, inputs, picks, deadlines);
    LossyLink(t, input, sent, times, inputs, picks);
    if picks == Upto(|picks|) {
      FirstDelivered(Packets(inputs), sent, |picks|);
      EndToEnd(t, input, sent, times, inputs);
      if |picks| == |sent| { assert Packets(inputs) == sent; }
    }
  }

  method Listen(host: Host, t: VideoTable, inputs: seq<Input>) returns (state: State, reports: nat)
    requires Sized(inputs)
    ensures state == Ran(t, inputs).sched && reports == Ran(t, inputs).reports
  {
    var listener := new Listener(host, t);
    Serve(listener, inputs);
    state, reports := listener.scheduler.View(), listener.reports;
  }

  method TalkAndListen(talkerHost: Host, host: Host, t: VideoTable, input: Bytes, chunk: nat -> nat,
                       deadlines: nat -> nat, link: seq<seq<uint8>> -> Delivery)
    returns (ok: bool, picks: seq<nat>, state: State, reports: nat)
    requires |input| != 1 && chunk(0) >= 2 && forall i: nat :: chunk(i) >= 1
    requires Faithful(t, link, deadlines)
    ensures ok == Reference(input).ok && Shown(state, reports, input, picks, deadlines)
  {
    var times: nat -> uint32 := k => deadlines(k) % TWO_32;
    var talker := new Talker(talkerHost, t, input);
    ok := talker.Run(chunk, times);
    var delivery := link(talker.sent);
    picks := delivery.picks;
    StreamShown(t, input, talker.sent, times, delivery.inputs, picks, deadlines);
    state, reports := Listen(host, t, delivery.inputs);
  }

  /** End to end with the packets of the CVF format: a talker that is given any input in whatever reads, and a
      listener behind a link that may lose packets. The listener presents the units delivered, in order, each not
      before the talker's deadline for it, and reports the gaps. If nothing is lost, the octets presented are the
      input's from its first start code on; and all of them in the end, if and only if the input is sendable. */
  method TalkerToListener(talkerHost: Host, host: Host, input: Bytes, chunk: nat -> nat, deadlines: nat -> nat,
                          link: seq<seq<uint8>> -> Delivery)
    returns (ok: bool, picks: seq<nat>, state: State, reports: nat)
    requires |input| != 1 && chunk(0) >= 2 && forall i: nat :: chunk(i) >= 1
    requires Faithful(VideoTableV0(), link, deadlines)
    ensures ok == Reference(input).ok && Shown(state, reports, input, picks, deadlines)
    ensures Sendable(input) ==> ok && Reference(input).units == PayloadUnits(input)
  {
    SentExactly(input);
    ok, picks, state, reports := TalkAndListen(talkerHost, host, VideoTableV0(), input, chunk, deadlines, link);
  }
}
