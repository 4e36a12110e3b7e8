/** The media clock that the audio examples recover from a clock reference stream:
    a queue of timestamps that is topped up by every CRF packet, drawn from once per
    audio packet, and extrapolated when it is empty. */
module MediaClock {
  import opened Words
  import opened Octets
  import opened Timestamps

  /** 6 samples at 48 kHz. */
  const MCLK_PERIOD := 125_000
  const TS_PER_CRF := 160
  const CRF_SPAN := 20_000_000

  datatype State = State(queue: seq<uint64>, prev: uint64, needLookup: bool)

  /** get_next_mclk_timestamp; the timestamp it returns is the new `prev`. */
  function Tick(s: State): State {
    if s.queue == [] then State([], (s.prev + MCLK_PERIOD) % TWO_64, true)
    else State(s.queue[1..], s.queue[0], s.needLookup)
  }

  /** n timestamps one period apart, in 64 bits. */
  function Grid(base: nat, n: nat): seq<uint64>
    decreases n, base
  {
    if n == 0 then [] else [base % TWO_64] + Grid(base + MCLK_PERIOD, n - 1)
  }

  /** The timestamps above `prev`. */
  function Above(ts: seq<uint64>, prev: uint64): seq<uint64> {
    if ts == [] then [] else (if ts[0] <= prev then [] else [ts[0]]) + Above(ts[1..], prev)
  }

  /** recover_mclk, for a packet whose first media clock timestamp is `base`. */
  function Recovered(s: State, base: nat): State {
    s.(queue := s.queue + Above(Grid(base, TS_PER_CRF), s.prev))
  }

  lemma {:induction false} GridOneMore(base: nat, n: nat)
    ensures Grid(base, n + 1) == Grid(base, n) + [(base + n * MCLK_PERIOD) % TWO_64]
    decreases n
  {
    if n > 0 {
      GridOneMore(base + MCLK_PERIOD, n - 1);
      Regrouped([base % TWO_64], Grid(base + MCLK_PERIOD, n - 1), [(base + n * MCLK_PERIOD) % TWO_64]);
    }
  }

  lemma {:induction false} AboveOneMore(ts: seq<uint64>, t: uint64, prev: uint64)
    ensures Above(ts + [t], prev) == Above(ts, prev) + (if t <= prev then [] else [t])
  {
    if ts == [] {
      assert ts + [t] == [t] && [t][1..] == [];
    } else {
      assert (ts + [t])[1..] == ts[1..] + [t];
      AboveOneMore(ts[1..], t, prev);
      Regrouped(if ts[0] <= prev then [] else [ts[0]], Above(ts[1..], prev), if t <= prev then [] else [t]);
    }
  }

  /** Sums in 64 bits may be regrouped. */
  lemma WrapTwice(a: nat, b: nat, c: nat)
    ensures ((a + b) % TWO_64 + c) % TWO_64 == (a + c + b) % TWO_64
  {
    var q, r := (a + b) / TWO_64, (a + b) % TWO_64;
    var u, v := (r + c) / TWO_64, (r + c) % TWO_64;
    QuotientUnique(a + c + b, TWO_64, q + u, v);
  }

  // ---------- Runs ----------

  /** A timestamp is drawn, or a packet with that first timestamp comes in. */
  datatype Event = Draw | Packet(base: nat)

  function After(s: State, e: Event): State {
    match e
    case Draw => Tick(s)
    case Packet(base) => Recovered(s, base)
  }

  /** The timestamps drawn in the course of the events. */
  function Outputs(s: State, events: seq<Event>): seq<uint64>
    decreases |events|
  {
    if events == [] then []
    else (if events[0] == Draw then [Tick(s).prev] else []) + Outputs(After(s, events[0]), events[1..])
  }

  function Ran(s: State, events: seq<Event>): State
    decreases |events|
  {
    if events == [] then s else Ran(After(s, events[0]), events[1..])
  }

  function Draws(events: seq<Event>): nat
    decreases |events|
  {
    if events == [] then 0 else (if events[0] == Draw then 1 else 0) + Draws(events[1..])
  }

  lemma DrawFirst(s: State, events: seq<Event>)
    requires events != [] && events[0] == Draw
    ensures Outputs(s, events) == [Tick(s).prev] + Outputs(Tick(s), events[1..])
    ensures Ran(s, events) == Ran(Tick(s), events[1..]) && Draws(events) == 1 + Draws(events[1..])
  {
  }

  lemma PacketFirst(s: State, events: seq<Event>, base: nat)
    requires events != [] && events[0] == Packet(base)
    ensures Outputs(s, events) == Outputs(Recovered(s, base), events[1..])
    ensures Ran(s, events) == Ran(Recovered(s, base), events[1..]) && Draws(events) == Draws(events[1..])
  {
    assert [] + Outputs(Recovered(s, base), events[1..]) == Outputs(Recovered(s, base), events[1..]);
  }

  // ---------- A contiguous stream ----------

  function Clip(n: int): nat {
    if n < 0 then 0 else n
  }

  /** `at` is the next timestamp to draw; the packets received reach `ahead` periods past it, or
      fall short of it when the clock has run on by itself. */
  ghost predicate InStream(s: State, at: nat, ahead: int) {
    s.queue == Grid(at, Clip(ahead)) && (if ahead > 0 then s.prev < at else s.prev + MCLK_PERIOD == at)
  }

  lemma GridFront(base: nat, n: nat)
    requires base < TWO_64 && n > 0
    ensures Grid(base, n) == [base] + Grid(base + MCLK_PERIOD, n - 1)
  {
    SmallMod(base, TWO_64);
  }

  /** Drawing steps through the stream, whether the timestamp was queued or is extrapolated. */
  lemma DrawInStream(s: State, at: nat, ahead: int)
    requires InStream(s, at, ahead) && at < TWO_64
    ensures Tick(s).prev == at && InStream(Tick(s), at + MCLK_PERIOD, ahead - 1)
  {
    if ahead > 0 {
      GridFront(at, ahead);
    } else {
      SmallMod(at, TWO_64);
    }
  }

  lemma {:induction false} GridSum(base: nat, a: nat, b: nat)
    ensures Grid(base, a) + Grid(base + a * MCLK_PERIOD, b) == Grid(base, a + b)
    decreases a
  {
    if a == 0 {
      assert [] + Grid(base, b) == Grid(base, b);
    } else {
      GridSum(base + MCLK_PERIOD, a - 1, b);
      Regrouped([base % TWO_64], Grid(base + MCLK_PERIOD, a - 1), Grid(base + a * MCLK_PERIOD, b));
    }
  }

  /** The first k timestamps of a packet are late: the rest is queued. */
  lemma {:induction false} AboveGrid(base: nat, n: nat, prev: uint64, k: nat)
    requires k <= n && base + n * MCLK_PERIOD <= TWO_64
    requires k > 0 ==> base + (k - 1) * MCLK_PERIOD <= prev
    requires k < n ==> prev < base + k * MCLK_PERIOD
    ensures Above(Grid(base, n), prev) == Grid(base + k * MCLK_PERIOD, n - k)
    decreases n
  {
    if n > 0 {
      GridFront(base, n);
      AboveGrid(base + MCLK_PERIOD, n - 1, prev, if k > 0 then k - 1 else 0);
    }
  }

  lemma AllAbove(base: nat, n: nat, prev: uint64)
    requires prev < base && base + n * MCLK_PERIOD <= TWO_64
    ensures Above(Grid(base, n), prev) == Grid(base, n)
  {
    AboveGrid(base, n, prev, 0);
  }

  lemma PacketAhead(s: State, at: nat, ahead: nat, base: nat)
    requires InStream(s, at, ahead) && base == at + ahead * MCLK_PERIOD && base + CRF_SPAN <= TWO_64
    ensures InStream(Recovered(s, base), at, ahead + TS_PER_CRF)
  {
    AllAbove(base, TS_PER_CRF, s.prev);
    GridSum(at, ahead, TS_PER_CRF);
    assert Recovered(s, base).queue == Grid(at, ahead) + Grid(base, TS_PER_CRF);
  }

  lemma PacketLate(s: State, at: nat, late: int, base: nat)
    requires late > 0 && InStream(s, at, -late) && base + late * MCLK_PERIOD == at && base + CRF_SPAN <= TWO_64
    ensures InStream(Recovered(s, base), at, TS_PER_CRF - late)
  {
    var k := if late < TS_PER_CRF then late else TS_PER_CRF;
    AboveGrid(base, TS_PER_CRF, s.prev, k);
    assert [] + Grid(base + k * MCLK_PERIOD, TS_PER_CRF - k) == Grid(base + k * MCLK_PERIOD, TS_PER_CRF - k);
  }

  /** The next packet of the stream extends the queue, less what has been extrapolated already. */
  lemma PacketInStream(s: State, at: nat, ahead: int, base: nat)
    requires InStream(s, at, ahead) && base == at + ahead * MCLK_PERIOD && base + CRF_SPAN <= TWO_64
    ensures InStream(Recovered(s, base), at, ahead + TS_PER_CRF)
  {
    if ahead >= 0 { PacketAhead(s, at, ahead, base); } else { PacketLate(s, at, -ahead, base); }
  }

  /** The packets of the events follow each other without a gap; the first starts at `next`. */
  predicate Contiguous(events: seq<Event>, next: nat)
    decreases |events|
  {
    events == [] ||
    match events[0]
    case Draw => Contiguous(events[1..], next)
    case Packet(base) => base == next && Contiguous(events[1..], next + CRF_SPAN)
  }

  /** The clock has no gaps: over a contiguous stream, however arrivals and draws interleave, the
      timestamps drawn are those of the stream one after the other; also while the clock runs on
      its own, and when packets come late. The 64-bit count must not overflow meanwhile. */
  lemma {:induction false} GapFree(s: State, at: nat, ahead: int, next: nat, events: seq<Event>)
    requires InStream(s, at, ahead) && next == at + ahead * MCLK_PERIOD && Contiguous(events, next)
    requires at + |events| * MCLK_PERIOD <= TWO_64 && next + |events| * CRF_SPAN <= TWO_64
    ensures Outputs(s, events) == Grid(at, Draws(events))
    ensures InStream(Ran(s, events), at + Draws(events) * MCLK_PERIOD,
                     ahead - Draws(events) + TS_PER_CRF * (|events| - Draws(events)))
    decreases |events|
  {
    if events == [] {
    } else if events[0] == Draw {
      DrawFirst(s, events);
      DrawInStream(s, at, ahead);
      GapFree(Tick(s), at + MCLK_PERIOD, ahead - 1, next, events[1..]);
      GridFront(at, Draws(events));
    } else {
      PacketFirst(s, events, next);
      PacketInStream(s, at, ahead, next);
      GapFree(Recovered(s, next), at, ahead + TS_PER_CRF, next + CRF_SPAN, events[1..]);
    }
  }

  lemma {:induction false} GridAt(ts: seq<uint64>, base: nat, n: nat, i: nat)
    requires ts == Grid(base, n) && i < n && base + n * MCLK_PERIOD <= TWO_64
    ensures i < |ts| && ts[i] == base + i * MCLK_PERIOD
    decreases n
  {
    GridFront(base, n);
    if i > 0 { GridAt(ts[1..], base + MCLK_PERIOD, n - 1, i - 1); }
  }

  lemma {:induction false} DrawsBound(events: seq<Event>)
    ensures Draws(events) <= |events|
    decreases |events|
  {
    if events != [] { DrawsBound(events[1..]); }
  }

  /** So consecutive timestamps drawn differ by exactly one period. */
  lemma ExactSteps(s: State, at: nat, ahead: int, next: nat, events: seq<Event>, ts: seq<uint64>, i: nat)
    requires InStream(s, at, ahead) && next == at + ahead * MCLK_PERIOD && Contiguous(events, next)
    requires at + |events| * MCLK_PERIOD <= TWO_64 && next + |events| * CRF_SPAN <= TWO_64
    requires ts == Outputs(s, events) && i + 1 < Draws(events)
    ensures i + 1 < |ts| && ts[i + 1] == ts[i] + MCLK_PERIOD
  {
    GapFree(s, at, ahead, next, events);
    DrawsBound(events);
    GridAt(ts, at, Draws(events), i);
    GridAt(ts, at, Draws(events), i + 1);
  }

  /** The first packet puts an idle clock on its stream, unless all of it is late. */
  lemma FirstPacket(s: State, b0: nat) returns (k: nat)
    requires s.queue == [] && s.prev < b0 + 159 * MCLK_PERIOD && b0 + CRF_SPAN <= TWO_64
    ensures k < TS_PER_CRF && InStream(Recovered(s, b0), b0 + k * MCLK_PERIOD, TS_PER_CRF - k)
    ensures s.prev < b0 ==> k == 0
  {
    k := if s.prev < b0 then 0 else (s.prev - b0) / MCLK_PERIOD + 1;
    AboveGrid(b0, TS_PER_CRF, s.prev, k);
    assert [] + Grid(b0 + k * MCLK_PERIOD, TS_PER_CRF - k) == Grid(b0 + k * MCLK_PERIOD, TS_PER_CRF - k);
  }

  /** In talker mode the first timestamp is taken off the queue to start the transmission timer,
      without being recorded as the previous one; the clock stays on its stream. */
  lemma TimerStart(s: State, at: nat, ahead: nat)
    requires InStream(s, at, ahead) && ahead >= 2 && at < TWO_64
    ensures s.queue != [] && s.queue[0] == at
    ensures InStream(s.(queue := s.queue[1..]), at + MCLK_PERIOD, ahead - 1)
  {
    GridFront(at, ahead);
  }

  // ---------- A stream with losses ----------

  /** The timestamps rise strictly, all of them above `low` and below `high`. */
  ghost predicate Rising(ts: seq<uint64>, low: int, high: int) {
    && (forall i | 0 <= i < |ts| :: low < ts[i] < high)
    && forall i, j | 0 <= i < j < |ts| :: ts[i] < ts[j]
  }

  lemma RisingJoin(a: seq<uint64>, b: seq<uint64>, low: int, mid: int, high: int)
    requires Rising(a, low, mid) && Rising(b, mid - 1, high) && low < mid <= high
    ensures Rising(a + b, low, high)
  {
  }

  function Max(a: int, b: int): int {
    if a < b then b else a
  }

  lemma RisesFrom(base: uint64, rest: seq<uint64>, prev: uint64, high: int)
    requires Rising(rest, Max(prev, base + MCLK_PERIOD - 1), high) && base < high
    ensures Rising((if base <= prev then [] else [base]) + rest, Max(prev, base - 1), high)
  {
    if base > prev {
      RisingJoin([base], rest, base - 1, base + 1, high);
    } else {
      assert [] + rest == rest;
    }
  }

  /** What a packet queues rises strictly above what has been drawn, within the packet's span. */
  lemma {:induction false} AboveRises(base: nat, n: nat, prev: uint64)
    requires base + n * MCLK_PERIOD <= TWO_64
    ensures Rising(Above(Grid(base, n), prev), Max(prev, base - 1), base + n * MCLK_PERIOD)
    decreases n
  {
    if n > 0 {
      GridFront(base, n);
      AboveRises(base + MCLK_PERIOD, n - 1, prev);
      RisesFrom(base, Above(Grid(base + MCLK_PERIOD, n - 1), prev), prev, base + n * MCLK_PERIOD);
    }
  }

  lemma SamePhase(x: nat)
    ensures (x + MCLK_PERIOD) % MCLK_PERIOD == x % MCLK_PERIOD
  {
  }

  predicate AllInPhase(ts: seq<uint64>, r: nat) {
    forall i | 0 <= i < |ts| :: ts[i] % MCLK_PERIOD == r
  }

  lemma {:induction false} AboveInPhase(base: nat, n: nat, prev: uint64)
    requires base + n * MCLK_PERIOD <= TWO_64
    ensures AllInPhase(Above(Grid(base, n), prev), base % MCLK_PERIOD)
    decreases n
  {
    if n > 0 {
      GridFront(base, n);
      AboveInPhase(base + MCLK_PERIOD, n - 1, prev);
      SamePhase(base);
    }
  }

  /** Every packet starts at least the span of a packet after the one received before it. */
  predicate Advancing(events: seq<Event>, floor: nat, horizon: nat)
    decreases |events|
  {
    events == [] ||
    match events[0]
    case Draw => Advancing(events[1..], floor, horizon)
    case Packet(base) =>
      floor <= base && base + CRF_SPAN <= horizon && Advancing(events[1..], base + CRF_SPAN, horizon)
  }

  /** The queue is strictly sorted above the timestamp drawn last, and below the packets to come. */
  ghost predicate Ordered(s: State, floor: nat) {
    Rising(s.queue, s.prev, floor)
  }

  lemma QueueRises(queue: seq<uint64>, more: seq<uint64>, prev: int, floor: int, base: int, high: int)
    requires Rising(queue, prev, floor) && floor <= base < high && Rising(more, Max(prev, base - 1), high)
    ensures Rising(queue + more, prev, high)
  {
    if queue == [] {
      assert queue + more == more;
    } else {
      assert prev < queue[0] < floor;
      RisingJoin(queue, more, prev, base, high);
    }
  }

  lemma PacketOrdered(s: State, floor: nat, base: nat)
    requires Ordered(s, floor) && floor <= base && base + CRF_SPAN <= TWO_64
    ensures Ordered(Recovered(s, base), base + CRF_SPAN)
  {
    AboveRises(base, TS_PER_CRF, s.prev);
    QueueRises(s.queue, Above(Grid(base, TS_PER_CRF), s.prev), s.prev, floor, base, base + CRF_SPAN);
  }

  lemma DrawOrdered(s: State, floor: nat)
    requires Ordered(s, floor) && s.prev + MCLK_PERIOD < TWO_64
    ensures Ordered(Tick(s), floor) && s.prev < Tick(s).prev <= Max(s.prev + MCLK_PERIOD, floor)
  {
    SmallMod(s.prev + MCLK_PERIOD, TWO_64);
  }

  /** With packets lost, the clock still only moves forward. The count must not overflow meanwhile. */
  lemma {:induction false} Monotone(s: State, floor: nat, events: seq<Event>, horizon: nat, top: nat)
    requires Ordered(s, floor) && Advancing(events, floor, horizon)
    requires s.prev < top && floor <= horizon <= top && top + |events| * MCLK_PERIOD < TWO_64
    ensures Rising(Outputs(s, events), s.prev, TWO_64)
    decreases |events|
  {
    if events == [] {
    } else if events[0] == Draw {
      DrawFirst(s, events);
      DrawOrdered(s, floor);
      Monotone(Tick(s), floor, events[1..], horizon, top + MCLK_PERIOD);
      RisingJoin([Tick(s).prev], Outputs(Tick(s), events[1..]), s.prev, Tick(s).prev + 1, TWO_64);
    } else {
      PacketFirst(s, events, events[0].base);
      PacketOrdered(s, floor, events[0].base);
      Monotone(Recovered(s, events[0].base), events[0].base + CRF_SPAN, events[1..], horizon, top);
    }
  }

  /** What is queued is in phase with r, or with nothing queued what was drawn last. */
  predicate Phased(s: State, r: nat) {
    (s.queue == [] ==> s.prev % MCLK_PERIOD == r) && AllInPhase(s.queue, r)
  }

  lemma PacketPhased(s: State, r: nat, base: nat)
    requires Phased(s, r) && base % MCLK_PERIOD == r && base + CRF_SPAN <= TWO_64
    ensures Phased(Recovered(s, base), r)
  {
    AboveInPhase(base, TS_PER_CRF, s.prev);
  }

  lemma DrawPhased(s: State, r: nat)
    requires Phased(s, r) && s.prev + MCLK_PERIOD < TWO_64
    ensures Phased(Tick(s), r) && Tick(s).prev % MCLK_PERIOD == r
  {
    SmallMod(s.prev + MCLK_PERIOD, TWO_64);
    SamePhase(s.prev);
  }

  lemma PhaseJoin(t: uint64, rest: seq<uint64>, r: nat)
    requires t % MCLK_PERIOD == r && AllInPhase(rest, r)
    ensures AllInPhase([t] + rest, r)
  {
  }

  /** All packets of the events are in phase with r. */
  predicate PacketsInPhase(events: seq<Event>, r: nat)
    decreases |events|
  {
    events == [] ||
    ((events[0].Packet? ==> events[0].base % MCLK_PERIOD == r) && PacketsInPhase(events[1..], r))
  }

  /** With the packets in phase, so is everything drawn, from the first timestamp that was queued. */
  lemma {:induction false} KeepsPhase(s: State, floor: nat, events: seq<Event>, horizon: nat, top: nat, r: nat)
    requires Ordered(s, floor) && Advancing(events, floor, horizon) && Phased(s, r) && PacketsInPhase(events, r)
    requires s.prev < top && floor <= horizon <= top && top + |events| * MCLK_PERIOD < TWO_64
    ensures AllInPhase(Outputs(s, events), r)
    decreases |events|
  {
    if events == [] {
    } else if events[0] == Draw {
      DrawFirst(s, events);
      DrawOrdered(s, floor);
      DrawPhased(s, r);
      KeepsPhase(Tick(s), floor, events[1..], horizon, top + MCLK_PERIOD, r);
      PhaseJoin(Tick(s).prev, Outputs(Tick(s), events[1..]), r);
    } else {
      PacketFirst(s, events, events[0].base);
      PacketOrdered(s, floor, events[0].base);
      PacketPhased(s, r, events[0].base);
      KeepsPhase(Recovered(s, events[0].base), events[0].base + CRF_SPAN, events[1..], horizon, top, r);
    }
  }

  /** So with losses every step of the clock is a positive number of whole periods. */
  lemma WholeSteps(s: State, floor: nat, events: seq<Event>, horizon: nat, top: nat, r: nat, ts: seq<uint64>,
                   i: nat)
    requires Ordered(s, floor) && Advancing(events, floor, horizon) && Phased(s, r) && PacketsInPhase(events, r)
    requires s.prev < top && floor <= horizon <= top && top + |events| * MCLK_PERIOD < TWO_64
    requires ts == Outputs(s, events) && i + 1 < |ts|
    ensures ts[i + 1] > ts[i] && (ts[i + 1] - ts[i]) % MCLK_PERIOD == 0
  {
    Monotone(s, floor, events, horizon, top);
    KeepsPhase(s, floor, events, horizon, top, r);
    PhaseDifference(ts[i + 1], ts[i], r);
  }

  lemma PhaseDifference(x: nat, y: nat, r: nat)
    requires x % MCLK_PERIOD == r && y % MCLK_PERIOD == r
    ensures (x - y) % MCLK_PERIOD == 0
  {
    QuotientUnique(x - y, MCLK_PERIOD, x / MCLK_PERIOD - y / MCLK_PERIOD, 0);
  }
}
