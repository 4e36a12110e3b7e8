/** Scheduled presentation, as both listeners do it: what a packet brings waits in
    a queue, and a one-shot timer tells when the head of the queue is due. */
module Presentation {
  import opened Words
  import opened Octets
  import opened Timestamps

  /** Data with the time at which to present it. */
  datatype Entry = Entry(due: Timespec, data: seq<uint8>)

  /** The timer descriptor: Expired from the moment it goes off until its expiry has been read. */
  datatype Timer = Disarmed | Armed(at: Timespec) | Expired

  /** arm_timer: setting a timer to time zero disarms it. */
  function Arm(t: Timespec): Timer {
    if t == Timespec(0, 0) then Disarmed else Armed(t)
  }

  /** What is waiting, what has been presented and when, and the clock. */
  datatype State = State(queue: seq<Entry>, timer: Timer, clock: nat, presented: seq<Entry>, times: seq<nat>)

  const IDLE := State([], Disarmed, 0, [], [])

  /** What can happen: data is accepted, time passes, the timer goes off, the main loop handles its expiry. */
  datatype Event = Accept(entry: Entry) | Advance(to: nat) | Fire | Timeout

  predicate Enabled(s: State, e: Event) {
    match e
    case Accept(_) => true
    case Advance(to) => s.clock <= to
    case Fire => s.timer.Armed? && Nanoseconds(s.timer.at) <= s.clock
    case Timeout => s.timer.Expired?
  }

  function Step(s: State, e: Event): State
    requires Enabled(s, e) && (e == Timeout ==> s.queue != [])
  {
    match e
    case Accept(entry) => s.(queue := s.queue + [entry], timer := if s.queue == [] then Arm(entry.due) else s.timer)
    case Advance(to) => s.(clock := to)
    case Fire => s.(timer := Expired)
    case Timeout =>
      s.(queue := s.queue[1..], timer := if |s.queue| > 1 then Arm(s.queue[1].due) else Disarmed,
         presented := s.presented + [s.queue[0]], times := s.times + [s.clock])
  }

  /** The timer is set for the head of the queue, or has gone off for it; it is idle with the queue empty. */
  predicate TimerFollowsHead(s: State) {
    if s.queue == [] then s.timer == Disarmed
    else if s.timer == Expired then 0 < Nanoseconds(s.queue[0].due) <= s.clock
    else s.timer == Arm(s.queue[0].due)
  }

  /** Nothing has been presented before it was due, and the clock has not run backwards. */
  predicate InTime(s: State) {
    && |s.presented| == |s.times|
    && (forall i | 0 <= i < |s.times| :: Nanoseconds(s.presented[i].due) <= s.times[i] <= s.clock)
    && forall i, j | 0 <= i < j < |s.times| :: s.times[i] <= s.times[j]
  }

  predicate Inv(s: State) {
    TimerFollowsHead(s) && InTime(s)
  }

  /** Everything that has been accepted. */
  function History(s: State): seq<Entry> {
    s.presented + s.queue
  }

  /** So the timer is armed or its expiry pending exactly when something that can become due is
      waiting; an expiry never meets an empty queue, and accepting data never disturbs a live timer. */
  lemma TimerIsLive(s: State)
    requires TimerFollowsHead(s)
    ensures s.timer != Disarmed <==> s.queue != [] && s.queue[0].due != Timespec(0, 0)
    ensures Enabled(s, Timeout) ==> s.queue != []
    ensures forall entry :: s.timer != Disarmed ==> Step(s, Accept(entry)).timer == s.timer
  {
  }

  lemma StepKeepsTimer(s: State, e: Event)
    requires TimerFollowsHead(s) && Enabled(s, e)
    requires e == Timeout ==> s.queue != []
    ensures TimerFollowsHead(Step(s, e))
  {
    var t := Step(s, e);
    if e.Accept? {
      assert t.queue[0] == if s.queue == [] then e.entry else s.queue[0];
    } else if e == Timeout && |s.queue| > 1 {
      assert t.queue[0] == s.queue[1];
    }
  }

  lemma StepInTime(s: State, e: Event)
    requires Inv(s) && Enabled(s, e)
    requires e == Timeout ==> s.queue != []
    ensures InTime(Step(s, e))
  {
  }

  /** A step adds to what has been accepted exactly what it accepts. */
  lemma StepHistory(s: State, e: Event)
    requires Enabled(s, e) && (e == Timeout ==> s.queue != [])
    ensures History(Step(s, e)) == History(s) + (if e.Accept? then [e.entry] else [])
  {
    if e == Timeout {
      assert s.queue == [s.queue[0]] + s.queue[1..];
    }
  }

  /** The events, one after the other, lead from s to t, each possible when it happens. */
  ghost predicate Run(s: State, events: seq<Event>, t: State)
    decreases |events|
  {
    if events == [] then s == t
    else
      && Enabled(s, events[0])
      && (events[0] == Timeout ==> s.queue != [])
      && Run(Step(s, events[0]), events[1..], t)
  }

  function Accepted(events: seq<Event>): seq<Entry>
    decreases |events|
  {
    if events == [] then []
    else (if events[0].Accept? then [events[0].entry] else []) + Accepted(events[1..])
  }

  /** Over every run: what was presented, followed by what is waiting, is what was accepted, in order
      of arrival; nothing is presented before it is due; the timer follows the head of the queue. */
  lemma {:induction false} RunKeeps(s: State, events: seq<Event>, t: State)
    requires Inv(s) && Run(s, events, t)
    ensures Inv(t) && History(t) == History(s) + Accepted(events)
    ensures s.presented <= t.presented
    decreases |events|
  {
    if events != [] {
      var u := Step(s, events[0]);
      StepKeepsTimer(s, events[0]);
      StepInTime(s, events[0]);
      StepHistory(s, events[0]);
      RunKeeps(u, events[1..], t);
    }
  }

  /** Without the side condition on Timeout: in a run from an idle listener no expiry ever meets an
      empty queue, so every event that is enabled can be taken. */
  lemma NoStrayExpiry(events: seq<Event>, t: State, e: Event)
    requires Run(IDLE, events, t) && Enabled(t, e)
    ensures (e == Timeout ==> t.queue != []) && Run(t, [e], Step(t, e))
  {
    RunKeeps(IDLE, events, t);
    TimerIsLive(t);
  }

  lemma {:induction false} RunThen(s: State, first: seq<Event>, t: State, second: seq<Event>, u: State)
    requires Run(s, first, t) && Run(t, second, u)
    ensures Run(s, first + second, u)
    decreases |first|
  {
    if first == [] {
      assert first + second == second;
    } else {
      TailOfSum(first, second);
      RunThen(Step(s, first[0]), first[1..], t, second, u);
    }
  }

  predicate CanBecomeDue(queue: seq<Entry>) {
    forall i | 0 <= i < |queue| :: queue[i].due != Timespec(0, 0)
  }

  function Later(a: nat, b: nat): nat {
    if a < b then b else a
  }

  /** The head of the queue is presented once its time has come. */
  lemma HeadPresented(s: State) returns (events: seq<Event>, t: State)
    requires Inv(s) && s.queue != [] && s.queue[0].due != Timespec(0, 0)
    ensures Run(s, events, t) && Accepted(events) == [] && Inv(t)
    ensures t.queue == s.queue[1..] && t.presented == s.presented + [s.queue[0]]
  {
    if s.timer == Expired {
      events := [Timeout];
      t := Step(s, Timeout);
    } else {
      var now := Later(s.clock, Nanoseconds(s.queue[0].due));
      var u := Step(s, Advance(now));
      var v := Step(u, Fire);
      events := [Advance(now), Fire, Timeout];
      t := Step(v, Timeout);
      assert events[1..] == [Fire, Timeout] && events[1..][1..] == [Timeout];
      assert Run(v, [Timeout], t);
      assert Run(u, [Fire, Timeout], t);
    }
    RunKeeps(s, events, t);
  }

  /** Nothing is left waiting: as time passes, everything that can become due is presented. */
  lemma {:induction false} AllPresented(s: State) returns (events: seq<Event>, t: State)
    requires Inv(s) && CanBecomeDue(s.queue)
    ensures Run(s, events, t) && Accepted(events) == []
    ensures t.queue == [] && t.presented == s.presented + s.queue
    decreases |s.queue|
  {
    if s.queue == [] {
      events, t := [], s;
    } else {
      var first, u := HeadPresented(s);
      var rest;
      rest, t := AllPresented(u);
      events := first + rest;
      RunThen(s, first, u, rest, t);
      RunKeeps(s, events, t);
      assert u.presented + u.queue == s.presented + s.queue;
      AcceptedThen(first, rest);
    }
  }

  lemma {:induction false} AcceptedThen(first: seq<Event>, second: seq<Event>)
    ensures Accepted(first + second) == Accepted(first) + Accepted(second)
    decreases |first|
  {
    if first == [] {
      assert first + second == second;
    } else {
      var head := if first[0].Accept? then [first[0].entry] else [];
      TailOfSum(first, second);
      AcceptedThen(first[1..], second);
      Regrouped(head, Accepted(first[1..]), Accepted(second));
    }
  }

  lemma TailOfSum(a: seq<Event>, b: seq<Event>)
    requires a != []
    ensures (a + b)[0] == a[0] && (a + b)[1..] == a[1..] + b
  {
  }

  /** An entry due at time zero disarms the timer when it comes to the head of the queue: neither it
      nor anything behind it is ever presented, whatever else is accepted. */
  lemma {:induction false} ZeroTimeBlocks(s: State, events: seq<Event>, t: State, k: nat)
    requires Inv(s) && k < |s.queue| && s.queue[k].due == Timespec(0, 0) && Run(s, events, t)
    ensures |t.presented| <= |s.presented| + k
    decreases |events|
  {
    if events != [] {
      var u := Step(s, events[0]);
      StepKeepsTimer(s, events[0]);
      StepInTime(s, events[0]);
      ZeroTimeBlocks(u, events[1..], t, if events[0] == Timeout then k - 1 else k);
    }
  }

  /** The queue can be presented to the end, without anything else being accepted. */
  ghost predicate CanEmpty(s: State) {
    exists events, t :: Run(s, events, t) && Accepted(events) == [] && t.queue == []
  }

  /** It can exactly when no entry in it is due at time zero. */
  lemma CanEmptyExactly(s: State)
    requires Inv(s)
    ensures CanEmpty(s) <==> CanBecomeDue(s.queue)
  {
    if CanBecomeDue(s.queue) {
      var events, t := AllPresented(s);
    }
    if events, t :| Run(s, events, t) && Accepted(events) == [] && t.queue == [] {
      RunKeeps(s, events, t);
      forall k | 0 <= k < |s.queue| ensures s.queue[k].due != Timespec(0, 0) {
        if s.queue[k].due == Timespec(0, 0) { ZeroTimeBlocks(s, events, t, k); }
      }
    }
  }

  /** And a recovered time is zero exactly when the AVTP time is, with the clock at zero or in the last
      2^32 ns that a 64-bit count holds. */
  lemma ZeroTimeExactly(now: uint64, avtpTime: uint32)
    ensures ToTimespec(Recover(now, avtpTime)) == Timespec(0, 0)
       <==> avtpTime == 0 && (now == 0 || BeyondWord(now, 0))
  {
    RecoverValue(now, avtpTime);
    var due := ToTimespec(Recover(now, avtpTime));
    assert Nanoseconds(due) == Recover(now, avtpTime) && Nanoseconds(Timespec(0, 0)) == 0;
  }

  /** The listener's queue, timer and output. */
  class Scheduler {
    var queue: seq<Entry>
    var timer: Timer
    var clock: nat
    var presented: seq<Entry>
    var times: seq<nat>

    function View(): State
      reads this
    {
      State(queue, timer, clock, presented, times)
    }

    ghost predicate Valid()
      reads this
    {
      Inv(View())
    }

    constructor ()
      ensures Valid() && View() == IDLE
    {
      queue, timer, clock, presented, times := [], Disarmed, 0, [], [];
    }

    /** schedule_nal and schedule_sample. */
    method Schedule(tspec: Timespec, data: seq<uint8>)
      requires Valid()
      modifies this
      ensures Valid() && View() == Step(old(View()), Accept(Entry(tspec, data)))
    {
      StepKeepsTimer(View(), Accept(Entry(tspec, data)));
      StepInTime(View(), Accept(Entry(tspec, data)));
      var entry := Entry(tspec, data);
      queue := queue + [entry];
      if |queue| == 1 {
        timer := Arm(tspec);
      }
    }

    /** Time passes; a timer whose time has come goes off. Both are the kernel's doing. */
    method Elapse(to: nat)
      requires Valid() && clock <= to
      modifies this`clock
      ensures Valid() && View() == Step(old(View()), Advance(to))
    {
      StepKeepsTimer(View(), Advance(to));
      clock := to;
    }

    method GoOff()
      requires Valid() && Enabled(View(), Fire)
      modifies this`timer
      ensures Valid() && View() == Step(old(View()), Fire)
    {
      StepKeepsTimer(View(), Fire);
      timer := Expired;
    }

    /** timeout. */
    method HandleExpiry()
      requires Valid() && timer.Expired?
      modifies this
      ensures Valid() && View() == Step(old(View()), Timeout)
    {
      TimerIsLive(View());
      StepKeepsTimer(View(), Timeout);
      StepInTime(View(), Timeout);
      timer := Disarmed;
      assert queue != [];
      var entry := queue[0];
      presented, times := presented + [entry], times + [clock];
      queue := queue[1..];
      if queue != [] {
        timer := Arm(queue[0].due);
      }
    }
  }
}
