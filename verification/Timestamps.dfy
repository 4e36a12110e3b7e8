/** AVTP time: the talker sends the low 32 bits of a time in nanoseconds, the
    listener recovers the rest of it from its own clock. */
module Timestamps {
  import opened Words

  const NSEC_PER_SEC := 1_000_000_000
  const NSEC_PER_MSEC := 1_000_000
  const TWO_32: nat := 0x1_0000_0000
  const TWO_64: nat := 0x1_0000_0000_0000_0000
  const HIGH_MASK: uint64 := 0xFFFF_FFFF_0000_0000

  /** A clock reading. */
  datatype Timespec = Timespec(sec: nat, nsec: nat)

  /** A clock reading in nanoseconds. */
  function Nanoseconds(t: Timespec): nat {
    t.sec * NSEC_PER_SEC + t.nsec
  }

  /** A time in nanoseconds as a clock would read it. */
  function ToTimespec(n: nat): (t: Timespec)
    ensures Nanoseconds(t) == n && t.nsec < NSEC_PER_SEC
  {
    Timespec(n / NSEC_PER_SEC, n % NSEC_PER_SEC)
  }

  /** The time at which the talker wants its data presented. */
  function TransitDeadline(clock: Timespec, maxTransit: uint32): nat {
    Nanoseconds(clock) + maxTransit * NSEC_PER_MSEC
  }

  /** calculate_avtp_time; the 64-bit sum may wrap around. */
  method CalculateAvtpTime(clock: Timespec, maxTransit: uint32) returns (avtpTime: uint32)
    ensures avtpTime == TransitDeadline(clock, maxTransit) % TWO_32
  {
    var ptime: uint64 := (clock.sec * NSEC_PER_SEC % TWO_64 + maxTransit * NSEC_PER_MSEC + clock.nsec) % TWO_64;
    avtpTime := ptime % TWO_32;
    WrappedSum(clock.sec * NSEC_PER_SEC, maxTransit * NSEC_PER_MSEC + clock.nsec);
  }

  lemma WrappedSum(x: nat, y: nat)
    ensures (x % TWO_64 + y) % TWO_64 % TWO_32 == (x + y) % TWO_32
  {
    var a, r := x / TWO_64, x % TWO_64;
    var b, s := (r + y) / TWO_64, (r + y) % TWO_64;
    var c, u := s / TWO_32, s % TWO_32;
    QuotientUnique(x + y, TWO_32, TWO_32 * (a + b) + c, u);
  }

  /** The presentation time get_presentation_time computes, in nanoseconds. */
  function Recover(now: uint64, avtpTime: uint64): nat {
    var ptime := Or(And(now, HIGH_MASK), avtpTime);
    if ptime < now then (ptime + TWO_32) % TWO_64 else ptime
  }

  /** get_presentation_time; the clock reading in nanoseconds is cut to 64 bits. */
  method GetPresentationTime(avtpTime: uint64, clock: Timespec) returns (tspec: Timespec)
    ensures tspec == ToTimespec(Recover(Nanoseconds(clock) % TWO_64, avtpTime))
  {
    var now := Nanoseconds(clock) % TWO_64;
    var ptime := Or(And(now, HIGH_MASK), avtpTime);
    if ptime < now { ptime := (ptime + TWO_32) % TWO_64; }
    tspec := Timespec(ptime / NSEC_PER_SEC, ptime % NSEC_PER_SEC);
  }

  /** The mask and the or put the low half of `now` aside for the timestamp. */
  lemma Replaced(now: uint64, avtpTime: uint32)
    ensures Or(And(now, HIGH_MASK), avtpTime) == now / TWO_32 * TWO_32 + avtpTime
  {
    Pow2Values();
    AndHigh(now, 32, 32);
    ShrValue(now, 32);
    OrDisjoint(now / TWO_32, avtpTime, 32);
  }

  /** No 64-bit time within 2^32 ns from now has these low bits. */
  predicate BeyondWord(now: uint64, avtpTime: uint32) {
    now / TWO_32 == TWO_32 - 1 && avtpTime < now % TWO_32
  }

  lemma RecoverValue(now: uint64, avtpTime: uint32)
    ensures Recover(now, avtpTime) ==
      if BeyondWord(now, avtpTime) then avtpTime
      else if avtpTime < now % TWO_32 then (now / TWO_32 + 1) * TWO_32 + avtpTime
      else now / TWO_32 * TWO_32 + avtpTime
  {
    Replaced(now, avtpTime);
    var h := now / TWO_32;
    assert now == h * TWO_32 + now % TWO_32;
    if avtpTime < now % TWO_32 && h < TWO_32 - 1 {
      SmallMod(h * TWO_32 + avtpTime + TWO_32, TWO_64);
    }
  }

  /** The recovered time is the one time with the given low bits in the 2^32 ns from now on,
      unless that time does not fit a 64-bit word. */
  lemma RecoverIsUnique(now: uint64, avtpTime: uint32)
    ensures var t := Recover(now, avtpTime);
      && t % TWO_32 == avtpTime
      && ((now <= t < now + TWO_32) <==> !BeyondWord(now, avtpTime))
    ensures forall t: nat | now <= t < now + TWO_32 && t % TWO_32 == avtpTime && t < TWO_64 ::
              t == Recover(now, avtpTime)
  {
    RecoverValue(now, avtpTime);
    var h := now / TWO_32;
    QuotientUnique(h * TWO_32 + avtpTime, TWO_32, h, avtpTime);
    QuotientUnique((h + 1) * TWO_32 + avtpTime, TWO_32, h + 1, avtpTime);
    forall t: nat | now <= t < now + TWO_32 && t % TWO_32 == avtpTime && t < TWO_64
      ensures t == Recover(now, avtpTime) {
      OneInWindow(now, avtpTime, t);
    }
  }

  lemma OneInWindow(now: uint64, avtpTime: uint32, t: nat)
    requires now <= t < now + TWO_32 && t % TWO_32 == avtpTime && t < TWO_64
    ensures t == Recover(now, avtpTime)
  {
    RecoverValue(now, avtpTime);
    assert now / TWO_32 <= t / TWO_32 <= now / TWO_32 + 1;
    assert t == t / TWO_32 * TWO_32 + avtpTime;
  }

  /** The listener recovers a 64-bit time from its low half exactly when that time is now or within
      the next 2^32 ns. (Past the last 2^32 ns a word can count, it takes the low half itself.) */
  lemma RecoversExactly(now: uint64, t: uint64)
    ensures Recover(now, t % TWO_32) == t <==> (now <= t < now + TWO_32 || (BeyondWord(now, t % TWO_32) && t < TWO_32))
  {
    RecoverIsUnique(now, t % TWO_32);
    RecoverValue(now, t % TWO_32);
    if t < TWO_32 { SmallMod(t, TWO_32); }
  }

  /** From the talker's clock and the transit time to the listener's timer. */
  lemma DeadlineRecovered(talker: Timespec, maxTransit: uint32, listener: Timespec)
    requires TransitDeadline(talker, maxTransit) < TWO_64
    requires Nanoseconds(listener) <= TransitDeadline(talker, maxTransit) < Nanoseconds(listener) + TWO_32
    ensures Recover(Nanoseconds(listener), TransitDeadline(talker, maxTransit) % TWO_32)
         == TransitDeadline(talker, maxTransit)
  {
    RecoversExactly(Nanoseconds(listener), TransitDeadline(talker, maxTransit));
  }
}
