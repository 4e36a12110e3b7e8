/** The media clock lookup: draw timestamps until one has the wanted low 32 bits.
    Whether that ever happens is a matter of arithmetic modulo 8. */
module ClockLookup {
  import opened Words
  import opened Timestamps
  import opened MediaClock

  const TWO_29: nat := 0x2000_0000
  const ODD_PERIOD: nat := 15_625
  const INVERSE: nat := 146_956_601   // of 15625 modulo 2^29; the period is 8 * 15625

  function Ticks(s: State, k: nat): State {
    if k == 0 then s else Tick(Ticks(s, k - 1))
  }

  lemma {:induction false} TicksThen(s: State, a: nat, b: nat)
    ensures Ticks(Ticks(s, a), b) == Ticks(s, a + b)
    decreases b
  {
    if b > 0 { TicksThen(s, a, b - 1); }
  }

  /** Timestamp t, drawn by the listener, matches the AVTP time. */
  predicate Matches(t: uint64, avtpTime: uint32) {
    t % TWO_32 == avtpTime
  }

  // ---------- Extrapolation ----------

  /** j periods past t the low bits are those wanted. */
  predicate Hits(t: nat, avtpTime: nat, j: nat) {
    (t + j * MCLK_PERIOD) % TWO_32 == avtpTime % TWO_32
  }

  /** The number of periods, 1 to 2^29, from t to the next match. */
  function StepsTo(t: nat, avtpTime: uint32): (j: nat)
    ensures 1 <= j <= TWO_29
  {
    var j := (((avtpTime - t) % TWO_32) / 8 * INVERSE) % TWO_29;
    if j == 0 then TWO_29 else j
  }

  predicate Reachable(t: nat, avtpTime: uint32) {
    (avtpTime - t) % 8 == 0
  }

  /** 15625 is invertible modulo 2^29, so a time congruent modulo 8 is hit. */
  lemma StepsHit(t: nat, avtpTime: uint32)
    requires Reachable(t, avtpTime)
    ensures Hits(t, avtpTime, StepsTo(t, avtpTime))
  {
    var x := avtpTime - t;
    var a, d := x / TWO_32, x % TWO_32;
    var e := d / 8;
    DivisibleRemainder(x, a, d);
    var j := StepsTo(t, avtpTime);
    var q := e * INVERSE / TWO_29 - (if e * INVERSE % TWO_29 == 0 then 1 else 0);
    assert j == e * INVERSE - TWO_29 * q;
    assert j * MCLK_PERIOD == 8 * e + TWO_32 * (4277 * e - ODD_PERIOD * q);
    QuotientUnique(t + j * MCLK_PERIOD, TWO_32, 4277 * e - ODD_PERIOD * q - a, avtpTime);
    SmallMod(avtpTime, TWO_32);
  }

  lemma DivisibleRemainder(x: int, a: int, d: int)
    requires x % 8 == 0 && x == TWO_32 * a + d
    ensures d == 8 * (d / 8)
  {
    QuotientUnique(d, 8, x / 8 - 0x2000_0000 * a, 0);
  }

  /** Within 2^29 periods it is hit once only. */
  lemma HitsOnce(t: nat, avtpTime: uint32, i: nat, j: nat)
    requires Hits(t, avtpTime, i) && Hits(t, avtpTime, j) && j <= i < j + TWO_29
    ensures i == j
  {
    var k := i - j;
    var c := (t + i * MCLK_PERIOD) / TWO_32 - (t + j * MCLK_PERIOD) / TWO_32;
    assert k * MCLK_PERIOD == TWO_32 * c;
    assert k * ODD_PERIOD == TWO_29 * c;
    assert k == TWO_29 * (c * INVERSE - 4277 * k);
  }

  /** And a time that is hit is congruent modulo 8. */
  lemma HitsReachable(t: nat, avtpTime: uint32, j: nat)
    requires Hits(t, avtpTime, j)
    ensures Reachable(t, avtpTime)
  {
    SmallMod(avtpTime, TWO_32);
    var c := (t + j * MCLK_PERIOD) / TWO_32;
    assert t + j * MCLK_PERIOD == TWO_32 * c + avtpTime;
    QuotientUnique(avtpTime - t, 8, ODD_PERIOD * j - TWO_29 * c, 0);
  }

  /** A step that is no hit is one step closer. */
  lemma OneStepCloser(t: nat, avtpTime: uint32)
    requires Reachable(t, avtpTime) && !Hits(t, avtpTime, 1)
    ensures Reachable(t + MCLK_PERIOD, avtpTime) && StepsTo(t + MCLK_PERIOD, avtpTime) == StepsTo(t, avtpTime) - 1
  {
    var j := StepsTo(t, avtpTime);
    StepsHit(t, avtpTime);
    assert Hits(t + MCLK_PERIOD, avtpTime, j - 1);
    HitsReachable(t + MCLK_PERIOD, avtpTime, j - 1);
    StepsHit(t + MCLK_PERIOD, avtpTime);
    var i := StepsTo(t + MCLK_PERIOD, avtpTime);
    if i >= j - 1 {
      HitsOnce(t + MCLK_PERIOD, avtpTime, i, j - 1);
    } else {
      HitsOnce(t + MCLK_PERIOD, avtpTime, j - 1, i);
    }
  }

  /** The wrap of the 64-bit count makes no difference modulo 2^32. */
  lemma WrapHarmless(t: nat, avtpTime: uint32)
    ensures (t % TWO_64) % TWO_32 == t % TWO_32
    ensures StepsTo(t % TWO_64, avtpTime) == StepsTo(t, avtpTime)
    ensures Reachable(t % TWO_64, avtpTime) == Reachable(t, avtpTime)
  {
    var q, r := t / TWO_64, t % TWO_64;
    QuotientUnique(t, TWO_32, q * TWO_32 + r / TWO_32, r % TWO_32);
    var x, y := avtpTime - t, avtpTime - r;
    assert y == x + TWO_64 * q;
    QuotientUnique(y, TWO_32, x / TWO_32 + TWO_32 * q, x % TWO_32);
    QuotientUnique(y, 8, x / 8 + 0x2000_0000_0000_0000 * q, x % 8);
  }

  // ---------- The lookup ----------

  /** A queued timestamp matches, or extrapolation will. */
  predicate Findable(queue: seq<uint64>, prev: uint64, avtpTime: uint32) {
    if queue == [] then Reachable(prev, avtpTime)
    else Matches(queue[0], avtpTime) || Findable(queue[1..], queue[0], avtpTime)
  }

  /** The timestamp extrapolation starts from. */
  function Last(queue: seq<uint64>, prev: uint64): uint64 {
    if queue == [] then prev else queue[|queue| - 1]
  }

  /** In terms of what the listener has at hand: some queued timestamp has the wanted low bits, or
      the last one is congruent to the wanted time modulo 8. */
  lemma {:induction false} FindableExactly(queue: seq<uint64>, prev: uint64, avtpTime: uint32)
    ensures Findable(queue, prev, avtpTime) <==>
      (exists i | 0 <= i < |queue| :: Matches(queue[i], avtpTime)) || (avtpTime - Last(queue, prev)) % 8 == 0
    decreases |queue|
  {
    if queue != [] {
      FindableExactly(queue[1..], queue[0], avtpTime);
      assert Last(queue[1..], queue[0]) == Last(queue, prev);
      if i :| 0 <= i < |queue| && Matches(queue[i], avtpTime) {
        if i > 0 { assert queue[1..][i - 1] == queue[i]; }
      }
    }
  }

  /** The number of timestamps the lookup draws. */
  function Remaining(queue: seq<uint64>, prev: uint64, avtpTime: uint32): (n: nat)
    ensures 1 <= n <= |queue| + TWO_29
  {
    if queue == [] then StepsTo(prev, avtpTime)
    else if Matches(queue[0], avtpTime) then 1
    else 1 + Remaining(queue[1..], queue[0], avtpTime)
  }

  lemma NextMatches(s: State, avtpTime: uint32)
    requires s.queue == []
    ensures Matches(Tick(s).prev, avtpTime) <==> Hits(s.prev, avtpTime, 1)
    ensures StepsTo(Tick(s).prev, avtpTime) == StepsTo(s.prev + MCLK_PERIOD, avtpTime)
    ensures Reachable(Tick(s).prev, avtpTime) == Reachable(s.prev + MCLK_PERIOD, avtpTime)
  {
    WrapHarmless(s.prev + MCLK_PERIOD, avtpTime);
    SmallMod(avtpTime, TWO_32);
  }

  /** Drawing a timestamp either ends the lookup or leaves one less to draw. */
  lemma OneDrawCloser(s: State, avtpTime: uint32)
    requires Findable(s.queue, s.prev, avtpTime)
    ensures var t, n := Tick(s), Remaining(s.queue, s.prev, avtpTime);
      if Matches(t.prev, avtpTime) then n == 1
      else Findable(t.queue, t.prev, avtpTime) && Remaining(t.queue, t.prev, avtpTime) == n - 1
  {
    if s.queue == [] {
      NextMatches(s, avtpTime);
      StepsHit(s.prev, avtpTime);
      if Hits(s.prev, avtpTime, 1) {
        HitsOnce(s.prev, avtpTime, StepsTo(s.prev, avtpTime), 1);
      } else {
        OneStepCloser(s.prev, avtpTime);
      }
    }
  }

  /** The lookup ends: with the first match, after at most 2^29 timestamps more than are queued. */
  lemma {:induction false} LookupEnds(s: State, avtpTime: uint32)
    requires Findable(s.queue, s.prev, avtpTime)
    ensures var n := Remaining(s.queue, s.prev, avtpTime);
      && n <= |s.queue| + TWO_29 && Matches(Ticks(s, n).prev, avtpTime)
      && forall k: nat | 1 <= k < n :: !Matches(Ticks(s, k).prev, avtpTime)
    decreases Remaining(s.queue, s.prev, avtpTime)
  {
    var n := Remaining(s.queue, s.prev, avtpTime);
    OneDrawCloser(s, avtpTime);
    assert Ticks(s, 1) == Tick(s) by { assert Ticks(s, 0) == s; }
    if !Matches(Tick(s).prev, avtpTime) {
      LookupEnds(Tick(s), avtpTime);
      TicksThen(s, 1, n - 1);
      forall k: nat | 1 <= k < n ensures !Matches(Ticks(s, k).prev, avtpTime) {
        if k > 1 { TicksThen(s, 1, k - 1); }
      }
    }
  }

  lemma DrawStaysLost(s: State, avtpTime: uint32)
    requires !Findable(s.queue, s.prev, avtpTime)
    ensures !Matches(Tick(s).prev, avtpTime) && !Findable(Tick(s).queue, Tick(s).prev, avtpTime)
  {
    if s.queue == [] {
      NextMatches(s, avtpTime);
      if Hits(s.prev, avtpTime, 1) { HitsReachable(s.prev, avtpTime, 1); }
      if Reachable(s.prev + MCLK_PERIOD, avtpTime) {
        QuotientUnique(avtpTime - s.prev, 8, (avtpTime - s.prev - MCLK_PERIOD) / 8 + ODD_PERIOD, 0);
      }
    }
  }

  /** Otherwise it never ends: no timestamp that will be drawn matches. */
  lemma {:induction false} LookupNeverEnds(s: State, avtpTime: uint32, k: nat)
    requires !Findable(s.queue, s.prev, avtpTime) && k >= 1
    ensures !Matches(Ticks(s, k).prev, avtpTime) && !Findable(Ticks(s, k).queue, Ticks(s, k).prev, avtpTime)
  {
    if k == 1 {
      assert Ticks(s, 0) == s;
      DrawStaysLost(s, avtpTime);
    } else {
      LookupNeverEnds(s, avtpTime, k - 1);
      DrawStaysLost(Ticks(s, k - 1), avtpTime);
    }
  }
}
