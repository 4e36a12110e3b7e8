/** The video talker: cuts the byte stream it reads into units and sends each in
    a packet of its own. What it sends depends on the stream alone, not on how
    the reads happen to split it. */
module CvfTalker {
  import opened Words
  import opened Octets
  import opened ByteOrder
  import opened FieldEngine
  import opened HeaderTables
  import opened HeaderRecord
  import opened StartCodes
  import opened CvfPdu

  /** The size of the talker's buffer. */
  const CAPACITY := 2 * MAX_PDU_SIZE

  // ---------- What one look at the buffer yields ----------

  datatype Nal = Nothing | TooLong | Unit(start: nat, end: nat)

  /** The unit at the front of the buffer, if it is complete or the last one. */
  function NextNal(b: Bytes, last: bool): (n: Nal)
    ensures n.Unit? ==> n.start < n.end <= |b| && n.end - n.start <= DATA_LEN
  {
    var start := Find(b, 0);
    if start == -1 then Nothing
    else
      var end := Find(b, start + 1);
      if end == -1 && !last then Nothing
      else
        var stop := if end == -1 then |b| else end;
        if stop - start > DATA_LEN then TooLong else Unit(start, stop)
  }

  // ---------- What a stream yields ----------

  datatype Outcome = Outcome(units: seq<Bytes>, ok: bool)

  /** As much of the stream as the buffer can hold. */
  function Window(s: Bytes): (w: Bytes)
    ensures w <= s
  {
    if |s| <= CAPACITY then s else s[..CAPACITY]
  }

  /** The units sent for a stream, and whether the talker ends without an error. */
  function Reference(s: Bytes): Outcome
    decreases |s|
  {
    if s == [] then Outcome([], true)
    else
      var w := Window(s);
      match NextNal(w, true)
      case Nothing => Outcome([], true)
      case TooLong => Outcome([], false)
      case Unit(start, end) =>
        if end == |w| then Outcome([w[start..end]], true)
        else
          var rest := Reference(s[end..]);
          Outcome([w[start..end]] + rest.units, rest.ok)
  }

  /** What is found in part of the window is what is found in all of it. */
  lemma PartialLook(b: Bytes, w: Bytes)
    requires b <= w && NextNal(b, false) != Nothing
    ensures NextNal(w, true) == NextNal(b, false)
    ensures NextNal(b, false).Unit? ==> NextNal(b, false).end < |w|
  {
    FindIsFirst(b, 0);
    FindInPrefix(b, w, 0);
    var start := Find(b, 0);
    FindIsFirst(b, start + 1);
    FindInPrefix(b, w, start + 1);
  }

  /** The units up to the first that is too long; without an error only if none is. */
  ghost predicate SentUpTo(r: Outcome, units: seq<Bytes>) {
    && r.units <= units
    && (r.ok <==> forall i | 0 <= i < |units| :: |units[i]| <= DATA_LEN)
    && (if r.ok then r.units == units else |r.units| < |units| && |units[|r.units|]| > DATA_LEN)
    && forall i | 0 <= i < |r.units| :: |r.units[i]| <= DATA_LEN
  }

  /** For a stream that begins with a start code, the talker sends the units of the
      stream up to the first that is too long. */
  lemma {:induction false} ReferenceAtCode(s: Bytes)
    requires CodeAt(s, 0)
    ensures SentUpTo(Reference(s), Units(s))
    decreases |s|
  {
    var w := Window(s);
    var end := Find(s, 1);
    FindIsFirst(s, 1);
    FirstLook(s);
    if end != -1 && end <= DATA_LEN {
      var rest := DropTo(s, end);
      ReferenceAtCode(rest);
      assert w[..end] == s[..end];
      assert Units(s) == [s[..end]] + Units(rest);
      assert Reference(s) == Outcome([s[..end]] + Reference(rest).units, Reference(rest).ok);
      PrependUnit(s[..end], Units(rest), Reference(rest));
    } else if end == -1 && |s| <= DATA_LEN {
      assert w == s && w[0..|s|] == s;
      assert Units(s) == [s] && Reference(s) == Outcome([s], true);
    } else {
      assert Reference(s) == Outcome([], false);
      assert |Units(s)[0]| > DATA_LEN;
    }
  }

  lemma PrependUnit(u: Bytes, units: seq<Bytes>, r: Outcome)
    requires SentUpTo(r, units) && |u| <= DATA_LEN
    ensures SentUpTo(Outcome([u] + r.units, r.ok), [u] + units)
  {
    var all := [u] + units;
    forall i | 0 <= i < |units| ensures all[i + 1] == units[i] { }
    if r.ok {
      forall i | 0 <= i < |all| ensures |all[i]| <= DATA_LEN {
        if i > 0 { assert all[i] == units[i - 1]; }
      }
    }
  }

  /** The first look at a stream that begins with a start code. */
  lemma FirstLook(s: Bytes)
    requires CodeAt(s, 0)
    ensures var end := Find(s, 1);
      NextNal(Window(s), true) ==
        if end != -1 && end <= DATA_LEN then Unit(0, end)
        else if end == -1 && |s| <= DATA_LEN then Unit(0, |s|)
        else TooLong
    ensures var end := Find(s, 1); end != -1 && end <= DATA_LEN ==> end < |Window(s)|
  {
    var w := Window(s);
    var end := Find(s, 1);
    FindIsFirst(s, 1);
    FindIsFirst(w, 0);
    FindIsFirst(w, 1);
    FirstCodeUnique(w, 0, 0, Find(w, 0));
    var p := Find(w, 1);
    assert p != -1 ==> CodeAt(s, p);
    assert end == -1 ==> p == -1;
    assert end != -1 && p != -1 ==> end <= p;
    if end != -1 && end <= DATA_LEN {
      assert CodeAt(w, end);
      FirstCodeUnique(w, 1, end, Find(w, 1));
    }
  }

  // ---------- Octets in front of the first start code ----------

  function Min(a: nat, b: nat): nat {
    if a < b then a else b
  }

  predicate AllFit(units: seq<Bytes>) {
    forall i | 0 <= i < |units| :: |units[i]| <= DATA_LEN
  }

  /** The first unit and the octets in front of it do not fill the buffer. */
  predicate Roomy(s: Bytes) {
    var p := Find(s, 0);
    p == -1 || |s| <= CAPACITY || Find(Window(s), p + 1) != -1
  }

  /** Which a caller can check: room for the first unit, and no unit too long. */
  predicate Sendable(s: Bytes) {
    Roomy(s) && AllFit(PayloadUnits(s))
  }

  lemma NothingFound(s: Bytes)
    requires Find(s, 0) == -1
    ensures Reference(s) == Outcome([], true)
  {
    if Find(Window(s), 0) != -1 { FindInPrefix(Window(s), s, 0); }
  }

  /** Where the first unit ends. */
  function FrontEnd(s: Bytes): (end: nat)
    requires Find(s, 0) != -1
    ensures Find(s, 0) < end <= |s|
  {
    var next := Find(s, Find(s, 0) + 1);
    if next == -1 then |s| else next
  }

  /** What a look at the window finds is the first unit of the stream, and whether it is the last. */
  ghost predicate FrontFound(s: Bytes, p: nat, end: nat) {
    && s != [] && p < end <= |s|
    && NextNal(Window(s), true) == (if end - p <= DATA_LEN then Unit(p, end) else TooLong)
    && (end - p <= DATA_LEN ==> (end == |Window(s)| <==> end == |s|))
  }

  /** The first look at a stream, if there is room for its first unit. */
  lemma RoomyLook(s: Bytes)
    requires Roomy(s) && Find(s, 0) != -1
    ensures FrontFound(s, Find(s, 0), FrontEnd(s))
  {
    var w, p := Window(s), Find(s, 0);
    if |s| > CAPACITY {
      FindInPrefix(w, s, p + 1);
      CodeFirst(s, w, p);
    }
  }

  lemma PayloadLook(s: Bytes)
    requires Find(s, 0) != -1
    ensures FrontFound(Payload(s), 0, FrontEnd(s) - Find(s, 0))
  {
    FirstLook(Payload(s));
    FindShifted(s, Find(s, 0), 1);
  }

  /** A first code within the prefix is the first of the prefix. */
  lemma CodeFirst(s: Bytes, w: Bytes, p: nat)
    requires w <= s && Find(s, 0) == p && p + 2 < |w|
    ensures Find(w, 0) == p
  {
    FindIsFirst(s, 0);
    FindIsFirst(w, 0);
    assert forall q | 0 <= q <= p :: CodeAt(w, q) == CodeAt(s, q);
    FirstCodeUnique(w, 0, p, Find(w, 0));
  }

  /** One look is one step of the reference. */
  lemma ReferenceStep(s: Bytes, start: nat, end: nat)
    requires s != [] && NextNal(Window(s), true) == Unit(start, end)
    ensures Reference(s) ==
      if end == |Window(s)| then Outcome([s[start..end]], true) else Prepended(s[start..end], Reference(s[end..]))
  {
    assert Window(s)[start..end] == s[start..end];
  }

  lemma ReferenceStopped(s: Bytes)
    requires s != [] && NextNal(Window(s), true) == TooLong
    ensures Reference(s) == Outcome([], false)
  {
  }

  lemma SliceShifted(s: Bytes, r: Bytes, p: nat, end: nat)
    requires p <= end <= |s| && r == s[p..]
    ensures r[0..end - p] == s[p..end] && r[end - p..] == s[end..]
  {
  }

  /** The same unit at the front of a stream, and behind p other octets. */
  lemma SameStep(s: Bytes, r: Bytes, p: nat, end: nat)
    requires FrontFound(s, p, end) && r == s[p..] && FrontFound(r, 0, end - p)
    ensures Reference(s) == Reference(r)
  {
    if end - p <= DATA_LEN {
      ReferenceStep(s, p, end);
      ReferenceStep(r, 0, end - p);
      SliceShifted(s, r, p, end);
    } else {
      ReferenceStopped(s);
      ReferenceStopped(r);
    }
  }

  /** Then the octets in front of the first start code are skipped. */
  lemma FrontSkipped(s: Bytes)
    requires Roomy(s) && Find(s, 0) != -1
    ensures Reference(s) == Reference(Payload(s))
  {
    RoomyLook(s);
    PayloadLook(s);
    SameStep(s, Payload(s), Find(s, 0), FrontEnd(s));
  }

  /** The talker sends the units from the first start code on, up to the first that is too long. */
  lemma ReferenceIsUnits(s: Bytes)
    requires Roomy(s)
    ensures SentUpTo(Reference(s), PayloadUnits(s))
  {
    if Find(s, 0) == -1 {
      NothingFound(s);
    } else {
      FrontSkipped(s);
      ReferenceAtCode(Payload(s));
    }
  }

  /** A look at a full buffer without the end of the first unit. */
  lemma FullLook(s: Bytes, p: nat)
    requires !Roomy(s) && Find(s, 0) == p
    ensures NextNal(Window(s), true) ==
      if p > CAPACITY - 3 then Nothing else if CAPACITY - p > DATA_LEN then TooLong else Unit(p, CAPACITY)
  {
    var w := Window(s);
    if p > CAPACITY - 3 {
      if Find(w, 0) != -1 { FindInPrefix(w, s, 0); }
    } else {
      CodeFirst(s, w, p);
    }
  }

  /** Otherwise the buffer fills up before the first unit is complete. The read of zero octets that follows
      is taken for the end of the input, and so at most one unit is sent, cut where the buffer ends. */
  lemma BufferFills(s: Bytes)
    requires !Roomy(s)
    ensures Reference(s) ==
      if Find(s, 0) > CAPACITY - 3 then Outcome([], true)
      else if CAPACITY - Find(s, 0) > DATA_LEN then Outcome([], false)
      else Outcome([s[Find(s, 0)..CAPACITY]], true)
  {
    var p := Find(s, 0);
    FullLook(s, p);
    if p <= CAPACITY - 3 && CAPACITY - p <= DATA_LEN { ReferenceStep(s, p, CAPACITY); }
  }

  lemma ConcatPrefix(front: seq<Bytes>, all: seq<Bytes>)
    requires front <= all
    ensures Concat(front) <= Concat(all)
    ensures |front| < |all| ==> |Concat(all)| >= |Concat(front)| + |all[|front|]|
  {
    var more := all[|front|..];
    assert all == front + more;
    ConcatSum(front, more);
  }

  /** For every stream, the octets sent are the first ones of those from the first start code on. All of
      them are sent, unit by unit and without an error, if and only if the stream is sendable. */
  lemma SentExactly(s: Bytes)
    ensures Concat(Reference(s).units) <= Payload(s)
    ensures Reference(s) == Outcome(PayloadUnits(s), true) <==> Sendable(s)
    ensures Concat(Reference(s).units) == Payload(s) <==> Sendable(s)
  {
    PayloadPartition(s);
    if Roomy(s) {
      ReferenceIsUnits(s);
      ConcatPrefix(Reference(s).units, PayloadUnits(s));
    } else {
      BufferFills(s);
      if Find(s, 0) <= CAPACITY - 3 { CutShort(s, Find(s, 0)); }
    }
  }

  lemma CutShort(s: Bytes, p: nat)
    requires p == Find(s, 0) && p <= CAPACITY < |s|
    ensures Concat([s[p..CAPACITY]]) == Payload(s)[0..CAPACITY - p]
  {
    SliceShifted(s, s[p..], p, CAPACITY);
    assert Concat([s[p..CAPACITY]]) == s[p..CAPACITY] + Concat([]);
  }

  /** No octet of the input is lost exactly if it begins with a start code and no unit is too long. */
  lemma NothingLost(s: Bytes)
    ensures Concat(Reference(s).units) == s <==> s == [] || (CodeAt(s, 0) && AllFit(Units(s)))
  {
    SentExactly(s);
    PayloadIsAll(s);
    if CodeAt(s, 0) {
      FindIsFirst(s, 0);
      FirstCodeUnique(s, 0, 0, Find(s, 0));
      assert DropTo(s, 0) == s;
      EarlyCode(s);
    }
  }

  /** With the first start code early enough, the units alone decide. */
  lemma EarlyCode(s: Bytes)
    requires 0 <= Find(s, 0) <= CAPACITY - DATA_LEN - 3
    ensures Sendable(s) <==> AllFit(PayloadUnits(s))
  {
    var p := Find(s, 0);
    if AllFit(PayloadUnits(s)) && |s| > CAPACITY {
      FrontFits(s);
      SecondInWindow(s, Window(s), p + 1, Find(s, p + 1));
    }
  }

  lemma SecondInWindow(s: Bytes, w: Bytes, from: nat, end: int)
    requires w <= s && end == Find(s, from) != -1 && end + 2 < |w|
    ensures Find(w, from) != -1
  {
    CodeInPrefix(w, s, end);
    FindIsFirst(w, from);
  }

  /** The first unit is not too long: where it ends. */
  lemma FrontFits(s: Bytes)
    requires Find(s, 0) != -1 && AllFit(PayloadUnits(s))
    ensures FrontEnd(s) - Find(s, 0) <= DATA_LEN
  {
    FindShifted(s, Find(s, 0), 1);
    assert |PayloadUnits(s)[0]| <= DATA_LEN;
  }

  /** Octets of no start code in front of a single unit. */
  lemma JunkFound(junk: Bytes, unit: Bytes)
    requires IsUnit(unit) && forall i | 0 <= i < |junk| :: junk[i] == 0xFF
    ensures Find(junk + unit, 0) == |junk| && Find(junk + unit, |junk| + 1) == -1
    ensures PayloadUnits(junk + unit) == [unit]
  {
    var s, p := junk + unit, |junk|;
    FindIsFirst(s, 0);
    FindIsFirst(s, p + 1);
    FirstCodeUnique(s, 0, p, Find(s, 0));
    assert DropTo(s, p) == unit;
    forall q | p + 1 <= q ensures !CodeAt(s, q) { assert CodeAt(s, q) ==> CodeAt(unit, q - p); }
    FirstCodeUnique(s, p + 1, -1, Find(s, p + 1));
    FindIsFirst(unit, 1);
  }

  /** Such streams are sendable exactly if they fit the buffer, and the unit a packet. */
  lemma JunkSendable(junk: Bytes, unit: Bytes)
    requires IsUnit(unit) && forall i | 0 <= i < |junk| :: junk[i] == 0xFF
    ensures Sendable(junk + unit) <==> |junk| + |unit| <= CAPACITY && |unit| <= DATA_LEN
  {
    var s := junk + unit;
    JunkFound(junk, unit);
    if |s| > CAPACITY && Find(Window(s), |junk| + 1) != -1 {
      FindInPrefix(Window(s), s, |junk| + 1);
      assert false;
    }
    assert AllFit([unit]) <==> |unit| <= DATA_LEN by { assert [unit][0] == unit; }
  }

  function Repeat(x: uint8, n: nat): (b: Bytes)
    ensures |b| == n && forall i | 0 <= i < n :: b[i] == x
  {
    seq(n, i => x)
  }

  lemma OneCode(rest: Bytes)
    requires forall i | 0 <= i < |rest| :: rest[i] == 9
    ensures IsUnit([0, 0, 1] + rest)
  {
  }

  /** 2857 octets in front of a unit of four: no octet is sent, and the talker reports success. */
  lemma NothingSent()
    ensures var s := Repeat(0xFF, 2857) + [0, 0, 1, 9];
      PayloadUnits(s) == [[0, 0, 1, 9]] && Reference(s) == Outcome([], true) && !Sendable(s)
  {
    OneCode([9]);
    assert [0, 0, 1] + [9] == [0, 0, 1, 9];
    JunkFound(Repeat(0xFF, 2857), [0, 0, 1, 9]);
    JunkSendable(Repeat(0xFF, 2857), [0, 0, 1, 9]);
    BufferFills(Repeat(0xFF, 2857) + [0, 0, 1, 9]);
  }

  /** 1500 octets in front of a unit too long to send: its first 1356 octets are sent as a unit, and the talker
      reports success. */
  lemma CutUnitSent(unit: Bytes)
    requires unit == [0, 0, 1] + Repeat(9, 1997)
    ensures var s := Repeat(0xFF, 1500) + unit;
      PayloadUnits(s) == [unit] && Reference(s) == Outcome([unit[..1356]], true) && !Sendable(s)
  {
    var s := Repeat(0xFF, 1500) + unit;
    OneCode(Repeat(9, 1997));
    JunkFound(Repeat(0xFF, 1500), unit);
    JunkSendable(Repeat(0xFF, 1500), unit);
    BufferFills(s);
    assert s[1500..CAPACITY] == unit[..1356];
  }

  /** A zero octet may stand in front of a start code (Annex B.1.1): it is skipped. */
  lemma LeadingZero(s: Bytes)
    requires CodeAt(s, 0)
    ensures Payload([0] + s) == s && PayloadUnits([0] + s) == Units(s)
    ensures Sendable([0] + s) <==> AllFit(Units(s))
  {
    var z := [0] + s;
    assert CodeAt(z, 1) && !CodeAt(z, 0);
    FindIsFirst(z, 0);
    FirstCodeUnique(z, 0, 1, Find(z, 0));
    assert DropTo(z, 1) == s;
    EarlyCode(z);
  }

  // ---------- Draining and refilling, on values ----------

  /** The number of octets a read delivers: no more than asked for, than there is room for, than there is. */
  function ReadSize(level: nat, unread: nat, want: nat): nat
    requires level <= CAPACITY
  {
    Min(want, Min(unread, CAPACITY - level))
  }

  /** What is in the buffer yields without another read. */
  function Look(b: Bytes, last: bool): Nal {
    if b == [] then Nothing else NextNal(b, last)
  }

  /** The outcome, with the buffer level before each read. */
  datatype RunResult = RunResult(outcome: Outcome, levels: seq<nat>)

  /** What the talker makes of the buffer b and the unread octets u when read i asks for chunk(i)
      octets and k reads have been made: it sends what units it has, then reads again, until a
      read delivers nothing. */
  function Main(b: Bytes, u: Bytes, chunk: nat -> nat, k: nat): (r: RunResult)
    requires |b| <= CAPACITY && forall i: nat :: chunk(i) >= 1
    decreases |u|, |b|
  {
    match Look(b, false)
    case TooLong => RunResult(Outcome([], false), [])
    case Unit(start, end) => Sent(b[start..end], Main(b[end..], u, chunk, k))
    case Nothing =>
      var n := ReadSize(|b|, |u|, chunk(k));
      if n == 0 then RunResult(AtEnd(b), [|b|])
      else
        var r := Main(b + u[..n], u[n..], chunk, k + 1);
        RunResult(r.outcome, [|b|] + r.levels)
  }

  function Sent(unit: Bytes, r: RunResult): RunResult {
    RunResult(Prepended(unit, r.outcome), r.levels)
  }

  function Prepended(unit: Bytes, r: Outcome): Outcome {
    Outcome([unit] + r.units, r.ok)
  }

  /** What is sent once a read has delivered nothing. */
  function AtEnd(b: Bytes): Outcome {
    match Look(b, true)
    case Nothing => Outcome([], true)
    case TooLong => Outcome([], false)
    case Unit(start, end) => Outcome([b[start..end]], true)
  }

  /** After a unit the buffer begins with the next start code, unless it was the last. */
  lemma AfterUnit(b: Bytes, last: bool)
    requires NextNal(b, last).Unit?
    ensures var end := NextNal(b, last).end; (last && end == |b|) || CodeAt(b[end..], 0)
  {
  }

  /** A unit found in part of the window is the first unit of the reference. */
  lemma ReferenceUnit(s: Bytes, b: Bytes)
    requires b <= Window(s) && Look(b, false).Unit?
    ensures var nal := Look(b, false);
      nal.end < |b| && Reference(s) == Prepended(b[nal.start..nal.end], Reference(s[nal.end..]))
  {
    PartialLook(b, Window(s));
    AfterUnit(b, false);
    var nal := Look(b, false);
    assert Window(s)[nal.start..nal.end] == b[nal.start..nal.end];
  }

  lemma ReferenceTooLong(s: Bytes, b: Bytes)
    requires b <= Window(s) && Look(b, false) == TooLong
    ensures Reference(s) == Outcome([], false)
  {
    PartialLook(b, Window(s));
  }

  /** At the end of the input, or with the buffer full, one more look completes the reference. */
  lemma ReferenceAtEnd(s: Bytes, b: Bytes)
    requires b == Window(s) && Look(b, false) == Nothing
    ensures Reference(s) == AtEnd(b)
  {
  }

  lemma DropAppend(b: Bytes, u: Bytes, e: nat)
    requires e <= |b|
    ensures (b + u)[e..] == b[e..] + u
  {
  }

  lemma MoveBoundary(b: Bytes, u: Bytes, n: nat)
    requires n <= |u|
    ensures (b + u[..n]) + u[n..] == b + u
  {
  }

  lemma PrefixOfWindow(b: Bytes, u: Bytes)
    requires |b| <= CAPACITY
    ensures b <= Window(b + u)
    ensures (|b| == CAPACITY || u == []) ==> b == Window(b + u)
  {
  }

  /** A unit in the buffer is the first unit of the reference of what is still to come. */
  lemma UnitInBuffer(b: Bytes, u: Bytes)
    requires |b| <= CAPACITY && Look(b, false).Unit?
    ensures var nal := Look(b, false);
      && nal.end < |b| && CodeAt(b[nal.end..], 0)
      && Reference(b + u) == Prepended(b[nal.start..nal.end], Reference(b[nal.end..] + u))
  {
    var nal := Look(b, false);
    PrefixOfWindow(b, u);
    ReferenceUnit(b + u, b);
    AfterUnit(b, false);
    DropAppend(b, u, nal.end);
  }

  /** However the reads split the stream, the units sent and the result are those of the reference. */
  lemma {:induction false} MainIsReference(b: Bytes, u: Bytes, chunk: nat -> nat, k: nat)
    requires |b| <= CAPACITY && forall i: nat :: chunk(i) >= 1
    ensures Main(b, u, chunk, k).outcome == Reference(b + u)
    decreases |u|, |b|
  {
    var nal := Look(b, false);
    PrefixOfWindow(b, u);
    if nal == TooLong {
      ReferenceTooLong(b + u, b);
    } else if nal.Unit? {
      UnitInBuffer(b, u);
      MainIsReference(b[nal.end..], u, chunk, k);
    } else {
      var n := ReadSize(|b|, |u|, chunk(k));
      if n == 0 {
        ReferenceAtEnd(b + u, b);
      } else {
        MainIsReference(b + u[..n], u[n..], chunk, k + 1);
        MoveBoundary(b, u, n);
      }
    }
  }

  /** What the talker sends, and whether it ends without an error, depends on the stream alone. */
  lemma ChunkIndependence(input: Bytes, chunk: nat -> nat)
    requires forall i: nat :: chunk(i) >= 1
    ensures Main([], input, chunk, 0).outcome == Reference(input)
  {
    assert [] + input == input;
    MainIsReference([], input, chunk, 0);
  }

  /** What is still to come inside the inner loop of main. */
  function Next(b: Bytes, u: Bytes, chunk: nat -> nat, k: nat, last: bool): RunResult
    requires |b| <= CAPACITY && forall i: nat :: chunk(i) >= 1
  {
    if last then RunResult(AtEnd(b), []) else Main(b, u, chunk, k)
  }

  /** One round of the inner loop is one step of the run. */
  lemma NextStep(b: Bytes, u: Bytes, chunk: nat -> nat, k: nat, last: bool)
    requires b != [] && |b| <= CAPACITY && forall i: nat :: chunk(i) >= 1
    requires last ==> Look(b, false) == Nothing
    ensures var nal, next := NextNal(b, last), Next(b, u, chunk, k, last);
      && (nal == TooLong ==> next == RunResult(Outcome([], false), []))
      && (nal == Nothing && last ==> next == RunResult(Outcome([], true), []))
      && (nal.Unit? ==> |b[nal.end..]| != 1)
      && (nal.Unit? && last ==> b[nal.end..] == [])
      && (nal.Unit? ==> next == Sent(b[nal.start..nal.end], Next(b[nal.end..], u, chunk, k, last)))
  {
    if NextNal(b, last).Unit? { AfterUnit(b, last); }
  }

  /** One round of the outer loop, up to the inner one, is one step of the run. */
  lemma RefillStep(b: Bytes, u: Bytes, chunk: nat -> nat, k: nat)
    requires |b| <= CAPACITY && forall i: nat :: chunk(i) >= 1
    requires Look(b, false) == Nothing
    ensures var n := ReadSize(|b|, |u|, chunk(k));
      && (n == 0 ==> b + u[..n] == b && u[n..] == u)
      && var next := Next(b + u[..n], u[n..], chunk, k + 1, n == 0);
         Main(b, u, chunk, k) == RunResult(next.outcome, [|b|] + next.levels)
  {
    var n := ReadSize(|b|, |u|, chunk(k));
    if n == 0 { assert b + u[..n] == b; }
  }

  /** A run of which `done` has been sent, `levels` has been logged, and the rest is to come. */
  function Joined(done: seq<Bytes>, levels: seq<nat>, rest: RunResult): RunResult {
    RunResult(Outcome(done + rest.outcome.units, rest.outcome.ok), levels + rest.levels)
  }

  /** With `done` sent and `levels` logged, `rest` is what is missing from the run r. */
  ghost predicate Ahead(r: RunResult, done: seq<Bytes>, levels: seq<nat>, rest: RunResult) {
    r == Joined(done, levels, rest)
  }

  lemma AheadStart(r: RunResult)
    ensures Ahead(r, [], [], r)
  {
    assert [] + r.outcome.units == r.outcome.units && [] + r.levels == r.levels;
  }

  lemma AheadSent(r: RunResult, done: seq<Bytes>, levels: seq<nat>, unit: Bytes, rest: RunResult)
    requires Ahead(r, done, levels, Sent(unit, rest))
    ensures Ahead(r, done + [unit], levels, rest)
  {
    Regrouped(done, [unit], rest.outcome.units);
  }

  lemma AheadRead(r: RunResult, done: seq<Bytes>, levels: seq<nat>, level: nat, rest: RunResult)
    requires Ahead(r, done, levels, RunResult(rest.outcome, [level] + rest.levels))
    ensures Ahead(r, done, levels + [level], rest)
  {
    Regrouped(levels, [level], rest.levels);
  }

  lemma AheadComplete(r: RunResult, done: seq<Bytes>, levels: seq<nat>, ok: bool)
    requires Ahead(r, done, levels, RunResult(Outcome([], ok), []))
    ensures r == RunResult(Outcome(done, ok), levels)
  {
    assert done + [] == done && levels + [] == levels;
  }

  /** What the listener makes of the packets. */
  function ParseAll(t: VideoTable, packets: seq<seq<uint8>>): seq<Parsed>
  {
    if packets == [] then [] else ParseAll(t, packets[..|packets| - 1]) + [Parse(t, packets[|packets| - 1])]
  }

  /** The units, stamped in order with the times of the clock and the numbers from 0 modulo 256. */
  function Stamped(units: seq<Bytes>, clock: nat -> uint32): seq<Parsed> {
    if units == [] then []
    else
      var n := |units| - 1;
      Stamped(units[..n], clock) + [Packet(units[n], clock(n), n % 0x100)]
  }

  /** The packets sent so far hold the units `done`, stamped; seqNum is the next number. */
  ghost predicate IsLog(t: VideoTable, sent: seq<seq<uint8>>, seqNum: nat, done: seq<Bytes>, clock: nat -> uint32)
  {
    ParseAll(t, sent) == Stamped(done, clock) && |sent| == |done| && seqNum == |done| % 0x100
  }

  lemma EmptyLog(t: VideoTable, clock: nat -> uint32)
    ensures IsLog(t, [], 0, [], clock)
  {
  }

  lemma ParseOneMore(t: VideoTable, sent: seq<seq<uint8>>, packet: seq<uint8>)
    ensures ParseAll(t, sent + [packet]) == ParseAll(t, sent) + [Parse(t, packet)]
  {
    assert (sent + [packet])[..|sent|] == sent;
  }

  lemma StampOneMore(done: seq<Bytes>, unit: Bytes, clock: nat -> uint32)
    ensures Stamped(done + [unit], clock) == Stamped(done, clock) + [Packet(unit, clock(|done|), |done| % 0x100)]
  {
    assert (done + [unit])[..|done|] == done;
  }

  lemma LogGrows(t: VideoTable, sent: seq<seq<uint8>>, seqNum: uint8, done: seq<Bytes>, clock: nat -> uint32,
                 packet: seq<uint8>, unit: Bytes)
    requires IsLog(t, sent, seqNum, done, clock)
    requires Parse(t, packet) == Packet(unit, clock(|sent|), seqNum)
    ensures IsLog(t, sent + [packet], Next8(seqNum), done + [unit], clock)
  {
    ParseOneMore(t, sent, packet);
    StampOneMore(done, unit, clock);
    NumberWraps(|done|);
  }

  lemma CodeAtFront(s: Bytes)
    requires CodeAt(s, 0)
    ensures Find(s, 0) == 0 && PayloadUnits(s) == Units(s)
  {
    FindIsFirst(s, 0);
    FirstCodeUnique(s, 0, 0, Find(s, 0));
    assert DropTo(s, 0) == s;
  }

  /** The front unit, and the others. */
  lemma UnitsSplit(s: Bytes, start: nat, end: nat)
    requires Find(s, 0) == start && Find(s, start + 1) == end
    ensures PayloadUnits(s) == [s[start..end]] + Units(DropTo(s, end))
  {
    FindShifted(s, start, 1);
    SliceShifted(s, DropTo(s, start), start, end);
  }

  lemma TailFits(first: Bytes, rest: seq<Bytes>)
    requires AllFit([first] + rest)
    ensures AllFit(rest)
  {
    forall i | 0 <= i < |rest| ensures |rest[i]| <= DATA_LEN { assert ([first] + rest)[i + 1] == rest[i]; }
  }

  /** The front unit is taken off a stream of units that fit. */
  lemma RestFits(s: Bytes, b: Bytes)
    requires b <= s && NextNal(b, false).Unit? && AllFit(PayloadUnits(s))
    ensures var end := NextNal(b, false).end;
      end <= |s| && Find(s[end..], 0) == 0 && AllFit(PayloadUnits(s[end..]))
  {
    var start, end := NextNal(b, false).start, NextNal(b, false).end;
    FindInPrefix(b, s, 0);
    FindInPrefix(b, s, start + 1);
    UnitsSplit(s, start, end);
    TailFits(s[start..end], Units(DropTo(s, end)));
    CodeAtFront(DropTo(s, end));
  }

  /** A buffer without a complete unit holds at most 1402 octets behind those in front of the first code. */
  lemma LevelBound(b: Bytes, s: Bytes, p: nat)
    requires b <= s && b != [] && NextNal(b, false) == Nothing
    requires 0 <= Find(s, 0) <= p && AllFit(PayloadUnits(s))
    ensures |b| <= p + DATA_LEN + 2
  {
    var start := Find(s, 0);
    var end := Find(s, start + 1);
    FrontFits(s);
    if |b| > p + DATA_LEN + 2 {
      CodeFirst(s, b, start);
      FindIsFirst(b, start + 1);
      CodeInPrefix(b, s, end);
      assert false;
    }
  }

  /** For units that fit and p octets in front of the first, at every read the buffer holds at most p + 1402
      octets. So with p below 1454 a read that delivers nothing has met the end of the input and not a full
      buffer. */
  lemma {:induction false} LevelsBounded(b: Bytes, u: Bytes, chunk: nat -> nat, k: nat, p: nat)
    requires |b| <= CAPACITY && forall i: nat :: chunk(i) >= 1
    requires b + u == [] || (0 <= Find(b + u, 0) <= p && AllFit(PayloadUnits(b + u)))
    ensures forall i | 0 <= i < |Main(b, u, chunk, k).levels| :: Main(b, u, chunk, k).levels[i] <= p + DATA_LEN + 2
    decreases |u|, |b|
  {
    var nal := Look(b, false);
    if nal.Unit? {
      RestFits(b + u, b);
      DropAppend(b, u, nal.end);
      LevelsBounded(b[nal.end..], u, chunk, k, p);
    } else if nal == Nothing {
      if b != [] { LevelBound(b, b + u, p); }
      var n := ReadSize(|b|, |u|, chunk(k));
      if n != 0 {
        MoveBoundary(b, u, n);
        LevelsBounded(b + u[..n], u[n..], chunk, k + 1, p);
      }
    }
  }

  // ---------- The talker ----------

  /** memmove(buffer, buffer + from, to - from). */
  method MoveDown(buffer: array<uint8>, from: nat, to: nat)
    requires from <= to <= buffer.Length
    modifies buffer
    ensures buffer[..to - from] == old(buffer[..to])[from..]
  {
    forall i | 0 <= i < to - from { buffer[i] := buffer[from + i]; }
  }

  class Talker {
    const host: Host
    const table: VideoTable
    const buffer: array<uint8>
    const pdu: array<uint8>
    var level: nat
    var seqNum: uint8
    var unread: Bytes                  // what standard input still holds
    var sent: seq<seq<uint8>>          // packets handed to the socket
    ghost var levelsAtRead: seq<nat>

    ghost predicate Valid()
      reads this`level
    {
      buffer.Length == CAPACITY && pdu.Length == MAX_PDU_SIZE && buffer != pdu && level <= CAPACITY
    }

    /** The header in the packet buffer is initialised. */
    ghost predicate HeaderReady()
      reads pdu
    {
      pdu.Length == MAX_PDU_SIZE && Ready(table, pdu[..])
    }

    /** The octets waiting in the buffer. */
    function Buffered(): (b: Bytes)
      reads this`level, buffer
      requires level <= buffer.Length
      ensures |b| == level
    {
      buffer[..level]
    }

    /** fill_buffer: one read, of at most `want` octets, the room left and what there is. */
    method FillBuffer(want: nat) returns (n: nat)
      requires Valid()
      modifies this`level, this`unread, this`levelsAtRead, buffer
      ensures Valid()
      ensures n == ReadSize(old(level), |old(unread)|, want) <= |old(unread)|
      ensures Buffered() == old(Buffered()) + old(unread)[..n]
      ensures unread == old(unread)[n..]
      ensures levelsAtRead == old(levelsAtRead) + [old(level)]
    {
      levelsAtRead := levelsAtRead + [level];
      n := ReadSize(level, |unread|, want);
      CopyIn(buffer, level, unread[..n]);
      ghost var start := level;
      level := level + n;
      unread := unread[n..];
      assert Buffered() == buffer[..start] + buffer[start..start + n];
    }

    /** prepare_packet: stamps the header and copies the unit behind it. */
    method PreparePacket(time: uint32, unit: Bytes)
      requires Valid() && HeaderReady() && |unit| <= DATA_LEN
      modifies this`seqNum, pdu
      ensures HeaderReady() && seqNum == Next8(old(seqNum))
      ensures Parse(table, pdu[..FULL_HEADER_LEN + |unit|]) == Packet(unit, time, old(seqNum))
    {
      ghost var before := pdu[..];
      StampHeader(time, |unit|);
      ghost var header := pdu[..];
      CopyIn(pdu, FULL_HEADER_LEN, unit);
      PacketBuilt(header, pdu[..], unit, before, time, old(seqNum));
    }

    method StampHeader(time: uint32, length: nat)
      requires Valid() && length <= DATA_LEN
      modifies this`seqNum, pdu
      ensures seqNum == Next8(old(seqNum))
      ensures pdu[..] == Prepared(table, old(pdu[..]), time, old(seqNum), length)
    {
      Place(table, CVF_HEADER_LEN, 0, pdu.Length);
      SetField(host, table, pdu, 0, CSH_AVTP_TIMESTAMP, time);
      SetField(host, table, pdu, 0, CSH_SEQUENCE_NUM, seqNum);
      seqNum := Next8(seqNum);
      SetField(host, table, pdu, 0, CSH_STREAM_DATA_LENGTH, length + H264_HEADER_LEN);
    }

    lemma PacketBuilt(header: seq<uint8>, s: seq<uint8>, unit: Bytes, before: seq<uint8>, time: uint32, seqNum: uint8)
      requires |before| == MAX_PDU_SIZE == |s| && |unit| <= DATA_LEN
      requires Ready(table, before) && header == Prepared(table, before, time, seqNum, |unit|)
      requires s[..FULL_HEADER_LEN] == header[..FULL_HEADER_LEN]
      requires s[FULL_HEADER_LEN..FULL_HEADER_LEN + |unit|] == unit
      ensures Ready(table, s) && Parse(table, s[..FULL_HEADER_LEN + |unit|]) == Packet(unit, time, seqNum)
    {
      var p := s[..FULL_HEADER_LEN + |unit|];
      assert p[..CVF_HEADER_LEN] == s[..FULL_HEADER_LEN][..CVF_HEADER_LEN] == header[..CVF_HEADER_LEN];
      PreparedPacket(table, before, p, unit, time, seqNum);
      SameHeader(table, p, s);
    }

    /** The two searches of process_nal and the length check. */
    method LocateNal(processLast: bool) returns (n: Nal)
      requires Valid() && level >= 2
      ensures n == NextNal(Buffered(), processLast)
    {
      var start := StartCodePosition(buffer, level, 0);
      if start == -1 { return Nothing; }
      var end := StartCodePosition(buffer, level, start + 1);
      if end == -1 {
        if !processLast { return Nothing; }
        end := level;
      }
      if end - start > DATA_LEN { return TooLong; }
      return Unit(start, end);
    }

    /** Moves octets [start, end) of the buffer into the packet and drops all octets before `end`.
        The result is what sendto then takes from the packet buffer. */
    method TakeUnit(start: nat, end: nat, time: uint32) returns (packet: seq<uint8>)
      requires Valid() && HeaderReady() && start <= end <= level && end - start <= DATA_LEN
      modifies this`level, this`seqNum, buffer, pdu
      ensures Valid() && HeaderReady() && seqNum == Next8(old(seqNum))
      ensures Buffered() == old(Buffered())[end..]
      ensures Parse(table, packet) == Packet(old(Buffered())[start..end], time, old(seqNum))
    {
      var unit := buffer[start..end];
      assert unit == Buffered()[start..end];
      PreparePacket(time, unit);
      packet := pdu[..FULL_HEADER_LEN + |unit|];
      MoveDown(buffer, end, level);
      level := level - end;
    }

    /** process_nal: prepares the packet of the front unit, if there is one, and closes the gap it
        leaves. Nothing stands for PROCESS_NONE, TooLong for PROCESS_ERROR, Unit for PROCESS_OK. */
    method ProcessNal(processLast: bool, time: uint32) returns (nal: Nal, packet: seq<uint8>, ghost unit: Bytes)
      requires Valid() && HeaderReady() && level >= 2
      modifies this`level, this`seqNum, buffer, pdu
      ensures Valid() && HeaderReady()
      ensures nal == NextNal(old(Buffered()), processLast)
      ensures !nal.Unit? ==> Buffered() == old(Buffered()) && seqNum == old(seqNum)
      ensures nal.Unit? ==> Buffered() == old(Buffered())[nal.end..] && seqNum == Next8(old(seqNum))
      ensures nal.Unit? ==> unit == old(Buffered())[nal.start..nal.end]
      ensures nal.Unit? ==> Parse(table, packet) == Packet(unit, time, old(seqNum))
    {
      packet, unit := [], [];
      nal := LocateNal(processLast);
      if nal.Unit? {
        unit := Buffered()[nal.start..nal.end];
        packet := TakeUnit(nal.start, nal.end, time);
      }
    }

    constructor (host: Host, table: VideoTable, input: Bytes)
      ensures Valid() && HeaderReady() && fresh(buffer) && fresh(pdu)
      ensures this.table == table && level == 0 && seqNum == 0 && sent == [] && levelsAtRead == [] && unread == input
    {
      this.host, this.table := host, table;
      buffer := new uint8[CAPACITY];
      pdu := new uint8[MAX_PDU_SIZE];
      level, seqNum, unread, sent, levelsAtRead := 0, 0, input, [], [];
      new;
      InitPdu(host, table, pdu);
    }

    ghost predicate Log(done: seq<Bytes>, clock: nat -> uint32)
      reads this`sent, this`seqNum
    {
      IsLog(table, sent, seqNum, done, clock)
    }

    /** sendto. */
    method Transmit(packet: seq<uint8>, clock: nat -> uint32, ghost number: uint8, ghost done: seq<Bytes>,
                    ghost unit: Bytes)
      requires Valid() && HeaderReady() && IsLog(table, sent, number, done, clock) && seqNum == Next8(number)
      requires Parse(table, packet) == Packet(unit, clock(|sent|), number)
      modifies this`sent
      ensures Valid() && HeaderReady() && Buffered() == old(Buffered()) && Log(done + [unit], clock)
    {
      LogGrows(table, sent, number, done, clock, packet, unit);
      sent := sent + [packet];
    }

    /** One round of the inner loop of main. */
    method SendNext(last: bool, clock: nat -> uint32, ghost done: seq<Bytes>) returns (nal: Nal, ghost unit: Bytes)
      requires Valid() && HeaderReady() && level >= 2 && Log(done, clock)
      modifies this`level, this`seqNum, this`sent, buffer, pdu
      ensures Valid() && HeaderReady()
      ensures nal == NextNal(old(Buffered()), last)
      ensures nal.Unit? ==> Buffered() == old(Buffered())[nal.end..]
      ensures nal.Unit? ==> unit == old(Buffered())[nal.start..nal.end] && Log(done + [unit], clock)
      ensures !nal.Unit? ==> Buffered() == old(Buffered()) && Log(done, clock)
    {
      ghost var number := seqNum;
      var packet;
      nal, packet, unit := ProcessNal(last, clock(|sent|));
      if nal.Unit? { Transmit(packet, clock, number, done, unit); }
    }

    /** The inner loop of main: sends units until the buffer yields none. */
    method Drain(last: bool, clock: nat -> uint32, ghost chunk: nat -> nat, ghost k: nat,
                 ghost r: RunResult, ghost done0: seq<Bytes>) returns (ok: bool, ghost done: seq<Bytes>)
      requires Valid() && HeaderReady() && level != 1 && Log(done0, clock)
      requires forall i: nat :: chunk(i) >= 1
      requires last ==> Look(Buffered(), false) == Nothing
      requires Ahead(r, done0, levelsAtRead, Next(Buffered(), unread, chunk, k, last))
      modifies this`level, this`seqNum, this`sent, buffer, pdu
      ensures Valid() && HeaderReady() && level != 1 && Log(done, clock)
      ensures !ok || last ==> r == RunResult(Outcome(done, ok), levelsAtRead)
      ensures ok && !last ==>
        Look(Buffered(), false) == Nothing && Ahead(r, done, levelsAtRead, Main(Buffered(), unread, chunk, k))
      ensures ok && !last && old(level) > 0 ==> level > 0
    {
      done := done0;
      while level > 0
        invariant Valid() && HeaderReady() && level != 1 && Log(done, clock)
        invariant last ==> Look(Buffered(), false) == Nothing
        invariant Ahead(r, done, levelsAtRead, Next(Buffered(), unread, chunk, k, last))
        invariant !last && old(level) > 0 ==> level > 0
        decreases level
      {
        ghost var b := Buffered();
        NextStep(b, unread, chunk, k, last);
        var nal;
        ghost var unit;
        nal, unit := SendNext(last, clock, done);
        if nal == TooLong || (nal == Nothing && last) { AheadComplete(r, done, levelsAtRead, nal == Nothing); }
        if nal == TooLong { return false, done; }
        if nal == Nothing { return true, done; }
        AheadSent(r, done, levelsAtRead, unit, Next(Buffered(), unread, chunk, k, last));
        done := done + [unit];
      }
      if last { AheadComplete(r, done, levelsAtRead, true); }
      return true, done;
    }

    /** The read at the start of a round. */
    method Refill(chunk: nat -> nat, i: nat, ghost r: RunResult, ghost done: seq<Bytes>) returns (end: bool)
      requires Valid() && level != 1
      requires forall i: nat :: chunk(i) >= 1
      requires Look(Buffered(), false) == Nothing && Ahead(r, done, levelsAtRead, Main(Buffered(), unread, chunk, i))
      requires level == 0 ==> ReadSize(0, |unread|, chunk(i)) != 1
      modifies this`level, this`unread, this`levelsAtRead, buffer
      ensures Valid() && level != 1
      ensures Ahead(r, done, levelsAtRead, Next(Buffered(), unread, chunk, i + 1, end))
      ensures end ==> Look(Buffered(), false) == Nothing
      ensures !end ==> level > 0 && |unread| < |old(unread)|
    {
      ghost var b, u, levels := Buffered(), unread, levelsAtRead;
      RefillStep(b, u, chunk, i);
      var n := FillBuffer(chunk(i));
      end := n == 0;
      AheadRead(r, done, levels, |b|, Next(Buffered(), unread, chunk, i + 1, end));
    }

    /** One round of the outer loop of main: a read, then the inner loop. `end` tells that the read
        delivered nothing, `ok` that no unit was too long. */
    method Round(chunk: nat -> nat, clock: nat -> uint32, i: nat, ghost r: RunResult, ghost done0: seq<Bytes>)
      returns (end: bool, ok: bool, ghost done: seq<Bytes>)
      requires Valid() && HeaderReady() && level != 1 && Log(done0, clock)
      requires forall i: nat :: chunk(i) >= 1
      requires Look(Buffered(), false) == Nothing && Ahead(r, done0, levelsAtRead, Main(Buffered(), unread, chunk, i))
      requires level == 0 ==> ReadSize(0, |unread|, chunk(i)) != 1
      modifies this, buffer, pdu
      ensures Valid() && HeaderReady() && level != 1 && Log(done, clock)
      ensures !ok || end ==> r == RunResult(Outcome(done, ok), levelsAtRead)
      ensures ok && !end ==>
        && Look(Buffered(), false) == Nothing && Ahead(r, done, levelsAtRead, Main(Buffered(), unread, chunk, i + 1))
        && level > 0 && |unread| < |old(unread)|
    {
      end := Refill(chunk, i, r, done0);
      ok, done := Drain(end, clock, chunk, i + 1, r, done0);
    }

    /** The talker's main loop. Read i asks for chunk(i) octets; unit i is sent at clock(i). What is
        sent, and whether the talker ends without an error, depends on the input alone. */
    method Run(chunk: nat -> nat, clock: nat -> uint32) returns (ok: bool)
      requires Valid() && HeaderReady() && level == 0 && seqNum == 0 && sent == [] && levelsAtRead == []
      requires forall i: nat :: chunk(i) >= 1
      requires |unread| == 0 || (|unread| >= 2 && chunk(0) >= 2)
      modifies this, buffer, pdu
      ensures ok == Reference(old(unread)).ok
      ensures ParseAll(table, sent) == Stamped(Reference(old(unread)).units, clock)
      ensures levelsAtRead == Main([], old(unread), chunk, 0).levels
    {
      ghost var r := Main([], unread, chunk, 0);
      ghost var done: seq<Bytes> := [];
      ChunkIndependence(unread, chunk);
      EmptyLog(table, clock);
      assert Buffered() == [];
      AheadStart(r);
      var i: nat := 0;
      while true
        invariant Valid() && HeaderReady() && level != 1 && Log(done, clock)
        invariant level == 0 ==> ReadSize(0, |unread|, chunk(i)) != 1
        invariant Look(Buffered(), false) == Nothing && Ahead(r, done, levelsAtRead, Main(Buffered(), unread, chunk, i))
        decreases |unread|
      {
        var end;
        end, ok, done := Round(chunk, clock, i, r, done);
        if !ok || end { return ok; }
        i := i + 1;
      }
    }
  }
}
