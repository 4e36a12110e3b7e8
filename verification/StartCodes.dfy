/** Start codes in an H.264 byte stream (Annex B of ITU-T Rec. H.264), the
    skipping search for them, and the units a stream consists of. */
module StartCodes {
  import opened Words
  import opened Octets

  /** The octets 00 00 01 at p. */
  predicate CodeAt(b: Bytes, p: int) {
    0 <= p && p + 2 < |b| && b[p] == 0 && b[p + 1] == 0 && b[p + 2] == 1
  }

  /** The first start code at or after `from`; -1 when there is none. */
  function Find(b: Bytes, from: nat): (p: int)
    ensures p == -1 || (from <= p && CodeAt(b, p))
    decreases |b| - from
  {
    if from + 2 >= |b| then -1
    else if CodeAt(b, from) then from
    else Find(b, from + 1)
  }

  ghost predicate IsFirstCode(b: Bytes, from: nat, p: int) {
    if p == -1 then forall q | from <= q :: !CodeAt(b, q)
    else from <= p && CodeAt(b, p) && forall q | from <= q < p :: !CodeAt(b, q)
  }

  lemma {:induction false} FindIsFirst(b: Bytes, from: nat)
    ensures IsFirstCode(b, from, Find(b, from))
    decreases |b| - from
  {
    if from + 2 < |b| && !CodeAt(b, from) { FindIsFirst(b, from + 1); }
  }

  lemma FirstCodeUnique(b: Bytes, from: nat, p: int, q: int)
    requires IsFirstCode(b, from, p) && IsFirstCode(b, from, q)
    ensures p == q
  {
  }

  /** start_code_position: steps of three, except past a zero octet. */
  method StartCodePosition(buffer: array<uint8>, level: nat, offset: nat) returns (position: int)
    requires offset < level <= buffer.Length && 2 <= level
    ensures position == Find(buffer[..level], offset)
  {
    ghost var b := buffer[..level];
    var at := offset;
    FindIsFirst(b, offset);
    while at < level - 2
      invariant offset <= at
      invariant forall q | offset <= q < at :: !CodeAt(b, q)
      decreases level - at
    {
      if buffer[at + 2] == 0x1 {
        if buffer[at] == 0x0 && buffer[at + 1] == 0x0 {
          FirstCodeUnique(b, offset, at, Find(b, offset));
          return at;
        }
        at := at + 3;
      } else if buffer[at + 2] == 0x0 {
        at := at + 1;
      } else {
        at := at + 3;
      }
    }
    FirstCodeUnique(b, offset, -1, Find(b, offset));
    return -1;
  }

  /** A code found in a prefix is the one found in the whole. */
  lemma FindInPrefix(b: Bytes, w: Bytes, from: nat)
    requires b <= w && Find(b, from) != -1
    ensures Find(w, from) == Find(b, from)
  {
    var p := Find(b, from);
    FindIsFirst(b, from);
    FindIsFirst(w, from);
    assert forall q | from <= q <= p :: CodeAt(w, q) == CodeAt(b, q);
    FirstCodeUnique(w, from, p, Find(w, from));
  }

  lemma CodeInPrefix(b: Bytes, s: Bytes, p: int)
    requires b <= s && p + 2 < |b|
    ensures CodeAt(b, p) == CodeAt(s, p)
  {
  }

  // ---------- The units of a stream ----------

  /** The stream cut before every start code but the one it begins with. */
  function Units(s: Bytes): seq<Bytes>
    requires CodeAt(s, 0)
    decreases |s|
  {
    FindIsFirst(s, 1);
    var end := Find(s, 1);
    if end == -1 then [s] else [s[..end]] + Units(DropTo(s, end))
  }

  function DropTo(s: Bytes, end: nat): (r: Bytes)
    requires CodeAt(s, end)
    ensures CodeAt(r, 0) && r == s[end..]
  {
    s[end..]
  }

  /** One start code, at the front. */
  ghost predicate IsUnit(u: Bytes) {
    CodeAt(u, 0) && forall q | 1 <= q :: !CodeAt(u, q)
  }

  /** No byte is lost, and every unit begins with its only start code. */
  lemma {:induction false} UnitsPartition(s: Bytes)
    requires CodeAt(s, 0)
    ensures Concat(Units(s)) == s
    ensures forall i | 0 <= i < |Units(s)| :: IsUnit(Units(s)[i])
    decreases |s|
  {
    var end := Find(s, 1);
    FindIsFirst(s, 1);
    if end == -1 {
      assert Concat([s]) == s + Concat([]);
    } else {
      var rest := DropTo(s, end);
      UnitsPartition(rest);
      FrontIsUnit(s, end);
      ConcatFront(s[..end], Units(rest));
    }
  }

  lemma FrontIsUnit(s: Bytes, end: nat)
    requires CodeAt(s, 0) && Find(s, 1) == end
    ensures end >= 3 && IsUnit(s[..end])
  {
    FindIsFirst(s, 1);
    assert forall q | 0 <= q && CodeAt(s[..end], q) :: CodeAt(s, q);
  }

  /** There is no other way to cut a stream into such units. */
  lemma {:induction false} UnitsUnique(s: Bytes, units: seq<Bytes>)
    requires CodeAt(s, 0) && units != [] && Concat(units) == s
    requires forall i | 0 <= i < |units| :: IsUnit(units[i])
    ensures units == Units(s)
    decreases |units|
  {
    var u, more := units[0], units[1..];
    var rest := Concat(more);
    assert s == u + rest;
    FindIsFirst(s, 1);
    if more == [] {
      assert s == u && IsUnit(s);
      FirstCodeUnique(s, 1, -1, Find(s, 1));
    } else {
      assert IsUnit(more[0]) && rest == more[0] + Concat(more[1..]);
      assert CodeAt(rest, 0);
      assert CodeAt(s, |u|);
      forall q | 1 <= q < |u| ensures !CodeAt(s, q) {
        if q + 2 < |u| { assert CodeAt(s, q) ==> CodeAt(u, q); }
      }
      FirstCodeUnique(s, 1, |u|, Find(s, 1));
      assert DropTo(s, |u|) == rest && s[..|u|] == u;
      UnitsUnique(rest, more);
    }
  }

  // ---------- From the first start code on ----------

  /** The stream from its first start code on; nothing if there is none. */
  function Payload(s: Bytes): Bytes {
    var p := Find(s, 0);
    if p == -1 then [] else DropTo(s, p)
  }

  function PayloadUnits(s: Bytes): seq<Bytes> {
    var p := Find(s, 0);
    if p == -1 then [] else Units(DropTo(s, p))
  }

  lemma PayloadPartition(s: Bytes)
    ensures Concat(PayloadUnits(s)) == Payload(s)
    ensures forall i | 0 <= i < |PayloadUnits(s)| :: IsUnit(PayloadUnits(s)[i])
  {
    var p := Find(s, 0);
    if p != -1 { UnitsPartition(DropTo(s, p)); }
  }

  /** That is the whole stream exactly if a start code is at its front. */
  lemma PayloadIsAll(s: Bytes)
    ensures Payload(s) == s <==> s == [] || CodeAt(s, 0)
  {
    FindIsFirst(s, 0);
    if CodeAt(s, 0) { FirstCodeUnique(s, 0, 0, Find(s, 0)); }
  }

  lemma {:induction false} FindShifted(s: Bytes, p: nat, from: nat)
    requires p <= |s|
    ensures Find(s[p..], from) == if Find(s, p + from) == -1 then -1 else Find(s, p + from) - p
    decreases |s| - from
  {
    if p + from + 2 < |s| && !CodeAt(s, p + from) { FindShifted(s, p, from + 1); }
  }
}
