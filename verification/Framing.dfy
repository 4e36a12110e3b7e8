/** Octet strings that are read message by message, each message telling its own length. */
module Framing {
  import opened Octets

  /** What the octets at hand yield: nothing usable, or an item and the length of its message. */
  datatype Reading<T> = Unusable | Readable(item: T, length: nat)

  datatype Items<T> = Malformed | Items(items: seq<T>)

  type Reader<!T> = Bytes -> Reading<T>

  /** A message is not empty and lies within the octets at hand. */
  ghost predicate Framed<T(!new)>(read: Reader<T>) {
    forall m :: read(m).Readable? ==> 0 < read(m).length <= |m|
  }

  /** What follows a message does not matter to it. */
  ghost predicate PrefixStable<T(!new)>(read: Reader<T>) {
    forall m, more :: read(m).Readable? ==> read(m + more) == read(m)
  }

  /** A message can be read from its own octets alone. */
  ghost predicate SelfContained<T(!new)>(read: Reader<T>) {
    forall m :: read(m).Readable? && read(m).length <= |m| ==> read(m[..read(m).length]) == read(m)
  }

  function Prepend<T>(x: T, r: Items<T>): Items<T> {
    match r
    case Malformed => Malformed
    case Items(items) => Items([x] + items)
  }

  /** What the data yields, with room for so many items. */
  function ReadAll<T(!new)>(read: Reader<T>, data: Bytes, room: nat): Items<T>
    requires Framed(read)
    decreases |data|
  {
    if data == [] then Items([])
    else
      match read(data)
      case Unusable => Malformed
      case Readable(x, n) => if room == 0 then Malformed else Prepend(x, ReadAll(read, data[n..], room - 1))
  }

  /** The octets are those of one message. */
  predicate OneMessage<T(!new)>(read: Reader<T>, m: Bytes) {
    read(m).Readable? && read(m).length == |m|
  }

  predicate AllMessages<T(!new)>(read: Reader<T>, ms: seq<Bytes>) {
    forall i | 0 <= i < |ms| :: OneMessage(read, ms[i])
  }

  function ItemsOf<T(!new)>(read: Reader<T>, ms: seq<Bytes>): seq<T>
    requires AllMessages(read, ms)
  {
    if ms == [] then [] else [read(ms[0]).item] + ItemsOf(read, ms[1..])
  }

  lemma DropPrefix(a: Bytes, b: Bytes)
    ensures (a + b)[|a|..] == b && (a + b)[..|a|] == a
  {
  }

  lemma CutAt(data: Bytes, n: nat)
    requires n <= |data|
    ensures data == data[..n] + data[n..]
  {
  }

  /** A message in front of other data. */
  lemma FrontMessage<T(!new)>(read: Reader<T>, m: Bytes, rest: Bytes, room: nat)
    requires Framed(read) && room > 0 && m != [] && read(m + rest).Readable? && read(m + rest).length == |m|
    ensures ReadAll(read, m + rest, room) == Prepend(read(m + rest).item, ReadAll(read, rest, room - 1))
  {
    DropPrefix(m, rest);
  }

  /** A concatenation of messages is read as their items. */
  lemma {:induction false} TilesAreRead<T(!new)>(read: Reader<T>, ms: seq<Bytes>, room: nat)
    requires Framed(read) && PrefixStable(read) && AllMessages(read, ms) && |ms| <= room
    ensures ReadAll(read, Concat(ms), room) == Items(ItemsOf(read, ms))
    decreases |ms|
  {
    if ms != [] {
      var m, rest := ms[0], Concat(ms[1..]);
      assert OneMessage(read, m) && read(m + rest) == read(m);
      TilesAreRead(read, ms[1..], room - 1);
      FrontMessage(read, m, rest, room);
    }
  }

  /** Only a concatenation of at most so many messages is read. */
  lemma {:induction false} ReadIsTiled<T(!new)>(read: Reader<T>, data: Bytes, room: nat) returns (ms: seq<Bytes>)
    requires Framed(read) && SelfContained(read) && ReadAll(read, data, room) != Malformed
    ensures data == Concat(ms) && AllMessages(read, ms) && |ms| <= room
    decreases |data|
  {
    if data == [] {
      ms := [];
    } else {
      var n := read(data).length;
      var rest := ReadIsTiled(read, data[n..], room - 1);
      ms := [data[..n]] + rest;
      assert OneMessage(read, data[..n]);
      ConcatFront(data[..n], rest);
      CutAt(data, n);
    }
  }

  /** The data is accepted exactly when it is a concatenation of at most so many messages. */
  lemma TiledExactly<T(!new)>(read: Reader<T>, data: Bytes, room: nat)
    requires Framed(read) && PrefixStable(read) && SelfContained(read)
    ensures ReadAll(read, data, room) != Malformed
       <==> exists ms :: data == Concat(ms) && AllMessages(read, ms) && |ms| <= room
  {
    if ReadAll(read, data, room) != Malformed {
      var ms := ReadIsTiled(read, data, room);
    }
    if ms :| data == Concat(ms) && AllMessages(read, ms) && |ms| <= room {
      TilesAreRead(read, ms, room);
    }
  }

  /** Each part is read as wanted, whatever follows it. */
  ghost predicate Chain<T(!new)>(read: Reader<T>, ms: seq<Bytes>, want: seq<Reading<T>>) {
    && |ms| == |want|
    && (forall i, rest | 0 <= i < |ms| :: read(ms[i] + rest) == want[i])
    && forall i | 0 <= i < |ms| :: want[i].Readable? ==> want[i].length == |ms[i]|
  }

  /** All items, if every part is usable. */
  function Collected<T>(want: seq<Reading<T>>): Items<T> {
    if want == [] then Items([])
    else if want[0].Unusable? then Malformed
    else Prepend(want[0].item, Collected(want[1..]))
  }

  lemma {:induction false} ChainIsRead<T(!new)>(read: Reader<T>, ms: seq<Bytes>, want: seq<Reading<T>>, room: nat)
    requires Framed(read) && Chain(read, ms, want) && |ms| <= room
    requires forall i | 0 <= i < |ms| :: ms[i] != []
    ensures ReadAll(read, Concat(ms), room) == Collected(want)
    decreases |ms|
  {
    if ms != [] {
      var m, rest := ms[0], Concat(ms[1..]);
      assert read(m + rest) == want[0];
      if want[0].Readable? {
        ChainTail(read, ms, want);
        ChainIsRead(read, ms[1..], want[1..], room - 1);
        FrontMessage(read, m, rest, room);
      }
    }
  }

  lemma ChainTail<T(!new)>(read: Reader<T>, ms: seq<Bytes>, want: seq<Reading<T>>)
    requires Chain(read, ms, want) && ms != []
    ensures Chain(read, ms[1..], want[1..])
  {
    forall i, rest | 0 <= i < |ms[1..]| ensures read(ms[1..][i] + rest) == want[1..][i] {
      assert read(ms[i + 1] + rest) == want[i + 1];
    }
  }

  /** No message is longer than k octets. */
  ghost predicate Short<T(!new)>(read: Reader<T>, k: nat) {
    forall m :: read(m).Readable? ==> read(m).length <= k
  }

  /** More octets than so many messages can have are rejected. */
  lemma {:induction false} TooManyOctets<T(!new)>(read: Reader<T>, data: Bytes, room: nat, k: nat)
    requires Framed(read) && Short(read, k) && |data| > room * k
    ensures ReadAll(read, data, room) == Malformed
    decreases |data|
  {
    if read(data).Readable? && room > 0 {
      assert |data[read(data).length..]| > (room - 1) * k;
      TooManyOctets(read, data[read(data).length..], room - 1, k);
    }
  }

  // ---------- Reading in place ----------

  /** Items found already, and those of the rest. */
  function Follow<T>(done: seq<T>, r: Items<T>): Items<T> {
    match r
    case Malformed => Malformed
    case Items(items) => Items(done + items)
  }

  lemma FollowNothing<T>(r: Items<T>)
    ensures Follow([], r) == r
  {
    if r.Items? { assert [] + r.items == r.items; }
  }

  /** The octets in [start, end), none if the end lies before the start. */
  function Span(s: Bytes, start: nat, end: nat): Bytes
    requires start <= |s| && end <= |s|
  {
    if start <= end then s[start..end] else []
  }

  lemma SpanLength(s: Bytes, from: nat, end: nat)
    requires from <= end <= |s|
    ensures |Span(s, from, end)| == end - from
  {
  }

  lemma SpanTail(s: Bytes, from: nat, n: nat, end: nat)
    requires from + n <= end <= |s|
    ensures Span(s, from, end)[n..] == Span(s, from + n, end)
  {
  }

  /** The items done already, and those that the octets from `from` to `end` yield, read step by step. */
  function Pending<T(!new)>(read: Reader<T>, s: Bytes, from: nat, end: nat, room: nat, done: seq<T>): Items<T>
    requires Framed(read) && from <= |s| && end <= |s|
    decreases end - from
  {
    if from >= end then Items(done)
    else
      SpanLength(s, from, end);
      match read(Span(s, from, end))
      case Unusable => Malformed
      case Readable(x, n) => if room == 0 then Malformed else Pending(read, s, from + n, end, room - 1, done + [x])
  }

  lemma FollowItem<T>(done: seq<T>, x: T, r: Items<T>)
    ensures Follow(done, Prepend(x, r)) == Follow(done + [x], r)
  {
    if r.Items? { Regrouped(done, [x], r.items); }
  }

  /** One step of reading the octets as a whole. */
  lemma FollowStep<T(!new)>(read: Reader<T>, s: Bytes, from: nat, end: nat, room: nat, done: seq<T>, next: nat)
    requires Framed(read) && from < end <= |s|
    requires var r := read(Span(s, from, end)); r.Readable? && room > 0 ==> next == from + r.length <= end
    ensures var all := Follow(done, ReadAll(read, Span(s, from, end), room));
      match read(Span(s, from, end))
      case Unusable => all == Malformed
      case Readable(x, n) =>
        if room == 0 then all == Malformed
        else all == Follow(done + [x], ReadAll(read, Span(s, next, end), room - 1))
  {
    SpanLength(s, from, end);
    var r := read(Span(s, from, end));
    if r.Readable? && room > 0 {
      SpanTail(s, from, r.length, end);
      FollowItem(done, r.item, ReadAll(read, Span(s, next, end), room - 1));
    }
  }

  lemma FollowEnd<T(!new)>(read: Reader<T>, s: Bytes, from: nat, end: nat, room: nat, done: seq<T>)
    requires Framed(read) && end <= from <= |s|
    ensures Follow(done, ReadAll(read, Span(s, from, end), room)) == Items(done)
  {
    assert done + [] == done;
  }

  /** One step of reading them where they stand. */
  lemma PendingStep<T(!new)>(read: Reader<T>, s: Bytes, from: nat, end: nat, room: nat, done: seq<T>)
    requires Framed(read) && from < end <= |s|
    ensures var r := read(Span(s, from, end));
      && (r.Readable? ==> 0 < r.length <= end - from)
      && Pending(read, s, from, end, room, done)
         == if r.Unusable? || room == 0 then Malformed
            else Pending(read, s, from + r.length, end, room - 1, done + [r.item])
  {
    SpanLength(s, from, end);
  }

  /** That is what reading these octets as a whole yields. */
  lemma {:induction false} PendingIsRead<T(!new)>(read: Reader<T>, s: Bytes, from: nat, end: nat, room: nat,
                                                  done: seq<T>)
    requires Framed(read) && from <= |s| && end <= |s|
    ensures Pending(read, s, from, end, room, done) == Follow(done, ReadAll(read, Span(s, from, end), room))
    decreases end - from
  {
    if from >= end {
      FollowEnd(read, s, from, end, room, done);
    } else {
      PendingStep(read, s, from, end, room, done);
      var r := read(Span(s, from, end));
      var next := if r.Readable? then from + r.length else end;
      FollowStep(read, s, from, end, room, done, next);
      if r.Readable? && room > 0 { PendingIsRead(read, s, next, end, room - 1, done + [r.item]); }
    }
  }

  lemma AllPending<T(!new)>(read: Reader<T>, s: Bytes, from: nat, end: nat, room: nat)
    requires Framed(read) && from <= |s| && end <= |s|
    ensures Pending(read, s, from, end, room, []) == ReadAll(read, Span(s, from, end), room)
  {
    PendingIsRead(read, s, from, end, room, []);
    FollowNothing(ReadAll(read, Span(s, from, end), room));
  }
}
