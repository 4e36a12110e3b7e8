/** The CAN bridge: packs CAN frames into one control-format PDU and unpacks them
    again, over four control formats, with or without UDP encapsulation. */
module CanBridge {
  import opened Words
  import opened Octets
  import opened ByteOrder
  import opened FieldSpec
  import opened FieldEngine
  import opened HeaderTables
  import opened HeaderRecord
  import opened CanFrame
  import opened Framing
  import opened CanMessage
  import opened ControlFormat
  import HeaderCodec

  const MAX_FRAMES := 15
  const MAX_ETH_PDU_SIZE := 1500
  const UDP_HEADER_LEN := 4

  /** One end of a bridge: its processor, the layout of its CAN messages, and whether it is in FD mode. */
  datatype Endpoint = Endpoint(host: Host, t: MessageTable, fd: bool)

  /** What both ends agree on. */
  datatype Link = Link(useUdp: bool, streamId: uint64)
  {
    /** Where the control format PDU starts. */
    function Start(): nat {
      if useUdp then UDP_HEADER_LEN else 0
    }
  }

  /** Sequence numbers of the control format and of the encapsulation. */
  datatype Numbers = Numbers(cf: uint32, udp: uint32)

  // ---------- The messages of a PDU ----------

  /** The reader of CAN messages. */
  function CanReader(t: MessageTable, fd: bool): (read: Reader<Frame>)
  {
    m => ReadMessage(t, m, fd)
  }

  /** `read` reads CAN messages. */
  ghost predicate Reads(read: Reader<Frame>, t: MessageTable, fd: bool)
  {
    forall data {:trigger ReadMessage(t, data, fd)} :: read(data) == ReadMessage(t, data, fd)
  }

  lemma CanReaderReads(t: MessageTable, fd: bool)
    ensures Reads(CanReader(t, fd), t, fd)
  {
  }

  lemma CanReaderLaws(t: MessageTable, fd: bool)
    ensures Framed(CanReader(t, fd)) && PrefixStable(CanReader(t, fd)) && SelfContained(CanReader(t, fd))
  {
    var read := CanReader(t, fd);
    forall m, more | read(m).Readable? ensures read(m + more) == read(m) { ReadPrefix(t, m, more, fd); }
    forall m | read(m).Readable? && read(m).length <= |m| ensures read(m[..read(m).length]) == read(m) {
      ReadOwn(t, m, fd);
    }
  }

  /** The data of a PDU is accepted exactly when it is a concatenation of at most 15 valid messages, each
      of the length it declares and none with an identifier above 0x7FF that is not marked as extended. */
  lemma AcceptedExactly(t: MessageTable, data: Bytes, fd: bool)
    ensures Framed(CanReader(t, fd))
    ensures ReadAll(CanReader(t, fd), data, MAX_FRAMES) != Malformed
       <==> exists ms :: data == Concat(ms) && AllMessages(CanReader(t, fd), ms) && |ms| <= MAX_FRAMES
  {
    CanReaderLaws(t, fd);
    TiledExactly(CanReader(t, fd), data, MAX_FRAMES);
  }

  lemma IsOneMessage(t: MessageTable, m: Bytes, fd: bool)
    ensures OneMessage(CanReader(t, fd), m) <==>
      ValidMessage(t, m) && DeclaredOctets(MessageHeader(t, m, 0)) == |m| && !Unmarked(MessageHeader(t, m, 0))
  {
  }

  // ---------- The messages of some frames ----------

  predicate AllInMemory(frames: seq<Frame>) {
    forall i | 0 <= i < |frames| :: InMemory(frames[i])
  }

  /** All lengths are legal for the format in use. */
  predicate AllLegal(frames: seq<Frame>, fd: bool) {
    forall i | 0 <= i < |frames| :: frames[i].len <= MaxLength(fd)
  }

  function Canonicals(frames: seq<Frame>, fd: bool): seq<Frame>
    requires AllInMemory(frames)
  {
    if frames == [] then [] else [Canonical(frames[0], fd)] + Canonicals(frames[1..], fd)
  }

  /** What comes back from a sender in FD mode or not (fd) to a receiver in FD mode or not (rfd): the frames in
      canonical form for the mode of both, or nothing. */
  function Returned(frames: seq<Frame>, fd: bool, rfd: bool): Items<Frame>
    requires AllInMemory(frames)
  {
    if AllLegal(frames, fd) then Items(Canonicals(frames, fd && rfd)) else Malformed
  }

  /** The octets of the messages of the first n frames. */
  function MessageOctets(frames: seq<Frame>, n: nat): nat
    requires n <= |frames|
  {
    if n == 0 then 0 else MessageOctets(frames, n - 1) + MessageLength(frames[n - 1].len)
  }

  lemma {:induction false} EightyEach(frames: seq<Frame>, n: nat)
    requires AllInMemory(frames) && n <= |frames|
    ensures MessageOctets(frames, n) <= 80 * n
  {
    if n > 0 {
      EightyEach(frames, n - 1);
      AtMostEighty(frames[n - 1].len);
    }
  }

  lemma {:induction false} FewerOctets(frames: seq<Frame>, i: nat, n: nat)
    requires i <= n <= |frames|
    ensures MessageOctets(frames, i) <= MessageOctets(frames, n)
    decreases n
  {
    if i < n { FewerOctets(frames, i, n - 1); }
  }

  lemma AtMostEighty(n: nat)
    requires n <= MAX_DATA
    ensures MessageLength(n) <= 80
  {
  }

  /** The octet strings are the messages of the frames, in order. */
  ghost predicate AllCarry(t: MessageTable, ms: seq<Bytes>, frames: seq<Frame>, fd: bool, times: seq<uint64>)
    requires AllInMemory(frames)
  {
    |ms| == |frames| == |times| && forall i | 0 <= i < |ms| :: Carries(t, ms[i], frames[i], fd, times[i])
  }

  /** One more message in place: the frames up to number i. */
  lemma OneMoreMessage(t: MessageTable, ms: seq<Bytes>, frames: seq<Frame>, fd: bool, times: seq<uint64>, m: Bytes,
                       i: nat, time: uint64)
    requires AllInMemory(frames) && i < |frames| && AllInMemory(frames[..i]) && AllCarry(t, ms, frames[..i], fd, times)
    requires Carries(t, m, frames[i], fd, time)
    ensures AllInMemory(frames[..i + 1]) && AllCarry(t, ms + [m], frames[..i + 1], fd, times + [time])
    ensures Concat(ms + [m]) == Concat(ms) + m
  {
    ConcatSum(ms, [m]);
    assert Concat([m]) == m;
  }

  /** What a listener makes of the message of a frame. */
  function Answer(f: Frame, fd: bool, rfd: bool): Reading<Frame>
    requires InMemory(f)
  {
    if f.len <= MaxLength(fd) then Readable(Canonical(f, fd && rfd), MessageLength(f.len)) else Unusable
  }

  function Answers(frames: seq<Frame>, fd: bool, rfd: bool): seq<Reading<Frame>>
    requires AllInMemory(frames)
  {
    seq(|frames|, i requires 0 <= i < |frames| => Answer(frames[i], fd, rfd))
  }

  lemma {:induction false} AnswersCollected(frames: seq<Frame>, fd: bool, rfd: bool)
    requires AllInMemory(frames)
    ensures Collected(Answers(frames, fd, rfd)) == Returned(frames, fd, rfd)
    decreases |frames|
  {
    if frames != [] {
      assert Answers(frames, fd, rfd)[1..] == Answers(frames[1..], fd, rfd);
      AnswersCollected(frames[1..], fd, rfd);
      if frames[0].len <= MaxLength(fd) { LegalTail(frames, fd); }
    }
  }

  lemma LegalTail(frames: seq<Frame>, fd: bool)
    requires frames != [] && frames[0].len <= MaxLength(fd)
    ensures AllLegal(frames, fd) <==> AllLegal(frames[1..], fd)
  {
    if AllLegal(frames[1..], fd) {
      forall i | 0 <= i < |frames| ensures frames[i].len <= MaxLength(fd) {
        if i > 0 { assert frames[i] == frames[1..][i - 1]; }
      }
    }
  }

  /** The message of a frame in front of other data: read if the length is legal, rejected otherwise. */
  lemma MessageInFront(t: MessageTable, m: Bytes, rest: Bytes, f: Frame, fd: bool, time: uint64, rfd: bool)
    requires InMemory(f) && Carries(t, m, f, fd, time)
    ensures ReadMessage(t, m + rest, rfd) == Answer(f, fd, rfd) && |m| == MessageLength(f.len)
  {
    ReadsBack(t, m, f, fd, time, rfd);
    if f.len <= MaxLength(fd) {
      ReadPrefix(t, m, rest, rfd);
    } else {
      MessageMoved(t, m + rest, 0, |m|);
      assert (m + rest)[0..|m|] == m;
      DeclaredLength(f, fd, time);
    }
  }

  lemma FramesChain(read: Reader<Frame>, t: MessageTable, ms: seq<Bytes>, frames: seq<Frame>, fd: bool,
                    times: seq<uint64>, rfd: bool)
    requires AllInMemory(frames) && AllCarry(t, ms, frames, fd, times) && Reads(read, t, rfd)
    ensures Chain(read, ms, Answers(frames, fd, rfd))
    ensures forall i | 0 <= i < |ms| :: ms[i] != []
  {
    forall i, rest | 0 <= i < |ms| ensures read(ms[i] + rest) == Answers(frames, fd, rfd)[i] {
      MessageInFront(t, ms[i], rest, frames[i], fd, times[i], rfd);
    }
    forall i | 0 <= i < |ms| ensures |ms[i]| == MessageLength(frames[i].len) {
      MessageInFront(t, ms[i], [], frames[i], fd, times[i], rfd);
    }
  }

  /** What is read back from the messages of some frames: all of them in canonical form, if every
      length is legal; otherwise nothing is. */
  lemma FramesReadBack(read: Reader<Frame>, t: MessageTable, ms: seq<Bytes>, frames: seq<Frame>, fd: bool,
                       times: seq<uint64>, rfd: bool, room: nat)
    requires AllInMemory(frames) && |frames| <= room && AllCarry(t, ms, frames, fd, times)
    requires Reads(read, t, rfd) && Framed(read)
    ensures ReadAll(read, Concat(ms), room) == Returned(frames, fd, rfd)
  {
    FramesChain(read, t, ms, frames, fd, times, rfd);
    ChainIsRead(read, ms, Answers(frames, fd, rfd), room);
    AnswersCollected(frames, fd, rfd);
  }

  // ---------- Unpacking a PDU ----------

  /** The four formats, by subtype and version. */
  datatype FourFormats = FourFormats(ntscf0: Shape, ntscf1: Shape, tscf0: Shape, tscf1: Shape)
  {
    function List(): seq<Shape> {
      [ntscf0, ntscf1, tscf0, tscf1]
    }
  }

  const CONTROL_FORMATS := FourFormats(NTSCF_FORMAT_V0, NTSCF_FORMAT_V1, TSCF_FORMAT_V0, TSCF_FORMAT_V1)

  predicate All<T>(list: seq<T>, p: T -> bool) {
    list == [] || (p(list[0]) && All(list[1..], p))
  }

  lemma {:induction false} AllAt<T>(list: seq<T>, p: T -> bool, k: nat)
    requires All(list, p) && k < |list|
    ensures p(list[k])
  {
    if k > 0 { AllAt(list[1..], p, k - 1); }
  }

  lemma AllMore<T>(x: T, rest: seq<T>, p: T -> bool)
    requires p(x) && All(rest, p)
    ensures All([x] + rest, p)
  {
    assert ([x] + rest)[1..] == rest;
  }

  predicate Distinguished(fs: FourFormats) {
    && All(fs.List(), Sound)
    && fs.ntscf0.subtype == fs.ntscf1.subtype == SUBTYPE_NTSCF && fs.tscf0.subtype == fs.tscf1.subtype == SUBTYPE_TSCF
    && fs.ntscf0.version == fs.tscf0.version == 0 && fs.ntscf1.version == fs.tscf1.version == 1
  }

  lemma FormatsSound(fs: FourFormats)
    requires Distinguished(fs)
    ensures Sound(fs.ntscf0) && Sound(fs.ntscf1) && Sound(fs.tscf0) && Sound(fs.tscf1)
  {
    AllAt(fs.List(), Sound, 0);
    AllAt(fs.List(), Sound, 1);
    AllAt(fs.List(), Sound, 2);
    AllAt(fs.List(), Sound, 3);
  }

  lemma FormatsDistinguished(fs: FourFormats)
    requires Sound(fs.ntscf0) && Sound(fs.ntscf1) && Sound(fs.tscf0) && Sound(fs.tscf1)
    requires fs.ntscf0.subtype == fs.ntscf1.subtype == SUBTYPE_NTSCF
    requires fs.tscf0.subtype == fs.tscf1.subtype == SUBTYPE_TSCF
    requires fs.ntscf0.version == fs.tscf0.version == 0 && fs.ntscf1.version == fs.tscf1.version == 1
    ensures Distinguished(fs)
  {
    var none: seq<Shape> := [];
    assert All(none, Sound);
    AllMore(fs.tscf1, none, Sound);
    AllMore(fs.tscf0, [fs.tscf1], Sound);
    AllMore(fs.ntscf1, [fs.tscf0, fs.tscf1], Sound);
    AllMore(fs.ntscf0, [fs.ntscf1, fs.tscf0, fs.tscf1], Sound);
  }

  lemma ControlFormatsDistinguished()
    ensures Distinguished(CONTROL_FORMATS)
  {
    NtscfV0Sound();
    NtscfV1Sound();
    TscfV0Sound();
    TscfV1Sound();
    FormatsDistinguished(CONTROL_FORMATS);
  }

  /** What the bridge knows of formats. */
  type Formats = fs: FourFormats | Distinguished(fs) witness ControlFormats()

  function ControlFormats(): (fs: FourFormats)
    ensures Distinguished(fs)
  {
    ControlFormatsDistinguished();
    CONTROL_FORMATS
  }

  datatype Option<T> = None | Some(value: T)

  /** The control format with that subtype and version, if the bridge accepts it. */
  function Lookup(fs: Formats, subtype: nat, version: nat): (r: Option<Format>)
    ensures r.Some? ==> r.value.subtype == subtype && r.value.version == version
  {
    FormatsSound(fs);
    var ntscf0: Format, ntscf1: Format, tscf0: Format, tscf1: Format := fs.ntscf0, fs.ntscf1, fs.tscf0, fs.tscf1;
    if subtype == SUBTYPE_NTSCF && version == 0 then Some(ntscf0)
    else if subtype == SUBTYPE_NTSCF && version == 1 then Some(ntscf1)
    else if subtype == SUBTYPE_TSCF && version == 0 then Some(tscf0)
    else if subtype == SUBTYPE_TSCF && version == 1 then Some(tscf1)
    else None
  }

  /** The expected sequence number after a PDU with that number: version 0 compares low octets. */
  function Resync(f: Format, expected: uint32, number: nat): nat {
    if (if f.version == 1 then number == expected else number % 0x100 == expected % 0x100) then expected else number
  }

  /** The control format PDU at offset `at`: its format, where its data starts, and where the receiver takes it
      to end. It counts that end in 16 bits, so past 65535 octets it comes to lie before the start. */
  datatype Located = NoPdu | Pdu(format: Format, start: nat, end: uint16)

  /** The format the received octets show; both subtype and version must have been received. */
  function FormatAt(fs: Formats, s: Bytes, at: nat): (r: Option<Format>)
  {
    if |s| < at + 4 then None else Lookup(fs, Subtype(s, at), Version(s, at))
  }

  /** The data must fit into the n octets received, and belong to the stream. */
  function Bounds(f: Format, dataLength: nat, id: nat, n: nat, at: nat, streamId: uint64): (r: Located)
    requires at + f.length <= n
    ensures r.Pdu? ==> r.format == f && at + f.length == r.start <= n && r.end <= n
  {
    if dataLength > n - at - f.length || id != streamId then NoPdu
    else Pdu(f, at + f.length, Cut16(at + f.length + dataLength))
  }

  function LocateAs(f: Format, s: Bytes, at: nat, streamId: uint64): (r: Located)
    ensures r.Pdu? ==> r.format == f && at + f.length == r.start <= |s| && r.end <= |s|
  {
    if |s| < at + f.length then NoPdu
    else Bounds(f, CfHeader(f, s, at)[f.dataLength], CfHeader(f, s, at)[f.streamId], |s|, at, streamId)
  }

  function Locate(fs: Formats, s: Bytes, at: nat, streamId: uint64): (r: Located)
    ensures r.Pdu? ==> at + r.format.length == r.start <= |s| && r.end <= |s|
  {
    match FormatAt(fs, s, at)
    case None => NoPdu
    case Some(f) => LocateAs(f, s, at, streamId)
  }

  // ---------- Packing a PDU ----------

  /** The headers of a PDU, with `n` octets of data declared. */
  ghost predicate HeaderPacked(f: Format, s: Bytes, start: nat, streamId: uint64, cfSeq: uint32, n: nat)
  {
    && start + f.length <= |s| && Subtype(s, start) == f.subtype && Version(s, start) == f.version
    && CfHeader(f, s, start) == InitialHeader(f, streamId, cfSeq)[f.dataLength := StoredLength(f, n)]
  }

  ghost predicate UdpPacked(s: Bytes, l: Link, udpSeq: uint32) {
    l.useUdp ==> |s| >= UDP_HEADER_LEN && FieldValue(s, 0, 32) == udpSeq
  }

  /** The octets behind the headers. */
  function DataFrom(s: Bytes, from: nat): Bytes
    requires from <= |s|
  {
    s[from..]
  }

  /** The octets of a PDU that carries the messages ms for the frames. */
  ghost predicate Packed(f: Format, e: Endpoint, s: Bytes, l: Link, seqs: Numbers, ms: seq<Bytes>,
                         frames: seq<Frame>, times: seq<uint64>)
    requires AllInMemory(frames)
  {
    && l.Start() + f.length <= |s|
    && HeaderPacked(f, s, l.Start(), l.streamId, seqs.cf, |s| - l.Start() - f.length)
    && UdpPacked(s, l, seqs.udp)
    && DataFrom(s, l.Start() + f.length) == Concat(ms) && AllCarry(e.t, ms, frames, e.fd, times)
  }

  /** A header says what its octets say. */
  lemma SameCfHeader(f: Format, s: Bytes, u: Bytes, base: nat)
    requires base + f.length <= |s| && base + f.length <= |u| && s[..base + f.length] == u[..base + f.length]
    ensures CfHeader(f, s, base) == CfHeader(f, u, base)
    ensures Subtype(s, base) == Subtype(u, base) && Version(s, base) == Version(u, base)
  {
    SameBits8(s, u, base + f.length);
    SameField(s, u, 8 * base, 8);
    SameField(s, u, 8 * base + 9, 3);
    forall g | 0 <= g < |f.Table()| ensures CfHeader(f, s, base)[g] == CfHeader(f, u, base)[g] {
      FieldInside(f.Table(), f.length, base, g);
      SameField(s, u, f.Table()[g].Start(base), f.Table()[g].bits);
    }
  }

  lemma SameBits8(s: Bytes, u: Bytes, n: nat)
    requires n <= |s| && n <= |u| && s[..n] == u[..n]
    ensures forall p: nat | p < 8 * n :: BitAt(s, p) == BitAt(u, p)
  {
    forall p: nat | p < 8 * n ensures BitAt(s, p) == BitAt(u, p) {
      assert s[p / 8] == s[..n][p / 8] == u[..n][p / 8];
    }
  }

  /** The table has one field, the first quadlet. */
  predicate FirstQuadlet(t: Table) {
    |t| == 1 && t[0] == Descriptor(0, 0, 32)
  }

  lemma UdpIsFirstQuadlet()
    ensures FirstQuadlet(UDP)
  {
  }

  lemma QuadletWritten(s: Bytes, v: uint32)
    requires |s| >= UDP_HEADER_LEN
    ensures FieldValue(Put(s, 0, 32, v), 0, 32) == v
  {
    GetPut(s, 0, 32, v);
    Pow2Values();
    SmallMod(v, Pow2(32));
  }

  lemma QuadletFits(udp: Table, s: Bytes)
    requires FirstQuadlet(udp) && |s| >= UDP_HEADER_LEN
    ensures Get(udp, s, 0, 0) == FieldValue(s, 0, 32) < 0x1_0000_0000
  {
    FieldBound(s, 0, 32);
    Pow2Values();
  }

  /** Avtp_Udp_SetEncapsulationSeqNo. */
  method SetUdpSeqNo(host: Host, udp: Table, pdu: array<uint8>, value: uint32)
    requires FirstQuadlet(udp) && pdu.Length >= UDP_HEADER_LEN
    modifies pdu
    ensures FieldValue(pdu[..], 0, 32) == value
  {
    QuadletWritten(pdu[..], value);
    SetField(host, udp, pdu, 0, 0, value);
  }

  method GetFirstQuadlet(host: Host, udp: Table, pdu: array<uint8>) returns (value: uint64)
    requires FirstQuadlet(udp) && pdu.Length >= UDP_HEADER_LEN
    ensures value == Get(udp, pdu[..], 0, 0)
  {
    value := GetField(host, udp, pdu, 0, 0);
  }

  /** Avtp_Udp_GetEncapsulationSeqNo. */
  method GetUdpSeqNo(host: Host, udp: Table, pdu: array<uint8>) returns (value: uint32)
    requires FirstQuadlet(udp) && pdu.Length >= UDP_HEADER_LEN
    ensures value == FieldValue(pdu[..], 0, 32)
  {
    QuadletFits(udp, pdu[..]);
    value := GetFirstQuadlet(host, udp, pdu);
  }

  /** The encapsulation and the control format header at the front of a PDU. */
  method StartPdu(host: Host, f: Format, pdu: array<uint8>, l: Link, seqs: Numbers)
    returns (cfStart: nat, pduLength: nat)
    requires pdu.Length >= l.Start() + f.length
    modifies pdu
    ensures cfStart == l.Start() && pduLength == cfStart + f.length
    ensures Subtype(pdu[..], cfStart) == f.subtype && Version(pdu[..], cfStart) == f.version
    ensures CfHeader(f, pdu[..], cfStart) == InitialHeader(f, l.streamId, seqs.cf)
    ensures l.useUdp ==> FieldValue(pdu[..], 0, 32) == seqs.udp
  {
    cfStart := 0;
    if l.useUdp {
      UdpIsFirstQuadlet();
      SetUdpSeqNo(host, UDP, pdu, seqs.udp);
      cfStart := UDP_HEADER_LEN;
    }
    ghost var s := pdu[..];
    var res := InitCfPdu(host, f, pdu, cfStart, l.streamId, seqs.cf);
    pduLength := cfStart + res;
    if l.useUdp { UdpKept(s, pdu[..], f.length); }
  }

  lemma UdpKept(s: Bytes, u: Bytes, n: nat)
    requires |s| >= UDP_HEADER_LEN && OnlyWithin(s, u, UDP_HEADER_LEN, UDP_HEADER_LEN + n)
    ensures FieldValue(u, 0, 32) == FieldValue(s, 0, 32)
  {
    assert s[..4] == u[..4];
    SameBits8(s, u, 4);
    SameField(u, s, 0, 32);
  }

  /** The loop of can_to_avtp: one message after the other from `base` on. */
  method PackMessages(e: Endpoint, frames: seq<Frame>, pdu: array<uint8>, base: nat, clock: nat -> uint64)
    returns (end: nat, ghost ms: seq<Bytes>, ghost times: seq<uint64>)
    requires AllInMemory(frames) && base + MessageOctets(frames, |frames|) <= pdu.Length
    modifies pdu
    ensures end == base + MessageOctets(frames, |frames|)
    ensures pdu[..][base..end] == Concat(ms) && AllCarry(e.t, ms, frames, e.fd, times)
    ensures OnlyWithin(old(pdu[..]), pdu[..], base, end)
  {
    end, ms, times := base, [], [];
    var i := 0;
    while i < |frames|
      invariant 0 <= i <= |frames| && end == base + MessageOctets(frames, i) <= pdu.Length
      invariant AllInMemory(frames[..i]) && AllCarry(e.t, ms, frames[..i], e.fd, times)
      invariant pdu[..][base..end] == Concat(ms)
      invariant OnlyWithin(old(pdu[..]), pdu[..], base, end)
    {
      FewerOctets(frames, i + 1, |frames|);
      ghost var m;
      end, m := PackOne(e, frames[i], pdu, base, end, clock(i), old(pdu[..]), ms);
      OneMoreMessage(e.t, ms, frames, e.fd, times, m, i, clock(i));
      ms, times := ms + [m], times + [clock(i)];
      i := i + 1;
    }
    assert frames[..i] == frames;
  }

  /** One round of the loop. */
  method PackOne(e: Endpoint, f: Frame, pdu: array<uint8>, base: nat, end: nat, time: uint64, ghost before: Bytes,
                 ghost ms: seq<Bytes>) returns (next: nat, ghost m: Bytes)
    requires InMemory(f) && base <= end && end + MessageLength(f.len) <= pdu.Length
    requires OnlyWithin(before, pdu[..], base, end) && pdu[..][base..end] == Concat(ms)
    modifies pdu
    ensures next == end + MessageLength(f.len) && Carries(e.t, m, f, e.fd, time)
    ensures pdu[..][base..next] == Concat(ms) + m && OnlyWithin(before, pdu[..], base, next)
  {
    ghost var s := pdu[..];
    var res;
    res, m := PrepareAcfPacket(e.host, e.t, pdu, end, f, e.fd, time);
    next := end + res;
    MessageAppended(before, s, pdu[..], base, end, next);
  }

  lemma MessageAppended(s0: Bytes, s: Bytes, u: Bytes, base: nat, end: nat, next: nat)
    requires base <= end <= next <= |s| && OnlyWithin(s0, s, base, end) && OnlyWithin(s, u, end, next)
    ensures u[base..next] == s[base..end] + u[end..next]
    ensures OnlyWithin(s0, u, base, next)
  {
  }

  /** The octets of the PDU for some frames. */
  function PduOctets(f: Format, l: Link, frames: seq<Frame>): nat {
    l.Start() + f.length + MessageOctets(frames, |frames|)
  }

  /** Up to 15 frames always fit an Ethernet frame. */
  lemma FewFit(f: Format, l: Link, frames: seq<Frame>)
    requires AllInMemory(frames) && |frames| <= MAX_FRAMES
    ensures PduOctets(f, l, frames) <= 1244 <= MAX_ETH_PDU_SIZE
  {
    EightyEach(frames, |frames|);
  }

  /** can_to_avtp; message i is stamped clock(i). The number of frames is a uint8. */
  method CanToAvtp(e: Endpoint, f: Format, frames: seq<Frame>, pdu: array<uint8>, l: Link, seqs: Numbers,
                   clock: nat -> uint64)
    returns (pduLength: nat, ghost ms: seq<Bytes>, ghost times: seq<uint64>)
    requires AllInMemory(frames) && |frames| < 0x100 && pdu.Length >= PduOctets(f, l, frames)
    modifies pdu
    ensures pduLength == PduOctets(f, l, frames)
    ensures Packed(f, e, pdu[..][..pduLength], l, seqs, ms, frames, times)
  {
    var cfStart;
    cfStart, pduLength := StartPdu(e.host, f, pdu, l, seqs);
    ghost var s := pdu[..];
    pduLength, ms, times := PackMessages(e, frames, pdu, pduLength, clock);
    EightyEach(frames, |frames|);
    CompletePdu(e, f, pdu, l, seqs, pduLength, s, ms, frames, times);
  }

  /** The length is written last; s is the buffer as it was after the headers. */
  method FinishPdu(host: Host, f: Format, pdu: array<uint8>, start: nat, end: nat, streamId: uint64, cfSeq: uint32,
                   ghost s: Bytes)
    requires start + f.length <= end <= pdu.Length && end < 0x1_0000
    requires OnlyWithin(s, pdu[..], start + f.length, end)
    requires Subtype(s, start) == f.subtype && Version(s, start) == f.version
    requires CfHeader(f, s, start) == InitialHeader(f, streamId, cfSeq)
    modifies pdu
    ensures Finished(f, s, pdu[..], start, end, streamId, cfSeq)
    ensures DataFrom(pdu[..][..end], start + f.length) == old(pdu[..])[start + f.length..end]
  {
    ghost var u := pdu[..];
    UpdateCfLength(host, f, pdu, start, end - start);
    FinishedTogether(f, s, u, pdu[..], start, end, streamId, cfSeq);
  }

  /** The headers are complete, and what lies before them is as it was in s. */
  ghost predicate Finished(f: Format, s: Bytes, v: Bytes, start: nat, end: nat, streamId: uint64, cfSeq: uint32)
  {
    && start + f.length <= end <= |v| == |s| && (forall i | 0 <= i < start :: v[i] == s[i])
    && HeaderPacked(f, v[..end], start, streamId, cfSeq, end - start - f.length)
  }

  lemma PackedFrom(f: Format, e: Endpoint, s: Bytes, v: Bytes, end: nat, l: Link, seqs: Numbers, ms: seq<Bytes>,
                   frames: seq<Frame>, times: seq<uint64>)
    requires AllInMemory(frames)
    requires Finished(f, s, v, l.Start(), end, l.streamId, seqs.cf) && UdpPacked(s, l, seqs.udp)
    requires DataFrom(v[..end], l.Start() + f.length) == Concat(ms) && AllCarry(e.t, ms, frames, e.fd, times)
    ensures Packed(f, e, v[..end], l, seqs, ms, frames, times)
  {
    if l.useUdp { FrontOctets(s, v, end); }
  }

  /** With the messages in place behind the headers, the PDU is completed by its length. */
  method CompletePdu(e: Endpoint, f: Format, pdu: array<uint8>, l: Link, seqs: Numbers, end: nat, ghost s: Bytes,
                     ghost ms: seq<Bytes>, ghost frames: seq<Frame>, ghost times: seq<uint64>)
    requires l.Start() + f.length <= end <= pdu.Length && end < 0x1_0000
    requires OnlyWithin(s, pdu[..], l.Start() + f.length, end)
    requires Subtype(s, l.Start()) == f.subtype && Version(s, l.Start()) == f.version
    requires CfHeader(f, s, l.Start()) == InitialHeader(f, l.streamId, seqs.cf) && UdpPacked(s, l, seqs.udp)
    requires AllInMemory(frames) && AllCarry(e.t, ms, frames, e.fd, times)
    requires pdu[..][l.Start() + f.length..end] == Concat(ms)
    modifies pdu
    ensures Packed(f, e, pdu[..][..end], l, seqs, ms, frames, times)
  {
    FinishPdu(e.host, f, pdu, l.Start(), end, l.streamId, seqs.cf, s);
    PackedFrom(f, e, s, pdu[..], end, l, seqs, ms, frames, times);
  }

  /** The header through the three steps: s after the headers, u after the messages, v after the length. */
  lemma HeaderTogether(f: Format, s: Bytes, u: Bytes, v: Bytes, start: nat, end: nat, streamId: uint64, cfSeq: uint32)
    requires start + f.length <= end <= |s|
    requires Subtype(s, start) == f.subtype && Version(s, start) == f.version
    requires CfHeader(f, s, start) == InitialHeader(f, streamId, cfSeq) && OnlyWithin(s, u, start + f.length, end)
    requires OnlyWithin(u, v, start, start + f.length)
    requires Subtype(v, start) == Subtype(u, start) && Version(v, start) == Version(u, start)
    requires CfHeader(f, v, start) == CfHeader(f, u, start)[f.dataLength := StoredLength(f, end - start - f.length)]
    ensures HeaderPacked(f, v[..end], start, streamId, cfSeq, end - start - f.length)
  {
    KeptByMessages(f, s, u, start, end);
    KeptByLength(f, u, v, start, end);
  }

  lemma FinishedTogether(f: Format, s: Bytes, u: Bytes, v: Bytes, start: nat, end: nat, streamId: uint64, cfSeq: uint32)
    requires start + f.length <= end <= |s|
    requires Subtype(s, start) == f.subtype && Version(s, start) == f.version
    requires CfHeader(f, s, start) == InitialHeader(f, streamId, cfSeq) && OnlyWithin(s, u, start + f.length, end)
    requires OnlyWithin(u, v, start, start + f.length)
    requires Subtype(v, start) == Subtype(u, start) && Version(v, start) == Version(u, start)
    requires CfHeader(f, v, start) == CfHeader(f, u, start)[f.dataLength := StoredLength(f, end - start - f.length)]
    ensures Finished(f, s, v, start, end, streamId, cfSeq)
    ensures DataFrom(v[..end], start + f.length) == u[start + f.length..end]
  {
    HeaderTogether(f, s, u, v, start, end, streamId, cfSeq);
    KeptByLength(f, u, v, start, end);
  }

  lemma KeptByMessages(f: Format, s: Bytes, u: Bytes, start: nat, end: nat)
    requires start + f.length <= end <= |s| && OnlyWithin(s, u, start + f.length, end)
    ensures CfHeader(f, u, start) == CfHeader(f, s, start)
    ensures Subtype(u, start) == Subtype(s, start) && Version(u, start) == Version(s, start)
  {
    assert s[..start + f.length] == u[..start + f.length];
    SameCfHeader(f, s, u, start);
  }

  /** The length is written to the header: the messages stay, and the PDU can be cut to its length. */
  lemma KeptByLength(f: Format, u: Bytes, v: Bytes, start: nat, end: nat)
    requires start + f.length <= end <= |u| && OnlyWithin(u, v, start, start + f.length)
    ensures v[..end][start + f.length..] == u[start + f.length..end]
    ensures CfHeader(f, v[..end], start) == CfHeader(f, v, start)
    ensures Subtype(v[..end], start) == Subtype(v, start) && Version(v[..end], start) == Version(v, start)
  {
    assert v[..end][..start + f.length] == v[..start + f.length];
    SameCfHeader(f, v[..end], v, start);
  }

  lemma FrontOctets(s: Bytes, v: Bytes, end: nat)
    requires 4 <= end <= |v| == |s| && forall i | 0 <= i < 4 :: v[i] == s[i]
    ensures FieldValue(v[..end], 0, 32) == FieldValue(s, 0, 32)
  {
    assert v[..end][..4] == s[..4];
    SameBits8(v[..end], s, 4);
    SameField(v[..end], s, 0, 32);
  }

  // ---------- avtp_to_can ----------

  /** The header checks of Avtp_Tscf_IsValid and Avtp_Ntscf_IsValid, which are the same: the header of
      the version at hand fits into the octets received, and so does the data it declares. */
  method CfLengthValid(host: Host, f: Format, pdu: array<uint8>, at: nat, bufferSize: nat)
    returns (valid: bool, dataLength: nat)
    requires at + bufferSize <= pdu.Length && at + 4 <= pdu.Length && Version(pdu[..], at) == f.version
    ensures valid == (bufferSize >= f.length && CfHeader(f, pdu[..], at)[f.dataLength] <= bufferSize - f.length)
    ensures valid ==> dataLength == CfHeader(f, pdu[..], at)[f.dataLength]
  {
    if bufferSize < f.length { return false, 0; }
    FormatUsable(f, pdu[..], at);
    dataLength := GetFieldDispatched(host, f.header, pdu, at, f.dataLength);
    valid := dataLength <= bufferSize - f.length;
  }

  /** A typed getter of a header field. */
  method GetCfField(host: Host, f: Format, pdu: array<uint8>, at: nat, field: uint8) returns (v: uint64)
    requires at + f.length <= pdu.Length && field < |f.Table()|
    ensures v == CfHeader(f, pdu[..], at)[field]
  {
    Place(f.Table(), f.length, at, pdu.Length);
    v := GetField(host, f.Table(), pdu, at, field);
  }

  /** The format the subtype and version at `at` stand for. */
  method FindFormat(host: Host, fs: Formats, pdu: array<uint8>, at: nat) returns (f: Option<Format>)
    requires at + 4 <= pdu.Length
    ensures f == Lookup(fs, Subtype(pdu[..], at), Version(pdu[..], at))
  {
    var subtype := GetSubtype(host, pdu, at);
    if subtype != SUBTYPE_TSCF && subtype != SUBTYPE_NTSCF { return None; }
    var version := GetVersion(host, pdu, at);
    SupportedVersions(version);
    if !VersionSupported(3, version) { return None; }
    FormatsSound(fs);
    var format: Format;
    if subtype == SUBTYPE_TSCF {
      format := if version == 1 then fs.tscf1 else fs.tscf0;
    } else {
      format := if version == 1 then fs.ntscf1 else fs.ntscf0;
    }
    f := Some(format);
  }

  lemma CommonReceived(s: Bytes, n: nat, at: nat)
    requires at + 4 <= n <= |s|
    ensures Subtype(s[..n], at) == Subtype(s, at) && Version(s[..n], at) == Version(s, at)
  {
    assert s[..n][..n] == s[..n];
    SameBits8(s[..n], s, n);
    SameField(s[..n], s, 8 * at, 8);
    SameField(s[..n], s, 8 * at + 9, 3);
  }

  lemma HeaderReceived(f: Format, s: Bytes, n: nat, at: nat)
    requires at + f.length <= n <= |s|
    ensures CfHeader(f, s[..n], at) == CfHeader(f, s, at)
  {
    assert s[..n][..at + f.length] == s[..at + f.length];
    SameCfHeader(f, s[..n], s, at);
  }

  /** The comparison of sequence numbers under the mask of the version. */
  method CheckNumber(f: Format, expected: uint32, seqNum: nat) returns (next: nat)
    ensures next == Resync(f, expected, seqNum)
  {
    if f.version == 1 {
      next := if seqNum != expected then seqNum else expected;
    } else {
      next := if seqNum % 0x100 != expected % 0x100 then seqNum else expected;
    }
  }

  lemma LocateReceived(f: Format, s: Bytes, n: nat, at: nat, streamId: uint64, dataLength: nat, id: nat)
    requires at + f.length <= n <= |s|
    requires dataLength == CfHeader(f, s, at)[f.dataLength] && id == CfHeader(f, s, at)[f.streamId]
    ensures LocateAs(f, s[..n], at, streamId) == Bounds(f, dataLength, id, n, at, streamId)
  {
    HeaderReceived(f, s, n, at);
  }

  lemma OutOfBounds(f: Format, dataLength: nat, id: nat, n: nat, at: nat, streamId: uint64)
    requires at + f.length <= n && (dataLength > n - at - f.length || id != streamId)
    ensures Bounds(f, dataLength, id, n, at, streamId) == NoPdu
  {
  }

  lemma InBounds(f: Format, dataLength: nat, n: nat, at: nat, streamId: uint64)
    requires at + f.length + dataLength <= n
    ensures Bounds(f, dataLength, streamId, n, at, streamId) == Pdu(f, at + f.length, Cut16(at + f.length + dataLength))
  {
  }

  /** The part for the format found. */
  method ReadCfHeader(host: Host, f: Format, pdu: array<uint8>, pduLength: nat, at: nat, streamId: uint64,
                      ghost located: Located)
    returns (r: Located, seqNum: nat)
    requires pduLength <= pdu.Length && at + 4 <= pdu.Length && at <= pduLength
    requires Version(pdu[..], at) == f.version && located == LocateAs(f, pdu[..][..pduLength], at, streamId)
    ensures r == located
    ensures r.Pdu? ==> seqNum == CfHeader(f, pdu[..], at)[f.number]
  {
    var valid, dataLength := CfLengthValid(host, f, pdu, at, pduLength - at);
    if pduLength - at < f.length { return NoPdu, 0; }
    ghost var declared, shown := CfHeader(f, pdu[..], at)[f.dataLength], CfHeader(f, pdu[..], at)[f.streamId];
    LocateReceived(f, pdu[..], pduLength, at, streamId, declared, shown);
    if !valid || shown != streamId { OutOfBounds(f, declared, shown, pduLength, at, streamId); }
    if !valid { return NoPdu, 0; }
    var id := GetCfField(host, f, pdu, at, f.streamId);
    if id != streamId { return NoPdu, 0; }
    InBounds(f, dataLength, pduLength, at, streamId);
    seqNum := GetCfField(host, f, pdu, at, f.number);
    r := Pdu(f, at + f.length, Cut16(at + f.length + dataLength));
  }

  lemma FormatReceived(fs: Formats, s: Bytes, n: nat, at: nat)
    requires n <= |s| && at + 4 <= |s|
    ensures FormatAt(fs, s[..n], at) == if n < at + 4 then None else FormatAt(fs, s, at)
  {
    if n >= at + 4 {
      CommonReceived(s, n, at);
      FormatFrom(fs, s[..n], at, Subtype(s, at), Version(s, at));
      FormatFrom(fs, s, at, Subtype(s, at), Version(s, at));
    }
  }

  lemma FormatFrom(fs: Formats, r: Bytes, at: nat, subtype: nat, version: nat)
    requires at + 4 <= |r| && subtype == Subtype(r, at) && version == Version(r, at)
    ensures FormatAt(fs, r, at) == Lookup(fs, subtype, version)
  {
  }

  lemma NotLocated(fs: Formats, r: Bytes, at: nat, streamId: uint64)
    requires FormatAt(fs, r, at) == None
    ensures Locate(fs, r, at, streamId) == NoPdu
  {
  }

  lemma LocatedAs(fs: Formats, r: Bytes, at: nat, streamId: uint64, f: Format)
    requires FormatAt(fs, r, at) == Some(f)
    ensures Locate(fs, r, at, streamId) == LocateAs(f, r, at, streamId)
  {
  }

  lemma HeaderMissing(f: Format, r: Bytes, at: nat, streamId: uint64)
    requires |r| < at + 4
    ensures LocateAs(f, r, at, streamId) == NoPdu
  {
  }

  /** Two octets received are enough to look for a format: a shorter header is rejected afterwards. */
  lemma LocateOpened(fs: Formats, s: Bytes, n: nat, at: nat, streamId: uint64, found: Option<Format>)
    requires n <= |s| && at + 4 <= |s| && found == FormatAt(fs, s, at)
    ensures found.None? || n < at + 4 ==> Locate(fs, s[..n], at, streamId) == NoPdu
    ensures found.Some? ==> Locate(fs, s[..n], at, streamId) == LocateAs(found.value, s[..n], at, streamId)
  {
    FormatReceived(fs, s, n, at);
    if found.None? || n < at + 4 { NotLocated(fs, s[..n], at, streamId); }
    if found.Some? {
      if n < at + 4 {
        HeaderMissing(found.value, s[..n], at, streamId);
      } else {
        LocatedAs(fs, s[..n], at, streamId, found.value);
      }
    }
  }

  /** The header part of avtp_to_can: finds the control format PDU among the octets received, and
      reads its sequence number. */
  method OpenPdu(host: Host, fs: Formats, pdu: array<uint8>, pduLength: nat, at: nat, streamId: uint64)
    returns (r: Located, seqNum: nat)
    requires pduLength <= pdu.Length && at + 4 <= pdu.Length && at <= pduLength
    ensures r == Locate(fs, pdu[..][..pduLength], at, streamId)
    ensures r.Pdu? ==> seqNum == CfHeader(r.format, pdu[..], at)[r.format.number]
  {
    LocateOpened(fs, pdu[..], pduLength, at, streamId, FormatAt(fs, pdu[..], at));
    if pduLength - at < 2 { return NoPdu, 0; }
    var found := FindFormat(host, fs, pdu, at);
    if found.None? { return NoPdu, 0; }
    r, seqNum := ReadCfHeader(host, found.value, pdu, pduLength, at, streamId,
                              Locate(fs, pdu[..][..pduLength], at, streamId));
  }

  ghost predicate ReadsFrom(read: Reader<Frame>, e: Endpoint) {
    Reads(read, e.t, e.fd)
  }

  lemma NextInPlace(read: Reader<Frame>, t: MessageTable, s: Bytes, base: nat, end: nat, fd: bool)
    requires Reads(read, t, fd) && base <= end <= |s|
    ensures read(Span(s, base, end)) == ReadAt(t, s, base, end, fd)
  {
    ReadInPlace(t, s, base, end, fd);
  }

  /** What a reading of messages in place is about: the reader, the octets, all that they will yield, and the frames
      there were before. */
  datatype Task = Task(read: Reader<Frame>, s: Bytes, end: nat, all: Items<Frame>, before: seq<Frame>)

  /** With the frames `done`, and room for more, the rest is to be read from `from` on. */
  ghost predicate Remains(j: Task, from: nat, room: nat, done: seq<Frame>) {
    && Framed(j.read) && from <= |j.s| && j.end <= |j.s|
    && j.all == Pending(j.read, j.s, from, j.end, room, done)
  }

  /** The loop of avtp_to_can over the messages in [start, end), its counters in 8 and 16 bits; -1 stands for
      failure. */
  method ReadMessages(e: Endpoint, pdu: array<uint8>, start: uint16, end: uint16, canFrames: array<Frame>,
                      ghost read: Reader<Frame>)
    returns (result: int)
    requires start <= pdu.Length && end <= pdu.Length && canFrames.Length >= MAX_FRAMES
    requires ReadsFrom(read, e) && Framed(read)
    modifies canFrames
    ensures Delivered(result, Pending(read, old(pdu[..]), start, end, MAX_FRAMES, []), canFrames[..],
                      old(canFrames[..]))
  {
    ghost var done: seq<Frame>, room: nat := [], MAX_FRAMES;
    ghost var j := Task(read, pdu[..], end, Pending(read, pdu[..], start, end, MAX_FRAMES, []), canFrames[..]);
    var i: uint8, procBytes: uint16 := 0, start;
    while procBytes < end
      invariant i == |done| && i + room == MAX_FRAMES && pdu[..] == j.s
      invariant Stored(canFrames[..], j.before, done) && Remains(j, procBytes, room, done)
      decreases end - procBytes
    {
      var ok, next;
      ghost var left, more;
      ok, next, left, more := TakeNext(e, pdu, procBytes, end, i, canFrames, j, room, done);
      if !ok { return -1; }
      done, room := more, left;
      i, procBytes := i + 1, next;
    }
    return i;
  }

  /** The frames done are at the front of the array, and the other slots are as before. */
  ghost predicate Stored(now: seq<Frame>, before: seq<Frame>, done: seq<Frame>) {
    |done| <= |now| && now[..|done|] == done && OthersKept(now, before, |done|)
  }

  /** One round of the loop. */
  method TakeNext(e: Endpoint, pdu: array<uint8>, procBytes: uint16, end: uint16, i: uint8, canFrames: array<Frame>,
                  ghost j: Task, ghost room: nat, ghost done: seq<Frame>)
    returns (ok: bool, next: uint16, ghost left: nat, ghost more: seq<Frame>)
    requires procBytes < end == j.end && i == |done| && i + room == MAX_FRAMES <= canFrames.Length
    requires Stored(canFrames[..], j.before, done) && ReadsFrom(j.read, e) && pdu[..] == j.s
    requires Remains(j, procBytes, room, done)
    modifies canFrames
    ensures !ok ==> j.all == Malformed
    ensures ok ==> |more| == |done| + 1 && |more| + left == MAX_FRAMES
    ensures ok ==> procBytes < next <= end && Stored(canFrames[..], j.before, more)
    ensures ok ==> Remains(j, next, left, more)
  {
    var r;
    r, next := ReadNext(e, pdu, procBytes, end, i, j, room, done);
    if r.Unusable? { return false, next, 0, []; }
    StoreFrame(canFrames, i, r.item, j.before, done);
    return true, next, room - 1, done + [r.item];
  }

  /** One round of the loop: reads the message at procBytes, if there is room for its frame. */
  method ReadNext(e: Endpoint, pdu: array<uint8>, procBytes: uint16, end: uint16, i: uint8, ghost j: Task,
                  ghost room: nat, ghost done: seq<Frame>)
    returns (r: Reading<Frame>, next: uint16)
    requires procBytes < end == j.end && i + room == MAX_FRAMES && ReadsFrom(j.read, e) && pdu[..] == j.s
    requires Remains(j, procBytes, room, done)
    ensures r.Unusable? ==> j.all == Malformed
    ensures r.Readable? ==> room > 0 && procBytes < next <= end && Remains(j, next, room - 1, done + [r.item])
  {
    r := NextFrame(e, pdu, procBytes, end, j.read);
    SpanLength(j.s, procBytes, end);
    if r.Unusable? || i >= MAX_FRAMES { return Unusable, end; }
    next := procBytes + r.length;
  }

  /** One message: its validity, its length, its frame. */
  method NextFrame(e: Endpoint, pdu: array<uint8>, base: nat, end: nat, ghost read: Reader<Frame>)
    returns (r: Reading<Frame>)
    requires base <= end <= pdu.Length && ReadsFrom(read, e)
    ensures r == read(Span(pdu[..], base, end))
  {
    r := FrameAt(e.host, e.t, pdu, base, end, e.fd);
    NextInPlace(read, e.t, pdu[..], base, end, e.fd);
  }

  method FrameAt(host: Host, t: MessageTable, pdu: array<uint8>, base: nat, end: nat, fd: bool)
    returns (r: Reading<Frame>)
    requires base <= end <= pdu.Length
    ensures r == ReadAt(t, pdu[..], base, end, fd)
  {
    var valid := IsValid(host, t, pdu, base, end - base);
    if !valid { return Unusable; }
    var acfMsgLength := AcfMsgLengthInBytes(host, t, pdu, base);
    var ok, frame := ReadFrame(host, t, pdu, base, fd);
    return if ok then Readable(frame, acfMsgLength) else Unusable;
  }

  /** From index i on, the frames are as before. */
  ghost predicate OthersKept(now: seq<Frame>, before: seq<Frame>, i: nat) {
    |now| == |before| && forall k | i <= k < |now| :: now[k] == before[k]
  }

  method StoreFrame(canFrames: array<Frame>, i: nat, frame: Frame, ghost before: seq<Frame>, ghost done: seq<Frame>)
    requires i < canFrames.Length && i == |done| && Stored(canFrames[..], before, done)
    modifies canFrames
    ensures Stored(canFrames[..], before, done + [frame])
  {
    canFrames[i] := frame;
    assert canFrames[..i + 1] == canFrames[..i] + [frame];
  }

  /** The result of avtp_to_can: -1, or the number of frames, which then fill the front of the array. */
  ghost predicate Delivered(result: int, frames: Items<Frame>, now: seq<Frame>, before: seq<Frame>)
    requires |now| >= MAX_FRAMES
  {
    match frames
    case Malformed => result == -1
    case Items(x) => result == |x| <= MAX_FRAMES && now[..|x|] == x && OthersKept(now, before, |x|)
  }

  /** The number of the control format PDU that was located. */
  function NumberAt(r: Located, s: Bytes, at: nat): nat
    requires r.Pdu? && at + r.format.length <= |s|
  {
    CfHeader(r.format, s, at)[r.format.number]
  }

  /** What there is to deliver from a PDU found at r. */
  function Outcome(read: Reader<Frame>, pdu: Bytes, r: Located): Items<Frame>
    requires Framed(read) && (r.Pdu? ==> r.start <= |pdu| && r.end <= |pdu|)
  {
    if r.NoPdu? then Malformed else ReadAll(read, Span(pdu, r.start, r.end), MAX_FRAMES)
  }

  /** The sequence number expected after a PDU found at r. */
  function NextNumber(s: Bytes, at: nat, r: Located, expected: uint32): nat
    requires r.Pdu? ==> at + r.format.length <= |s|
  {
    if r.NoPdu? then expected else Resync(r.format, expected, NumberAt(r, s, at))
  }

  /** avtp_to_can from the control format PDU on; r is where it was found. */
  method UnpackFrom(e: Endpoint, fs: Formats, pdu: array<uint8>, pduLength: nat, at: nat, canFrames: array<Frame>,
                    streamId: uint64, expectedCf: uint32, ghost read: Reader<Frame>)
    returns (result: int, nextCf: nat, ghost r: Located)
    requires canFrames.Length >= MAX_FRAMES
    requires at <= UDP_HEADER_LEN && at <= pduLength <= pdu.Length && at + 4 <= pdu.Length
    requires ReadsFrom(read, e) && Framed(read)
    modifies canFrames
    ensures r == Locate(fs, old(pdu[..])[..pduLength], at, streamId)
    ensures nextCf == NextNumber(old(pdu[..])[..pduLength], at, r, expectedCf)
    ensures Delivered(result, Outcome(read, old(pdu[..]), r), canFrames[..], old(canFrames[..]))
  {
    var located, seqNum := OpenPdu(e.host, fs, pdu, pduLength, at, streamId);
    r := located;
    if located.NoPdu? { return -1, expectedCf, r; }
    HeaderReceived(located.format, pdu[..], pduLength, at);
    nextCf := CheckNumber(located.format, expectedCf, seqNum);
    AllPending(read, pdu[..], located.start, located.end, MAX_FRAMES);
    result := ReadMessages(e, pdu, located.start, located.end, canFrames, read);
  }

  /** avtp_to_can, on the first pduLength octets of the buffer; -1 stands for failure. The expected
      sequence numbers are passed in and out; r is where the control format PDU was found. */
  method AvtpToCan(e: Endpoint, fs: Formats, pdu: array<uint8>, pduLength: nat, canFrames: array<Frame>, l: Link,
                   expected: Numbers, ghost read: Reader<Frame>)
    returns (result: int, nextCf: nat, nextUdp: nat, ghost r: Located)
    requires canFrames.Length >= MAX_FRAMES
    requires pduLength <= pdu.Length && pdu.Length >= 8
    requires ReadsFrom(read, e) && Framed(read)
    modifies canFrames
    ensures r == if pduLength < l.Start() then NoPdu
                 else Locate(fs, old(pdu[..])[..pduLength], l.Start(), l.streamId)
    ensures nextUdp == if l.useUdp && pduLength >= UDP_HEADER_LEN then FieldValue(old(pdu[..]), 0, 32)
                       else expected.udp
    ensures nextCf == NextNumber(old(pdu[..])[..pduLength], l.Start(), r, expected.cf)
    ensures Delivered(result, Outcome(read, old(pdu[..]), r), canFrames[..], old(canFrames[..]))
  {
    nextUdp := expected.udp;
    if l.useUdp {
      if pduLength < UDP_HEADER_LEN { return -1, expected.cf, nextUdp, NoPdu; }
      UdpIsFirstQuadlet();
      var udpSeqNum := GetUdpSeqNo(e.host, UDP, pdu);
      if udpSeqNum != expected.udp { nextUdp := udpSeqNum; }
    }
    result, nextCf, r := UnpackFrom(e, fs, pdu, pduLength, l.Start(), canFrames, l.streamId, expected.cf, read);
  }

  // ---------- The end of the data, counted in 16 bits ----------

  /** The PDU's header declares n octets of data, all of them received; r is what the receiver takes it for. */
  ghost predicate Declares(r: Located, s: Bytes, at: nat, n: nat) {
    && r.Pdu? && r.start == at + r.format.length && r.start + n <= |s|
    && n == CfHeader(r.format, s, at)[r.format.dataLength] < 0x1_0000
    && r.end == Cut16(r.start + n)
  }

  lemma LengthFits16(f: Format, s: Bytes, at: nat)
    requires at + f.length <= |s|
    ensures CfHeader(f, s, at)[f.dataLength] < 0x1_0000
  {
    Place(f.Table(), f.length, at, |s|);
    FieldBound(s, f.Table()[f.dataLength].Start(at), f.Table()[f.dataLength].bits);
    Pow2Values();
  }

  lemma LocatedFormat(fs: Formats, s: Bytes, at: nat, streamId: uint64, r: Located)
    requires r == Locate(fs, s, at, streamId) && r.Pdu?
    ensures at + r.format.length <= |s| && r == LocateAs(r.format, s, at, streamId)
  {
  }

  lemma EndCountedAs(f: Format, s: Bytes, at: nat, streamId: uint64, r: Located)
    requires at + f.length <= |s| && r == LocateAs(f, s, at, streamId) && r.Pdu?
    ensures Declares(r, s, at, CfHeader(f, s, at)[f.dataLength])
  {
    LengthFits16(f, s, at);
    BoundsMean(f, CfHeader(f, s, at)[f.dataLength], CfHeader(f, s, at)[f.streamId], |s|, at, streamId, r);
  }

  lemma BoundsMean(f: Format, dataLength: nat, id: nat, n: nat, at: nat, streamId: uint64, r: Located)
    requires at + f.length <= n && r == Bounds(f, dataLength, id, n, at, streamId) && r.Pdu?
    ensures r.format == f && r.start == at + f.length && r.start + dataLength <= n
    ensures r.end == Cut16(r.start + dataLength)
  {
  }

  /** A PDU that is located declares so much data, and its end is counted in 16 bits. */
  lemma EndCounted(fs: Formats, s: Bytes, at: nat, streamId: uint64, r: Located) returns (n: nat)
    requires r == Locate(fs, s, at, streamId) && r.Pdu?
    ensures Declares(r, s, at, n)
  {
    LocatedFormat(fs, s, at, streamId, r);
    n := CfHeader(r.format, s, at)[r.format.dataLength];
    EndCountedAs(r.format, s, at, streamId, r);
  }

  /** The receiver goes through all of the data declared, or through none of it. */
  lemma SpanExactly(s: Bytes, start: nat, n: nat, end: nat)
    requires start + n <= |s| && start < 0x1_0000 && n < 0x1_0000 && end == Cut16(start + n)
    ensures end <= |s| && Span(s, start, end) == if start + n < 0x1_0000 then s[start..start + n] else []
  {
    if start + n < 0x1_0000 {
      SmallMod(start + n, 0x1_0000);
    } else {
      QuotientUnique(start + n, 0x1_0000, 1, start + n - 0x1_0000);
    }
  }

  lemma MessagesAreShort(read: Reader<Frame>, t: MessageTable, fd: bool)
    requires Reads(read, t, fd)
    ensures Short(read, 80)
  {
    forall m | read(m).Readable? ensures read(m).length <= 80 {
      assert read(m) == ReadMessage(t, m, fd);
      EightyOctets(t, m, fd);
    }
  }

  lemma SpanOutcome(read: Reader<Frame>, s: Bytes, start: nat, n: nat, end: nat)
    requires Framed(read) && Short(read, 80) && start <= 44 && start + n <= |s| && n < 0x1_0000
    requires end == Cut16(start + n)
    ensures end <= |s|
    ensures ReadAll(read, Span(s, start, end), MAX_FRAMES) == ReadAll(read, s[start..start + n], MAX_FRAMES)
       <==> start + n < 0x1_0000
    ensures start + n >= 0x1_0000 ==> ReadAll(read, Span(s, start, end), MAX_FRAMES) == Items([])
  {
    SpanExactly(s, start, n, end);
    if start + n >= 0x1_0000 { TooManyOctets(read, s[start..start + n], MAX_FRAMES, 80); }
  }

  /** What avtp_to_can makes of a PDU that it has located is what the data declared says, if and only if header and
      data end below 0x1_0000; a caller that passes at most 0xFFFF octets is safe. Past that the receiver finds no
      frames, and takes the PDU for an empty one. */
  lemma OutcomeExactly(t: MessageTable, s: Bytes, at: nat, r: Located, n: nat, fd: bool, read: Reader<Frame>)
    requires at <= UDP_HEADER_LEN && Declares(r, s, at, n)
    requires Reads(read, t, fd) && Framed(read)
    ensures r.end <= |s|
    ensures ReadAll(read, Span(s, r.start, r.end), MAX_FRAMES) == ReadAll(read, s[r.start..r.start + n], MAX_FRAMES)
       <==> r.start + n < 0x1_0000
    ensures r.start + n >= 0x1_0000 ==> ReadAll(read, Span(s, r.start, r.end), MAX_FRAMES) == Items([])
  {
    MessagesAreShort(read, t, fd);
    SpanOutcome(read, s, r.start, n, r.end);
  }

  /** So a located PDU is accepted exactly when the data declared is a concatenation of at most 15 messages, or
      reaches past 65535 octets. */
  lemma AcceptedPdu(t: MessageTable, s: Bytes, at: nat, r: Located, n: nat, fd: bool, read: Reader<Frame>)
    requires at <= UDP_HEADER_LEN && Declares(r, s, at, n) && read == CanReader(t, fd)
    ensures Framed(read) && r.end <= |s|
    ensures ReadAll(read, Span(s, r.start, r.end), MAX_FRAMES) != Malformed <==>
      || r.start + n >= 0x1_0000
      || exists ms :: s[r.start..r.start + n] == Concat(ms) && AllMessages(read, ms) && |ms| <= MAX_FRAMES
  {
    CanReaderLaws(t, fd);
    CanReaderReads(t, fd);
    OutcomeExactly(t, s, at, r, n, fd, read);
    DataAccepted(t, s[r.start..r.start + n], fd, read);
  }

  lemma DataAccepted(t: MessageTable, data: Bytes, fd: bool, read: Reader<Frame>)
    requires Framed(read) && read == CanReader(t, fd)
    ensures ReadAll(read, data, MAX_FRAMES) != Malformed
       <==> exists ms :: data == Concat(ms) && AllMessages(read, ms) && |ms| <= MAX_FRAMES
  {
    AcceptedExactly(t, data, fd);
  }

  lemma TwoFieldsFit(t: Table, i: nat, v: nat, j: nat, w: nat)
    requires i < |t| && j < |t| && v < Pow2(t[i].bits) && w < Pow2(t[j].bits)
    ensures var r := ZeroRecord(|t|)[i := v][j := w]; forall g | 0 <= g < |t| :: r[g] < Pow2(t[g].bits)
  {
  }

  /** A header of that format and stream that declares n octets of data. */
  lemma HeaderOfLength(f: Format, streamId: uint64, size: nat, n: nat) returns (s: Bytes)
    requires f.length <= size && n < Pow2(f.Table()[f.dataLength].bits)
    ensures |s| == size && Subtype(s, 0) == f.subtype && Version(s, 0) == f.version
    ensures CfHeader(f, s, 0)[f.streamId] == streamId && CfHeader(f, s, 0)[f.dataLength] == n
  {
    var t := f.Table();
    Pow2Values();
    TwoFieldsFit(t, f.streamId, streamId, f.dataLength, n);
    s := HeaderCodec.HeaderWith(t, f.length, size, HeaderCodec.Contents(f.subtype, f.version,
                                ZeroRecord(|t|)[f.streamId := streamId][f.dataLength := n]));
  }

  /** A PDU of any size with any data length that its header can hold. */
  lemma PduOfLength(f: Format, streamId: uint64, size: nat, n: nat, end: uint16) returns (s: Bytes)
    requires n < Pow2(f.Table()[f.dataLength].bits)
    requires f.length + n <= size && end == Cut16(f.length + n)
    ensures |s| == size && Subtype(s, 0) == f.subtype && Version(s, 0) == f.version
    ensures LocateAs(f, s, 0, streamId) == Pdu(f, f.length, end)
  {
    s := HeaderOfLength(f, streamId, size, n);
    HeaderLocates(f, s, 0, streamId, CfHeader(f, s, 0), n, end);
  }

  lemma PduPastEnd(f: Format, streamId: uint64, n: nat, end: uint16) returns (s: Bytes)
    requires n < Pow2(f.Table()[f.dataLength].bits) && f.length + n == 0x1_0000 + end
    ensures |s| == f.length + n && Subtype(s, 0) == f.subtype && Version(s, 0) == f.version
    ensures LocateAs(f, s, 0, streamId) == Pdu(f, f.length, end)
  {
    QuotientUnique(f.length + n, 0x1_0000, 1, end);
    s := PduOfLength(f, streamId, f.length + n, n, end);
  }

  lemma PduLocatedPastEnd(fs: Formats, f: Format, streamId: uint64, n: nat, end: uint16) returns (s: Bytes)
    requires Known(fs, f)
    requires n < Pow2(f.Table()[f.dataLength].bits) && f.length + n == 0x1_0000 + end
    ensures |s| == f.length + n && Locate(fs, s, 0, streamId) == Pdu(f, f.length, end)
  {
    s := PduPastEnd(f, streamId, n, end);
    ShownIsLocated(fs, f, s, 0, streamId);
  }

  /** Such PDUs exist, for every format and every data length past 65535 octets that its header can hold: the
      receiver counts the end to lie before the start, and accepts as no frames what is no messages. */
  lemma LongPdu(fs: Formats, f: Format, streamId: uint64, n: nat, end: uint16, read: Reader<Frame>) returns (s: Bytes)
    requires Known(fs, f)
    requires n < Pow2(f.Table()[f.dataLength].bits) && f.length + n == 0x1_0000 + end
    requires Framed(read) && Short(read, 80)
    ensures |s| == f.length + n && Locate(fs, s, 0, streamId) == Pdu(f, f.length, end) && end < f.length
    ensures ReadAll(read, Span(s, f.length, end), MAX_FRAMES) == Items([])
    ensures ReadAll(read, s[f.length..], MAX_FRAMES) == Malformed
  {
    s := PduLocatedPastEnd(fs, f, streamId, n, end);
    FieldTooSmall(f, n, end);
    PastEndMisread(s, f.length, n, end, read);
  }

  lemma PastEndMisread(s: Bytes, start: nat, n: nat, end: nat, read: Reader<Frame>)
    requires Framed(read) && Short(read, 80) && |s| == start + n && end < start && n > MAX_FRAMES * 80
    ensures ReadAll(read, Span(s, start, end), MAX_FRAMES) == Items([])
    ensures ReadAll(read, s[start..], MAX_FRAMES) == Malformed
  {
    TooManyOctets(read, s[start..], MAX_FRAMES, 80);
  }

  lemma FieldTooSmall(f: Format, n: nat, end: uint16)
    requires n < Pow2(f.Table()[f.dataLength].bits) && f.length + n == 0x1_0000 + end
    ensures end < f.length && n > MAX_FRAMES * 80
  {
    Pow2Values();
  }

  /** TSCF is such a format, in either version: 65559 octets of version 0, say, that declare 65535 octets of data
      behind a header of 24, are counted to end at 23. */
  lemma TscfIsLong(f: Format, n: nat)
    requires (f == TSCF_FORMAT_V0 || f == TSCF_FORMAT_V1) && n < 0x1_0000
    ensures Known(ControlFormats(), f) && n < Pow2(f.Table()[f.dataLength].bits)
    ensures f == TSCF_FORMAT_V0 ==> f.length + 65535 == 65559 == 0x1_0000 + 23
  {
    AllFormatsKnown(f);
    Pow2Values();
  }

  // ---------- Round trips ----------

  /** The bridge knows the format. */
  predicate Known(fs: Formats, f: Format) {
    Lookup(fs, f.subtype, f.version) == Some(f)
  }

  lemma AllFormatsKnown(f: Format)
    requires f == NTSCF_FORMAT_V0 || f == NTSCF_FORMAT_V1 || f == TSCF_FORMAT_V0 || f == TSCF_FORMAT_V1
    ensures Known(ControlFormats(), f)
  {
  }

  lemma InitialFields(f: Format, streamId: uint64, seqNum: uint32, n: nat)
    ensures var h := InitialHeader(f, streamId, seqNum)[f.dataLength := n];
      h[f.dataLength] == n && h[f.streamId] == streamId && h[f.number] == StoredNumber(f, seqNum)
  {
  }

  lemma PackedFields(f: Format, h: Record, streamId: uint64, cfSeq: uint32, n: nat)
    requires n < 2048 && h == InitialHeader(f, streamId, cfSeq)[f.dataLength := StoredLength(f, n)]
    ensures h[f.dataLength] == n && h[f.streamId] == streamId && h[f.number] == StoredNumber(f, cfSeq)
  {
    LengthStored(f, n);
    InitialFields(f, streamId, cfSeq, n);
  }

  /** A header that declares n octets of data, all of them received, is located. */
  lemma HeaderLocates(f: Format, s: Bytes, at: nat, streamId: uint64, h: Record, n: nat, end: uint16)
    requires at + f.length + n <= |s| && h == CfHeader(f, s, at) && end == Cut16(at + f.length + n)
    requires h[f.dataLength] == n && h[f.streamId] == streamId
    ensures LocateAs(f, s, at, streamId) == Pdu(f, at + f.length, end)
  {
    InBounds(f, n, |s|, at, streamId);
  }

  lemma FormatShown(fs: Formats, f: Format, s: Bytes, at: nat)
    requires Known(fs, f) && at + 4 <= |s| && Subtype(s, at) == f.subtype && Version(s, at) == f.version
    ensures FormatAt(fs, s, at) == Some(f)
  {
  }

  lemma ShownIsLocated(fs: Formats, f: Format, s: Bytes, at: nat, streamId: uint64)
    requires Known(fs, f) && at + 4 <= |s| && Subtype(s, at) == f.subtype && Version(s, at) == f.version
    ensures Locate(fs, s, at, streamId) == LocateAs(f, s, at, streamId)
  {
    FormatShown(fs, f, s, at);
    LocatedAs(fs, s, at, streamId, f);
  }

  /** What avtp_to_can makes of a PDU from can_to_avtp, whatever the format and with or without UDP. First, the
      control format PDU is found, with all of its data and its number. */
  lemma PackedIsLocated(f: Format, s: Bytes, at: nat, streamId: uint64, cfSeq: uint32)
    requires at + f.length <= |s| < 0x1_0000 && |s| - at - f.length < 2048
    requires CfHeader(f, s, at)
          == InitialHeader(f, streamId, cfSeq)[f.dataLength := StoredLength(f, |s| - at - f.length)]
    ensures LocateAs(f, s, at, streamId) == Pdu(f, at + f.length, |s|)
    ensures CfHeader(f, s, at)[f.number] == StoredNumber(f, cfSeq)
  {
    var h, n := CfHeader(f, s, at), |s| - at - f.length;
    PackedFields(f, h, streamId, cfSeq, n);
    SmallMod(|s|, 0x1_0000);
    HeaderLocates(f, s, at, streamId, h, n, |s|);
  }

  /** Exactly when the same frames come back: all lengths are legal and every frame is canonical. */
  lemma RoundTripExactly(frames: seq<Frame>, fd: bool, rfd: bool)
    requires AllInMemory(frames)
    ensures Returned(frames, fd, rfd) == Items(frames) <==> AllUnchanged(frames, fd, rfd)
  {
    CanonicalsFixed(frames, fd && rfd);
  }

  /** Every frame is of legal length for the sender, and in canonical form for the mode of both. */
  predicate AllUnchanged(frames: seq<Frame>, fd: bool, rfd: bool)
    requires AllInMemory(frames)
  {
    forall i | 0 <= i < |frames| :: frames[i].len <= MaxLength(fd) && Canonical(frames[i], fd && rfd) == frames[i]
  }

  lemma {:induction false} CanonicalsFixed(frames: seq<Frame>, fd: bool)
    requires AllInMemory(frames)
    ensures Canonicals(frames, fd) == frames <==> forall i | 0 <= i < |frames| :: Canonical(frames[i], fd) == frames[i]
    decreases |frames|
  {
    if frames != [] {
      CanonicalsFixed(frames[1..], fd);
      assert frames == [frames[0]] + frames[1..];
      if forall i | 0 <= i < |frames| :: Canonical(frames[i], fd) == frames[i] {
        forall i | 0 <= i < |frames| - 1 ensures Canonical(frames[1..][i], fd) == frames[1..][i] {
          assert frames[1..][i] == frames[i + 1];
        }
      }
    }
  }

  /** There is a PDU of the format f to be found, with its data up to the end and that number. */
  ghost predicate Findable(f: Format, s: Bytes, at: nat, streamId: uint64, number: nat) {
    && at + f.length <= |s| < 0x1_0000 && Subtype(s, at) == f.subtype && Version(s, at) == f.version
    && LocateAs(f, s, at, streamId) == Pdu(f, at + f.length, |s|) && CfHeader(f, s, at)[f.number] == number
  }

  lemma PackedIsFindable(f: Format, e: Endpoint, s: Bytes, l: Link, seqs: Numbers, ms: seq<Bytes>, frames: seq<Frame>,
                         times: seq<uint64>)
    requires AllInMemory(frames) && |s| <= 1244 && Packed(f, e, s, l, seqs, ms, frames, times)
    ensures Findable(f, s, l.Start(), l.streamId, StoredNumber(f, seqs.cf))
  {
    PackedIsLocated(f, s, l.Start(), l.streamId, seqs.cf);
  }

  lemma FrontReceived(pdu: Bytes, n: nat)
    requires 4 <= n <= |pdu|
    ensures FieldValue(pdu[..n], 0, 32) == FieldValue(pdu, 0, 32)
  {
    FrontOctets(pdu, pdu, n);
  }

  /** can_to_avtp; and what there is to find in its PDU. */
  method Send(e: Endpoint, f: Format, frames: seq<Frame>, pdu: array<uint8>, l: Link, seqs: Numbers,
              clock: nat -> uint64)
    returns (n: nat, ghost ms: seq<Bytes>, ghost times: seq<uint64>)
    requires AllInMemory(frames) && |frames| < 0x100 && pdu.Length >= PduOctets(f, l, frames)
    modifies pdu
    ensures l.Start() + f.length <= n == PduOctets(f, l, frames) && AllCarry(e.t, ms, frames, e.fd, times)
    ensures DataFrom(pdu[..][..n], l.Start() + f.length) == Concat(ms)
    ensures |frames| <= MAX_FRAMES ==>
      Findable(f, pdu[..][..n], l.Start(), l.streamId, StoredNumber(f, seqs.cf))
    ensures l.useUdp ==> FieldValue(pdu[..], 0, 32) == seqs.udp
  {
    n, ms, times := CanToAvtp(e, f, frames, pdu, l, seqs, clock);
    if l.useUdp { FrontReceived(pdu[..], n); }
    if |frames| <= MAX_FRAMES {
      FewFit(f, l, frames);
      PackedIsFindable(f, e, pdu[..][..n], l, seqs, ms, frames, times);
    }
  }

  /** A receiver that knows the format finds the PDU. */
  lemma FoundByReceiver(fs: Formats, f: Format, s: Bytes, at: nat, streamId: uint64, number: nat)
    requires Known(fs, f) && Findable(f, s, at, streamId, number)
    ensures var r := Locate(fs, s, at, streamId); r == Pdu(f, at + f.length, |s|) && NumberAt(r, s, at) == number
  {
    ShownIsLocated(fs, f, s, at, streamId);
  }

  lemma NumberFollows(f: Format, s: Bytes, at: nat, r: Located, number: nat, expected: uint32)
    requires r.Pdu? && r.format == f && at + f.length <= |s| && NumberAt(r, s, at) == number
    ensures NextNumber(s, at, r, expected) == Resync(f, expected, number)
  {
  }

  lemma SpanIsData(pdu: Bytes, n: nat, start: nat)
    requires start <= n <= |pdu|
    ensures Span(pdu, start, n) == DataFrom(pdu[..n], start)
  {
  }

  /** What the receiver is handed: the buffer, and the octets received in it. Of few frames (`few`) the PDU is to be
      found with that number, and with that data. */
  datatype Arrival = Arrival(p: Bytes, s: Bytes, few: bool, number: nat, data: Bytes)

  /** avtp_to_can on the first n octets of a buffer; `found` tells where it will find a PDU there. */
  method Receive(e: Endpoint, fs: Formats, pdu: array<uint8>, n: nat, canFrames: array<Frame>, l: Link,
                 expected: Numbers, ghost read: Reader<Frame>, ghost a: Arrival, ghost found: Located,
                 ghost want: Items<Frame>)
    returns (result: int, nextCf: nat, nextUdp: nat)
    requires canFrames.Length >= MAX_FRAMES && ReadsFrom(read, e) && Framed(read)
    requires l.Start() <= n <= pdu.Length && pdu.Length >= 8 && a.p == pdu[..] && a.s == a.p[..n]
    requires found == Locate(fs, a.s, l.Start(), l.streamId) && want == Outcome(read, a.p, found)
    modifies canFrames
    ensures -1 <= result <= MAX_FRAMES && Delivered(result, want, canFrames[..], old(canFrames[..]))
    ensures nextCf == NextNumber(a.s, l.Start(), found, expected.cf)
    ensures nextUdp == if l.useUdp then FieldValue(a.p, 0, 32) else expected.udp
  {
    ghost var r;
    result, nextCf, nextUdp, r := AvtpToCan(e, fs, pdu, n, canFrames, l, expected, read);
  }

  /** What a receiver that knows the format will deliver, and the number it will expect next. */
  lemma NumberWillArrive(fs: Formats, f: Format, s: Bytes, n: nat, start: nat, streamId: uint64, number: nat,
                         expected: uint32, found: Located)
    requires Known(fs, f) && Findable(f, s, start, streamId, number) && n == |s|
    requires found == Locate(fs, s, start, streamId)
    ensures found == Pdu(f, start + f.length, n)
    ensures NextNumber(s, start, found, expected) == Resync(f, expected, number)
  {
    FoundByReceiver(fs, f, s, start, streamId, number);
    NumberFollows(f, s, start, found, number, expected);
  }

  lemma FewWillArrive(fs: Formats, f: Format, s: Bytes, n: nat, start: nat, streamId: uint64, number: nat,
                      expected: uint32, few: bool, found: Located)
    requires Known(fs, f) && start + f.length <= n == |s| && found == Locate(fs, s, start, streamId)
    requires few ==> Findable(f, s, start, streamId, number)
    ensures few ==> n < 0x1_0000 && found == Pdu(f, start + f.length, n)
    ensures few ==> NextNumber(s, start, found, expected) == Resync(f, expected, number)
  {
    if few { NumberWillArrive(fs, f, s, n, start, streamId, number, expected, found); }
  }

  lemma WholeDelivered(read: Reader<Frame>, pdu: Bytes, n: nat, f: Format, start: nat, found: Located, data: Bytes,
                       want: Items<Frame>)
    requires start <= n <= |pdu| && n < 0x1_0000 && Framed(read) && found == Pdu(f, start, n)
    requires data == Span(pdu, start, n) && want == Outcome(read, pdu, found)
    ensures want == ReadAll(read, data, MAX_FRAMES)
  {
  }

  /** What such a receiver will find, and deliver from it. */
  lemma WillDeliver(fs: Formats, f: Format, pdu: Bytes, s: Bytes, n: nat, start: nat, streamId: uint64, number: nat,
                    expected: uint32, read: Reader<Frame>, few: bool, data: Bytes)
    returns (found: Located, want: Items<Frame>)
    requires Known(fs, f) && Framed(read) && start + f.length <= n == |s| <= |pdu|
    requires few ==> Findable(f, s, start, streamId, number)
    requires data == Span(pdu, start + f.length, n)
    ensures found == Locate(fs, s, start, streamId) && want == Outcome(read, pdu, found)
    ensures few ==> want == ReadAll(read, data, MAX_FRAMES)
    ensures few ==> NextNumber(s, start, found, expected) == Resync(f, expected, number)
  {
    found := Locate(fs, s, start, streamId);
    want := Outcome(read, pdu, found);
    FewWillArrive(fs, f, s, n, start, streamId, number, expected, few, found);
    if few { WholeDelivered(read, pdu, n, f, start + f.length, found, data, want); }
  }

  /** avtp_to_can on a PDU of a format that the receiver knows, if there is one to be found. */
  method ReceiveFrom(e: Endpoint, fs: Formats, f: Format, pdu: array<uint8>, n: nat, canFrames: array<Frame>, l: Link,
                     expected: Numbers, ghost read: Reader<Frame>, ghost a: Arrival)
    returns (result: int, nextCf: nat, nextUdp: nat, ghost want: Items<Frame>)
    requires Known(fs, f) && canFrames.Length >= MAX_FRAMES && ReadsFrom(read, e) && Framed(read)
    requires l.Start() + f.length <= n <= pdu.Length && a.p == pdu[..] && a.s == a.p[..n]
    requires a.few ==> Findable(f, a.s, l.Start(), l.streamId, a.number)
    requires a.data == Span(a.p, l.Start() + f.length, n)
    modifies canFrames
    ensures -1 <= result <= MAX_FRAMES && Delivered(result, want, canFrames[..], old(canFrames[..]))
    ensures a.few ==> want == ReadAll(read, a.data, MAX_FRAMES)
    ensures a.few ==> nextCf == Resync(f, expected.cf, a.number)
    ensures nextUdp == if l.useUdp then FieldValue(a.p, 0, 32) else expected.udp
  {
    ghost var found;
    found, want := WillDeliver(fs, f, a.p, a.s, n, l.Start(), l.streamId, a.number, expected.cf, read, a.few, a.data);
    result, nextCf, nextUdp := Receive(e, fs, pdu, n, canFrames, l, expected, read, a, found, want);
  }

  /** The round trip: can_to_avtp, and then avtp_to_can on the octets it has produced. The sender may pack any number
      of frames that a uint8 holds; up to 15 of them come back. */
  method SendAndReceive(sender: Endpoint, receiver: Endpoint, fs: Formats, f: Format, frames: seq<Frame>,
                        pdu: array<uint8>, canFrames: array<Frame>, l: Link, seqs: Numbers, expected: Numbers,
                        clock: nat -> uint64, ghost read: Reader<Frame>)
    returns (n: nat, result: int, nextCf: nat, nextUdp: nat)
    requires Known(fs, f) && receiver.t == sender.t && AllInMemory(frames) && |frames| < 0x100
    requires pdu.Length >= PduOctets(f, l, frames) && canFrames.Length >= MAX_FRAMES
    requires ReadsFrom(read, receiver) && Framed(read)
    modifies pdu, canFrames
    ensures n == PduOctets(f, l, frames) && -1 <= result <= MAX_FRAMES
    ensures |frames| <= MAX_FRAMES ==>
      Delivered(result, Returned(frames, sender.fd, receiver.fd), canFrames[..], old(canFrames[..]))
    ensures |frames| <= MAX_FRAMES ==> nextCf == Resync(f, expected.cf, StoredNumber(f, seqs.cf))
    ensures nextUdp == if l.useUdp then seqs.udp else expected.udp
  {
    ghost var ms, times, want;
    n, ms, times := Send(sender, f, frames, pdu, l, seqs, clock);
    if |frames| <= MAX_FRAMES {
      FramesReadBack(read, sender.t, ms, frames, sender.fd, times, receiver.fd, MAX_FRAMES);
    }
    SpanIsData(pdu[..], n, l.Start() + f.length);
    ghost var a := Arrival(pdu[..], pdu[..][..n], |frames| <= MAX_FRAMES, StoredNumber(f, seqs.cf), Concat(ms));
    result, nextCf, nextUdp, want := ReceiveFrom(receiver, fs, f, pdu, n, canFrames, l, expected, read, a);
  }

  /** The same frames have come back. */
  ghost predicate CameBack(result: int, frames: seq<Frame>, now: seq<Frame>) {
    result == |frames| <= |now| && now[..|frames|] == frames
  }

  /** Which happens exactly when there are at most 15 and all of them are unchanged by the trip. */
  lemma CameBackExactly(result: int, frames: seq<Frame>, fd: bool, rfd: bool, now: seq<Frame>, before: seq<Frame>)
    requires AllInMemory(frames) && |now| >= MAX_FRAMES && result <= MAX_FRAMES
    requires |frames| <= MAX_FRAMES ==> Delivered(result, Returned(frames, fd, rfd), now, before)
    ensures CameBack(result, frames, now) <==> |frames| <= MAX_FRAMES && AllUnchanged(frames, fd, rfd)
  {
    RoundTripExactly(frames, fd, rfd);
    if AllLegal(frames, fd) { CanonicalsLength(frames, fd && rfd); }
  }

  lemma {:induction false} CanonicalsLength(frames: seq<Frame>, fd: bool)
    requires AllInMemory(frames)
    ensures |Canonicals(frames, fd)| == |frames|
    decreases |frames|
  {
    if frames != [] { CanonicalsLength(frames[1..], fd); }
  }

  /** The round trip in any of the four formats, with CAN messages of version 2, each end in FD mode or not: the
      frames come back in canonical form if all lengths are legal, and as they were if and only if there are at most
      15 of them, all unchanged. Up to 15 frames take no more than an Ethernet frame holds. */
  method BridgeRoundTrip(sender: Host, fd: bool, receiver: Host, rfd: bool, f: Format, frames: seq<Frame>,
                         pdu: array<uint8>, canFrames: array<Frame>, l: Link, seqs: Numbers, expected: Numbers,
                         clock: nat -> uint64)
    returns (n: nat, result: int, nextCf: nat, nextUdp: nat)
    requires f == NTSCF_FORMAT_V0 || f == NTSCF_FORMAT_V1 || f == TSCF_FORMAT_V0 || f == TSCF_FORMAT_V1
    requires AllInMemory(frames) && |frames| < 0x100
    requires pdu.Length >= PduOctets(f, l, frames) && canFrames.Length >= MAX_FRAMES
    modifies pdu, canFrames
    ensures n == PduOctets(f, l, frames) && (|frames| <= MAX_FRAMES ==> n <= MAX_ETH_PDU_SIZE)
    ensures |frames| <= MAX_FRAMES ==> Delivered(result, Returned(frames, fd, rfd), canFrames[..], old(canFrames[..]))
    ensures CameBack(result, frames, canFrames[..]) <==> |frames| <= MAX_FRAMES && AllUnchanged(frames, fd, rfd)
    ensures |frames| <= MAX_FRAMES ==> nextCf == Resync(f, expected.cf, StoredNumber(f, seqs.cf))
    ensures nextUdp == if l.useUdp then seqs.udp else expected.udp
  {
    AllFormatsKnown(f);
    var t: MessageTable := CanV2Table();
    CanReaderLaws(t, rfd);
    CanReaderReads(t, rfd);
    n, result, nextCf, nextUdp := SendAndReceive(Endpoint(sender, t, fd), Endpoint(receiver, t, rfd), ControlFormats(),
                                                 f, frames, pdu, canFrames, l, seqs, expected, clock,
                                                 CanReader(t, rfd));
    CameBackExactly(result, frames, fd, rfd, canFrames[..], old(canFrames[..]));
    if |frames| <= MAX_FRAMES { FewFit(f, l, frames); }
  }
}
