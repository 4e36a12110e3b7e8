/** One ACF_CAN_V2 message: a 16-octet header, the frame's data and up to three
    octets of padding. How it is written, and what is read back from it. */
module CanMessage {
  import opened Words
  import opened ByteOrder
  import opened FieldSpec
  import opened FieldEngine
  import opened HeaderTables
  import opened HeaderRecord
  import HeaderCodec
  import opened CanFrame
  import opened Framing

  const ACF_TYPE_CAN_V2 := 0x21
  const CAN_HEADER_LEN := 16

  /** What this module uses of the field tables. */
  predicate IsMessageTable(t: Table) {
    && |t| == 12 && Separate(t) && Within(t, CAN_HEADER_LEN)
    && t[ACF_MSG_TYPE].bits == 7 && t[ACF_MSG_LENGTH].bits == 9 && t[CAN_PAD].bits == 2
    && t[CAN_MTV].bits == t[CAN_RTR].bits == t[CAN_EFF].bits == 1
    && t[CAN_BRS].bits == t[CAN_FDF].bits == t[CAN_ESI].bits == 1
    && t[CAN_BUS_ID].bits == 11 && t[CAN_MESSAGE_TIMESTAMP].bits == 64 && t[CAN_IDENTIFIER].bits == 29
  }

  type MessageTable = t: Table | IsMessageTable(t) witness CanV2Table()

  function CanV2Table(): (t: Table)
    ensures t == CAN_V2 && IsMessageTable(t)
  {
    CanV2IsMessageTable();
    CAN_V2
  }

  lemma CanV2IsMessageTable()
    ensures IsMessageTable(CAN_V2)
  {
    CanV2Separate();
    CanV2Widths();
  }

  lemma CanV2Widths()
    ensures var t := CAN_V2;
      && |t| == 12
      && t[ACF_MSG_TYPE].bits == 7 && t[ACF_MSG_LENGTH].bits == 9 && t[CAN_PAD].bits == 2
      && t[CAN_MTV].bits == t[CAN_RTR].bits == t[CAN_EFF].bits == 1
      && t[CAN_BRS].bits == t[CAN_FDF].bits == t[CAN_ESI].bits == 1
      && t[CAN_BUS_ID].bits == 11 && t[CAN_MESSAGE_TIMESTAMP].bits == 64 && t[CAN_IDENTIFIER].bits == 29
  {
  }

  /** The fields of the message header at `base`. */
  function MessageHeader(t: MessageTable, s: seq<uint8>, base: nat): (r: Record)
    requires base + CAN_HEADER_LEN <= |s|
    ensures |r| == 12
  {
    Place(t, CAN_HEADER_LEN, base, |s|);
    Fields(t, s, base)
  }

  function Pad(len: nat): nat {
    (4 - len % 4) % 4
  }

  /** Octets of a message that carries `len` octets of data. */
  function MessageLength(len: nat): nat {
    CAN_HEADER_LEN + len + Pad(len)
  }

  function Digit(b: bool): nat {
    if b then 1 else 0
  }

  /** The header of the message for a frame. */
  function HeaderOf(f: Frame, fd: bool, time: uint64): (r: Record)
    ensures |r| == 12
  {
    [ACF_TYPE_CAN_V2, MessageLength(f.len) / 4, Pad(f.len), 1, Digit(HasRtr(f)), Digit(IsExtended(Identifier(f))), 0,
     time,
     Digit(fd && Bit(f.flags, 0)), Digit(fd), Digit(fd && Bit(f.flags, 1)), Identifier(f)]
  }

  /** The octets of a message for a frame. */
  ghost predicate Carries(t: MessageTable, m: seq<uint8>, f: Frame, fd: bool, time: uint64)
    requires InMemory(f)
  {
    && |m| == MessageLength(f.len)
    && MessageHeader(t, m, 0) == HeaderOf(f, fd, time)
    && m[CAN_HEADER_LEN..] == f.data[..f.len] + seq(Pad(f.len), i => 0)
  }

  // ---------- Writing into the middle of a buffer ----------

  /** Setting a header field of the message at `base` changes nothing outside the header. */
  lemma SetOnlyHeader(t: MessageTable, s: seq<uint8>, base: nat, f: nat, v: nat)
    requires base + CAN_HEADER_LEN <= |s| && f < |t|
    ensures Placed(t, base, |s|)
    ensures OnlyWithin(s, Set(t, s, base, f, v), base, base + CAN_HEADER_LEN)
  {
    Place(t, CAN_HEADER_LEN, base, |s|);
    var d := t[f];
    assert d.Fits(0, CAN_HEADER_LEN);
    PutOnlyWithin(s, base, CAN_HEADER_LEN, d.Start(base), d.bits, v);
  }

  lemma SetHeader(t: MessageTable, s: seq<uint8>, base: nat, f: nat, v: nat)
    requires base + CAN_HEADER_LEN <= |s| && f < |t| && FitsWidth(v, t[f].bits)
    ensures Placed(t, base, |s|)
    ensures MessageHeader(t, Set(t, s, base, f, v), base) == MessageHeader(t, s, base)[f := v]
  {
    Place(t, CAN_HEADER_LEN, base, |s|);
    FittingValue(v, t[f].bits);
    SetUpdates(t, s, base, f, v, v);
  }

  /** One of the SetXyz functions of the message header. */
  method SetMessageField(host: Host, t: MessageTable, pdu: array<uint8>, base: nat, f: uint8, v: uint64)
    requires base + CAN_HEADER_LEN <= pdu.Length && f < |t| && FitsWidth(v, t[f].bits)
    modifies pdu
    ensures MessageHeader(t, pdu[..], base) == old(MessageHeader(t, pdu[..], base))[f := v]
    ensures OnlyWithin(old(pdu[..]), pdu[..], base, base + CAN_HEADER_LEN)
  {
    SetOnlyHeader(t, pdu[..], base, f, v);
    SetHeader(t, pdu[..], base, f, v);
    SetField(host, t, pdu, base, f, v);
  }

  /** One of the GetXyz functions of the message header. */
  method GetMessageField(host: Host, t: MessageTable, pdu: array<uint8>, base: nat, f: uint8) returns (v: uint64)
    requires base + CAN_HEADER_LEN <= pdu.Length && f < |t|
    ensures v == MessageHeader(t, pdu[..], base)[f]
  {
    Place(t, CAN_HEADER_LEN, base, pdu.Length);
    v := GetField(host, t, pdu, base, f);
  }

  /** The header is a matter of its 16 octets. */
  lemma SameMessageHeader(t: MessageTable, s: seq<uint8>, u: seq<uint8>, base: nat)
    requires base + CAN_HEADER_LEN <= |s| && |u| == |s|
    requires forall i | base <= i < base + CAN_HEADER_LEN :: u[i] == s[i]
    ensures MessageHeader(t, u, base) == MessageHeader(t, s, base)
  {
    Place(t, CAN_HEADER_LEN, base, |s|);
    forall f | 0 <= f < |t| ensures Get(t, u, base, f) == Get(t, s, base, f) {
      assert t[f].Fits(0, CAN_HEADER_LEN);
      SameField(s, u, t[f].Start(base), t[f].bits);
    }
  }

  lemma {:induction false} ShiftedField(s: seq<uint8>, base: nat, end: nat, lo: nat, n: nat)
    requires base <= end <= |s| && lo + n <= 8 * (end - base)
    ensures FieldValue(s, 8 * base + lo, n) == FieldValue(s[base..end], lo, n)
  {
    if n > 0 {
      ShiftedField(s, base, end, lo, n - 1);
      ShiftedBit(s, base, end, lo + n - 1);
    }
  }

  lemma ShiftedBit(s: seq<uint8>, base: nat, end: nat, p: nat)
    requires base <= end <= |s| && p < 8 * (end - base)
    ensures BitAt(s, 8 * base + p) == BitAt(s[base..end], p)
  {
    assert (8 * base + p) / 8 == base + p / 8 && (8 * base + p) % 8 == p % 8;
  }

  lemma FieldMoved(d: Descriptor, s: seq<uint8>, base: nat, end: nat)
    requires d.Fits(0, CAN_HEADER_LEN) && base + CAN_HEADER_LEN <= end <= |s|
    ensures FieldValue(s, d.Start(base), d.bits) == FieldValue(s[base..end], d.Start(0), d.bits)
  {
    assert d.Start(base) == 8 * base + d.Start(0);
    ShiftedField(s, base, end, d.Start(0), d.bits);
  }

  /** A message is the same wherever it stands. */
  lemma MessageMoved(t: MessageTable, s: seq<uint8>, base: nat, end: nat)
    requires base + CAN_HEADER_LEN <= end <= |s|
    ensures MessageHeader(t, s, base) == MessageHeader(t, s[base..end], 0)
  {
    Place(t, CAN_HEADER_LEN, base, |s|);
    Place(t, CAN_HEADER_LEN, 0, end - base);
    forall f | 0 <= f < |t| ensures Get(t, s, base, f) == Get(t, s[base..end], 0, f) {
      FieldMoved(t[f], s, base, end);
    }
  }

  // ---------- Writing a message ----------

  const BLANK: Record := [0, 0, 0, 0, 0, 0, 0, 0, 0, 0, 0, 0]

  lemma BlankHeader(t: MessageTable, s: seq<uint8>, base: nat)
    requires base + CAN_HEADER_LEN <= |s|
    ensures MessageHeader(t, Zeroed(s, base, CAN_HEADER_LEN), base) == BLANK
    ensures OnlyWithin(s, Zeroed(s, base, CAN_HEADER_LEN), base, base + CAN_HEADER_LEN)
  {
    Place(t, CAN_HEADER_LEN, base, |s|);
    var z := Zeroed(s, base, CAN_HEADER_LEN);
    forall f | 0 <= f < |t| ensures Get(t, z, base, f) == 0 {
      assert t[f].Fits(0, CAN_HEADER_LEN);
      ZeroedField(s, base, CAN_HEADER_LEN, t[f].Start(base), t[f].bits);
    }
  }

  /** Avtp_CanV2_Init. */
  method InitMessage(host: Host, t: MessageTable, pdu: array<uint8>, base: nat)
    requires base + CAN_HEADER_LEN <= pdu.Length
    modifies pdu
    ensures MessageHeader(t, pdu[..], base) == BLANK[ACF_MSG_TYPE := ACF_TYPE_CAN_V2]
    ensures OnlyWithin(old(pdu[..]), pdu[..], base, base + CAN_HEADER_LEN)
  {
    BlankHeader(t, pdu[..], base);
    Memset0(pdu, base, CAN_HEADER_LEN);
    ghost var s := pdu[..];
    SetMessageField(host, t, pdu, base, ACF_MSG_TYPE, ACF_TYPE_CAN_V2);
    OnlyWithinBoth(old(pdu[..]), s, pdu[..], base, base + CAN_HEADER_LEN, base + CAN_HEADER_LEN);
  }

  /** The data of the message at `base`. */
  function Payload(s: seq<uint8>, base: nat, n: nat): seq<uint8>
    requires base + CAN_HEADER_LEN + n <= |s|
  {
    s[base + CAN_HEADER_LEN..base + CAN_HEADER_LEN + n]
  }

  lemma HeaderKeepsPayload(s: seq<uint8>, u: seq<uint8>, base: nat, n: nat)
    requires base + CAN_HEADER_LEN + n <= |s| && OnlyWithin(s, u, base, base + CAN_HEADER_LEN)
    ensures Payload(u, base, n) == Payload(s, base, n)
  {
  }

  /** Avtp_CanV2_SetPayload: memcpy. */
  method SetPayload(t: MessageTable, pdu: array<uint8>, base: nat, payload: seq<uint8>)
    requires base + CAN_HEADER_LEN + |payload| <= pdu.Length
    modifies pdu
    ensures MessageHeader(t, pdu[..], base) == old(MessageHeader(t, pdu[..], base))
    ensures Payload(pdu[..], base, |payload|) == payload
    ensures OnlyWithin(old(pdu[..]), pdu[..], base, base + CAN_HEADER_LEN + |payload|)
  {
    forall i | 0 <= i < |payload| { pdu[base + CAN_HEADER_LEN + i] := payload[i]; }
    SameMessageHeader(t, old(pdu[..]), pdu[..], base);
  }

  /** The memset of the padding in Avtp_CanV2_SetPayloadLength. */
  method ZeroPadding(t: MessageTable, pdu: array<uint8>, base: nat, n: nat)
    requires base + MessageLength(n) <= pdu.Length
    modifies pdu
    ensures MessageHeader(t, pdu[..], base) == old(MessageHeader(t, pdu[..], base))
    ensures Payload(pdu[..], base, n + Pad(n)) == old(Payload(pdu[..], base, n)) + seq(Pad(n), i => 0)
    ensures OnlyWithin(old(pdu[..]), pdu[..], base, base + MessageLength(n))
  {
    var from := base + CAN_HEADER_LEN + n;
    Memset0(pdu, from, Pad(n));
    SameMessageHeader(t, old(pdu[..]), pdu[..], base);
  }

  lemma LengthFits(n: nat)
    requires n < 0x100
    ensures FitsWidth(Pad(n), 2) && FitsWidth(MessageLength(n) / 4, 9) && MessageLength(n) / 4 * 4 == MessageLength(n)
  {
  }

  /** Avtp_CanV2_SetPayloadLength. */
  method SetPayloadLength(host: Host, t: MessageTable, pdu: array<uint8>, base: nat, n: uint8)
    requires base + MessageLength(n) <= pdu.Length
    modifies pdu
    ensures MessageHeader(t, pdu[..], base)
         == old(MessageHeader(t, pdu[..], base))[CAN_PAD := Pad(n)][ACF_MSG_LENGTH := MessageLength(n) / 4]
    ensures Payload(pdu[..], base, n + Pad(n)) == old(Payload(pdu[..], base, n)) + seq(Pad(n), i => 0)
    ensures OnlyWithin(old(pdu[..]), pdu[..], base, base + MessageLength(n))
  {
    LengthFits(n);
    ZeroPadding(t, pdu, base, n);
    ghost var s := pdu[..];
    SetMessageField(host, t, pdu, base, CAN_PAD, Pad(n));
    ghost var u := pdu[..];
    SetMessageField(host, t, pdu, base, ACF_MSG_LENGTH, MessageLength(n) / 4);
    OnlyWithinBoth(s, u, pdu[..], base, base + CAN_HEADER_LEN, base + CAN_HEADER_LEN);
    HeaderKeepsPayload(s, pdu[..], base, n + Pad(n));
  }

  /** The identity part of Avtp_CanV2_CreateAcfMessage. */
  method SetIdentity(host: Host, t: MessageTable, pdu: array<uint8>, base: nat, id: nat, fdf: bool)
    requires base + CAN_HEADER_LEN <= pdu.Length && id < ID_RANGE
    requires MessageHeader(t, pdu[..], base)[CAN_EFF] == 0
    modifies pdu
    ensures MessageHeader(t, pdu[..], base) == old(MessageHeader(t, pdu[..], base))
      [CAN_EFF := Digit(IsExtended(id))][CAN_IDENTIFIER := id][CAN_FDF := Digit(fdf)]
    ensures OnlyWithin(old(pdu[..]), pdu[..], base, base + CAN_HEADER_LEN)
  {
    if id > 0x7ff {
      SetMessageField(host, t, pdu, base, CAN_EFF, 1);
    }
    ghost var s := pdu[..];
    SetMessageField(host, t, pdu, base, CAN_IDENTIFIER, id);
    ghost var u := pdu[..];
    SetMessageField(host, t, pdu, base, CAN_FDF, Digit(fdf));
    OnlyWithinBoth(s, u, pdu[..], base, base + CAN_HEADER_LEN, base + CAN_HEADER_LEN);
    OnlyWithinBoth(old(pdu[..]), s, pdu[..], base, base + CAN_HEADER_LEN, base + CAN_HEADER_LEN);
  }

  /** The header CreateAcfMessage leaves. */
  function CreatedHeader(id: nat, n: nat, fdf: bool): (r: Record)
    ensures |r| == 12
  {
    [ACF_TYPE_CAN_V2, MessageLength(n) / 4, Pad(n), 0, 0, Digit(IsExtended(id)), 0, 0, 0, Digit(fdf), 0, id]
  }

  lemma CreatedStepwise(id: nat, n: nat, fdf: bool)
    ensures BLANK[ACF_MSG_TYPE := ACF_TYPE_CAN_V2]
      [CAN_EFF := Digit(IsExtended(id))][CAN_IDENTIFIER := id][CAN_FDF := Digit(fdf)]
      [CAN_PAD := Pad(n)][ACF_MSG_LENGTH := MessageLength(n) / 4] == CreatedHeader(id, n, fdf)
  {
  }

  /** The first half of Avtp_CanV2_CreateAcfMessage: header and payload. */
  method StartMessage(host: Host, t: MessageTable, pdu: array<uint8>, base: nat, payload: seq<uint8>)
    requires base + CAN_HEADER_LEN + |payload| <= pdu.Length
    modifies pdu
    ensures MessageHeader(t, pdu[..], base) == BLANK[ACF_MSG_TYPE := ACF_TYPE_CAN_V2]
    ensures Payload(pdu[..], base, |payload|) == payload
    ensures OnlyWithin(old(pdu[..]), pdu[..], base, base + CAN_HEADER_LEN + |payload|)
  {
    InitMessage(host, t, pdu, base);
    ghost var s := pdu[..];
    SetPayload(t, pdu, base, payload);
    OnlyWithinBoth(old(pdu[..]), s, pdu[..], base, base + CAN_HEADER_LEN, base + CAN_HEADER_LEN + |payload|);
  }

  /** The second half: identity, length and padding. */
  method FinishMessage(host: Host, t: MessageTable, pdu: array<uint8>, base: nat, id: nat, n: uint8, fdf: bool)
    requires id < ID_RANGE && base + MessageLength(n) <= pdu.Length
    requires MessageHeader(t, pdu[..], base) == BLANK[ACF_MSG_TYPE := ACF_TYPE_CAN_V2]
    modifies pdu
    ensures MessageHeader(t, pdu[..], base) == CreatedHeader(id, n, fdf)
    ensures Payload(pdu[..], base, n + Pad(n)) == old(Payload(pdu[..], base, n)) + seq(Pad(n), i => 0)
    ensures OnlyWithin(old(pdu[..]), pdu[..], base, base + MessageLength(n))
  {
    SetIdentity(host, t, pdu, base, id, fdf);
    ghost var s := pdu[..];
    HeaderKeepsPayload(old(pdu[..]), s, base, n);
    SetPayloadLength(host, t, pdu, base, n);
    OnlyWithinBoth(old(pdu[..]), s, pdu[..], base, base + CAN_HEADER_LEN, base + MessageLength(n));
    CreatedStepwise(id, n, fdf);
  }

  /** Avtp_CanV2_CreateAcfMessage. */
  method CreateAcfMessage(host: Host, t: MessageTable, pdu: array<uint8>, base: nat, id: nat, payload: seq<uint8>,
                          fdf: bool)
    requires id < ID_RANGE && |payload| < 0x100 && base + MessageLength(|payload|) <= pdu.Length
    modifies pdu
    ensures MessageHeader(t, pdu[..], base) == CreatedHeader(id, |payload|, fdf)
    ensures Payload(pdu[..], base, |payload| + Pad(|payload|)) == payload + seq(Pad(|payload|), i => 0)
    ensures OnlyWithin(old(pdu[..]), pdu[..], base, base + MessageLength(|payload|))
  {
    StartMessage(host, t, pdu, base, payload);
    ghost var s := pdu[..];
    FinishMessage(host, t, pdu, base, id, |payload|, fdf);
    OnlyWithinBoth(old(pdu[..]), s, pdu[..], base, base + CAN_HEADER_LEN + |payload|, base + MessageLength(|payload|));
  }

  /** Sets a one-bit field if the condition holds. */
  method RaiseIf(host: Host, t: MessageTable, pdu: array<uint8>, base: nat, f: uint8, c: bool)
    requires base + CAN_HEADER_LEN <= pdu.Length && f < |t| && t[f].bits == 1
    modifies pdu
    ensures MessageHeader(t, pdu[..], base)
         == if c then old(MessageHeader(t, pdu[..], base))[f := 1] else old(MessageHeader(t, pdu[..], base))
    ensures OnlyWithin(old(pdu[..]), pdu[..], base, base + CAN_HEADER_LEN)
  {
    if c { SetMessageField(host, t, pdu, base, f, 1); }
  }

  /** The timestamp and the remote transmission request, as prepare_acf_packet sets them. */
  method SetStamp(host: Host, t: MessageTable, pdu: array<uint8>, base: nat, canId: uint32, time: uint64)
    requires base + CAN_HEADER_LEN <= pdu.Length
    modifies pdu
    ensures var h := old(MessageHeader(t, pdu[..], base))[CAN_MESSAGE_TIMESTAMP := time][CAN_MTV := 1];
      MessageHeader(t, pdu[..], base) == if And(canId, CAN_RTR_FLAG) != 0 then h[CAN_RTR := 1] else h
    ensures OnlyWithin(old(pdu[..]), pdu[..], base, base + CAN_HEADER_LEN)
  {
    SetMessageField(host, t, pdu, base, CAN_MESSAGE_TIMESTAMP, time);
    ghost var s := pdu[..];
    SetMessageField(host, t, pdu, base, CAN_MTV, 1);
    ghost var u := pdu[..];
    RaiseIf(host, t, pdu, base, CAN_RTR, And(canId, CAN_RTR_FLAG) != 0);
    OnlyWithinBoth(s, u, pdu[..], base, base + CAN_HEADER_LEN, base + CAN_HEADER_LEN);
    OnlyWithinBoth(old(pdu[..]), s, pdu[..], base, base + CAN_HEADER_LEN, base + CAN_HEADER_LEN);
  }

  function Raised(h: Record, f: nat, c: bool): (r: Record)
    requires f < |h|
    ensures |r| == |h|
  {
    if c then h[f := 1] else h
  }

  /** The CAN FD flags, as prepare_acf_packet sets them. */
  method SetFdFlags(host: Host, t: MessageTable, pdu: array<uint8>, base: nat, flags: uint8)
    requires base + CAN_HEADER_LEN <= pdu.Length
    modifies pdu
    ensures MessageHeader(t, pdu[..], base) ==
      Raised(Raised(Raised(old(MessageHeader(t, pdu[..], base)), CAN_BRS, And(flags, CANFD_BRS) != 0),
                    CAN_FDF, And(flags, CANFD_FDF) != 0), CAN_ESI, And(flags, CANFD_ESI) != 0)
    ensures OnlyWithin(old(pdu[..]), pdu[..], base, base + CAN_HEADER_LEN)
  {
    RaiseIf(host, t, pdu, base, CAN_BRS, And(flags, CANFD_BRS) != 0);
    ghost var s := pdu[..];
    RaiseIf(host, t, pdu, base, CAN_FDF, And(flags, CANFD_FDF) != 0);
    ghost var u := pdu[..];
    RaiseIf(host, t, pdu, base, CAN_ESI, And(flags, CANFD_ESI) != 0);
    OnlyWithinBoth(s, u, pdu[..], base, base + CAN_HEADER_LEN, base + CAN_HEADER_LEN);
    OnlyWithinBoth(old(pdu[..]), s, pdu[..], base, base + CAN_HEADER_LEN, base + CAN_HEADER_LEN);
  }

  /** The header after those steps. */
  function OptionalFields(h: Record, canId: uint32, flags: uint8, fd: bool, time: uint64): (r: Record)
    requires |h| == 12
    ensures |r| == 12
  {
    var stamped := Raised(h[CAN_MESSAGE_TIMESTAMP := time][CAN_MTV := 1], CAN_RTR, And(canId, CAN_RTR_FLAG) != 0);
    if !fd then stamped
    else Raised(Raised(Raised(stamped, CAN_BRS, And(flags, CANFD_BRS) != 0), CAN_FDF, And(flags, CANFD_FDF) != 0),
                CAN_ESI, And(flags, CANFD_ESI) != 0)
  }

  lemma OptionalStepwise(f: Frame, fd: bool, time: uint64)
    ensures OptionalFields(CreatedHeader(Identifier(f), f.len, fd), f.canId, f.flags, fd, time) == HeaderOf(f, fd, time)
  {
    RtrTested(f);
    FlagsTested(f.flags);
  }

  /** The optional fields that prepare_acf_packet sets on the finished message. */
  method SetOptionalFields(host: Host, t: MessageTable, pdu: array<uint8>, base: nat, f: Frame, fd: bool, time: uint64)
    requires base + CAN_HEADER_LEN <= pdu.Length
    modifies pdu
    ensures MessageHeader(t, pdu[..], base)
         == OptionalFields(old(MessageHeader(t, pdu[..], base)), f.canId, f.flags, fd, time)
    ensures OnlyWithin(old(pdu[..]), pdu[..], base, base + CAN_HEADER_LEN)
  {
    SetStamp(host, t, pdu, base, f.canId, time);
    ghost var s := pdu[..];
    if fd {
      SetFdFlags(host, t, pdu, base, f.flags);
      OnlyWithinBoth(old(pdu[..]), s, pdu[..], base, base + CAN_HEADER_LEN, base + CAN_HEADER_LEN);
    }
  }

  lemma MessageDone(t: MessageTable, s: seq<uint8>, base: nat, f: Frame, fd: bool, time: uint64)
    requires InMemory(f) && base + MessageLength(f.len) <= |s|
    requires MessageHeader(t, s, base) == HeaderOf(f, fd, time)
    requires Payload(s, base, f.len + Pad(f.len)) == f.data[..f.len] + seq(Pad(f.len), i => 0)
    ensures Carries(t, s[base..base + MessageLength(f.len)], f, fd, time)
  {
    MessageMoved(t, s, base, base + MessageLength(f.len));
  }

  /** The length a message header declares. */
  function DeclaredOctets(h: Record): nat
    requires |h| == 12
  {
    h[ACF_MSG_LENGTH] * 4
  }

  lemma DeclaredLength(f: Frame, fd: bool, time: uint64)
    ensures DeclaredOctets(HeaderOf(f, fd, time)) == MessageLength(f.len)
  {
    LengthFits(f.len);
  }

  /** Avtp_AcfCommon_GetAcfMsgLengthInBytes. */
  method AcfMsgLengthInBytes(host: Host, t: MessageTable, pdu: array<uint8>, base: nat) returns (length: nat)
    requires base + CAN_HEADER_LEN <= pdu.Length
    ensures length == DeclaredOctets(MessageHeader(t, pdu[..], base))
  {
    var quadlets: nat := GetMessageField(host, t, pdu, base, ACF_MSG_LENGTH);
    length := quadlets * 4;
  }

  /** prepare_acf_packet: writes the message for the frame at `base`, and nothing else. */
  method PrepareAcfPacket(host: Host, t: MessageTable, pdu: array<uint8>, base: nat, f: Frame, fd: bool, time: uint64)
    returns (length: nat, ghost m: seq<uint8>)
    requires InMemory(f) && base + MessageLength(f.len) <= pdu.Length
    modifies pdu
    ensures length == MessageLength(f.len)
    ensures m == pdu[..][base..base + length] && Carries(t, m, f, fd, time)
    ensures OnlyWithin(old(pdu[..]), pdu[..], base, base + length)
  {
    WriteMessage(host, t, pdu, base, f, fd, time);
    MessageDone(t, pdu[..], base, f, fd, time);
    m := pdu[..][base..base + MessageLength(f.len)];
    length := WrittenLength(host, t, pdu, base, f, fd, time);
  }

  method WrittenLength(host: Host, t: MessageTable, pdu: array<uint8>, base: nat, ghost f: Frame, ghost fd: bool,
                       ghost time: uint64)
    returns (length: nat)
    requires base + CAN_HEADER_LEN <= pdu.Length
    requires MessageHeader(t, pdu[..], base) == HeaderOf(f, fd, time)
    ensures length == MessageLength(f.len)
  {
    DeclaredLength(f, fd, time);
    length := AcfMsgLengthInBytes(host, t, pdu, base);
  }

  method WriteMessage(host: Host, t: MessageTable, pdu: array<uint8>, base: nat, f: Frame, fd: bool, time: uint64)
    requires InMemory(f) && base + MessageLength(f.len) <= pdu.Length
    modifies pdu
    ensures MessageHeader(t, pdu[..], base) == HeaderOf(f, fd, time)
    ensures Payload(pdu[..], base, f.len + Pad(f.len)) == f.data[..f.len] + seq(Pad(f.len), i => 0)
    ensures OnlyWithin(old(pdu[..]), pdu[..], base, base + MessageLength(f.len))
  {
    MaskedId(f.canId);
    CreateAcfMessage(host, t, pdu, base, And(f.canId, CAN_EFF_MASK), f.data[..f.len], fd);
    ghost var s := pdu[..];
    SetOptionalFields(host, t, pdu, base, f, fd, time);
    OptionalStepwise(f, fd, time);
    HeaderKeepsPayload(s, pdu[..], base, f.len + Pad(f.len));
    OnlyWithinBoth(s, s, pdu[..], base, base + CAN_HEADER_LEN, base + CAN_HEADER_LEN);
    OnlyWithinBoth(old(pdu[..]), s, pdu[..], base, base + MessageLength(f.len), base + MessageLength(f.len));
  }

  // ---------- Reading a message ----------

  /** Avtp_CanV2_IsValid, for a message header h with n octets available. */
  predicate ValidHeader(h: Record, n: nat)
    requires |h| == 12
  {
    && h[ACF_MSG_TYPE] == ACF_TYPE_CAN_V2
    && CAN_HEADER_LEN + h[CAN_PAD] <= DeclaredOctets(h) <= n
    && DeclaredOctets(h) - CAN_HEADER_LEN - h[CAN_PAD] <= MaxLength(h[CAN_FDF] == 1)
  }

  predicate ValidMessage(t: MessageTable, m: seq<uint8>)
  {
    |m| >= CAN_HEADER_LEN && ValidHeader(MessageHeader(t, m, 0), |m|)
  }

  /** An identifier that needs the extended format without being marked so. */
  predicate Unmarked(h: Record)
    requires |h| == 12
  {
    h[CAN_EFF] != 1 && IsExtended(h[CAN_IDENTIFIER])
  }

  lemma HeaderFits(t: MessageTable, m: seq<uint8>)
    requires |m| >= CAN_HEADER_LEN
    ensures MessageHeader(t, m, 0)[CAN_IDENTIFIER] < ID_RANGE && DeclaredOctets(MessageHeader(t, m, 0)) < 2048
  {
    Place(t, CAN_HEADER_LEN, 0, |m|);
    Pow2Values();
    FieldBound(m, t[CAN_IDENTIFIER].Start(0), 29);
    FieldBound(m, t[ACF_MSG_LENGTH].Start(0), 9);
  }

  /** The frame the listener makes of a valid message header and its data. */
  function FrameOf(h: Record, payload: seq<uint8>, fd: bool): Frame
    requires |h| == 12 && h[CAN_IDENTIFIER] < ID_RANGE && |payload| <= MAX_DATA
  {
    Frame(CanId(h[CAN_IDENTIFIER], h[CAN_EFF] == 1, h[CAN_RTR] == 1), |payload|,
          if fd then Flags(h[CAN_BRS] == 1, h[CAN_FDF] == 1, h[CAN_ESI] == 1) else 0, Padded(payload))
  }

  /** What the octets at hand yield: nothing usable, or a frame and the length of its message. */
  function ReadMessage(t: MessageTable, m: seq<uint8>, fd: bool): (r: Reading<Frame>)
    ensures r.Readable? ==> CAN_HEADER_LEN <= r.length <= |m|
  {
    if !ValidMessage(t, m) || Unmarked(MessageHeader(t, m, 0)) then Unusable
    else
      HeaderFits(t, m);
      var h := MessageHeader(t, m, 0);
      Readable(FrameOf(h, Payload(m, 0, DeclaredOctets(h) - CAN_HEADER_LEN - h[CAN_PAD]), fd), DeclaredOctets(h))
  }

  lemma PadFits(t: MessageTable, m: seq<uint8>)
    requires |m| >= CAN_HEADER_LEN
    ensures MessageHeader(t, m, 0)[CAN_PAD] < 4
  {
    Place(t, CAN_HEADER_LEN, 0, |m|);
    FieldBound(m, t[CAN_PAD].Start(0), 2);
    Pow2Values();
  }

  lemma ValidLength(h: Record, n: nat)
    requires |h| == 12 && ValidHeader(h, n) && h[CAN_PAD] < 4
    ensures DeclaredOctets(h) <= 80
  {
  }

  /** A valid message has at most 80 octets. */
  lemma EightyOctets(t: MessageTable, m: seq<uint8>, fd: bool)
    requires ReadMessage(t, m, fd).Readable?
    ensures ReadMessage(t, m, fd).length <= 80
  {
    PadFits(t, m);
    ValidLength(MessageHeader(t, m, 0), |m|);
  }

  /** A message is read the same whatever follows it. */
  lemma ReadPrefix(t: MessageTable, m: seq<uint8>, more: seq<uint8>, fd: bool)
    requires ReadMessage(t, m, fd).Readable?
    ensures ReadMessage(t, m + more, fd) == ReadMessage(t, m, fd)
  {
    MessageMoved(t, m + more, 0, |m|);
    assert (m + more)[0..|m|] == m;
    var h := MessageHeader(t, m, 0);
    assert Payload(m + more, 0, DeclaredOctets(h) - CAN_HEADER_LEN - h[CAN_PAD])
        == Payload(m, 0, DeclaredOctets(h) - CAN_HEADER_LEN - h[CAN_PAD]);
  }

  /** And it is read from its own octets alone. */
  lemma ReadOwn(t: MessageTable, m: seq<uint8>, fd: bool)
    requires ReadMessage(t, m, fd).Readable?
    ensures ReadMessage(t, m[..ReadMessage(t, m, fd).length], fd) == ReadMessage(t, m, fd)
  {
    var n := ReadMessage(t, m, fd).length;
    MessageMoved(t, m, 0, n);
    assert m[0..n] == m[..n];
    var h := MessageHeader(t, m, 0);
    assert Payload(m[..n], 0, DeclaredOctets(h) - CAN_HEADER_LEN - h[CAN_PAD])
        == Payload(m, 0, DeclaredOctets(h) - CAN_HEADER_LEN - h[CAN_PAD]);
  }

  /** What is read back from the message of a frame, its talker in FD mode or not (fd) and its listener (rfd): the
      frame in canonical form for the mode of both, if the talker's mode allows its length; otherwise the message
      is rejected. */
  lemma ReadsBack(t: MessageTable, m: seq<uint8>, f: Frame, fd: bool, time: uint64, rfd: bool)
    requires InMemory(f) && Carries(t, m, f, fd, time)
    ensures ReadMessage(t, m, rfd)
         == if f.len <= MaxLength(fd) then Readable(Canonical(f, fd && rfd), MessageLength(f.len)) else Unusable
  {
    HeaderBack(f, fd, time);
    if f.len <= MaxLength(fd) {
      PayloadBack(m, f.data[..f.len]);
      FrameBack(f, fd, time, rfd);
    }
  }

  lemma HeaderBack(f: Frame, fd: bool, time: uint64)
    requires InMemory(f)
    ensures var h := HeaderOf(f, fd, time);
      && DeclaredOctets(h) == MessageLength(f.len) == CAN_HEADER_LEN + h[CAN_PAD] + f.len && !Unmarked(h)
      && (ValidHeader(h, MessageLength(f.len)) <==> f.len <= MaxLength(fd))
  {
    DeclaredLength(f, fd, time);
  }

  lemma FrameBack(f: Frame, fd: bool, time: uint64, rfd: bool)
    requires InMemory(f)
    ensures HeaderOf(f, fd, time)[CAN_IDENTIFIER] < ID_RANGE
    ensures FrameOf(HeaderOf(f, fd, time), f.data[..f.len], rfd) == Canonical(f, fd && rfd)
  {
  }

  /** The header's FDF bit alone limits the data: a listener in classic mode takes a message of more than 8 octets
      exactly like one in FD mode, if FDF is set, and drops the flags. */
  lemma ClassicMode(t: MessageTable, m: seq<uint8>)
    ensures ReadMessage(t, m, false).Readable? <==> ReadMessage(t, m, true).Readable?
    ensures ReadMessage(t, m, false).Readable? ==>
      var f, h := ReadMessage(t, m, false).item, MessageHeader(t, m, 0);
      && f == ReadMessage(t, m, true).item.(flags := 0)
      && f.len <= MAX_DATA && (f.len > 8 ==> h[CAN_FDF] == 1)
  {
  }

  lemma HeaderWidths(t: MessageTable, f: Frame, fd: bool, time: uint64)
    requires InMemory(f)
    ensures forall g | 0 <= g < |t| :: FitsWidth(HeaderOf(f, fd, time)[g], t[g].bits)
  {
    LengthFits(f.len);
  }

  lemma WidthBound(v: nat, bits: nat)
    requires FitsWidth(v, bits)
    ensures v < Pow2(bits)
  {
    Pow2Values();
  }

  /** There is a header with any contents. */
  lemma HeaderExists(t: MessageTable, r: Record) returns (h: seq<uint8>)
    requires |r| == |t| && forall g | 0 <= g < |t| :: FitsWidth(r[g], t[g].bits)
    ensures |h| == CAN_HEADER_LEN && MessageHeader(t, h, 0) == r
  {
    var blank := seq(CAN_HEADER_LEN, i => 0);
    Place(t, CAN_HEADER_LEN, 0, CAN_HEADER_LEN);
    forall g | 0 <= g < |t| ensures r[g] < Pow2(t[g].bits) { WidthBound(r[g], t[g].bits); }
    h := HeaderCodec.WriteAll(t, blank, r, |t|);
    HeaderCodec.FieldsWritten(t, blank, r, h);
  }

  lemma HeaderInFront(t: MessageTable, h: seq<uint8>, body: seq<uint8>)
    requires |h| == CAN_HEADER_LEN
    ensures MessageHeader(t, h + body, 0) == MessageHeader(t, h, 0)
  {
    MessageMoved(t, h + body, 0, CAN_HEADER_LEN);
    assert (h + body)[0..CAN_HEADER_LEN] == h;
  }

  /** There is a message for every frame. */
  lemma MessageExists(t: MessageTable, f: Frame, fd: bool, time: uint64) returns (m: seq<uint8>)
    requires InMemory(f)
    ensures Carries(t, m, f, fd, time)
  {
    HeaderWidths(t, f, fd, time);
    var h := HeaderExists(t, HeaderOf(f, fd, time));
    var body := f.data[..f.len] + seq(Pad(f.len), i => 0);
    HeaderInFront(t, h, body);
    m := h + body;
  }

  /** So the FD message of any frame of more than 8 octets is read in classic mode, with all its data. */
  lemma LongInClassicMode(t: MessageTable, f: Frame, time: uint64) returns (m: seq<uint8>)
    requires InMemory(f) && f.len > 8
    ensures Carries(t, m, f, true, time)
    ensures ReadMessage(t, m, false) == Readable(Canonical(f, false), MessageLength(f.len))
  {
    m := MessageExists(t, f, true, time);
    ReadsBack(t, m, f, true, time, false);
  }

  lemma PayloadBack(m: seq<uint8>, data: seq<uint8>)
    requires |m| == MessageLength(|data|) && m[CAN_HEADER_LEN..] == data + seq(Pad(|data|), i => 0)
    ensures Payload(m, 0, |data|) == data
  {
    assert Payload(m, 0, |data|) == m[CAN_HEADER_LEN..][..|data|];
  }

  /** Avtp_CanV2_IsValid. */
  method IsValid(host: Host, t: MessageTable, pdu: array<uint8>, base: nat, bufferSize: nat) returns (valid: bool)
    requires base + bufferSize <= pdu.Length
    ensures valid == (bufferSize >= CAN_HEADER_LEN && ValidHeader(MessageHeader(t, pdu[..], base), bufferSize))
  {
    if bufferSize < CAN_HEADER_LEN { return false; }
    var msgType := GetMessageField(host, t, pdu, base, ACF_MSG_TYPE);
    if msgType != ACF_TYPE_CAN_V2 { return false; }
    var msgLengthBytes := AcfMsgLengthInBytes(host, t, pdu, base);
    if msgLengthBytes > bufferSize { return false; }
    var padLength: nat := GetMessageField(host, t, pdu, base, CAN_PAD);
    var headerAndPad := CAN_HEADER_LEN + padLength;
    if msgLengthBytes < headerAndPad { return false; }
    var fdf := GetMessageField(host, t, pdu, base, CAN_FDF);
    var maxPayload := if fdf == 1 then 64 else 8;
    return msgLengthBytes - headerAndPad <= maxPayload;
  }

  const ZERO_FRAME := Frame(0, 0, 0, seq(MAX_DATA, i => 0))

  /** The identifier word of the frame, from the message header at `base`; fails for an unmarked identifier. */
  method ReadCanId(host: Host, t: MessageTable, pdu: array<uint8>, base: nat) returns (ok: bool, canId: uint32)
    requires base + CAN_HEADER_LEN <= pdu.Length
    ensures var h := MessageHeader(t, pdu[..], base);
      ok == !Unmarked(h) && h[CAN_IDENTIFIER] < ID_RANGE
      && (ok ==> canId == CanId(h[CAN_IDENTIFIER], h[CAN_EFF] == 1, h[CAN_RTR] == 1))
  {
    IdentifierFits(t, pdu[..], base);
    var id := GetMessageField(host, t, pdu, base, CAN_IDENTIFIER);
    var eff := GetMessageField(host, t, pdu, base, CAN_EFF);
    FlagsSet(id, eff == 1);
    canId := id;
    if eff == 1 {
      canId := Or(canId, CAN_EFF_FLAG);
    } else if canId > 0x7FF {
      return false, canId;
    }
    var rtr := GetMessageField(host, t, pdu, base, CAN_RTR);
    if rtr == 1 { canId := Or(canId, CAN_RTR_FLAG); }
    ok := true;
  }

  lemma IdentifierFits(t: MessageTable, s: seq<uint8>, base: nat)
    requires base + CAN_HEADER_LEN <= |s|
    ensures MessageHeader(t, s, base)[CAN_IDENTIFIER] < ID_RANGE
  {
    MessageMoved(t, s, base, |s|);
    HeaderFits(t, s[base..|s|]);
  }

  /** The CAN FD flags of the frame. */
  method ReadFlags(host: Host, t: MessageTable, pdu: array<uint8>, base: nat) returns (flags: uint8)
    requires base + CAN_HEADER_LEN <= pdu.Length
    ensures var h := MessageHeader(t, pdu[..], base); flags == Flags(h[CAN_BRS] == 1, h[CAN_FDF] == 1, h[CAN_ESI] == 1)
  {
    var brs := GetMessageField(host, t, pdu, base, CAN_BRS);
    var fdf := GetMessageField(host, t, pdu, base, CAN_FDF);
    var esi := GetMessageField(host, t, pdu, base, CAN_ESI);
    FrameFlagsSet(brs == 1, fdf == 1);
    flags := 0;
    if brs == 1 { flags := Or(flags, CANFD_BRS); }
    if fdf == 1 { flags := Or(flags, CANFD_FDF); }
    if esi == 1 { flags := Or(flags, CANFD_ESI); }
  }

  /** The data of a valid message, of the length Avtp_CanV2_GetPayloadLength gives. */
  method ReadPayload(host: Host, t: MessageTable, pdu: array<uint8>, base: nat) returns (payload: seq<uint8>)
    requires base + CAN_HEADER_LEN <= pdu.Length
    requires ValidHeader(MessageHeader(t, pdu[..], base), pdu.Length - base)
    ensures var h := MessageHeader(t, pdu[..], base);
      payload == Payload(pdu[..], base, DeclaredOctets(h) - CAN_HEADER_LEN - h[CAN_PAD])
  {
    var msgLength := AcfMsgLengthInBytes(host, t, pdu, base);
    var pad: nat := GetMessageField(host, t, pdu, base, CAN_PAD);
    payload := pdu[base + CAN_HEADER_LEN..base + (msgLength - pad)];
  }

  /** The body of the loop of avtp_to_can: the frame of a valid message, starting from a cleared slot. */
  method ReadFrame(host: Host, t: MessageTable, pdu: array<uint8>, base: nat, fd: bool) returns (ok: bool, frame: Frame)
    requires base + CAN_HEADER_LEN <= pdu.Length
    requires ValidHeader(MessageHeader(t, pdu[..], base), pdu.Length - base)
    ensures var h := MessageHeader(t, pdu[..], base);
      && ok == !Unmarked(h) && h[CAN_IDENTIFIER] < ID_RANGE
      && (ok ==> frame == FrameOf(h, Payload(pdu[..], base, DeclaredOctets(h) - CAN_HEADER_LEN - h[CAN_PAD]), fd))
  {
    var payload := ReadPayload(host, t, pdu, base);
    frame := ZERO_FRAME;
    var canId;
    ok, canId := ReadCanId(host, t, pdu, base);
    if !ok { return; }
    if fd {
      var flags := ReadFlags(host, t, pdu, base);
      frame := frame.(flags := flags);
    }
    Overlaid(payload);
    frame := frame.(canId := canId, len := |payload|, data := payload + frame.data[|payload|..]);
  }

  lemma Overlaid(payload: seq<uint8>)
    requires |payload| <= MAX_DATA
    ensures payload + ZERO_FRAME.data[|payload|..] == Padded(payload)
  {
  }

  /** The message at `base`, read where it stands. */
  function ReadAt(t: MessageTable, s: seq<uint8>, base: nat, end: nat, fd: bool): Reading<Frame>
    requires base <= end <= |s|
  {
    if base + CAN_HEADER_LEN > end || !ValidHeader(MessageHeader(t, s, base), end - base)
       || Unmarked(MessageHeader(t, s, base)) then Unusable
    else
      IdentifierFits(t, s, base);
      var h := MessageHeader(t, s, base);
      Readable(FrameOf(h, Payload(s, base, DeclaredOctets(h) - CAN_HEADER_LEN - h[CAN_PAD]), fd), DeclaredOctets(h))
  }

  lemma SameReading(t: MessageTable, m: seq<uint8>, s: seq<uint8>, base: nat, end: nat, fd: bool, h: Record)
    requires base + CAN_HEADER_LEN <= end <= |s| && |m| == end - base
    requires h == MessageHeader(t, m, 0) == MessageHeader(t, s, base)
    requires ValidHeader(h, |m|) ==>
      Payload(m, 0, DeclaredOctets(h) - CAN_HEADER_LEN - h[CAN_PAD])
      == Payload(s, base, DeclaredOctets(h) - CAN_HEADER_LEN - h[CAN_PAD])
    ensures ReadMessage(t, m, fd) == ReadAt(t, s, base, end, fd)
  {
  }

  /** It is read as if it stood alone. */
  lemma ReadInPlace(t: MessageTable, s: seq<uint8>, base: nat, end: nat, fd: bool)
    requires base <= end <= |s|
    ensures ReadMessage(t, s[base..end], fd) == ReadAt(t, s, base, end, fd)
  {
    if base + CAN_HEADER_LEN > end {
      NothingThere(t, s[base..end], s, base, end, fd);
    } else {
      MessageMoved(t, s, base, end);
      var h := MessageHeader(t, s, base);
      if ValidHeader(h, end - base) {
        PayloadInPlace(s, base, end, DeclaredOctets(h) - CAN_HEADER_LEN - h[CAN_PAD]);
      }
      SameReading(t, s[base..end], s, base, end, fd, h);
    }
  }

  lemma NothingThere(t: MessageTable, m: seq<uint8>, s: seq<uint8>, base: nat, end: nat, fd: bool)
    requires base <= end <= |s| && |m| == end - base < CAN_HEADER_LEN
    ensures ReadMessage(t, m, fd) == ReadAt(t, s, base, end, fd)
  {
  }

  lemma PayloadInPlace(s: seq<uint8>, base: nat, end: nat, n: nat)
    requires base + CAN_HEADER_LEN + n <= end <= |s|
    ensures Payload(s[base..end], 0, n) == Payload(s, base, n)
  {
  }
}
