/** CAN frames as the socket interface represents them: identifier and flags share
    a word, and a frame has room for 64 data octets whatever its length. */
module CanFrame {
  import opened Words

  const CAN_EFF_FLAG: uint32 := 0x8000_0000
  const CAN_RTR_FLAG: uint32 := 0x4000_0000
  const CAN_ERR_FLAG: uint32 := 0x2000_0000
  const CAN_EFF_MASK: uint32 := 0x1FFF_FFFF
  const CANFD_BRS: uint8 := 1
  const CANFD_ESI: uint8 := 2
  const CANFD_FDF: uint8 := 4
  const MAX_DATA := 64
  const MAX_STANDARD_ID := 0x7FF
  const ID_RANGE := 0x2000_0000

  datatype Frame = Frame(canId: uint32, len: uint8, flags: uint8, data: seq<uint8>)

  /** A frame in memory: the data array is full size, the length says how much of it counts. */
  predicate InMemory(f: Frame) {
    |f.data| == MAX_DATA && f.len <= MAX_DATA
  }

  /** The length limit of the frame format in use. */
  function MaxLength(fd: bool): nat {
    if fd then 64 else 8
  }

  function Identifier(f: Frame): nat {
    f.canId % ID_RANGE
  }

  predicate HasEff(f: Frame) { Bit(f.canId, 31) }

  predicate HasRtr(f: Frame) { Bit(f.canId, 30) }

  predicate HasErr(f: Frame) { Bit(f.canId, 29) }

  /** The identifier needs the extended format. */
  predicate IsExtended(id: nat) {
    id > MAX_STANDARD_ID
  }

  /** The identifier word from its parts. */
  function CanId(id: nat, eff: bool, rtr: bool): uint32
    requires id < ID_RANGE
  {
    id + (if eff then CAN_EFF_FLAG else 0) + (if rtr then CAN_RTR_FLAG else 0)
  }

  function Flags(brs: bool, fdf: bool, esi: bool): uint8 {
    (if brs then CANFD_BRS else 0) + (if fdf then CANFD_FDF else 0) + (if esi then CANFD_ESI else 0)
  }

  function Padded(data: seq<uint8>): (r: seq<uint8>)
    requires |data| <= MAX_DATA
    ensures |r| == MAX_DATA
  {
    data + seq(MAX_DATA - |data|, i => 0)
  }

  /** What remains of a frame that is packed and unpacked: the extended format flag says whether the
      identifier needs it, the error flag is gone, and so is what the format in use does not carry. */
  function Canonical(f: Frame, fd: bool): Frame
    requires InMemory(f)
  {
    Frame(CanId(Identifier(f), IsExtended(Identifier(f)), HasRtr(f)), f.len,
          if fd then Flags(Bit(f.flags, 0), true, Bit(f.flags, 1)) else 0, Padded(f.data[..f.len]))
  }

  // ---------- The word operations on identifier and flags ----------

  lemma MaskedId(canId: uint32)
    ensures And(canId, CAN_EFF_MASK) == canId % ID_RANGE
  {
    Pow2Values();
    AndLow(canId, 29);
  }

  lemma Pow2Of30()
    ensures Pow2(30) == CAN_RTR_FLAG && Pow2(31) == CAN_EFF_FLAG
  {
    Pow2Values();
  }

  lemma RtrTested(f: Frame)
    ensures And(f.canId, CAN_RTR_FLAG) != 0 <==> HasRtr(f)
  {
    Pow2Of30();
    AndFlag(f.canId, 30);
  }

  lemma FlagsTested(flags: uint8)
    ensures And(flags, CANFD_BRS) != 0 <==> Bit(flags, 0)
    ensures And(flags, CANFD_ESI) != 0 <==> Bit(flags, 1)
    ensures And(flags, CANFD_FDF) != 0 <==> Bit(flags, 2)
  {
    assert Pow2(0) == 1 && Pow2(1) == 2 && Pow2(2) == 4;
    AndFlag(flags, 0);
    AndFlag(flags, 1);
    AndFlag(flags, 2);
  }

  /** Setting the flags of an identifier word one by one. */
  lemma FlagsSet(id: nat, eff: bool)
    requires id < ID_RANGE
    ensures Or(id, CAN_EFF_FLAG) == CanId(id, true, false)
    ensures Or(CanId(id, eff, false), CAN_RTR_FLAG) == CanId(id, eff, true)
  {
    Pow2Values();
    assert Or(0, 4) == 4 && Or(0, 2) == 2 && Or(4, 2) == 6;
    OrAtop(0, id, 4, 29);
    OrAtop(if eff then 4 else 0, id, 2, 29);
  }

  lemma FrameFlagsSet(brs: bool, fdf: bool)
    ensures Or(0, CANFD_BRS) == Flags(true, false, false)
    ensures Or(Flags(brs, false, false), CANFD_FDF) == Flags(brs, true, false)
    ensures Or(Flags(brs, fdf, false), CANFD_ESI) == Flags(brs, fdf, true)
  {
    assert Or(0, 1) == 1 && Or(0, 4) == 4 && Or(1, 4) == 5;
    assert Or(0, 2) == 2 && Or(1, 2) == 3 && Or(4, 2) == 6 && Or(5, 2) == 7;
  }

  // ---------- Which frames come back unchanged ----------

  lemma IdDigits(canId: uint32)
    ensures canId == CanId(canId % ID_RANGE, Bit(canId, 31), Bit(canId, 30))
                  + (if Bit(canId, 29) then CAN_ERR_FLAG else 0)
  {
    var h := canId / ID_RANGE;
    HighDigits(canId);
    ThreeDigits(h);
    assert canId == h * ID_RANGE + canId % ID_RANGE;
  }

  lemma HighDigits(canId: uint32)
    ensures var h := canId / ID_RANGE;
      h < 8 && Bit(h, 0) == Bit(canId, 29) && Bit(h, 1) == Bit(canId, 30) && Bit(h, 2) == Bit(canId, 31)
  {
    Pow2Values();
    ShrValue(canId, 29);
    BitShr(canId, 29, 0);
    BitShr(canId, 29, 1);
    BitShr(canId, 29, 2);
  }

  lemma ThreeDigits(h: nat)
    requires h < 8
    ensures h == (if Bit(h, 0) then 1 else 0) + (if Bit(h, 1) then 2 else 0) + (if Bit(h, 2) then 4 else 0)
  {
    assert Bit(h, 1) == Bit(h / 2, 0) && Bit(h, 2) == Bit(h / 2 / 2, 0);
  }

  /** Exactly these frames survive packing and unpacking as they are: the extended format flag is set
      just when the identifier exceeds 0x7FF, the error flag is clear, octets past the length are zero,
      and the flag octet is zero, or in FD mode has FDF and perhaps BRS and ESI. */
  lemma CanonicalExactly(f: Frame, fd: bool)
    requires InMemory(f)
    ensures Canonical(f, fd) == f <==>
      && (HasEff(f) <==> IsExtended(Identifier(f))) && !HasErr(f)
      && (if fd then f.flags < 8 && Bit(f.flags, 2) else f.flags == 0)
      && f.data == Padded(f.data[..f.len])
  {
    IdDigits(f.canId);
    if f.flags < 8 { ThreeDigits(f.flags); }
  }
}
