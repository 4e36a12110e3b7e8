/** The field descriptor tables of the headers, one per version where there are
    two, and the shape every table must have: its fields do not overlap. */
module HeaderTables {
  import opened Words
  import opened FieldEngine

  predicate Disjoint(a: Descriptor, b: Descriptor) {
    || a.bits == 0 || b.bits == 0
    || 32 * a.quadlet + a.offset + a.bits <= 32 * b.quadlet + b.offset
    || 32 * b.quadlet + b.offset + b.bits <= 32 * a.quadlet + a.offset
  }

  /** No field of the table touches the given one. */
  predicate Avoids(table: Table, d: Descriptor) {
    table == [] || (Disjoint(table[0], d) && Avoids(table[1..], d))
  }

  /** No two fields of the table touch. */
  predicate Separate(table: Table) {
    table == [] || (Avoids(table[1..], table[0]) && Separate(table[1..]))
  }

  lemma {:induction false} AvoidsAt(table: Table, d: Descriptor, f: nat)
    requires Avoids(table, d) && f < |table|
    ensures Disjoint(table[f], d)
  {
    if f > 0 { AvoidsAt(table[1..], d, f - 1); }
  }

  lemma {:induction false} SeparateAt(table: Table, f: nat, g: nat)
    requires Separate(table) && f < |table| && g < |table| && f != g
    ensures Disjoint(table[f], table[g])
  {
    if f == 0 {
      AvoidsAt(table[1..], table[0], g - 1);
    } else if g == 0 {
      AvoidsAt(table[1..], table[0], f - 1);
    } else {
      SeparateAt(table[1..], f - 1, g - 1);
    }
  }

  lemma {:induction false} AvoidsAll(table: Table, d: Descriptor)
    requires forall f | 0 <= f < |table| :: Disjoint(table[f], d)
    ensures Avoids(table, d)
  {
    if table != [] {
      forall f | 0 <= f < |table| - 1 ensures Disjoint(table[1..][f], d) { assert table[1..][f] == table[f + 1]; }
      AvoidsAll(table[1..], d);
    }
  }

  lemma {:induction false} SeparateAll(table: Table)
    requires forall f, g | 0 <= f < g < |table| :: Disjoint(table[f], table[g])
    ensures Separate(table)
  {
    if table != [] {
      var rest := table[1..];
      forall g | 0 <= g < |rest| ensures Disjoint(rest[g], table[0]) { assert Disjoint(table[0], table[g + 1]); }
      AvoidsAll(rest, table[0]);
      forall f, g | 0 <= f < g < |rest| ensures Disjoint(rest[f], rest[g]) {
        assert Disjoint(table[f + 1], table[g + 1]);
      }
      SeparateAll(rest);
    }
  }

  /** A table of format fields: separate, and clear of the subtype and version bits. */
  predicate FormatTable(table: Table) {
    Separate(table) && Avoids(table, SUBTYPE) && Avoids(table, VERSION)
  }

  /** Every field lies in a header of the given length. */
  predicate Within(table: Table, length: nat) {
    |table| < 256 && forall f | 0 <= f < |table| :: table[f].Fits(0, length)
  }

  // Common header
  const COMMON_SUBTYPE := 0
  const COMMON_VERSION := 2
  const SUBTYPE := Descriptor(0, 0, 8)
  const VERSION := Descriptor(0, 9, 3)
  const COMMON: Table := [Descriptor(0, 0, 8), Descriptor(0, 8, 1), Descriptor(0, 9, 3)]

  const SUBTYPE_CVF := 0x3
  const SUBTYPE_CRF := 0x4
  const SUBTYPE_TSCF := 0x5
  const SUBTYPE_NTSCF := 0x82

  // Common stream header; TSCF and CVF start with the same fields
  const CSH_SV := 0
  const CSH_TV := 3
  const CSH_SEQUENCE_NUM := 4
  const CSH_FSD0 := 5
  const CSH_TU := 7
  const CSH_STREAM_ID := 8
  const CSH_AVTP_TIMESTAMP := 9
  const CSH_STREAM_DATA_LENGTH := 11
  const CSH_V0: Table := [
    Descriptor(0, 8, 1), Descriptor(0, 12, 1), Descriptor(0, 13, 2), Descriptor(0, 15, 1),
    Descriptor(0, 16, 8), Descriptor(0, 0, 0), Descriptor(0, 24, 7), Descriptor(0, 31, 1),
    Descriptor(1, 0, 64), Descriptor(3, 0, 32), Descriptor(0, 0, 0), Descriptor(5, 0, 16)]
  const CSH_V1: Table := [
    Descriptor(0, 8, 1), Descriptor(0, 12, 1), Descriptor(0, 13, 2), Descriptor(0, 15, 1),
    Descriptor(3, 0, 32), Descriptor(0, 16, 8), Descriptor(0, 24, 7), Descriptor(0, 31, 1),
    Descriptor(1, 0, 64), Descriptor(4, 0, 64), Descriptor(6, 0, 64), Descriptor(9, 0, 16)]

  // Alternative header; CRF and NTSCF start with the same fields
  const AH_SEQUENCE_NUM := 1
  const AH_PTP_GRANDMASTER_IDENTITY := 2
  const AH_V0: Table := [Descriptor(0, 0, 0), Descriptor(0, 0, 0), Descriptor(0, 0, 0)]
  const AH_V1: Table := [Descriptor(0, 12, 20), Descriptor(1, 0, 32), Descriptor(2, 0, 64)]

  // Clock reference format
  const CRF_SV := 3
  const CRF_MR := 5
  const CRF_FS := 7
  const CRF_TU := 8
  const CRF_SEQUENCE_NUM_LSB := 9
  const CRF_TYPE := 10
  const CRF_STREAM_ID := 11
  const CRF_PULL := 12
  const CRF_BASE_FREQUENCY := 13
  const CRF_DATA_LENGTH := 14
  const CRF_TIMESTAMP_INTERVAL := 15
  const CRF_V0: Table := [
    Descriptor(0, 0, 0), Descriptor(0, 0, 0), Descriptor(0, 0, 0), Descriptor(0, 8, 1),
    Descriptor(0, 0, 0), Descriptor(0, 12, 1), Descriptor(0, 13, 1), Descriptor(0, 14, 1),
    Descriptor(0, 15, 1), Descriptor(0, 16, 8), Descriptor(0, 24, 8), Descriptor(1, 0, 64),
    Descriptor(3, 0, 3), Descriptor(3, 3, 29), Descriptor(4, 0, 16), Descriptor(4, 16, 16)]
  const CRF_V1: Table := [
    Descriptor(0, 12, 20), Descriptor(1, 0, 32), Descriptor(2, 0, 64), Descriptor(0, 8, 1),
    Descriptor(4, 0, 12), Descriptor(4, 12, 1), Descriptor(4, 13, 1), Descriptor(4, 14, 1),
    Descriptor(4, 15, 1), Descriptor(4, 16, 8), Descriptor(4, 24, 8), Descriptor(5, 0, 64),
    Descriptor(7, 0, 3), Descriptor(7, 3, 29), Descriptor(8, 0, 16), Descriptor(8, 16, 16)]

  // Non-time-synchronous control format
  const NTSCF_SV := 3
  const NTSCF_DATA_LENGTH := 6
  const NTSCF_SEQUENCE_NUM_LSB := 7
  const NTSCF_STREAM_ID := 8
  const NTSCF_V0: Table := [
    Descriptor(0, 0, 0), Descriptor(0, 0, 0), Descriptor(0, 0, 0), Descriptor(0, 8, 1), Descriptor(0, 0, 0),
    Descriptor(0, 12, 1), Descriptor(0, 13, 11), Descriptor(0, 24, 8), Descriptor(1, 0, 64)]
  const NTSCF_V1: Table := [
    Descriptor(0, 12, 20), Descriptor(1, 0, 32), Descriptor(2, 0, 64), Descriptor(0, 8, 1), Descriptor(4, 0, 12),
    Descriptor(4, 12, 1), Descriptor(4, 13, 11), Descriptor(4, 24, 8), Descriptor(5, 0, 64)]

  // Time-synchronous control format: the common stream header plus two reserved fields
  const TSCF_V0: Table := [
    Descriptor(0, 8, 1), Descriptor(0, 12, 1), Descriptor(0, 13, 2), Descriptor(0, 15, 1),
    Descriptor(0, 16, 8), Descriptor(0, 0, 0), Descriptor(0, 24, 7), Descriptor(0, 31, 1),
    Descriptor(1, 0, 64), Descriptor(3, 0, 32), Descriptor(0, 0, 0), Descriptor(5, 0, 16),
    Descriptor(4, 0, 32), Descriptor(5, 16, 16)]
  const TSCF_V1: Table := [
    Descriptor(0, 8, 1), Descriptor(0, 12, 1), Descriptor(0, 13, 2), Descriptor(0, 15, 1),
    Descriptor(3, 0, 32), Descriptor(0, 16, 8), Descriptor(0, 24, 7), Descriptor(0, 31, 1),
    Descriptor(1, 0, 64), Descriptor(4, 0, 64), Descriptor(6, 0, 64), Descriptor(9, 0, 16),
    Descriptor(8, 0, 32), Descriptor(9, 16, 16)]

  // Compressed video format, version 0
  const CVF_FORMAT := 12
  const CVF_FORMAT_SUBTYPE := 13
  const CVF_PTV := 16
  const CVF_M := 17
  const CVF_V0: Table := [
    Descriptor(0, 8, 1), Descriptor(0, 12, 1), Descriptor(0, 13, 2), Descriptor(0, 15, 1),
    Descriptor(0, 16, 8), Descriptor(0, 0, 0), Descriptor(0, 24, 7), Descriptor(0, 31, 1),
    Descriptor(1, 0, 64), Descriptor(3, 0, 32), Descriptor(0, 0, 0), Descriptor(5, 0, 16),
    Descriptor(4, 0, 8), Descriptor(4, 8, 8), Descriptor(4, 16, 16), Descriptor(5, 16, 2),
    Descriptor(5, 18, 1), Descriptor(5, 19, 1), Descriptor(5, 20, 4), Descriptor(5, 24, 8)]

  // UDP encapsulation
  const UDP: Table := [Descriptor(0, 0, 32)]

  // ACF_CAN_V2 message header; it starts with the fields of the ACF common header
  const ACF_MSG_TYPE := 0
  const ACF_MSG_LENGTH := 1
  const CAN_PAD := 2
  const CAN_MTV := 3
  const CAN_RTR := 4
  const CAN_EFF := 5
  const CAN_BUS_ID := 6
  const CAN_MESSAGE_TIMESTAMP := 7
  const CAN_BRS := 8
  const CAN_FDF := 9
  const CAN_ESI := 10
  const CAN_IDENTIFIER := 11
  const CAN_V2: Table := [
    Descriptor(0, 0, 7), Descriptor(0, 7, 9), Descriptor(0, 16, 2), Descriptor(0, 18, 1),
    Descriptor(0, 19, 1), Descriptor(0, 20, 1), Descriptor(0, 21, 11), Descriptor(1, 0, 64),
    Descriptor(3, 0, 1), Descriptor(3, 1, 1), Descriptor(3, 2, 1), Descriptor(3, 3, 29)]

  /** What remains to be checked of a table. */
  lemma TableIsFormat(t: Table, length: nat)
    requires |t| < 256
    requires forall f | 0 <= f < |t| :: t[f].Fits(0, length) && Disjoint(t[f], SUBTYPE) && Disjoint(t[f], VERSION)
    requires forall f, g | 0 <= f < g < |t| :: Disjoint(t[f], t[g])
    ensures FormatTable(t) && Within(t, length)
  {
    SeparateAll(t);
    AvoidsAll(t, SUBTYPE);
    AvoidsAll(t, VERSION);
  }

  lemma CshV0Format()
    ensures FormatTable(CSH_V0) && Within(CSH_V0, 24)
  {
    var t := CSH_V0;
    forall f, g | 0 <= f < g < |t| ensures Disjoint(t[f], t[g]) { }
    forall f | 0 <= f < |t| ensures t[f].Fits(0, 24) && Disjoint(t[f], SUBTYPE) && Disjoint(t[f], VERSION) { }
    TableIsFormat(t, 24);
  }

  lemma CshV1Format()
    ensures FormatTable(CSH_V1) && Within(CSH_V1, 40)
  {
    var t := CSH_V1;
    forall f, g | 0 <= f < g < |t| ensures Disjoint(t[f], t[g]) { }
    forall f | 0 <= f < |t| ensures t[f].Fits(0, 40) && Disjoint(t[f], SUBTYPE) && Disjoint(t[f], VERSION) { }
    TableIsFormat(t, 40);
  }

  lemma AhV0Format()
    ensures FormatTable(AH_V0) && Within(AH_V0, 4)
  {
    var t := AH_V0;
    forall f, g | 0 <= f < g < |t| ensures Disjoint(t[f], t[g]) { }
    forall f | 0 <= f < |t| ensures t[f].Fits(0, 4) && Disjoint(t[f], SUBTYPE) && Disjoint(t[f], VERSION) { }
    TableIsFormat(t, 4);
  }

  lemma AhV1Format()
    ensures FormatTable(AH_V1) && Within(AH_V1, 16)
  {
    var t := AH_V1;
    forall f, g | 0 <= f < g < |t| ensures Disjoint(t[f], t[g]) { }
    forall f | 0 <= f < |t| ensures t[f].Fits(0, 16) && Disjoint(t[f], SUBTYPE) && Disjoint(t[f], VERSION) { }
    TableIsFormat(t, 16);
  }

  lemma CrfV0Format()
    ensures FormatTable(CRF_V0) && Within(CRF_V0, 20)
  {
    var t := CRF_V0;
    forall f, g | 0 <= f < g < |t| ensures Disjoint(t[f], t[g]) { }
    forall f | 0 <= f < |t| ensures t[f].Fits(0, 20) && Disjoint(t[f], SUBTYPE) && Disjoint(t[f], VERSION) { }
    TableIsFormat(t, 20);
  }

  lemma CrfV1Format()
    ensures FormatTable(CRF_V1) && Within(CRF_V1, 36)
  {
    var t := CRF_V1;
    forall f, g | 0 <= f < g < |t| ensures Disjoint(t[f], t[g]) { }
    forall f | 0 <= f < |t| ensures t[f].Fits(0, 36) && Disjoint(t[f], SUBTYPE) && Disjoint(t[f], VERSION) { }
    TableIsFormat(t, 36);
  }

  lemma NtscfV0Format()
    ensures FormatTable(NTSCF_V0) && Within(NTSCF_V0, 12)
  {
    var t := NTSCF_V0;
    forall f, g | 0 <= f < g < |t| ensures Disjoint(t[f], t[g]) { }
    forall f | 0 <= f < |t| ensures t[f].Fits(0, 12) && Disjoint(t[f], SUBTYPE) && Disjoint(t[f], VERSION) { }
    TableIsFormat(t, 12);
  }

  lemma NtscfV1Format()
    ensures FormatTable(NTSCF_V1) && Within(NTSCF_V1, 28)
  {
    var t := NTSCF_V1;
    forall f, g | 0 <= f < g < |t| ensures Disjoint(t[f], t[g]) { }
    forall f | 0 <= f < |t| ensures t[f].Fits(0, 28) && Disjoint(t[f], SUBTYPE) && Disjoint(t[f], VERSION) { }
    TableIsFormat(t, 28);
  }

  lemma TscfV0Format()
    ensures FormatTable(TSCF_V0) && Within(TSCF_V0, 24)
  {
    var t := TSCF_V0;
    forall f, g | 0 <= f < g < |t| ensures Disjoint(t[f], t[g]) { }
    forall f | 0 <= f < |t| ensures t[f].Fits(0, 24) && Disjoint(t[f], SUBTYPE) && Disjoint(t[f], VERSION) { }
    TableIsFormat(t, 24);
  }

  lemma TscfV1Format()
    ensures FormatTable(TSCF_V1) && Within(TSCF_V1, 40)
  {
    var t := TSCF_V1;
    forall f, g | 0 <= f < g < |t| ensures Disjoint(t[f], t[g]) { }
    forall f | 0 <= f < |t| ensures t[f].Fits(0, 40) && Disjoint(t[f], SUBTYPE) && Disjoint(t[f], VERSION) { }
    TableIsFormat(t, 40);
  }

  lemma CvfV0Format()
    ensures FormatTable(CVF_V0) && Within(CVF_V0, 24)
  {
    var t := CVF_V0;
    forall f, g | 0 <= f < g < |t| ensures Disjoint(t[f], t[g]) { }
    forall f | 0 <= f < |t| ensures t[f].Fits(0, 24) && Disjoint(t[f], SUBTYPE) && Disjoint(t[f], VERSION) { }
    TableIsFormat(t, 24);
  }

  lemma CanV2Separate()
    ensures Separate(CAN_V2) && Within(CAN_V2, 16)
  {
    var t := CAN_V2;
    forall f, g | 0 <= f < g < |t| ensures Disjoint(t[f], t[g]) { }
    forall f | 0 <= f < |t| ensures t[f].Fits(0, 16) { }
    SeparateAll(t);
  }
}
