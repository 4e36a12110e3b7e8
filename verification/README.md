# Open1722 in Dafny

A model of the parts of Open1722 (serialisation of IEEE 1722 / AVTP) that carry
properties over unbounded input, and proofs of those properties. Code that
works in place is modelled in place: arrays for packet buffers, classes for the
talkers and listeners, loops where the sources loop.

The files follow the program.

| layer | files |
|---|---|
| machine words, byte order, octet strings | `Words`, `ByteOrder`, `Octets` |
| bit fields: what a field is, and the engine that reads and writes it | `FieldSpec`, `FieldEngine` |
| headers: tables, version dispatch, the record they implement, whole-header codec, CRF | `HeaderTables`, `HeaderRecord`, `HeaderCodec`, `CrfHeader` |
| video: start codes, packet, talker, listener, end to end | `StartCodes`, `CvfPdu`, `CvfTalker`, `CvfListener`, `VideoStream` |
| time and scheduled presentation | `Timestamps`, `Presentation` |
| media clock: packet, talker, recovery, lookup, listener, end to end | `CrfPdu`, `CrfTalker`, `MediaClock`, `ClockLookup`, `CrfListener`, `ReferenceStream` |
| CAN bridge: frame, message, control formats, message framing, bridge | `CanFrame`, `CanMessage`, `ControlFormat`, `Framing`, `CanBridge` |

Main results, in the order of the layers:

- The field engine reads exactly the big-endian value of the bits a descriptor
  names and writes exactly those bits, for fields of up to 64 bits across three
  quadlets, on hosts of either byte order (`GetField`, `SetField`).
- After any sequence of version-dispatched setter calls the bytes still
  implement a record: every field holds what was last written to it, the version
  is what it was (`RunRefinesRecord`, `LastWriteWins`). For CRF, headers and
  records correspond one to one (`CrfEncodeDecode`, `CrfDecodeEncode`), and the
  mirrored sequence number always agrees (`MirrorAgreement`).
- The skipping start code search finds the first start code
  (`StartCodePosition`). What the video talker sends does not depend on how its
  reads split the stream (`ChunkIndependence`, `Talker.Run`). For every stream
  the octets sent are the first ones of those from the first start code on, and
  they are all of them, sent unit by unit without an error, if and only if no
  unit is longer than 1400 octets and the first one does not meet a full buffer
  (`SentExactly`). Behind a link that may lose packets the listener presents the
  units delivered, in order, each not before the talker's deadline for it, and
  reports the gaps (`LossyLink`, `EndToEndOnTime`); if nothing is lost it
  presents the talker's input from the first start code on (`EndToEnd`;
  `TalkerToListener` runs both sides on any input).
- The listener's timer follows the head of its queue in every run and nothing is
  presented early (`RunKeeps`, `NoStrayExpiry`). A queue can be presented to the
  end exactly when nothing in it is due at time zero (`CanEmptyExactly`).
- The recovered 64-bit time is the talker's exactly under the condition in
  `RecoversExactly`.
- The recovered media clock has no gaps over a contiguous stream (`GapFree`),
  only moves forward by whole periods under loss (`Monotone`, `WholeSteps`), and
  its lookup ends exactly when `Findable` holds (`LookupEnds`,
  `LookupNeverEnds`, `FindableExactly`). From a CRF talker's packets to the
  audio packets of a receiver behind it, every timestamp is that of the talker's
  stream (`TalkerToReceiver`).
- CAN frames packed into a PDU and unpacked by a receiver come back unchanged
  exactly when there are at most 15 of them, all of legal length and canonical,
  in each of the four formats and whichever end is in FD mode; and 15 frames fit
  an Ethernet frame (`BridgeRoundTrip`, `CanonicalExactly`).
- The data of a PDU is accepted exactly when it is a concatenation of at most 15
  valid messages, or reaches past 65535 octets, where the receiver's 16-bit
  count of it wraps around (`AcceptedPdu`, `OutcomeExactly`, `LongPdu`).

Words are naturals below a power of two, and the C operators on them are
functions on naturals (`Words`). Wrap-around and truncation are written out.

Notes on what the code does:

- **Time zero.** A presentation time of zero disarms the timer instead of
  setting it (`timerfd_settime`), so an entry due at time zero blocks the queue
  from there on for good (`ZeroTimeBlocks`), and a queue can empty if and only
  if it holds no such entry (`CanEmptyExactly`). The recovered time is zero
  exactly for `avtp_time` 0 with a clock at zero or in the last 2^32 ns a 64-bit
  count holds (`ZeroTimeExactly`).
- **Long PDUs.** `avtp_to_can` counts the end of the data in a `uint16_t`. A
  valid PDU whose header and data reach past 65535 octets is counted to end
  before its data starts, so nothing is read and the call returns 0, although
  the data is too long to be 15 messages (`OutcomeExactly`: if and only if;
  `LongPdu` and `TscfIsLong`: such PDUs exist, 65559 octets of TSCF for one). A
  caller that checks `pdu_length <= 0xFFFF` does not meet this.
- **Last 2^32 ns.** There `get_presentation_time` wraps around and returns a
  time in the past (`BeyondWord`).
- **Lookup.** `mclk_lookup` does not end for a time that is neither queued nor
  congruent modulo 8 to the last timestamp. `Lookup` requires the condition;
  `LookupNeverEnds` shows that it is needed.
- **Front octets.** Octets in front of the first 00 00 01 are dropped, so of a
  stream that begins 00 00 00 01, as Annex B.1.1 of ITU-T Rec. H.264 has it, all
  but the first octet arrives (`LeadingZero`). Nothing at all is lost if and only
  if the stream begins with 00 00 01 and no unit is too long (`NothingLost`).
- **Full buffer.** With the video buffer full, a read of zero octets is taken
  for the end of the input. It loses octets of a unit if and only if the stream
  has a start code, is longer than the 2856 octets of the buffer, and the start
  code that ends its first unit is not among them (`Roomy`); then at most one
  unit is sent, cut where the buffer ends, and the talker may report success
  (`BufferFills`). Two inputs: 2857 octets of 0xFF in front of a unit of four, of
  which nothing is sent (`NothingSent`), and 1500 octets in front of a unit of
  2000, of which the first 1356 octets are sent (`CutUnitSent`). With the first
  start code among the first 1454 octets it cannot happen unless a unit is too
  long (`EarlyCode`), and the level at every read stays below the size of the
  buffer (`LevelsBounded`).
- **CAN flags.** `prepare_acf_packet` marks an identifier as extended by its
  value and not by the frame's EFF flag, drops the ERR flag, and sets FDF in FD
  mode. So some frames come back changed: `BridgeRoundTrip` says into what,
  `CanonicalExactly` which ones do not change.
- **Classic mode.** A receiver in classic mode takes a message exactly when one
  in FD mode does, with up to 64 octets of data if FDF is set, and drops the
  flags (`ClassicMode`; `LongInClassicMode`: there are such messages).

## Model

| member | source | states |
|---|---|---|
| `ByteOrder.Bswap32Reverses` | include/avtp/Byteorder.h:53-60 | the shifts and masks reverse the four octets of a word |
| `ByteOrder.LoadIsBigEndian` | include/avtp/Byteorder.h:112-115 | loading and converting gives the network-order word on either host |
| `ByteOrder.StoreIsBigEndian` | include/avtp/Byteorder.h:88-91 | converting and storing lays a word out in network order on either host |
| `FieldEngine.GetField` | include/avtp/Utils.h:72-106 | for every descriptor in the buffer the loop returns the big-endian value of exactly its bits; 0 for a field outside the table; it terminates |
| `FieldEngine.SetField` | include/avtp/Utils.h:117-149 | the loop makes the buffer equal to the old one with exactly the bits of the field replaced by the low bits of the value |
| `FieldEngine.ReadSlice` | include/avtp/Utils.h:89-101 | the digits of the field that one quadlet holds, bit by bit |
| `FieldEngine.WriteSlice` | include/avtp/Utils.h:136-144 | one quadlet rewritten: the field's digits replaced, every other bit of the buffer kept |
| `FieldSpec.GetPut` | include/avtp/Utils.h:72-149 | a field written is read back modulo its width |
| `FieldSpec.GetPutOther` | include/avtp/Utils.h:72-149 | writing a field leaves every field disjoint from it alone |
| `HeaderTables.CshV0Format` | include/avtp/CommonStreamHeader.h:103-116 | the fields of the table do not overlap each other, subtype or version |
| `HeaderTables.CshV1Format` | include/avtp/CommonStreamHeader.h:118-131 | the same for version 1 |
| `HeaderTables.AhV1Format` | include/avtp/AlternativeHeader.h:103-107 | the same for the alternative header |
| `HeaderTables.CrfV0Format` | include/avtp/Crf.h:143-160 | the same for CRF, version 0 |
| `HeaderTables.CrfV1Format` | include/avtp/Crf.h:167-184 | the same for CRF, version 1 |
| `HeaderTables.CvfV0Format` | include/avtp/cvf/Cvf.h:140-161 | the same for CVF, version 0 |
| `HeaderRecord.SupportedVersions` | include/avtp/CommonHeader.h:127-133 | the mask shared by these formats admits versions 0 and 1 only |
| `HeaderRecord.GetFieldDispatched` | include/avtp/CommonStreamHeader.h:219-227 | the getter reads the field of the table that the version bits of the buffer select |
| `HeaderRecord.SetFieldDispatched` | include/avtp/CommonStreamHeader.h:270-279 | the setter writes the field of that table and nothing else |
| `HeaderRecord.StreamHeaderUsable` | include/avtp/CommonStreamHeader.h:103-131 | every buffer with room for the header of its version can be accessed |
| `HeaderRecord.AlternativeHeaderUsable` | include/avtp/AlternativeHeader.h:97-107 | the same for the alternative header |
| `HeaderRecord.RunRefinesRecord` | include/avtp/CommonStreamHeader.h:219-279 | over every sequence of dispatched setter calls the bytes refine a record; version, subtype and all bits of no field are unchanged |
| `HeaderRecord.RunExists` | include/avtp/CommonStreamHeader.h:270-279 | no setter call makes the next one impossible |
| `HeaderRecord.LastWriteWins` | include/avtp/Crf.h:224-276 | afterwards the getter returns the last value written modulo the width, the initial value of a field never written, 0 for a field the version does not have |
| `HeaderCodec.EncodeDecode` | include/avtp/Crf.h:143-184 | for tables that partition a header: writing all decoded values into any buffer reproduces the header byte for byte |
| `HeaderCodec.DecodeEncode` | include/avtp/Crf.h:143-184 | and values within their widths survive being written and read back |
| `CrfHeader.CrfPartitions` | include/avtp/Crf.h:143-184 | subtype, version and the table share out all bits of the CRF header, in each version |
| `CrfHeader.CrfEncodeDecode` | include/avtp/Crf.h:143-184 | any 20 or 36 octet CRF header is reproduced from its field values |
| `CrfHeader.CrfDecodeEncode` | include/avtp/Crf.h:143-184 | field values within their widths survive the opposite trip |
| `CrfHeader.IsValid` | include/avtp/Crf.h:740-771 | true exactly for subtype CRF, version 0 or 1, a header that fits, and a data length that is a positive multiple of 8 and fits |
| `CrfHeader.InitV1` | include/avtp/Crf.h:714-722 | the octets that initialisation leaves, in any buffer |
| `CrfHeader.SetSequenceNum` | include/avtp/Crf.h:517-527 | version 1 writes the number and its mirror, version 0 the low octet only |
| `CrfHeader.MirrorAgreement` | include/avtp/Crf.h:470-605 | from InitV1, after any sequence of named setters, dispatched or typed, the mirror is the number modulo 256 and version and subtype hold |
| `StartCodes.StartCodePosition` | examples/cvf/cvf-talker.c:167-185 | the skipping search returns the first start code at or after the offset, or -1 when there is none |
| `StartCodes.FindIsFirst` | examples/cvf/cvf-talker.c:167-185 | what "first start code" means |
| `StartCodes.UnitsPartition` | examples/cvf/cvf-talker.c:210-256 | the units of a stream concatenate to it, and each has one start code, at its front |
| `StartCodes.UnitsUnique` | examples/cvf/cvf-talker.c:210-256 | there is no other way to cut a stream into such units |
| `StartCodes.PayloadPartition` | examples/cvf/cvf-talker.c:210-256 | the same from the first start code of any stream on, and nothing if there is none |
| `StartCodes.PayloadIsAll` | examples/cvf/cvf-talker.c:216-220 | that is the whole stream exactly if a start code is at its front |
| `CvfPdu.InitPdu` | examples/cvf/cvf-talker.c:139-151 | all fields of the header and of the H.264 header behind it: version 0, sv, m, tv, the H.264 subtype and the stream set, everything else zero; one that the listener's checks accept |
| `CvfPdu.Parse` | examples/cvf/cvf-listener.c:170-269 | an accepted packet of at most 1428 octets yields a unit of at most 1400 octets |
| `CvfPdu.PreparedPacket` | examples/cvf/cvf-talker.c:187-208 | a prepared packet is parsed to the unit, time and number it was prepared with |
| `CvfTalker.ReferenceIsUnits` | examples/cvf/cvf-talker.c:210-256 | for every stream that does not fill the buffer in front of the end of its first unit: the talker sends the units from the first start code on, up to the first that is too long, without an error exactly if none is |
| `CvfTalker.FrontSkipped` | examples/cvf/cvf-talker.c:216-252 | then the octets in front of the first start code make no difference |
| `CvfTalker.BufferFills` | examples/cvf/cvf-talker.c:277-302 | otherwise at most one unit is sent, cut where the buffer ends; which, and with what result |
| `CvfTalker.SentExactly` | examples/cvf/cvf-talker.c:277-302 | for every stream the octets sent are the first of those from the first start code on; they are all of them, unit by unit and without an error, if and only if the stream is sendable |
| `CvfTalker.NothingLost` | examples/cvf/cvf-talker.c:277-302 | the octets sent are the whole stream if and only if it begins with a start code and no unit is too long |
| `CvfTalker.EarlyCode` | examples/cvf/cvf-talker.c:277-302 | with the first start code at offset 1453 or before, a stream is sendable if and only if no unit is too long |
| `CvfTalker.LeadingZero` | examples/cvf/cvf-talker.c:216-220 | a zero octet in front of the first start code is dropped, and nothing else |
| `CvfTalker.JunkSendable` | examples/cvf/cvf-talker.c:153-165 | octets 0xFF in front of a single unit: sendable exactly if both fit the buffer and the unit a packet |
| `CvfTalker.NothingSent` | examples/cvf/cvf-talker.c:277-302 | a stream of which nothing is sent although its one unit fits, with success reported |
| `CvfTalker.CutUnitSent` | examples/cvf/cvf-talker.c:277-302 | a stream of which the front of a unit too long is sent as a unit, with success reported |
| `CvfTalker.MainIsReference` | examples/cvf/cvf-talker.c:277-302 | whatever is buffered and unread, and however reads split it, the outcome is that of the whole stream |
| `CvfTalker.ChunkIndependence` | examples/cvf/cvf-talker.c:277-302 | the units sent and the result depend on the stream alone |
| `CvfTalker.LevelsBounded` | examples/cvf/cvf-talker.c:153-165 | when all units fit and p octets are in front of the first, at every read at most p + 1402 octets are buffered |
| `CvfTalker.Talker.constructor` | examples/cvf/cvf-talker.c:258-275 | an empty buffer and an initialised packet |
| `CvfTalker.Talker.FillBuffer` | examples/cvf/cvf-talker.c:153-165 | the octets read are appended to those buffered |
| `CvfTalker.Talker.PreparePacket` | examples/cvf/cvf-talker.c:187-208 | the packet carries the unit, the time and the number, and the number counts on in 8 bits |
| `CvfTalker.Talker.ProcessNal` | examples/cvf/cvf-talker.c:210-256 | the front unit goes into the packet and everything up to its end leaves the buffer; without a unit, or with one too long, nothing changes |
| `CvfTalker.Talker.Drain` | examples/cvf/cvf-talker.c:284-297 | units are sent until the buffer yields none |
| `CvfTalker.Talker.Run` | examples/cvf/cvf-talker.c:277-308 | the packets sent carry exactly the reference's units in order, stamped with the clock and numbered from 0 modulo 256, and the result is the reference's |
| `CvfListener.IsNumbered` | examples/cvf/cvf-listener.c:170-200 | the checks before the sequence number |
| `CvfListener.Listener.IsValidPacket` | examples/cvf/cvf-listener.c:170-219 | exactly which packets are valid, and how the expected number is resynchronised |
| `CvfListener.Granted` | examples/cvf/cvf-listener.c:221-266 | an acceptable packet yields the octets behind both headers, of the declared length |
| `CvfListener.Refused` | examples/cvf/cvf-listener.c:243-252 | every other packet is dropped |
| `CvfListener.Listener.NewPacket` | examples/cvf/cvf-listener.c:227-269 | receiving a packet counts its number and schedules its unit for the recovered time, or drops it |
| `VideoStream.StreamConserved` | examples/cvf/cvf-talker.c:210-302 | for every stream and however reads split it: the units from the first start code on are sent, all and without an error, if and only if the stream is sendable; the octets sent are a prefix of theirs; the level at a read is bounded |
| `VideoStream.LossyLink` | examples/cvf/cvf-listener.c:170-305 | for every input and every link that keeps the order of packets but may lose some: presented and then waiting are exactly the units of the packets delivered, and the reports count the places where packets are missing, but for multiples of 256 of them |
| `VideoStream.EndToEnd` | examples/cvf/cvf-listener.c:227-305 | for every input and whatever time and timer do, as long as the link has lost nothing: no gap is reported, the octets presented are a prefix of the input from its first start code on, and once everything sent has been received and presented they are all of it if and only if the input is sendable |
| `VideoStream.EndToEndOnTime` | examples/cvf/cvf-listener.c:227-305 | with every packet delivered before the talker's deadline and less than 2^32 ns ahead of it: the units delivered are presented in order, each not before its deadline, and everything waiting is due at its full deadline |
| `VideoStream.TalkerToListener` | examples/cvf/cvf-talker.c:258-308 | all of this from the talker's main loop to the listener's events, for any input but of a single octet, over CVF version 0 packets and any such link; for a sendable input the talker succeeds |
| `Timestamps.CalculateAvtpTime` | examples/common/common.c:53-70 | the low 32 bits of clock plus transit time, although the 64-bit sum may wrap around |
| `Timestamps.GetPresentationTime` | examples/common/common.c:72-102 | the recovered time, split into seconds and nanoseconds |
| `Timestamps.RecoverIsUnique` | examples/common/common.c:84-97 | it is the one time from now to 2^32 ns ahead with the given low bits, exactly unless that time exceeds a 64-bit word |
| `Timestamps.RecoversExactly` | examples/common/common.c:84-97 | a time is recovered from its low bits if and only if it is now or less than 2^32 ns ahead, or in the case beyond the word |
| `Timestamps.DeadlineRecovered` | examples/common/common.c:53-102 | the listener recovers the talker's full deadline when it is less than 2^32 ns ahead |
| `Presentation.Scheduler.Schedule` | examples/cvf/cvf-listener.c:136-168 | an entry joins the queue, and the timer is set if it is the first |
| `Presentation.Scheduler.HandleExpiry` | examples/cvf/cvf-listener.c:271-305 | the head is presented and removed, and the timer set for the next |
| `Presentation.StepKeepsTimer` | examples/aaf/aaf-listener.c:128-159 | every event keeps the timer on the head of the queue |
| `Presentation.TimerIsLive` | examples/aaf/aaf-listener.c:273-307 | the timer is armed or expired exactly when something that can become due is waiting; an expiry never meets an empty queue; accepting data never disturbs a live timer |
| `Presentation.RunKeeps` | examples/aaf/aaf-listener.c:128-307 | over every run: presented then waiting is what was accepted, in order; nothing is presented early; the timer follows the head |
| `Presentation.NoStrayExpiry` | examples/aaf/aaf-listener.c:286-287 | from the start no expiry ever meets an empty queue |
| `Presentation.AllPresented` | examples/aaf/aaf-listener.c:273-307 | as time passes everything waiting is presented, in order, if nothing in it is due at time zero |
| `Presentation.ZeroTimeBlocks` | examples/common/common.c:104-119 | an entry due at time zero, wherever it is in the queue: neither it nor what is behind it is ever presented |
| `Presentation.CanEmptyExactly` | examples/aaf/aaf-listener.c:273-307 | some run without new data empties the queue if and only if no entry is due at time zero |
| `Presentation.ZeroTimeExactly` | examples/common/common.c:72-102 | a recovered time is zero if and only if the AVTP time is and the clock is at zero or in the last 2^32 ns |
| `CrfPdu.InitPdu` | examples/crf/crf-talker.c:153-162 | all fields of the header: type, stream, pull, base frequency, timestamp interval and data length set, everything else zero, the payload kept; one that the listener's checks accept |
| `CrfTalker.NoDrift` | examples/crf/crf-talker.c:215-219 | the clock stays normalised and is start plus k times 20 ms |
| `CrfTalker.SentOnTime` | examples/crf/crf-talker.c:194-219 | of the timestamps in the packets sent, up to the overflow of 64 bits: each lags the ideal one by less than 2 ns, without adding up, and they rise strictly, across packets too |
| `CrfTalker.PacketsContiguous` | examples/crf/crf-talker.c:194-219 | packets start 160 media clock periods apart |
| `CrfTalker.Talker.FillPayload` | examples/crf/crf-talker.c:198-202 | six timestamps in network order, one CRF period apart |
| `CrfTalker.Talker.SendPdu` | examples/crf/crf-talker.c:197-219 | one packet, which the listener reads as its first timestamp and number, and one step of the clock |
| `CrfTalker.Talker.Run` | examples/crf/crf-talker.c:194-221 | n packets; packet k is read as the time of the clock after k steps and the number k modulo 256, and timestamp j of all those sent, six to a packet, is time j of the stream modulo 2^64 |
| `CrfListener.IsTsAligned` | examples/crf/crf-listener.c:509-531 | Equation 16 of IEEE 1722 on the signed 32-bit difference, although the bounds are truncated to integers |
| `CrfListener.Clock.DequeueTs` | examples/crf/crf-listener.c:213-224 | takes the head of the queue |
| `CrfListener.Clock.EnqueueTs` | examples/crf/crf-listener.c:226-240 | appends to the queue |
| `CrfListener.Clock.GetNext` | examples/crf/crf-listener.c:242-256 | draws from the queue, or extrapolates and asks for a lookup |
| `CrfListener.Clock.RecoverMclk` | examples/crf/crf-listener.c:470-507 | queues the 160 timestamps of a packet that lie above the last one drawn |
| `CrfListener.Clock.Lookup` | examples/crf/crf-listener.c:258-266 | draws up to the first timestamp with the wanted low bits |
| `CrfListener.Clock.HandleAaf` | examples/crf/crf-listener.c:541-568 | looks up or draws once, judges alignment and reports changes; after a lookup the packet is aligned |
| `CrfListener.Clock.IsValidCrfPdu` | examples/crf/crf-listener.c:268-339 | exactly which packets are valid, and how the expected number is resynchronised |
| `CrfListener.Clock.HandleCrf` | examples/crf/crf-listener.c:533-539 | a valid packet tops up the clock from its first timestamp, any other leaves it alone; the next expected number, and whether a wrong one is reported |
| `CrfListener.Clock.RecvPdu` | examples/crf/crf-listener.c:570-614 | talker mode: the same for a packet of the right size, the first of which also sets the transmission timer to the first timestamp; one of another size changes nothing |
| `CrfListener.Clock.TxTimeout` | examples/crf/crf-listener.c:434-465 | one audio packet per expiration, stamped with consecutive clock timestamps and numbered modulo 256 |
| `MediaClock.DrawInStream` | examples/crf/crf-listener.c:242-256 | drawing steps through the stream whether queued or extrapolated |
| `MediaClock.PacketInStream` | examples/crf/crf-listener.c:481-504 | the next packet extends the queue, less what has been extrapolated already, however late it is |
| `MediaClock.GapFree` | examples/crf/crf-listener.c:242-256 | over a contiguous stream and any interleaving of packets and draws, the timestamps drawn are the stream's, one after the other |
| `MediaClock.ExactSteps` | examples/crf/crf-listener.c:242-256 | consecutive timestamps drawn differ by exactly one period |
| `MediaClock.FirstPacket` | examples/crf/crf-listener.c:470-507 | the first packet puts an idle clock on its stream, unless all of it is late |
| `MediaClock.TimerStart` | examples/crf/crf-listener.c:597-599 | taking the first timestamp off without recording it keeps the clock on its stream |
| `MediaClock.PacketOrdered` | examples/crf/crf-listener.c:481-504 | the queue stays strictly sorted above the last timestamp drawn |
| `MediaClock.Monotone` | examples/crf/crf-listener.c:242-256 | under loss the timestamps drawn strictly increase in every run |
| `MediaClock.WholeSteps` | examples/crf/crf-listener.c:242-256 | and if packets are in phase, by positive whole periods |
| `ClockLookup.StepsHit` | examples/crf/crf-listener.c:258-266 | extrapolation reaches every time congruent modulo 8, within 2^29 periods |
| `ClockLookup.HitsOnce` | examples/crf/crf-listener.c:258-266 | once only in 2^29 periods |
| `ClockLookup.LookupEnds` | examples/crf/crf-listener.c:258-266 | the lookup ends with the first match, after at most queue length plus 2^29 timestamps |
| `ClockLookup.LookupNeverEnds` | examples/crf/crf-listener.c:258-266 | otherwise no timestamp that will ever be drawn matches |
| `ClockLookup.FindableExactly` | examples/crf/crf-listener.c:258-266 | which is which: a queued timestamp matches, or the last one is congruent modulo 8 |
| `CrfListener.StaysAligned` | examples/crf/crf-listener.c:541-568 | an audio stream on the clock is found aligned packet after packet, through late and missing reference packets, and every lookup draws one timestamp |
| `CrfListener.TicksInStream` | examples/crf/crf-listener.c:446-463 | the timestamps of consecutive transmissions are those of the stream |
| `ReferenceStream.ServedInStream` | examples/crf/crf-listener.c:434-507 | the talker's packets, and others that the receiver ignores, keep its clock on their stream, however they interleave with expirations of its timer |
| `ReferenceStream.ReceiveStream` | examples/crf/crf-listener.c:434-614 | a fresh receiver handed a talker's packets without a loss, at any time: its timer starts at the first time of the stream, and audio packet i carries the time i + 1 periods later and the number i modulo 256 |
| `ReferenceStream.TalkerToReceiver` | examples/crf/crf-talker.c:194-221 | the same from the talker's main loop to the audio packets, over CRF version 0 packets and any such link |
| `CanFrame.FlagsSet` | examples/acf-can/acf-can-common.c:417-427 | setting the flags of an identifier one by one |
| `CanFrame.CanonicalExactly` | examples/acf-can/acf-can-common.c:176-225 | exactly which frames survive packing and unpacking unchanged, from flags, identifier and data |
| `CanMessage.CreateAcfMessage` | include/avtp/acf/CanV2.h:421-441 | the header, the data and the zeroed padding of a message, and nothing else in the buffer |
| `CanMessage.SetPayloadLength` | include/avtp/acf/CanV2.h:365-375 | pads to whole quadlets with zeros and declares length and padding |
| `CanMessage.PrepareAcfPacket` | examples/acf-can/acf-can-common.c:176-225 | the complete message for a frame, of the length returned, and nothing else in the buffer |
| `CanMessage.IsValid` | include/avtp/acf/CanV2.h:451-486 | exactly which message headers are valid for the octets at hand |
| `CanMessage.ReadFrame` | examples/acf-can/acf-can-common.c:393-458 | the frame of a valid message, from a cleared slot; fails exactly for an unmarked identifier above 0x7FF |
| `CanMessage.ReadsBack` | examples/acf-can/acf-can-common.c:176-225 | the message of a frame is read as the frame's canonical form for the mode of both ends, or rejected if its length is not legal for the talker |
| `CanMessage.ClassicMode` | include/avtp/acf/CanV2.h:473-485 | classic mode takes exactly the messages that FD mode takes, with the same frame but for its flags; more than 8 octets only if FDF is set |
| `CanMessage.LongInClassicMode` | examples/acf-can/acf-can-common.c:440-458 | the FD message of any frame of more than 8 octets is read in classic mode, with all its data |
| `ControlFormat.InitCfPdu` | examples/acf-can/acf-can-common.c:119-152 | the header of any of the four formats: valid bit, number with its mirror, stream; all other fields zero |
| `ControlFormat.UpdateCfLength` | examples/acf-can/acf-can-common.c:154-174 | the data length, whatever the format |
| `Framing.TiledExactly` | examples/acf-can/acf-can-common.c:380-461 | for any kind of message: data is accepted exactly when it is a concatenation of at most so many messages |
| `Framing.PendingIsRead` | examples/acf-can/acf-can-common.c:380-461 | reading message by message in place, with items done so far and room left, yields what reading the rest as a whole does |
| `Framing.TooManyOctets` | examples/acf-can/acf-can-common.c:380-461 | more octets than so many messages can have are rejected |
| `CanBridge.AcceptedExactly` | examples/acf-can/acf-can-common.c:380-461 | octets read as a whole are accepted exactly when they are a concatenation of at most 15 CAN messages |
| `CanBridge.IsOneMessage` | examples/acf-can/acf-can-common.c:393-422 | a message: valid, exactly as long as declared, no unmarked identifier |
| `CanBridge.CanToAvtp` | examples/acf-can/acf-can-common.c:227-262 | for up to 255 frames: a PDU of exactly the octets of headers and messages, with numbers, the data length cut to its field, and the messages of all frames in order |
| `CanBridge.FewFit` | examples/acf-can/acf-can-common.h:55 | up to 15 frames take at most 1244 octets, less than the 1500 of the buffers |
| `CanBridge.OpenPdu` | examples/acf-can/acf-can-common.c:303-364 | where the control format PDU lies in the octets received, if its header is valid and of the stream; its end is counted in 16 bits |
| `CanBridge.ReadMessages` | examples/acf-can/acf-can-common.c:380-462 | the loop, with its counters of 8 and 16 bits, terminates with all frames and their number, or with -1; other slots keep their frames |
| `CanBridge.AvtpToCan` | examples/acf-can/acf-can-common.c:264-462 | the result, the frames and the next expected numbers for every buffer and every number of octets received, with the end of the data counted in 16 bits |
| `CanBridge.EndCounted` | examples/acf-can/acf-can-common.c:303-358 | the PDU found declares so many octets, all received; the end taken for it is start plus that number, modulo 65536 |
| `CanBridge.OutcomeExactly` | examples/acf-can/acf-can-common.c:272-402 | the outcome is that of the data declared if and only if header and data end below 65536; otherwise no frames are read and none is missed |
| `CanBridge.AcceptedPdu` | examples/acf-can/acf-can-common.c:272-402 | a PDU found is accepted exactly when its data is a concatenation of at most 15 messages or ends past 65535 |
| `CanBridge.LongPdu` | examples/acf-can/acf-can-common.c:272-402 | for every format and data length past that: a PDU that is accepted as empty although its data is rejected |
| `CanBridge.TscfIsLong` | include/avtp/acf/Tscf.h:45-150 | TSCF has such PDUs in either version, 65559 octets in version 0 |
| `CanBridge.PackedIsLocated` | examples/acf-can/acf-can-common.c:303-364 | in a packed PDU of any of the formats, below 2048 octets of data, the receiver finds all data and the number |
| `CanBridge.SendAndReceive` | examples/acf-can/acf-can-common.c:227-462 | `CanToAvtp`, then `AvtpToCan` on its octets, each end in FD mode or not: for up to 15 frames, all come back in the canonical form of both modes if all lengths are legal, otherwise the PDU is rejected; the next expected numbers are those after the ones sent |
| `CanBridge.RoundTripExactly` | examples/acf-can/acf-can-common.c:176-225 | what comes back is what was sent if and only if every frame is canonical and of legal length |
| `CanBridge.CameBackExactly` | examples/acf-can/acf-can-common.c:227-462 | from the result and the array after the call: the same frames have come back if and only if there are at most 15 and all are unchanged |
| `CanBridge.BridgeRoundTrip` | examples/acf-can/acf-can-common.c:227-462 | both of these for CAN messages of version 2 in each of the four formats, with or without UDP; the PDU of up to 15 frames fits 1500 octets |
| `CanBridge.AllFormatsKnown` | examples/acf-can/acf-can-common.c:303-361 | the receiver knows each of the four formats |

## Left out

- Sockets, poll, clocks and standard streams: inputs, events and an output log. A failed system call or allocation ends the program and is not modelled.
- `mtt`, `rounded_mtt`: the floating point rounding of the transit time; any 64-bit constant is allowed. `PrepareAcfPacket` takes the message timestamp as a parameter, since the source computes it in floating point.
- `IsTsAligned`: the bounds are computed over the reals, without the rounding of `double`, which the truncation to integers hides.
- `StartCodePosition`: with fewer than two octets buffered the source's bound underflows; two are required.
- `CvfTalker.Talker.Run`: requires a first read of at least two octets, unless the input is empty, for the same reason, and so does `TalkerToListener`.
- `Lookup`: requires a time that can be found, since the loop does not end for others.
- `HandleAaf`: requires the same when a lookup is due.
- `RecvPdu`: requires that the first packet has queued something; the source dereferences an empty queue otherwise.
- `GapFree`: assumes that the 64-bit nanosecond count does not overflow during the run, as do `Monotone`, `KeepsPhase`, `StaysAligned`, `ServedInStream`, `ReceiveStream` and `SentOnTime`.
- The checks of the audio (PCM) header in the AAF listener and of audio packets in the CRF listener: field comparisons like those of the video listener. Queue and timer are the same as the video listener's.
- `Avtp_Bswap16`, `Avtp_Bswap64` and the little-endian conversions: the field engine does not use them. 64-bit CRF timestamps are stored and read as octets in network order.
- The per-field named accessors: one theorem over descriptor tables covers them.
- The field `len8_dlc` of a classic CAN frame, which the bridge neither sends nor sets.
- The other CAN message variants (`Can`, `CanBrief`, `CanBriefV2`) and the Zephyr frame layout.
- The H.264 header's timestamp, which the talker sets to the zero it already holds.
- NULL handling, pointer aliasing and alignment: byte arrays with bounds.
- Other formats (VSS, LIN, FlexRay, MOST, sensor and so on), the kernel module, benchmarks and build files.
