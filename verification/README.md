# Bitchat repeater: a verified model

A Bluetooth mesh repeater receives packets from its neighbours, remembers them, and sends each one on to the
neighbours that have not had it yet. This project models the three parts of that firmware that carry its logic, and
proves what they are for.

* **The wire codec.** `BinaryReader.dfy`, `BinaryWriter.dfy`, `ProtocolWriter.dfy` and `ProtocolParser.dfy` are the
  cursor, the writer, the flag-driven printer and the parser, as classes and methods. Each method is proved against a
  function from bytes to value or from value to bytes. `Wire.dfy` says in numbers what those bytes are. `RoundTrip.dfy`
  and `Relay.dfy` prove that the two functions undo each other, and that a relay changes the time to live and nothing
  else. `Identity.dfy` proves which packets count as the same.
* **The log ring.** `CircularBuffer.dfy` is the ring buffer on its array. `Ring.dfy` proves that it refines a bounded
  queue, by reading the slots as a shift register. `Lines.dfy`, `Drain.dfy` and `Logging.dfy` are the line extractor
  and the loop that prints the log.
* **The relay state machine.** `BleConnectionTracker.dfy` and `ProtocolProcessor.dfy` are the tracker and the packet
  dispatch, as a class and methods that update its tables. Every method is proved equal to a step of `TrackerModel.dfy`
  on the state the fields stand for. `Invariants.dfy`, `Sending.dfy`, `Runs.dfy`, `PeerRuns.dfy`, `Connections.dfy`,
  `Records.dfy`, `Cleaning.dfy`, `Writability.dfy`, `Duplicates.dfy` and `Clock.dfy` prove what every step keeps and what
  holds over every run.
  `Mesh.dfy`, `Flood.dfy` and `Reach.dfy` put any number of repeaters together and follow one packet through all of them.

`Counterexamples.dfy`, `AnnounceRuns.dfy` and `LogRuns.dfy` hold concrete inputs and runs on which the code does less than it is for.

## Main results

1. **Flooding** (`FloodBounds.FloodTerminates`). In any network, whatever the links, and with copies lost, delayed,
   reordered or delivered again, a flood makes at most one copy for each handle of each node, and one more only where the
   node sent its own announce, which it does not store. The time to live of every copy plus its hops is the initial time
   to live, so no copy makes more hops than that. And it arrives (`Reach.ReachesAll`): once every copy has been delivered
   and every link of every holder has a record, whoever is linked to a holder with two units of time to live left has the
   packet, and with an initial time to live of two more than there are nodes everybody whom a path leads to has it.
2. **Relay exactness** (`Relay.RelayExactIff`, `Relay.RelayChain`). Of bytes that a repeater wrote, the next one sends on
   exactly those, with byte 2 one less, if and only if the message content is not encrypted (or is empty), there are at most 255 mentions, and
   the packet is unsigned or its signature is 64 bytes of value 64. After `k` relays exactly `k` has been subtracted, and
   after one more than the time to live nothing is sent. Bytes from elsewhere may be padded, and a repeater replaces the
   padding by one zero; after that first relay every further one changes byte 2 only (`Relay.RelayedChain`).
3. **At most once, and no echo** (`Runs.AtMostOnce`, `Runs.NoEcho`), over all runs between two cleanups. Over all runs,
   what is recorded as sent to a handle is sent there again only after a cleanup that found the record stale
   (`Records.SentAgain`).
4. **Coverage** (`Sending.CoverageIff`, `Sending.NotReady`). Exactly which of the connections that are up, with their
   characteristic found, get a queued packet, as a condition on the state before the call; the others never do. A queued
   packet stays queued until then, unless a cleanup finds it old (`Cleaning.StaysQueued`).
5. **References** (`Runs.RunKeeps`). In every state of every run, every queued packet is stored, every connection that a
   list names is in the table, every peer that a stored message names as its sender is known, and every connected entry
   stores its own key as its handle. The tables say exactly what was reported and taught: which connections are up and
   since when (`Connections.UpIff`), and what is known of each peer (`PeerRuns.KnowsWhatWasTaught`). Whatever is queued can be
   written at every moment of a run if and only if no message with a strange sender id is accepted
   (`Writability.AlwaysWritableIff`).
6. **Deduplication** (`Identity.SameIff`, `Runs.AcceptedTwice`, `Runs.ForgetsIff`). Two packets other than messages are
   the same, whatever the hash, if and only if they agree in everything but time to live and signature. An id is accepted twice only after a cleanup that found the
   packet old, and a cleanup forgets an id if and only if it finds the packet old.
7. **The ring** (`CircularBuffers.CircularBuffer.Write`, `Lines.TakeLineIff`, `Drain.DrainEndsIff`). Writing appends and
   keeps the newest `fixed_size - 1` characters; exactly when a line is a prefix of the queue; and, for every ring that
   string writes leave and that is more than two lines long, exactly when the printing loop ends.
8. **Codec** (`RoundTrip.MessageRoundTripIff`, `RoundTrip.Normalisation`). Round trip and normalisation, each with its
   exact condition.

## Where the code does less than it is for

The model follows the code. For each of these the exact condition is proved, and for the larger ones there is a concrete
input or run.

* A node does not store its own announce. When a neighbour relays it back it is taken for a new packet and sent over
  handles that have had it (exactly when is `AnnounceRuns.EchoSentIff`, a whole run `AnnounceRuns.EchoedAnnounce`).
  `FloodBounds.SentOnce` says that nothing else is sent twice over a handle.
* `sendPackets` looks for "already sent" records from the packet's first record to the end of the multimap, not to the
  end of the packet's own range. A packet queued behind one at a higher address is sent to nobody and leaves the queue
  (`Sending.Silenced`; the condition is `Sending.CoverageIff`, a whole run is `Counterexamples.NeverSent`).
* `consume_line` on a wrapped ring with no newline before the physical end sets the tail to the line size when the line
  is cut short of that end beyond the head; and with the head at slot 0 it can read an old newline. Then the line is not
  a prefix of the queue (`Lines.TakeLineIff`), and the printing loop may never end (`Drain.StuckForever`,
  `Drain.NeverEndsCycling`), or search beyond the array (`Drain.NeverEndsOutside`); the condition is `Drain.DrainEndsIff`,
  and writes that lead to each of the three are `LogRuns.EndlessLog`, `LogRuns.CyclingLog` and `LogRuns.SearchOutside`.
* A message flagged as having a sender peer id, whose id does not have sixteen characters, is stored and queued with a
  null peer that the writer dereferences (`Writability.StepWritableIff`, `Counterexamples.UnwritableMessage`).
* A signature is written with a length byte and read without one (`Relay.SignatureIff`, `Counterexamples.SignedPacket`).
* Encrypted content is parsed into a field that is never written (`Relay.DroppedContent`,
  `Counterexamples.EncryptedMessage`).
* The mention count is capped at 255 and the mentions are not (`RoundTrip.MessageRoundTripIff`, `Relay.ReadsMiscounted`,
  `Counterexamples.ManyMentions`).
* Writing one item with the tail at slot 0 and the head in the last slot makes a full ring empty
  (`CircularBuffers.CircularBuffer.WriteItem`, `LogRuns.FullBecomesEmpty`); writing an empty string puts a terminator in
  slot 1 (`Ring.EmptyWriteIff`, `LogRuns.EmptyStringSpoils`).
* Announces more than five minutes apart set the clock to whichever came last. Over every run the greatest skew is learned
  if and only if no announce after the last one that has it is more than five minutes behind (`Clock.LearnsGreatestIff`,
  `Counterexamples.ClockFollowsLast`). Timestamps just after zero seen from just before the 64-bit wrap-around are
  misjudged (`Clock.LearnWindow`, `Counterexamples.ClockAcrossTheWrap`).
* The purge on disconnection compares with the address of a copy and removes nothing. After a reconnection an announce is
  due if and only if none was recorded before it (`Records.ReconnectIff`), and none is sent until a cleanup finds that
  record stale (`Records.SentAgain`); a whole run is `AnnounceRuns.NotAnnouncedAgain`.
* Cleanup divides a packet's timestamp by a thousand for the stores but not for the list of packets sent. Exactly when a
  record is lost before its packet is `Records.RecordLostIff`, exactly when it outlives it `Records.RecordOutlivesIff`;
  one run for each is `Counterexamples.RecordLost` and `Counterexamples.RecordOutlives`.

## How the surroundings enter

* A stored packet is known by its address, a natural number. Multimaps keyed by packet pointers are ordered by it. Every
  event that may store a packet brings the address it would go to, which must be free.
* A connection is known by its key in the connection table, and stores a handle of its own that may differ.
* The string hash (32 bits wide, as on the target), the decompressor, the node's own id and its announced name are
  parameters (`Config`), and so are the clock readings. Nothing is assumed about them; two packets may collide.
* The timestamp found behind a record whose packet has been freed is a parameter of cleanup (`Leftover`).
* The two multimaps of raw packets are one list of handles and bytes (`rawPackets`) beside one list of what was sent.
* `Receive` stands for a write from a neighbour, which names the entry of the connection table.
* A null sender peer is `None`. Writing a message flagged as having one needs it, since the code dereferences it; a
  flagged signature that is not there is `Undefined`, since the code copies from a null pointer.
* The difference of two times, a signed 64-bit subtraction that may overflow, is taken as exact. The offset it is added to
  is the same modulo 2^64.
* The search for a newline needs a newline or a terminator ahead of it in the array, and the slot past the ring, which is
  allocated without a value, must not have started out as a newline.

## Model

| member | source | states |
|---|---|---|
| `Bytes.Bytes64RoundTrip` | Bitchat/BinaryWriter.cpp:14-24 | Reading the eight big-endian bytes of any 64-bit number gives the number back |
| `Bytes.FromBigEndianRoundTrip` | Bitchat/BinaryReader.cpp:14-37 | Writing the number read from any bytes gives those bytes back, at every width |
| `BinaryReaders.BinaryReader.ReadUint8` | Bitchat/BinaryReader.cpp:5-12 | Takes one byte off the unread bytes; yields 0 and takes nothing when there is none |
| `BinaryReaders.BinaryReader.ReadUint16` | Bitchat/BinaryReader.cpp:14-21 | Takes a big-endian 16-bit number; yields 0 and takes nothing when fewer than two bytes are left |
| `BinaryReaders.BinaryReader.ReadUint64` | Bitchat/BinaryReader.cpp:23-37 | Takes a big-endian 64-bit number; yields 0 and takes nothing when fewer than eight bytes are left |
| `BinaryReaders.BinaryReader.ReadData` | Bitchat/BinaryReader.cpp:39-46 | Takes exactly the next `len` bytes, or fails and takes nothing |
| `BinaryWriters.BinaryWriter.WriteUint16` | Bitchat/BinaryWriter.cpp:9-12 | The shifts append the big-endian form, which the reader inverts |
| `BinaryWriters.BinaryWriter.WriteUint64` | Bitchat/BinaryWriter.cpp:14-24 | The shifts append the big-endian form, which the reader inverts |
| `BinaryWriters.BinaryWriter.WriteData` | Bitchat/BinaryWriter.cpp:26-38 | The loop appends exactly the first `len` bytes |
| `BinaryWriters.Hexify` | Bitchat/BinaryWriter.cpp:44-51 | A nibble becomes a digit or a lower-case letter `a` to `f` |
| `BinaryWriters.BinaryWriter.WriteUint64Hex` | Bitchat/BinaryWriter.cpp:81-90 | Appends the sixteen hex characters of the big-endian bytes |
| `ProtocolParser.ReadPeerId` | Bitchat/ProtocolProcessor.cpp:159-166 | The shift-and-or loop computes the number whose big-endian bytes are the decoded hex pairs |
| `RoundTrip.PeerIdRoundTrip` | Bitchat/BinaryWriter.cpp:81-90 | For every 64-bit id, decoding what the hex writer wrote gives the id |
| `RoundTrip.UpperDecodes` | Bitchat/ProtocolProcessor.cpp:161-166 | Hex text and the same text in upper case decode to the same bytes |
| `ProtocolWriter.WriteMentions` | Bitchat/ProtocolWriter.cpp:108-117 | The loop writes a count capped at 255 and then every mention, each cut at 255 bytes |
| `ProtocolWriter.WriteMessagePayload` | Bitchat/ProtocolWriter.cpp:66-125 | Appends the message layout that `RoundTrip.MessageRoundTripIff` inverts |
| `ProtocolWriter.WritePacket` | Bitchat/ProtocolWriter.cpp:9-64 | Appends the packet layout, with the time to live one less modulo 256, that `Relay.DecodeWritten` inverts |
| `ProtocolParser.ReadMentions` | Bitchat/ProtocolProcessor.cpp:172-184 | The loop reads as many fields as the count says, or fails on the first that is cut short |
| `ProtocolParser.ReadMentionList` | Bitchat/ProtocolProcessor.cpp:174-183 | The loop yields the list the bytes stand for, or failure |
| `ProtocolParser.ProcessMessage` | Bitchat/ProtocolProcessor.cpp:86-199 | The message the bytes stand for, or failure; and the peer that was registered on the way, even when a later field fails |
| `ProtocolParser.ReadPacket` | Bitchat/ProtocolProcessor.cpp:201-270 | The decoded packet, a rejection, or undefined when a flagged signature is missing, for every buffer and offset |
| `RoundTrip.Field8RoundTrip` | Bitchat/ProtocolWriter.cpp:72-75 | A length-prefixed field followed by anything reads back cut at 255 bytes, and leaves what followed |
| `RoundTrip.MentionListRoundTrip` | Bitchat/ProtocolProcessor.cpp:174-183 | Any list of mentions reads back in order, each cut at 255 bytes |
| `RoundTrip.MessageRoundTrip` | Bitchat/ProtocolProcessor.cpp:86-199 | A written message with at most 255 mentions parses to its flagged fields, each cut to its limit |
| `RoundTrip.MessageRoundTripIff` | Bitchat/ProtocolWriter.cpp:66-125 | The round trip holds if and only if there are at most 255 mentions or they are not flagged |
| `RoundTrip.ParsedIsNormal` | Bitchat/ProtocolProcessor.cpp:92-196 | A parsed message is in normal form if and only if its content was not encrypted, or empty |
| `RoundTrip.Normalisation` | Bitchat/ProtocolProcessor.cpp:92-196 | For arbitrary payload bytes that parse, parsing, writing and parsing again changes nothing if and only if no content is encrypted, short reads included |
| `Relay.DecodeWritten` | Bitchat/ProtocolProcessor.cpp:203-270 | A written uncompressed packet decodes to its own fields; the signature is read from the length byte on |
| `Relay.StoredByNext` | Bitchat/ProtocolProcessor.cpp:289-333 | What the next repeater stores: one less time to live, the message in normal form, everything else the same |
| `Relay.RelayExact` | Bitchat/ProtocolWriter.cpp:9-64 | Parsing and writing changes byte 2 by one and nothing else |
| `Relay.RelayChain` | Bitchat/ProtocolWriter.cpp:18-19 | `k` relays subtract exactly `k`; more than the time to live allows send nothing |
| `Relay.RelayedChain` | Bitchat/ProtocolProcessor.cpp:201-333 | Whatever bytes came in first, once they have been relayed as an unsigned, uncompressed packet that fits, every further relay subtracts one from byte 2 and changes nothing else |
| `Relay.RelayExactIff` | Bitchat/ProtocolWriter.cpp:56-61 | Exactness holds if and only if no encrypted content is lost, the mentions can be counted, and the signature is absent or 64 bytes of value 64 |
| `Relay.SignatureIff` | Bitchat/ProtocolProcessor.cpp:263-270 | A signature read without its length byte is written back unchanged if and only if it is 64 bytes of value 64 |
| `Relay.DroppedContent` | Bitchat/ProtocolProcessor.cpp:121-125 | A relayed message with encrypted content gets strictly shorter |
| `Relay.DecodeFramed` | Bitchat/ProtocolProcessor.cpp:203-270 | A header in front of any uncompressed payload, whether or not a packet can be written with it, decodes to its fields, the payload and the signature |
| `Relay.ReadsMiscounted` | Bitchat/ProtocolWriter.cpp:108-117 | A message with too many mentions is read with the first 255, and the next one in place of its channel |
| `Relay.MiscountedShorter` | Bitchat/ProtocolWriter.cpp:108-117 | And is written back strictly shorter |
| `Wire.PacketLayout` | Bitchat/ProtocolWriter.cpp:15-63 | The bytes of a packet, field by field, with the flag bits 0x01 and 0x02 as numbers |
| `Wire.PayloadLayout` | Bitchat/ProtocolWriter.cpp:25-47 | Packets of type 4 carry a message, all others their payload as it is |
| `Wire.MessageLayout` | Bitchat/Message.h:28-46 | The bytes of a message, field by field, with the flag bits 0x04 to 0x40 as numbers |
| `Wire.EncryptedContent` | Bitchat/Message.h:48-50 | Bit 0x80 decides which of the two content fields a parsed message fills |
| `Wire.MessageTooShort` | Bitchat/ProtocolProcessor.cpp:87-90 | Fewer than thirteen bytes are no message |
| `Wire.StoredIff` | Bitchat/ProtocolProcessor.cpp:279-340 | Exactly which decoded packets are stored, by the numbers of their types, and with which fields |
| `Wire.OtherVersion` | Bitchat/ProtocolProcessor.cpp:204-207 | Buffers of another version are dropped |
| `Wire.OffsetSkips` | Bitchat/ProtocolProcessor.cpp:203-203 | A write at an offset is read from that offset on |
| `Wire.DecodeCompressed` | Bitchat/ProtocolProcessor.cpp:226-261 | With bit 0x04 the payload is its original size and the compressed bytes, and decodes to what they expand to, or to themselves if that fails |
| `Identity.SameIff` | Bitchat/PacketPassAlong.cpp:22-36 | Two packets have the same id for every hash if and only if they are messages with one message id, or agree in everything but time to live and signature, the timestamp included |
| `Identity.MetaInjective` | Bitchat/PacketPassAlong.cpp:24-31 | The hashed bytes determine type, flags, timestamp, sender and recipient |
| `CircularBuffers.CircularBuffer.constructor` | CircularBuffer/CircularBuffer.h:30-32 | An empty queue, one slot more than the ring |
| `CircularBuffers.CircularBuffer.CopyIn` | CircularBuffer/CircularBuffer.h:52-60 | The loop leaves the newest `fixed_size` characters in the slots, and `maxed` exactly tracks whether the ring filled |
| `CircularBuffers.CircularBuffer.Write` | CircularBuffer/CircularBuffer.h:48-68 | Appends and keeps the newest `fixed_size - 1` characters, for strings of any length; leaves no old terminator behind; an empty string touches slot 1 only |
| `CircularBuffers.CircularBuffer.WriteItem` | CircularBuffer/CircularBuffer.h:34-46 | Appends one item, if and only if the tail is not at slot 0 with the head in the last slot; then the queue becomes empty; what the slot past the ring holds |
| `CircularBuffers.CircularBuffer.Clear` | CircularBuffer/CircularBuffer.h:70-77 | Empties the queue and puts a terminator in slot 0, and in no other |
| `CircularBuffers.CircularBuffer.ClearIfEmpty` | CircularBuffer/CircularBuffer.h:79-88 | Keeps the queue; moves an empty one to the start |
| `CircularBuffers.CircularBuffer.Consume` | CircularBuffer/CircularBuffer.h:98-110 | Takes the oldest item; the end item from an empty queue |
| `CircularBuffers.CircularBuffer.ConsumeBlock` | CircularBuffer/CircularBuffer.h:126-142 | Takes a prefix of the queue up to the physical end; keeps the invariant unless a full ring is asked for nothing |
| `CircularBuffers.CircularBuffer.FindNewline` | CircularBuffer/CircularBuffer.h:187-187 | The search finds the first newline that no terminator precedes |
| `CircularBuffers.CircularBuffer.ConsumeToEnd` | CircularBuffer/CircularBuffer.h:190-211 | The line and the new tail when the rest up to the physical end fits in the line |
| `CircularBuffers.CircularBuffer.ConsumeCut` | CircularBuffer/CircularBuffer.h:212-237 | The line and the new tail when the line is full before the physical end |
| `CircularBuffers.CircularBuffer.ConsumeLine` | CircularBuffer/CircularBuffer.h:180-238 | The line and the new tail, in every branch, as the function that `Lines.TakeLineIff` is about |
| `Ring.WritingStep` | CircularBuffer/CircularBuffer.h:54-60 | One character shifts the register by one; fullness is noticed exactly when the count reaches the limit |
| `Ring.WritingEnds` | CircularBuffer/CircularBuffer.h:61-67 | The new head, tail and terminator give the appended and cut queue |
| `Ring.ItemWritten` | CircularBuffer/CircularBuffer.h:37-45 | The single-item write appends if and only if it does not wrap from tail 0 |
| `Ring.EmptyWriteIff` | CircularBuffer/CircularBuffer.h:52-61 | An empty string keeps the queue if and only if slot 1 holds nothing queued |
| `Lines.UnwrappedScans` | CircularBuffer/CircularBuffer.h:187-187 | From an unwrapped queue the search never leaves the queued characters and their terminator |
| `Lines.StaysWritten` | CircularBuffer/CircularBuffer.h:48-68 | Non-empty strings keep the slots before the head, and all of a wrapped ring, free of old terminators |
| `Lines.TakeLineIff` | CircularBuffer/CircularBuffer.h:180-238 | A prefix of the queue is taken if and only if the stated condition on head, tail and newlines holds; then it ends at the first newline, cut at the line size |
| `Lines.TakesOneLine` | CircularBuffer/CircularBuffer.h:180-238 | What is taken cleanly is one line: at most the line size, and no newline before its last character |
| `Lines.TakesWholeLine` | CircularBuffer/CircularBuffer.h:180-238 | And it is not cut short: it ends with a newline, or has the line size, or takes all there is, or stops at the physical end |
| `Drain.CleanStep` | CircularBuffer/Debugging.cpp:15-22 | Taking a line from a cleanly draining ring takes a non-empty prefix and leaves one |
| `Drain.CleanDrainEnds` | CircularBuffer/Debugging.cpp:15-22 | From a cleanly draining ring the loop ends |
| `Drain.StuckForever` | CircularBuffer/Debugging.cpp:15-22 | From a ring wrapped around a short second part, with a long unbroken end, the loop never ends |
| `Drain.NeverEndsOutside` | CircularBuffer/CircularBuffer.h:187-187 | Without a terminator past the ring, and with an unbroken end, a search leaves the array before the ring is empty |
| `Drain.NeverEndsCycling` | CircularBuffer/CircularBuffer.h:193-211 | With the head at slot 0, an unbroken end shorter than a line is prolonged with stale text for ever |
| `Drain.EndsFromStart` | CircularBuffer/CircularBuffer.h:193-211 | With the head at slot 0 and a stale newline, the loop ends if and only if the last newline of the ring lies one line before its end |
| `Drain.DrainEndsIff` | CircularBuffer/Debugging.cpp:15-22 | For every ring that string writes leave, the head at slot 0 included, the loop ends if and only if the ring drains cleanly or happens to end after stale text |
| `Logging.PrintLines` | CircularBuffer/Debugging.cpp:15-22 | The loop prints the whole queue in order, in lines of at most 159 characters with no newline but at the end, which is left out |
| `Logging.PrintAvailableLogging` | CircularBuffer/Debugging.cpp:7-24 | Prints everything in order, line by line, except one line from a full ring; leaves the ring empty at slot 0 |
| `Clock.MovedToTimestamp` | BLE/BleConnectionTracker.cpp:333-336 | When the offset moves, with 64-bit wrap-around, the time becomes the timestamp |
| `Clock.LearnWindow` | BLE/BleConnectionTracker.cpp:331-342 | After every update the time is zero to five minutes past the timestamp, if and only if the timestamp is not across the wrap-around |
| `Clock.LearnsGreatestIff` | BLE/BleConnectionTracker.cpp:331-342 | Over every run of announces the offset is the greatest skew if and only if no announce after the last one that has it is more than five minutes behind |
| `Clock.LearnsMaximum` | BLE/BleConnectionTracker.cpp:331-342 | Announces whose skews lie within five minutes of each other set the offset to the greatest skew, in any order |
| `Clock.OrderMatters` | BLE/BleConnectionTracker.cpp:335-336 | Two announces give the same offset in either order if and only if their skews are at most five minutes apart |
| `Invariants.ReceiveKeeps` | Bitchat/ProtocolProcessor.cpp:201-341 | Receiving any bytes keeps the invariant and sends nothing |
| `Invariants.ConnectKeeps` | BLE/BleConnectionTracker.cpp:125-137 | A connection keeps the invariant: the entry stores its own key |
| `Invariants.DisconnectKeeps` | BLE/BleConnectionTracker.cpp:157-173 | A disconnection keeps the invariant and every record |
| `Invariants.AnnounceFromKeeps` | BLE/BleConnectionTracker.cpp:390-394 | Announcing keeps the invariant and does not change the table it walks |
| `Invariants.SendPacketsKeeps` | BLE/BleConnectionTracker.cpp:273-326 | Sending keeps the invariant, sends nothing where a record says it went, records all it sends, and empties both queues |
| `Invariants.TargetedDrains` | BLE/BleConnectionTracker.cpp:289-299 | No targeted entry survives a call |
| `Invariants.CleanupKeeps` | BLE/BleConnectionTracker.cpp:408-440 | Cleanup keeps every queued packet stored and every named connection in the table |
| `Sending.BroadcastExact` | BLE/BleConnectionTracker.cpp:304-317 | Who gets one packet in its turn, and that every available connection is then covered |
| `Sending.TargetedExact` | BLE/BleConnectionTracker.cpp:290-295 | Every targeted announce is recorded and nothing else is |
| `Sending.CoverageIff` | BLE/BleConnectionTracker.cpp:277-320 | A queued packet goes to a connection that is up and whose characteristic is known if and only if nothing in the state before the call covers it there |
| `Sending.NotReady` | BLE/BleConnectionTracker.cpp:277-280 | Where a link is down or its characteristic is not known, no packet but a waiting announce is sent or recorded |
| `Sending.FullCoverage` | BLE/BleConnectionTracker.cpp:301-320 | With nothing at higher addresses in the way, it goes to exactly the available connections it has no record for |
| `Sending.Silenced` | BLE/BleConnectionTracker.cpp:306-312 | A relayed packet behind one at a higher address is sent nowhere and leaves the queue |
| `Sending.CoveredAfter` | BLE/BleConnectionTracker.cpp:301-320 | After a call each packet that was queued has a record at its own or a higher address for every available connection |
| `Sending.AnnounceAllExact` | BLE/BleConnectionTracker.cpp:369-395 | Exactly the connections that are up, with a known characteristic and no record, become targets, once the offset has reached 1755685519 |
| `Sending.AnnouncesOnce` | BLE/BleConnectionTracker.cpp:369-395 | However often it announces before it sends, one announce to each waiting or needing connection, none elsewhere, both queues empty after |
| `Runs.InitialInv` | BLE/BleConnectionTracker.h:89-110 | The empty tracker satisfies the invariant |
| `Runs.StepKeeps` | BLE/BleConnectionTracker.cpp:49-173 | Every event keeps the invariant, and every event but cleanup only adds records and sends nothing a record forbids |
| `Runs.RunKeeps` | BLE/BleConnectionTracker.cpp:408-440 | The invariant holds in every state of every run, cleanups included |
| `Runs.AtMostOnce` | BLE/BleConnectionTracker.cpp:282-317 | Between two cleanups no pair of packet and handle is sent twice, nor one that was already recorded |
| `Runs.NoEcho` | BLE/BleConnectionTracker.cpp:109-114 | An accepted packet is not sent over the connection it came from before the next cleanup |
| `Runs.ReceiveShape` | Bitchat/ProtocolProcessor.cpp:289-333 | Apart from peers, clock and table, receiving stores, records and queues a new packet and does nothing for a known one |
| `Runs.ReceiveExact` | Bitchat/ProtocolProcessor.cpp:289-333 | Receiving takes in exactly a packet whose id is unknown: stored, recorded for its connection and its sender, and queued if it may travel |
| `Runs.OriginateExact` | BLE/BleConnectionTracker.cpp:57-64 | A message of the node's own is stored and queued once, and nothing is recorded of it |
| `Invariants.SenderLearned` | Bitchat/ProtocolProcessor.cpp:151-170 | The peer a message names as its sender is registered by the time the message is stored |
| `Runs.StaysKnown` | BLE/BleConnectionTracker.cpp:433-440 | A stored packet stays at its address, and known, until a cleanup finds it old |
| `Runs.AcceptedTwice` | BLE/BleConnectionTracker.cpp:57-73 | An id is accepted again only if an intervening cleanup found the stored packet's timestamp over a thousand ten minutes old |
| `Runs.ForgetsIff` | BLE/BleConnectionTracker.cpp:433-440 | A cleanup forgets the id of a stored packet, and lets a packet with that id be accepted again, if and only if it finds the stored one old |
| `Cleaning.PacketsCleaned` | BLE/BleConnectionTracker.cpp:417-440 | Stores, broadcast queue and list of peers keep exactly the packets with now at most 600000 past a thousandth of the timestamp, in their order |
| `Cleaning.TablesCleaned` | BLE/BleConnectionTracker.cpp:427-432 | Connections and neighbours keep exactly the entries that are up or were seen in the last ten minutes, unchanged |
| `Cleaning.RecordsCleaned` | BLE/BleConnectionTracker.cpp:411-426 | The list of packets sent and the targeted queue keep exactly what has not aged and whose connection is kept |
| `Cleaning.CleanupFrame` | BLE/BleConnectionTracker.cpp:408-440 | Peers, announce, clock and reached peers stay as they are |
| `Cleaning.StaysQueued` | BLE/BleConnectionTracker.cpp:422-425 | Over every run a queued packet stays queued until the queue is sent or a cleanup finds the packet old |
| `Runs.SameId` | Bitchat/PacketPassAlong.cpp:22-36 | Packets that differ in time to live or signature only have the same id |
| `Records.ReconnectIff` | BLE/BleConnectionTracker.cpp:157-173 | After disconnecting and connecting again an announce is due if and only if none was recorded before |
| `Records.SentAgain` | BLE/BleConnectionTracker.cpp:411-416 | Over every run, cleanups included, a recorded pair is sent again only after a cleanup that found the record stale |
| `Records.OldTwice` | BLE/BleConnectionTracker.cpp:411-425 | Exactly which timestamps are old as they stand and not over a thousand, and the reverse, with 64-bit wrap-around |
| `Records.RecordLostIff` | BLE/BleConnectionTracker.cpp:411-440 | A cleanup loses a record and keeps its packet if and only if the packet is young over a thousand and the connection is stale or the timestamp wraps around |
| `Records.RecordOutlivesIff` | BLE/BleConnectionTracker.cpp:411-440 | A cleanup loses a packet and keeps its record if and only if now lies between the two limits and the connection is not stale |
| `Writability.PeerPresentIff` | Bitchat/ProtocolProcessor.cpp:151-170 | A message that parses has the peer its flag promises if and only if the sender id has sixteen characters |
| `Writability.StepWritableIff` | Bitchat/ProtocolWriter.cpp:101-106 | A step keeps everything queued writable if and only if it does not accept a message with another sender id |
| `Writability.AlwaysWritableIff` | Bitchat/ProtocolWriter.cpp:101-106 | Along every run the queues are writable at every moment if and only if no event accepts such a message |
| `PeerRuns.LearnedPeers` | Bitchat/ProtocolProcessor.cpp:279-305 | Which packets change a peer's announce time to live and who is reached over a handle, and how |
| `PeerRuns.GreatestTtlKept` | Bitchat/ProtocolProcessor.cpp:71-78 | Over every run a peer's announce time to live is the greatest of all announces from it |
| `PeerRuns.ReachedByBest` | BLE/BleConnectionTracker.cpp:453-455 | Every entry of the handle table was last set by an announce on that handle, at least as high as every earlier one from that peer |
| `PeerRuns.KnowsWhatWasTaught` | Bitchat/ProtocolProcessor.cpp:71-84 | Over every run the table knows exactly the peers that were mentioned, and of each the last name, the last public key and the greatest time to live it announced |
| `Connections.UpIff` | BLE/BleConnectionTracker.cpp:125-160 | Over every run a connection is up if and only if the last report about its handle was of a connection, and was last seen at that time |
| `Connections.ConnectExact` | BLE/BleConnectionTracker.cpp:125-137 | The neighbour's data, or an earlier connection's, moves to the entry, which is up, under its own handle and seen now; nothing else changes |
| `Connections.LookedUp` | BLE/BleConnectionTracker.cpp:49-55 | A missing connection is added down and under its own handle, and nothing else changes |
| `Connections.SubscriptAdds` | BLE/BleConnectionTracker.cpp:525-527 | Looking up by subscript adds a default entry if there is none, and nothing else changes |
| `Connections.NeighbourHeard` | BLE/BleConnectionTracker.cpp:116-123 | Over every run a neighbour was last discovered when it was last seen, and has not connected or started to since |
| `Connections.LastMadeStays` | BLE/BleConnectionTracker.cpp:520-535 | Of several connections to one peer, all up, resolving duplicates leaves the one made last |
| `Duplicates.FindDuplicate` | BLE/BleConnectionTracker.cpp:520-535 | 0 if and only if no two nonzero handles lead to one peer; otherwise one that does, seen no later than another |
| `Duplicates.ResolveDuplicates` | main.cpp:963-967 | Alternating the search with disconnection ends, with no duplicate and every peer's newest handle kept |
| `Duplicates.ExactlyOneLeft` | BLE/BleConnectionTracker.cpp:520-535 | Every peer that had nonzero handles is left with exactly one, seen no earlier than any it had |
| `Mesh.GoodNext` | Bitchat/PacketPassAlong.cpp:22-36 | What the next repeater stores can itself be relayed, and has the same id |
| `Mesh.ArrivesNext` | Bitchat/ProtocolProcessor.cpp:201-333 | Delivering a relayed packet yields the sender's packet with one less time to live, or nothing |
| `Mesh.ArriveKeeps` | Bitchat/ProtocolProcessor.cpp:289-333 | Receiving keeps a node in order: time to live plus hops of the followed packet is the initial time to live |
| `Mesh.ActKeeps` | BLE/BleConnectionTracker.cpp:273-326 | Every event of its own keeps a node in order |
| `FloodBounds.RunOk` | BLE/BleConnectionTracker.cpp:57-114 | Every state of every run of every network is in order |
| `FloodBounds.StoredOnce` | BLE/BleConnectionTracker.cpp:57-73 | A node stores the followed packet at most once |
| `FloodBounds.SentOnce` | BLE/BleConnectionTracker.cpp:301-317 | Of two copies of the followed packet that a node sends over one handle, exactly one is its own announce |
| `FloodBounds.HopsBounded` | Bitchat/ProtocolWriter.cpp:18-19 | The time to live written in a copy plus its hops is the initial time to live |
| `FloodBounds.FloodTerminates` | BLE/BleConnectionTracker.cpp:273-326 | Over any run of any network the flood makes at most one copy per node and handle, and one more only where the node sent its own announce; each within the initial time to live |
| `Reach.RunSpreads` | BLE/BleConnectionTracker.cpp:109-114 | In every state of every run over two-way links, each record of the followed packet was sent, came from outside, or leads to a node that has it; each stored copy came from a node with one unit of time to live more |
| `Reach.SendSettles` | BLE/BleConnectionTracker.cpp:301-317 | A send that nothing stands in the way of leaves the record that the reach results ask for |
| `Reach.DeliveryTeaches` | Bitchat/ProtocolProcessor.cpp:289-333 | Delivering a copy with time to live to spare makes its node know the packet |
| `Reach.NeighbourHas` | BLE/BleConnectionTracker.cpp:301-317 | When all is delivered and sent, every neighbour of a node that has the packet with two units of time to live has it |
| `Reach.UsesAtMost` | Bitchat/ProtocolWriter.cpp:18-19 | No node stores the packet with more time to live used up than there are nodes |
| `Reach.ReachesAll` | BLE/BleConnectionTracker.cpp:273-326 | And with an initial time to live of two more than there are nodes, everybody whom a path of links leads to has it, in whatever order copies arrived |
| `BleConnectionTrackers.BleConnectionTracker.ConnectionForConnHandle` | BLE/BleConnectionTracker.cpp:49-55 | Adds a missing entry under its own handle, changes nothing else |
| `BleConnectionTrackers.BleConnectionTracker.StoreMessageAndReturnIfNew` | BLE/BleConnectionTracker.cpp:57-64 | True if and only if the message id was unknown; only then is it stored |
| `BleConnectionTrackers.BleConnectionTracker.StorePacketAndReturnIfNew` | BLE/BleConnectionTracker.cpp:66-73 | True if and only if the hash was unknown; only then is it stored |
| `BleConnectionTrackers.BleConnectionTracker.CheckSenderInPeers` | BLE/BleConnectionTracker.cpp:89-94 | Adds a missing peer, keeps every other |
| `BleConnectionTrackers.BleConnectionTracker.EnqueueTargetedPacket` | BLE/BleConnectionTracker.cpp:96-101 | Queues a packet that may still travel, for the connection under the handle |
| `BleConnectionTrackers.BleConnectionTracker.EnqueueBroadcastPacket` | BLE/BleConnectionTracker.cpp:103-107 | Queues a packet that may still travel |
| `BleConnectionTrackers.BleConnectionTracker.EnqueueBroadcastPacketFrom` | BLE/BleConnectionTracker.cpp:109-114 | Records the source connection and peer, then queues |
| `BleConnectionTrackers.BleConnectionTracker.AddAvailablePeer` | BLE/BleConnectionTracker.cpp:116-123 | The neighbour is in the table, seen now |
| `BleConnectionTrackers.BleConnectionTracker.SetConnectionStarted` | BLE/BleConnectionTracker.cpp:344-347 | The neighbour leaves the table |
| `BleConnectionTrackers.BleConnectionTracker.ReportConnection` | BLE/BleConnectionTracker.cpp:125-137 | The neighbour's data moves to the connection table, connected, under its own handle |
| `BleConnectionTrackers.BleConnectionTracker.ReportDisconnection` | BLE/BleConnectionTracker.cpp:157-173 | The entry is no longer connected, the handle leads to no peer, every record stays |
| `BleConnectionTrackers.BleConnectionTracker.GetAnyDuplicateHandle` | BLE/BleConnectionTracker.cpp:520-535 | 0 if and only if there is no duplicate; otherwise the older of two, and the lookups it inserts |
| `BleConnectionTrackers.BleConnectionTracker.PossiblyUpdateTimeOffset` | BLE/BleConnectionTracker.cpp:331-338 | The offset becomes the one `Clock.LearnWindow` is about |
| `BleConnectionTrackers.BleConnectionTracker.SetupAnnounceIfNeeded` | BLE/BleConnectionTracker.cpp:349-367 | The announce has time to live 3, no flags, the node's id and name |
| `BleConnectionTrackers.BleConnectionTracker.IsRecorded` | BLE/BleConnectionTracker.cpp:282-288 | The search of the packet's own range finds a record if and only if one names the handle |
| `BleConnectionTrackers.BleConnectionTracker.AnnounceToConnections` | BLE/BleConnectionTracker.cpp:369-395 | The loop over the table gives the state `Sending.AnnounceAllExact` is about |
| `BleConnectionTrackers.BleConnectionTracker.SendPacketToConnection` | BLE/BleConnectionTracker.cpp:227-271 | Hands the written bytes and the stored handle to the radio, and records it |
| `BleConnectionTrackers.BleConnectionTracker.IsBlocked` | BLE/BleConnectionTracker.cpp:305-312 | The search to the end of the ordered multimap finds the handle if and only if a record at this or a higher address names it |
| `BleConnectionTrackers.BleConnectionTracker.SendTargetedPackets` | BLE/BleConnectionTracker.cpp:289-295 | The loop sends what is needed, in order, and collects exactly the packets sent |
| `BleConnectionTrackers.BleConnectionTracker.RemoveTargeted` | BLE/BleConnectionTracker.cpp:296-299 | Erases exactly the targeted entries of the packets that were sent |
| `BleConnectionTrackers.BleConnectionTracker.SendBroadcastPacket` | BLE/BleConnectionTracker.cpp:304-317 | The loop over the available connections gives the state `Sending.BroadcastExact` is about |
| `BleConnectionTrackers.BleConnectionTracker.SendBroadcastPackets` | BLE/BleConnectionTracker.cpp:302-320 | Every queued packet has its turn, in order |
| `BleConnectionTrackers.BleConnectionTracker.SendPackets` | BLE/BleConnectionTracker.cpp:273-326 | The state `Sending.CoverageIff` is about, and the bytes handed over are those of the packets sent, in order |
| `BleConnectionTrackers.BleConnectionTracker.CleanupStaleItems` | BLE/BleConnectionTracker.cpp:408-447 | Each list and table keeps exactly what its own condition does not call stale |
| `ProtocolProcessor.UpdateOrStorePeerName` | Bitchat/ProtocolProcessor.cpp:71-78 | The name always changes; time to live and handle only for an announce at least as high as the best |
| `ProtocolProcessor.UpdateOrStorePeerNoisePublicKey` | Bitchat/ProtocolProcessor.cpp:80-84 | The peer exists and has the key |
| `ProtocolProcessor.HandleMessage` | Bitchat/ProtocolProcessor.cpp:289-298 | A message that parses and is new is stored, its source recorded, and queued; its peers are known in any case |
| `ProtocolProcessor.HandlePassAlong` | Bitchat/ProtocolProcessor.cpp:299-333 | An announce teaches name and time first; a new packet that may travel is stored, its source recorded, and queued |
| `ProtocolProcessor.ProcessWrite` | Bitchat/ProtocolProcessor.cpp:201-341 | For every buffer and offset the state of `Dispatch`, or no change when the packet is rejected |
| `ProtocolProcessor.OnWrite` | main.cpp:145-168 | A write to the value handle, at any offset, looks up or adds the connection and is handled: the step `Runs.RunKeeps` is about |
| `Counterexamples.SignedPacket` | Bitchat/ProtocolWriter.cpp:56-61 | A packet signed with 64 zeros is not relayed exactly |
| `Counterexamples.EncryptedMessage` | Bitchat/ProtocolProcessor.cpp:121-125 | A message with one byte of encrypted content is not relayed exactly |
| `Counterexamples.ManyMentions` | Bitchat/ProtocolWriter.cpp:108-117 | A message with 256 mentions does not read back as written |
| `Counterexamples.ClockFollowsLast` | BLE/BleConnectionTracker.cpp:335-336 | Two announces ten minutes apart give different offsets in the two orders |
| `Counterexamples.ClockAcrossTheWrap` | BLE/BleConnectionTracker.cpp:331-338 | A timestamp of 3 five milliseconds before the wrap-around leaves the time outside its window |
| `Counterexamples.NeverSent` | BLE/BleConnectionTracker.cpp:301-325 | A run of seven events after which a message has left the queue without going to the second of two available neighbours |
| `LogRuns.EndlessLog` | CircularBuffer/Debugging.cpp:15-22 | Six writes to the log after which the printing loop never empties it |
| `LogRuns.CyclingLog` | CircularBuffer/CircularBuffer.h:193-211 | Five writes to the log after which the loop reads stale text for ever |
| `LogRuns.SearchOutside` | CircularBuffer/CircularBuffer.h:187-187 | Six writes to a fresh log after which, unless the slot past the ring happens to hold a terminator or a newline, a search leaves the array |
| `LogRuns.FullBecomesEmpty` | CircularBuffer/CircularBuffer.h:34-46 | A full ring of four slots is empty after one more character |
| `LogRuns.EmptyStringSpoils` | CircularBuffer/CircularBuffer.h:52-61 | An empty string turns the second of three queued characters into a terminator |
| `Counterexamples.RecordOutlives` | BLE/BleConnectionTracker.cpp:411-440 | A run of five events after which a record names a packet that is gone |
| `Counterexamples.RecordLost` | BLE/BleConnectionTracker.cpp:411-440 | A run of six events after which a packet is stored and its record is gone |
| `Counterexamples.UnwritableMessage` | Bitchat/ProtocolWriter.cpp:101-106 | One received message after which a packet is queued that cannot be written |
| `AnnounceRuns.EchoSentIff` | BLE/BleConnectionTracker.cpp:369-395 | A node's own announce, relayed back to it, is stored if and only if its id is unknown, and sent to a connection, whether or not it was announced there, if and only if nothing in the state before stands in the way |
| `AnnounceRuns.EchoedAnnounce` | BLE/BleConnectionTracker.cpp:369-395 | A run of nine events in which that happens |
| `AnnounceRuns.NotAnnouncedAgain` | BLE/BleConnectionTracker.cpp:165-171 | A run of twelve events in which a neighbour that connects again gets no announce |

## Left out

- Relay.RelayExactIff: speaks of uncompressed packets whose message fits 65535 bytes; a compressed packet is stored expanded with its flag still set, and nothing is proved of what it is relayed as; a longer message exceeds every link's packet size.
- Relay.RelayExact: the same packets, unsigned.
- Relay.DecodeWritten: uncompressed packets only.
- RoundTrip.Normalisation: speaks of messages whose flagged sender id had 16 characters; writing any other dereferences a null pointer.
- Drain.DrainEndsIff: speaks of rings more than two lines long, as the log is, into which only strings and non-null characters were written; elsewhere only the direction of `Drain.CleanDrainEnds` is proved.
- Logging.PrintLines: has the condition of a cleanly draining ring, since otherwise the code may not end.
- Logging.PrintAvailableLogging: has the same condition.
- Clock.LearnsMaximum: speaks of values below 2^63.
- Clock.LearnsGreatestIff: the same values.
- BleConnectionTrackers.BleConnectionTracker.PossiblyUpdateTimeOffset: does not model the overflow of the signed difference, which is undefined in the source.
- Reach.ReachesAll: asks for more time to live than there are nodes, since a repeater keeps the time to live of the copy that came first, which need not have come the shortest way.
- Relay.RelayedChain: the packets that Relay.RelayChain speaks of.
- Relay.RelayChain: uncompressed, unsigned packets.
- Connections.LastMadeStays: speaks of handles whose connections are all up; one that is down may have been cleaned up and looked up anew.
- FloodBounds.FloodTerminates: speaks of runs without cleanup and of unsigned, uncompressed packets; across a cleanup, which forgets what was sent, `Records.SentAgain` takes its place.
- Relay.StoredByNext: the same packets as Relay.RelayExactIff.
- BleConnectionTrackers.BleConnectionTracker.SendPacketToConnection: does not model the assertion on the link's packet size, which ends a run, nor which of the two raw multimaps the bytes go to.
- BleConnectionTrackers.BleConnectionTracker.ReportConnection: does not model role, address type or notification listener.
- BleConnectionTrackers.BleConnectionTracker.ReportDisconnection: does not model the notification flag and listener.
- BleConnectionTrackers.BleConnectionTracker.AddAvailablePeer: does not model address type, services and signal strength.
- BleConnectionTrackers.BleConnectionTracker.SendPackets: needs queues that can be written, since the code dereferences a null pointer otherwise; when they are is `Writability.AlwaysWritableIff`.
- ProtocolProcessor.OnWrite: models plain writes to the characteristic's value handle only, with a flagged signature present; without it the code copies from a null pointer.
- ProtocolProcessor.ProcessWrite: the same buffers.
- Packets that arrive as notifications (main.cpp:515-517): they are handled with a by-value copy of the connection, so their source record names a connection that is not in the table; the model covers writes.
- Draining the raw packets (`notifyRawPacket`, `writeRawPacket`): depends on callbacks of the Bluetooth stack.
- The packet keys of the list of packets sent, after cleanup: they may name packets that are gone.
- The event handlers, timers, advertising and scanning of main.cpp: hardware plumbing.
- Mutexes and interrupts around the ring: the model is sequential.
- The pointer-returning `consume_block`, `writeF` and its formatting, and the generic `consume_line` that does nothing: easy members.
- `requestNextRssi`, `printStats`, `stringForType` and the text of log lines: nothing to prove.
- Fragmentation of packets: not implemented by the firmware.
