# home_io_control: a verified model

Dafny modules that model the controller of a two-way 868 MHz home-automation protocol and prove what
its parts promise. `dafny verify dfyconfig.toml` checks everything.

## The parts

- **Wire stack**: `Bytes`, `Words`, `Frame`, `NodeId`, `FrameCheck` (the reflected CRC of section 2 of ITU-T V.41
  with initial value 0) with `Codewords`, `SoftPhy` (UART bit packing and the search for a frame in an unaligned
  bit stream).
- **Cryptography**: `Gf256` and `Aes` (AES-128, sections 4.2 and 5.1 to 5.3 of FIPS 197), `Checksum`, `Crypto`,
  and `KnownAnswers`, the vectors of the original's tests carried through the specification.
- **Scheduling**: `OperationQueue` with `QueueRuns`, `QueueOrder` and `QueueRefinement`; `PollPolicy` with
  `PollRuns` and `PollReplies`; `Motion` and `Device`, what a device record holds; `ExecuteFrames`; `Hub` joins
  exchange, record and schedule. `Captures` holds captured frames, byte by byte.
- **Engines**: `Clock`, `Radio`, `Commands`, `Decisions`, `CommandFrames`, `Exchange` with its observer
  `ExchangeTrace`, `Pairing` with its observer `PairingTrace` and the run theorems of `PairingRuns` and
  `PairingOrigins`.
- **Small codecs**: `DeviceName` (UTF-8 as in section 3 of RFC 3629), `Tuning`, `LinkHealth`.

## How it is modelled

Code that changes state is a method or a class with the same fields, proved against functions on values;
the lemmas speak about those functions. Where the original has a sequence of steps, so has the method.

**The radio** is a class whose every choice (what arrives, when, whether a send succeeds, how long a call
takes) is nondeterministic, so a contract of an engine holds against every radio. Real time is an unbounded
number of milliseconds of which the engines read the low 32 bits. Two parameters bound how much time passes
between two clock readings and how late a call returns. A wait ends before its timeout only finitely often in
a run; each such end, with or without a packet, uses up one of finitely many interruptions. Without that the
original loops need not end either. The class also records when and on which channel it was listening and
what was measured, so that a contract can say that an engine listened, and not only that time went by.

**The observers.** What an engine may put on the air is defined by an automaton that reads the trace of
packets and knows which sends are in order, independently of how the engine is written. The engine is proved
to produce only traces its observer accepts; the bounds, orders and key properties are proved of every
accepted trace.

**Coalescing** is compared with plain FIFO through what a device ends up with. Per call the exact condition
under which both agree is proved; runs that meet it agree, and a counterexample shows what happens otherwise.

## What the code does and its documentation does not say

- `operation_queue.h:56-57` promises that a control operation drops a pending status request of its device.
  Only the push path does so; a coalesced operation leaves the request in place (`QueueRuns.StatusLeavesOnlyBy`).
- `hub_decisions.h:107-110` documents 0x29 as the only discovery response; 0x2F is accepted too, and the
  orchestrator then stops. `pairing_engine.cpp:206` promises retries on timeout; an answer other than a
  confirmation ends the transfers at once (`PairingTrace.HearFrame`).
- The first-response wait takes a 0x3C of any payload length as a challenge, with the missing bytes read as
  zero, and the inbound check takes any 0x3D whatever its addresses; both are modelled as coded.
- A radio that listens again fast sends the key as an ordinary exchange (`pairing_engine.cpp:433-435`). When the
  device challenges once more during it, the repeated transfer still carries the key wrapped under the first
  challenge, and a device that goes by its latest one gets another key (`PairingOrigins.OutdatedTransfer`); a
  slow radio gives up there.
- A window accepts 36 retries after mixed failures, not more, and 36 are possible as long as every attempt waits
  until it is due. Polls of the boot timer (`platform_entity_base.h:74`) and of the remote-activity timer
  (`hub_status.cpp:213-219`) need not wait; `PollRuns.RetriesPerWindow` says how many more retries each such
  early start can buy.
- `proto_commands.cpp:25-28` derives the priority byte of commands as level 2, 0x43; the byte sent is 0x63.
- The status requests in `tests/corpus` carry the sub-command 0x03; the one sent is 0x02 (`proto_commands.cpp:61`).
- A stop sent as a position is not followed up like the STOP command (`hub_operations.cpp:147-149`).

## Model

| member | source | states |
|---|---|---|
| `Gf256.AesMul` | components/home_io_control/proto_crypto.cpp:71-83 | the shift-and-add loop returns the product of the field, on every factor the round functions use |
| `Gf256.SboxLeftInverse` | components/home_io_control/proto_crypto.cpp:26-60 | looking a byte up in the S-box and then in the inverse table gives it back |
| `Gf256.SboxRightInverse` | components/home_io_control/proto_crypto.cpp:26-60 | and the other way round, so both tables are permutations |
| `Gf256.SboxIsAffineInverse` | components/home_io_control/proto_crypto.cpp:26-41 | every entry is the affine image of the multiplicative inverse of its index, the definition in section 5.1.1 of FIPS 197 |
| `Gf256.MulIsProduct` | components/home_io_control/proto_crypto.cpp:71-83 | for every factor the round functions use, the loop computes the product of section 4.2 of FIPS 197 |
| `Gf256.MulXor` | components/home_io_control/proto_crypto.cpp:71-83 | the product is linear in the byte over exclusive or |
| `Gf256.MulComm` | components/home_io_control/proto_crypto.cpp:71-83 | products with two factors can be taken in either order |
| `Gf256.InvMixMix` | components/home_io_control/proto_crypto.cpp:157-185 | a column mixed and then inverse-mixed is the column |
| `Gf256.MixInvMix` | components/home_io_control/proto_crypto.cpp:157-185 | a column inverse-mixed and then mixed is the column |
| `Aes.ScheduleUnique` | components/home_io_control/proto_crypto.cpp:190-211 | the recurrence of the key schedule and the key determine every byte of it |
| `Aes.RconIsPower` | components/home_io_control/proto_crypto.cpp:62-65 | the round constants are the powers of the polynomial x in order, as section 5.2 of FIPS 197 defines them |
| `Aes.ScheduleFirstWord` | components/home_io_control/proto_crypto.cpp:190-211 | the expanded key begins with the key, and the first word of every round is the word sixteen bytes back plus the rotated and substituted word just before it and the power of x of the round |
| `Aes.ScheduleOtherWords` | components/home_io_control/proto_crypto.cpp:190-211 | every other word is the word sixteen bytes back plus the word just before it |
| `Aes.ExpandKeyInto` | components/home_io_control/proto_crypto.cpp:190-211 | the loop fills the buffer with the expanded key, whose words the two rows above give |
| `Aes.ShiftRowsMovesRows` | components/home_io_control/proto_crypto.cpp:111-130 | row r of the state moves r columns to the left |
| `Aes.ShiftRowsInPlace` | components/home_io_control/proto_crypto.cpp:111-130 | the in-place rotations do that to the buffer |
| `Aes.InvShiftRowsInPlace` | components/home_io_control/proto_crypto.cpp:134-153 | the in-place rotations back are the inverse permutation |
| `Aes.MixColumnsInPlace` | components/home_io_control/proto_crypto.cpp:157-169 | with aes_mul by 2 and by 3 and in place, every column is mixed by the matrix 2 3 1 1 |
| `Aes.InvMixColumnsInPlace` | components/home_io_control/proto_crypto.cpp:173-185 | every column is mixed by the inverse matrix |
| `Aes.EncryptBlock` | components/home_io_control/proto_crypto.cpp:218-237 | the in-place rounds leave the encryption of the block in the output buffer |
| `Aes.DecryptBlock` | components/home_io_control/proto_crypto.cpp:244-263 | the in-place inverse rounds leave the decryption |
| `Aes.BackwardForward` | components/home_io_control/proto_crypto.cpp:218-263 | n inverse rounds undo n rounds under one schedule |
| `Aes.DecryptEncrypt` | components/home_io_control/proto_crypto.cpp:218-263 | decryption undoes encryption for every block and key |
| `Aes.EncryptDecrypt` | components/home_io_control/proto_crypto.cpp:218-263 | encryption undoes decryption, so the cipher is onto |
| `Aes.EncryptInjective` | components/home_io_control/proto_crypto.cpp:218-237 | under one key two blocks with one encryption are equal |
| `KnownAnswers.Advance` | components/home_io_control/proto_crypto.cpp:218-237 | a round, column by column: the diagonal that is shifted into a column, substituted, mixed and added to the key word |
| `Checksum.ComputeChecksum` | components/home_io_control/proto_crypto.cpp:270-284 | the branches on the two bytes are one step of the checksum |
| `Checksum.StepIsLfsr` | components/home_io_control/proto_crypto.cpp:270-284 | one step is a 16-bit Galois shift register with feedback 0x555B after adding the byte |
| `Checksum.UnstepStep` | components/home_io_control/proto_crypto.cpp:270-284 | a step can be undone |
| `Checksum.StepUnstep` | components/home_io_control/proto_crypto.cpp:270-284 | every state is reached by a step |
| `Checksum.RunAdd` | components/home_io_control/proto_crypto.cpp:270-284 | the checksum is linear: states and messages add |
| `Checksum.RunInjective` | components/home_io_control/proto_crypto.cpp:270-284 | over one message different start states end differently |
| `Checksum.OneByteChangesChecksum` | components/home_io_control/proto_crypto.cpp:270-284 | messages that differ in exactly one byte, anywhere, have different checksums |
| `Checksum.TwoByteChangesChecksum` | components/home_io_control/proto_crypto.cpp:270-284 | two adjacent changes cancel exactly when the second is the first doubled without loss |
| `Crypto.ConstructIv` | components/home_io_control/proto_crypto.cpp:290-305 | the buffer gets the head of the transcript padded with 0x55, the checksum and the challenge |
| `Crypto.CreateHmac` | components/home_io_control/proto_crypto.cpp:318-328 | the code is the first six bytes of the encrypted vector |
| `Crypto.VerifyHmac` | components/home_io_control/proto_crypto.cpp:332-343 | accepts exactly the code create_hmac produces |
| `Crypto.CryptKey` | components/home_io_control/proto_crypto.cpp:348-358 | the key with the vector encrypted under the transfer key added to it |
| `KnownAnswers.LongMac` | tests/corpus_crypto_test.cpp:184-199 | the third authentication code of the original's known-answer test: a transcript of 14 bytes through checksum, vector, key schedule and all ten rounds |
| `KnownAnswers.TransferWraps` | tests/corpus/captures/issues/field_rs100_pairing_key_exchange_retry_success.yaml:19-36 | the key transfer of a captured pairing: the system key of the tests, wrapped under the key initialization and the challenge heard, is the payload that was sent |
| `Crypto.UnwrapWrap` | components/home_io_control/proto_crypto.cpp:345-358 | applying it twice with the same transcript and challenge recovers the key |
| `Crypto.WrapInjective` | components/home_io_control/proto_crypto.cpp:348-358 | different keys have different wrapped forms |
| `Crypto.OtherChallengeOtherWrap` | components/home_io_control/proto_crypto.cpp:348-358 | under another challenge a key has another wrapped form, and unwrapping with it misses the key |
| `Crypto.IvParts` | components/home_io_control/proto_crypto.cpp:290-305 | two vectors agree exactly when head, checksum and challenge agree |
| `Crypto.ChallengeChangesBlock` | components/home_io_control/proto_crypto.cpp:286-328 | different challenges give different AES blocks, whatever the transcripts |
| `Crypto.OneByteChangesBlock` | components/home_io_control/proto_crypto.cpp:286-328 | a change of one transcript byte at any position changes the vector and the AES block |
| `Crypto.TwoByteChangesIv` | components/home_io_control/proto_crypto.cpp:286-305 | past the eighth byte, which pairs of adjacent changes the vector does not notice |
| `Frame.SetCmd` | components/home_io_control/proto_frame.cpp:83-97 | refuses a payload over 23 bytes and leaves the frame alone; otherwise sets command, payload and length field |
| `Frame.WithLengthReads` | components/home_io_control/proto_frame.cpp:83-99 | the length written into ctrl0 reads back and the flags survive |
| `Frame.FlagsRead` | components/home_io_control/proto_frame.cpp:68-99 | end, start and one-way are the bits 0x80, 0x40 and 0x20 of the first byte whatever the length, and what was built as a start is recognised as one |
| `Frame.Serialize` | components/home_io_control/proto_frame.cpp:103-128 | writes the wire form exactly when the frame is consistent and fits, and otherwise leaves the buffer alone |
| `Frame.ParseInto` | components/home_io_control/proto_frame.cpp:130-162 | the step-by-step parse, with what it leaves behind when it rejects early or late |
| `Frame.ParseWire` | components/home_io_control/proto_frame.cpp:103-162 | parsing a serialized frame gives it back |
| `Frame.WireParse` | components/home_io_control/proto_frame.cpp:103-162 | serializing a parsed buffer gives the buffer back |
| `Frame.ParseAcceptsExactlyWires` | components/home_io_control/proto_frame.cpp:103-162 | parse accepts exactly the byte strings serialize produces |
| `Frame.SetCmdSerializes` | components/home_io_control/proto_frame.cpp:83-162 | whatever set_cmd accepts serializes, and the receiver reads that payload |
| `NodeId.HexToBytes` | components/home_io_control/proto_frame.cpp:29-46 | accepts exactly the strings of the right length made of digits; of another string of that length it keeps the bytes before the first wrong pair, and clears everything else |
| `NodeId.NibbleValue` | components/home_io_control/proto_frame.cpp:20-27 | digits of either case have the values of base 16, and nothing else is a digit |
| `NodeId.TextRoundTrip` | components/home_io_control/proto_frame.cpp:20-52 | an address is read back from its text |
| `NodeId.AddressRoundTrip` | components/home_io_control/proto_frame.cpp:20-52 | text is reproduced up to the case of its letters |
| `FrameCheck.CrcCcitt` | components/home_io_control/proto_frame.cpp:58-66 | the nested loop computes the register |
| `FrameCheck.CrcIsFeed` | components/home_io_control/proto_frame.cpp:58-66 | it is the bit-serial division, least significant bit first |
| `FrameCheck.FeedXor` | components/home_io_control/proto_frame.cpp:58-66 | the register is linear in state and bits |
| `FrameCheck.ResidueZeroIffMatch` | components/home_io_control/proto_frame.cpp:58-66 | data followed by two check bytes leaves residue 0 exactly when they are its CRC, low byte first |
| `FrameCheck.OwnCrcLeavesZero` | components/home_io_control/proto_frame.cpp:58-66 | a frame with its own CRC leaves residue 0 |
| `FrameCheck.BurstLeavesResidue` | components/home_io_control/proto_frame.cpp:58-66 | a nonzero error within 16 consecutive bits leaves a nonzero residue |
| `FrameCheck.BurstDetected` | components/home_io_control/proto_frame.cpp:58-66 | so an equal-length message with such an error never has residue 0 when the sent one did |
| `Codewords.ZeroMeansMultiple` | components/home_io_control/proto_frame.cpp:54-66 | a frame leaves residue 0 if and only if its bits, as transmitted, are a multiple of x^16 + x^12 + x^5 + 1 |
| `Codewords.Quotient` | components/home_io_control/proto_frame.cpp:54-66 | any bit sequence that leaves the register at 0 has a quotient by that polynomial |
| `Codewords.MultipleLeavesZero` | components/home_io_control/proto_frame.cpp:54-66 | and every multiple leaves it at 0 |
| `KnownAnswers.SampleCrc` | tests/proto_frame_test.cpp:189-192 | the known frame check of the original's test |
| `SoftPhy.UartEncodePacket` | components/home_io_control/radio_soft_phy.cpp:204-229 | every byte becomes a start bit, eight bits least significant first and a stop bit; 0 exactly when nothing is to be sent or it does not fit |
| `SoftPhy.UartBitsWeigh` | components/home_io_control/radio_soft_phy.cpp:219-226 | the first data bit counts 1 and the last 128, between a start bit 0 and a stop bit 1 |
| `SoftPhy.RawBitsWeigh` | components/home_io_control/radio_soft_phy.cpp:214-217 | in a packed byte the first bit counts 128 and the last 1 |
| `SoftPhy.DecodeUartProbe` | components/home_io_control/radio_soft_phy.cpp:45-68 | the bytes read at an offset until the framing breaks or a buffer ends |
| `SoftPhy.DecodeSound` | components/home_io_control/radio_soft_phy.cpp:45-68 | what is decoded is line-coded in the raw bits at that offset |
| `SoftPhy.DecodeComplete` | components/home_io_control/radio_soft_phy.cpp:45-68 | whatever is line-coded there is decoded |
| `SoftPhy.LengthIsNamed` | components/home_io_control/radio_soft_phy.cpp:143-163 | the downward length search can only succeed at the length named by ctrl0 |
| `SoftPhy.FindCrcValidFrame` | components/home_io_control/radio_soft_phy.cpp:143-163 | returns the first start with a frame, or that there is none |
| `SoftPhy.FindUartProbe` | components/home_io_control/radio_soft_phy.cpp:165-200 | returns the first of the ten offsets whose stream holds a frame, or nothing when none does |
| `SoftPhy.ProbeSound` | components/home_io_control/radio_soft_phy.cpp:143-200 | a valid result is line-coded in the raw bits, parses, is plausible and has a matching CRC |
| `SoftPhy.ProbeComplete` | components/home_io_control/radio_soft_phy.cpp:143-200 | if any offset holds such a frame, the result is valid with the least offset and least start |
| `SoftPhy.BurstRejected` | components/home_io_control/radio_soft_phy.cpp:143-163 | a sent frame with a burst of at most 16 bits is never taken at its length |
| `SoftPhy.SendReceive` | components/home_io_control/radio_soft_phy.cpp:45-229 | every serializable known or one-way frame, encoded with its CRC and followed by anything, is found at offset 0 and start 0 and parses back |
| `OperationQueue.Queue.PushControlOp` | components/home_io_control/operation_queue.cpp:16-26 | drops the device's status poll and inserts ahead of the first background entry |
| `OperationQueue.Queue.EnqueueSetPosition` | components/home_io_control/operation_queue.cpp:28-41 | folds into the first pending tilt of the device, or pushes |
| `OperationQueue.Queue.EnqueueSetTilt` | components/home_io_control/operation_queue.cpp:43-54 | folds into the first pending position of the device, or pushes |
| `OperationQueue.Queue.EnqueueRequest` | components/home_io_control/operation_queue.cpp:84-100 | appends a status or name request unless one is pending for the device |
| `OperationQueue.Queue.EnqueueDiscoverAndPair` | components/home_io_control/operation_queue.cpp:102-115 | flushes the background entries and goes to the front, unless one is pending |
| `OperationQueue.Queue.Pop` | components/home_io_control/operation_queue.cpp:117-123 | takes the front entry, or reports an empty queue |
| `QueueRuns.ShapePreserved` | components/home_io_control/operation_queue.cpp:16-123 | every call keeps the shape of the queue |
| `QueueRuns.ReachableShape` | components/home_io_control/operation_queue.h:49-70 | in every reachable state: at most one discovery at the front, then the control operations, then background ones, at most one of a kind per device |
| `QueueOrder.ArrivalOrder` | components/home_io_control/operation_queue.cpp:16-123 | over any run, the control operations handed out followed by those queued are exactly the pushed ones in the order of their calls, each as its call asked or as the later call that folded into it left it |
| `QueueRuns.PushControlParts` | components/home_io_control/operation_queue.cpp:16-26 | a pushed control operation becomes the last control operation and every other one keeps its place |
| `QueueRuns.StatusLeavesOnlyBy` | components/home_io_control/operation_queue.cpp:16-123 | one call removes a pending status request exactly when it pops it, pushes a control operation for the device or flushes for a discovery |
| `QueueRuns.StatusFate` | components/home_io_control/operation_queue.cpp:16-123 | over any run, a status request once pending is still pending or one of those three happened |
| `QueueRefinement.SetPositionExact` | components/home_io_control/operation_queue.cpp:28-41 | enqueueing a position leaves the device where executing it last would exactly when no different position was written after the tilt it folds into |
| `QueueRefinement.SetTiltExact` | components/home_io_control/operation_queue.cpp:43-54 | the same for a tilt |
| `QueueRefinement.CallExact` | components/home_io_control/operation_queue.cpp:28-100 | for every call: the queue agrees with FIFO exactly under its guard |
| `QueueRefinement.CoalescingRefinesFifo` | components/home_io_control/operation_queue.cpp:16-123 | a run whose calls meet their guards leaves the device as executing every call in order |
| `QueueRefinement.DrainedRunMatchesFifo` | components/home_io_control/hub_operations.cpp:460-503 | once the queue is drained, the dispatched operations alone do |
| `QueueRefinement.DisciplinedRunMatchesFifo` | components/home_io_control/operation_queue.cpp:16-123 | it is enough never to enqueue a combined operation while a bare one of the device is pending, nor a named command for it |
| `QueueRefinement.LostPosition` | components/home_io_control/operation_queue.cpp:28-59 | without that discipline tilt 10, position and tilt 30/20, position 50 ends at position 30 |
| `QueueRefinement.LostPositionRun` | components/home_io_control/operation_queue.cpp:28-59 | as a whole run of calls whose dispatch differs from FIFO |
| `PollPolicy.SettleDelay` | components/home_io_control/status_poll_policy.h:65-72 | positive, at most the interval or the default, and only ever shortened by a hint or a STOP |
| `PollPolicy.StatusPollPolicy.BeginTracking` | components/home_io_control/status_poll_policy.cpp:19-25 | opens a ten-minute window, schedules the first poll and resets both streaks |
| `PollPolicy.StatusPollPolicy.Clear` | components/home_io_control/status_poll_policy.cpp:27-37 | forgets schedule, window and streaks and keeps the interval |
| `PollPolicy.StatusPollPolicy.OnExchangeFailed` | components/home_io_control/status_poll_policy.cpp:61-87 | counts the failure in its class, resets the other, and re-arms exactly when the backoff fits the window; otherwise clears |
| `PollPolicy.StatusPollPolicy.PopDueDevice` | components/home_io_control/status_poll_policy.cpp:107-120 | returns the first device in key order that is due inside its window, clears due expired ones before it, and changes nothing else |
| `PollRuns.WindowsKept` | components/home_io_control/status_poll_policy.cpp:19-120 | over any run a device's window is closed or ends ten minutes after its last begin_tracking |
| `PollRuns.BoundedPolling` | components/home_io_control/status_poll_policy.cpp:19-120 | no device is handed out more than 600000 ms after its last begin_tracking, whatever re-arms it |
| `PollRuns.BegunIsReady` | components/home_io_control/status_poll_policy.cpp:19-25 | after begin_tracking a device is handed out at every time past the delay and within ten minutes |
| `PollRuns.FailedIsReady` | components/home_io_control/status_poll_policy.cpp:61-87 | after a failure that is granted a retry it is handed out past the backoff until its window ends |
| `PollRuns.IntervalsKept` | components/home_io_control/status_poll_policy.cpp:10-120 | over any run the interval is the one last configured |
| `PollRuns.RetriesPerWindow` | components/home_io_control/status_poll_policy.cpp:61-87 | n retries granted within one window, e of them after attempts that did not wait until they were due, obey 5n <= 184 + 9e, n <= 5 + e when all failures are silent, n <= 3 + e when all are auth-like; without early starts 36, 5 and 3 |
| `PollRuns.LongestRetried` | components/home_io_control/status_poll_policy.cpp:61-139 | 36 is reached: an explicit run of failures one window accepts |
| `PollRuns.DrainExact` | components/home_io_control/status_poll_policy.cpp:107-120 | popping again and again at one instant returns each due tracked device once, in key order, clears the due expired ones and changes nothing else |
| `PollRuns.DrainEnds` | components/home_io_control/status_poll_policy.cpp:107-120 | and always comes to an end |
| `Motion.Reported` | components/home_io_control/proto_device_model.cpp:36-67 | a report leaves the device at rest exactly when it says stopped and its two positions, if both are given, are within 100 raw units; a missing position is that of the other when stopped, and unknown otherwise |
| `Device.IoDevice.DecodeStatusFields` | components/home_io_control/hub_status.cpp:67-80 | takes target and position from their offsets, normalizes the stopped flag by them, and takes the tilt of an extended reply to a device with tilt |
| `Device.IoDevice.UpdateLinkHealth` | components/home_io_control/hub_internal.h:279-299 | always stamps the time, and blends a valid sample only |
| `Device.IoDevice.RecordExchangeTimeout` | components/home_io_control/hub_internal.h:309-314 | counts the exchange and its attempts, each counter stopping at 65535 |
| `PollReplies.ApplyPrivateResponse` | components/home_io_control/hub_status.cpp:131-161 | what a private response leaves in the record, taking its positions only when they are trusted, and in the schedule: cleared when the device thereby rests, rescheduled no later than before otherwise |
| `PollReplies.PrivateResponseExact` | components/home_io_control/hub_status.cpp:88-161 | a device that rests or whose window is over is cleared; otherwise the next poll is due after the interval, or 3 s without one, or a second past the hint of byte 7 when that is sooner, unless it is due sooner already |
| `PollReplies.PrivateResponseReschedules` | components/home_io_control/hub_status.cpp:131-161 | it only moves the next poll earlier, within the settle delay and the hint, and only for a tracked moving device; otherwise it clears |
| `PollReplies.RepliesDoNotCompound` | components/home_io_control/hub_status.cpp:155-160 | any number of further replies leaves the poll due by the time the first one set |
| `PollReplies.ApplyUnsolicitedUpdate` | components/home_io_control/hub_status.cpp:168-180 | the same for a device-originated update, whose positions are always trusted and whose delay replaces the old one |
| `PollReplies.UpdateExact` | components/home_io_control/hub_status.cpp:113-180 | cleared in the same cases, and otherwise due exactly after the interval, or 3 s without one |
| `PollReplies.UpdatePollsAgain` | components/home_io_control/hub_status.cpp:168-180 | so a moving device is ready to be handed out at every later time within its window |
| `PollReplies.ResponsePollsAgain` | components/home_io_control/hub_status.cpp:131-161 | the same after a private response |
| `PollReplies.StopCapsPoll` | components/home_io_control/hub_operations.cpp:187-196 | after a STOP the next poll is due after a second, or when it was due if that is sooner; nothing else changes |
| `PollReplies.HubRunIsRun` | components/home_io_control/hub_status.cpp:131-180 | every run of calls, replies and answered STOPs is a run of the schedule: replies only clear or reschedule |
| `PollReplies.BoundedPolling` | components/home_io_control/hub_status.cpp:131-180 | so in a run of the hub no device is handed out more than 600000 ms after its last begin_tracking, whatever replies and commands re-arm it |
| `Hub.HubOperations.UpdateDeviceStatus` | components/home_io_control/hub_status.cpp:298-385 | every frame of a device counts for its link health; a long enough status report updates motion and schedule and clears the last refusal; a refusal is kept with its time |
| `Hub.HubOperations.ExecuteRequestAndUpdate` | components/home_io_control/hub_operations.cpp:66-115 | without a reply three requests went out; a failed poll is counted as auth-like exactly when the device challenged during the exchange; silence counts three attempts on the device, a refusal is a failure that is kept; success clears the streaks and applies the reply, whose positions are not trusted after a command |
| `Hub.HubOperations.RunCommand` | components/home_io_control/hub_operations.cpp:132-150 | however a command ends, the device is untracked or has a window opened during the call, and its interval and all other devices are untouched; a failure is counted in the new window; a configured device is always polled again; no second window is opened and nothing is capped unless that is asked for; a frame that cannot be built ends the polling |
| `Hub.HubOperations.ExecuteDeviceCommand` | components/home_io_control/hub_operations.cpp:153-198 | the exchange is that of the command's frame, force-open going to the device's own open end; a STOP answered while still moving is polled within a second, any other command is followed up |
| `Hub.HubOperations.SetDevicePosition` | components/home_io_control/hub_operations.cpp:117-151 | the same for a position; a stop sent this way is neither followed up nor capped |
| `Hub.HubOperations.SetDeviceTilt` | components/home_io_control/hub_operations.cpp:200-228 | the same for a tilt |
| `Hub.HubOperations.SetDevicePositionAndTilt` | components/home_io_control/hub_operations.cpp:230-259 | the same for both; over 100 per cent nothing is sent and the polling ends |
| `Hub.HubOperations.RequestDeviceStatus` | components/home_io_control/hub_operations.cpp:261-282 | sends the status request for the device's type; a failure is counted, and a success resets the streaks, exactly when the device was tracked |
| `Hub.RunGoesOn` | components/home_io_control/hub_operations.cpp:66-282 | the events of a command or poll extend a run of the hub to a run of the hub, so PollReplies.BoundedPolling holds over any sequence of them |
| `ExecuteFrames.CreateExecute` | components/home_io_control/proto_commands.cpp:81-117 | a position up to 100 in the long layout, any other code in the short one |
| `ExecuteFrames.CreateExecuteCommand` | components/home_io_control/proto_commands.cpp:163-188 | the short payload of stop, favourite and vent; force-open is refused |
| `ExecuteFrames.CreateExecutePositionAndTilt` | components/home_io_control/proto_commands.cpp:266-285 | succeeds exactly for positions up to 100 |
| `ExecuteFrames.CommandBytes` | components/home_io_control/proto_commands.cpp:163-205 | stop and favourite are the position codes 0xD2 and 0xD8, ventilation is the favourite with modifier 3, force-open is the position of the device's open end with the priority byte 0x03 |
| `ExecuteFrames.RequestOnAir` | components/home_io_control/proto_commands.cpp:81-295 | the bytes on the air of execute and status requests |
| `ExecuteFrames.PositionReadsBack` | components/home_io_control/proto_commands.cpp:71-74 | a commanded position lies on the scale of reported ones: read as a report it is that percentage |
| `ExecuteFrames.TiltBytes` | components/home_io_control/proto_commands.cpp:247-285 | a tilt is one byte, twice the distance from open, wrapping beyond 100; without a position the main byte is 0xD4 |
| `ExecuteFrames.TiltReadsBack` | components/home_io_control/proto_commands.cpp:247-285 | and a commanded tilt, read as a reported one, is that tilt |
| `Clock.DeadlineTest` | components/home_io_control/exchange_engine.cpp:269-272 | the signed 32-bit test compares the real times and the unsigned difference is the real one, wherever the counter wraps |
| `Radio.HopsCycle` | components/home_io_control/exchange_engine.cpp:78-95 | three hops visit all three channels |
| `Radio.SweepsAll` | components/home_io_control/exchange_engine.cpp:265-296 | waits that change channel after nothing and stay after a packet visit all three channels within three empty waits |
| `CommandFrames.CreateChallengeResponse` | components/home_io_control/proto_commands.cpp:389-404 | builds the frame with the code over the original command and payload |
| `CommandFrames.CreateKeyTransfer` | components/home_io_control/proto_commands.cpp:361-373 | builds the frame with the key wrapped under the key-init command byte and the challenge |
| `CommandFrames.CreateDiscoveryRequest` | components/home_io_control/proto_commands.cpp:313-350 | succeeds exactly for the three discovery commands, with the payload of each |
| `CommandFrames.OnAir` | components/home_io_control/proto_commands.cpp:353-430 | the bytes on the air of key-init, key transfer, challenge, response and configuration: flags, addressee before sender, command, payload |
| `CommandFrames.TranscriptDetermines` | components/home_io_control/proto_commands.cpp:389-404 | two requests are authenticated alike exactly when command and payload agree |
| `CommandFrames.VectorOfRequest` | components/home_io_control/proto_commands.cpp:389-404 | the vector behind an answer holds the command, up to seven payload bytes in order, padding, and the challenge |
| `CommandFrames.ChangedByteChangesBlock` | components/home_io_control/proto_commands.cpp:389-404 | a request with one payload byte changed, at any position, has another AES block behind its code |
| `CommandFrames.ChangedCommandChangesBlock` | components/home_io_control/proto_commands.cpp:389-404 | and so has a request with another command |
| `CommandFrames.ResponseIsAuthentic` | components/home_io_control/proto_commands.cpp:389-404 | a challenge response, serialized and parsed, passes the check of authenticate_request |
| `CommandFrames.TransferredKeyUnwraps` | components/home_io_control/proto_commands.cpp:361-373 | a key transfer, serialized and parsed, unwraps on the device to exactly the key |
| `Exchange.Engine.TransmitFrame` | components/home_io_control/exchange_engine.cpp:106-133 | sends exactly one packet, the serialized frame, and none when the frame does not serialize; before it the level was read until below the threshold or as often as allowed, with a delay after every busy reading |
| `Exchange.Engine.NextSlice` | components/home_io_control/exchange_engine.cpp:269-272 | the slice, also when the deadline passes between the loop's test and the subtraction |
| `Exchange.Engine.WaitForFirstResponse` | components/home_io_control/exchange_engine.cpp:265-296 | ends for every start time, overruns its window by at most one slice and the call overheads, gives up only after the whole window, is never deaf for longer than a hop and three clock readings, begins on the channel it finds, moves to the next one after every empty wait and only then, and returns what the observer makes of the packets |
| `Exchange.Engine.WaitForFinalResponse` | components/home_io_control/exchange_engine.cpp:326-353 | the same for the final response |
| `Exchange.Engine.HandleAuthentication` | components/home_io_control/exchange_engine.cpp:298-324 | answers the challenge just heard |
| `Exchange.Engine.Attempt` | components/home_io_control/exchange_engine.cpp:206-246 | an attempt whose last send went out fails only after listening through the whole window, 300 ms for the first response to a start frame and 500 ms for any other, and not much later; it listens from the channel of the send on, hopping after every empty wait |
| `Exchange.Engine.SendAndReceive` | components/home_io_control/exchange_engine.cpp:202-249 | against every radio the trace is one the observer accepts, success returns the frame that finished it, failure follows exactly three requests and, when all was sent, three full windows and two retry delays; the debug snapshot saw a challenge exactly if there was one and counted three tries on failure |
| `Exchange.Engine.AuthenticateRequest` | components/home_io_control/exchange_engine.cpp:359-405 | always sends its challenge, then waits once for 500 ms, and succeeds exactly when the one packet heard authenticates the request against that challenge |
| `ExchangeTrace.SendsBounded` | components/home_io_control/exchange_engine.cpp:202-249 | an accepted trace holds at most 3 requests and 3 answers, and no other send |
| `ExchangeTrace.SendsJustified` | components/home_io_control/exchange_engine.cpp:202-324 | every send is the request or the answer to the challenge heard immediately before it, on the frequency of the exchange and with the preamble of its kind |
| `ExchangeTrace.AnswersAccepted` | components/home_io_control/exchange_engine.cpp:298-324 | a peer with the same key, request and challenge accepts every answer sent |
| `ExchangeTrace.FirstHeard` | components/home_io_control/hub_decisions.h:80-89 | what one packet does while a first response is awaited |
| `ExchangeTrace.FinalHeard` | components/home_io_control/hub_decisions.h:99-103 | what one packet does while a final response is awaited |
| `ExchangeTrace.FinishedBy` | components/home_io_control/hub_decisions.h:64-66 | an exchange finishes only with a packet whose endpoints reverse the request's |
| `Pairing.PairingEngine.WaitForDiscoveryResponse` | components/home_io_control/pairing_engine.cpp:119-164 | accepts the first discovery response, tells silence from foreign traffic, ends, overruns its window by a bounded amount and listens throughout, on another channel each time as long as no frame seems to be arriving |
| `Pairing.PairingEngine.HopUnlessReceiving` | components/home_io_control/pairing_engine.cpp:142-154 | hops to the next channel exactly when neither a preamble nor a sync word is detected |
| `Pairing.PairingEngine.WaitForKeyChallenge` | components/home_io_control/pairing_engine.cpp:172-200 | returns the first challenge or confirmation from the device to this controller |
| `Pairing.PairingEngine.WaitForKeyConfirm` | components/home_io_control/pairing_engine.cpp:208-256 | at most three key transfers; stops at a confirmation or at any other answer of the device, and otherwise, when all was sent, only after three windows of 500 ms and two retry delays |
| `Pairing.PairingEngine.RunDiscoveryPhase` | components/home_io_control/pairing_engine.cpp:320-372 | gives up only after every command went out three times, each followed by the configured wait, a send failed or a command cannot be built; when all was sent, it reports silence exactly if nothing was heard |
| `Pairing.PairingEngine.RunKeyExchangePhase` | components/home_io_control/pairing_engine.cpp:387-455 | ends with the key confirmed, or where the next attempt may begin; when all was sent and nothing heard, only after 500 ms |
| `Pairing.PairingEngine.FinalizePairingConfiguration` | components/home_io_control/pairing_engine.cpp:458-462 | the configuration exchange follows a confirmed key, and fails only after three requests |
| `Pairing.PairingEngine.DiscoverAndPair` | components/home_io_control/pairing_engine.cpp:474-629 | the observer accepts every run; true exactly when the outcome is Paired or ConfigFailed, and then the registry gained the device of the response that ended the search, confirmed after the last key-init, and nothing else; otherwise it is unchanged; the telemetry is detached at every exit; an invalid response is reported only when something was heard |
| `PairingTrace.WatchExchange` | components/home_io_control/pairing_engine.cpp:433-435 | a key sent as an ordinary exchange obeys the exchange observer within the pairing one |
| `PairingTrace.WatchConfiguration` | components/home_io_control/pairing_engine.cpp:458-462 | so does the configuration |
| `PairingTrace.DiscoveryOnAir` | components/home_io_control/tuning_config.cpp:163-179 | the bytes on the air of a discovery request: to the configured address, or to 0x00003F for command 0x2E and 0x00003B otherwise, with the payload of its command |
| `PairingRuns.RoundBounds` | components/home_io_control/pairing_engine.cpp:320-455 | per discovery command at most 3 requests, per key attempt at most 3 key-inits and 3 key transfers, and no more attempts than configured |
| `PairingRuns.RoundsAdvance` | components/home_io_control/pairing_engine.cpp:320-612 | commands and attempts are never returned to |
| `PairingOrigins.TransferWrapsKey` | components/home_io_control/pairing_engine.cpp:387-455 | every key transfer goes to the device whose 0x29 ended the search and wraps the system key under the challenge with which that device first answered the last key-init, so that it unwraps to exactly that key; on a slow radio no other challenge came since |
| `PairingOrigins.OtherChallengeOtherKey` | components/home_io_control/proto_crypto.cpp:348-358 | a device that unwraps with any other challenge gets another key |
| `PairingOrigins.OutdatedTransfer` | components/home_io_control/pairing_engine.cpp:433-435 | on a fast radio there is a run in order whose repeated transfer wraps under the first of two challenges, which a device using its latest one does not recover |
| `PairingOrigins.LatestExactly` | components/home_io_control/pairing_engine.cpp:387-455 | all runs in order wrap under the device's latest challenge if and only if the radio is slow or no run can get as far as a transfer |
| `PairingOrigins.ConfirmationHeard` | components/home_io_control/pairing_engine.cpp:387-455 | a device is confirmed, configured and registered only after a 0x33 of it to this controller that follows the last key-init, which went to it after its own response had ended the search |
| `PairingRuns.AlternateEndsRun` | components/home_io_control/pairing_engine.cpp:494-508 | after an alternate discovery response nothing is sent any more |
| `PairingRuns.DiscoveryComesFirst` | components/home_io_control/pairing_engine.cpp:474-612 | no discovery request follows a send of another kind |
| `DeviceName.UpperHalf` | components/home_io_control/proto_codecs.cpp:35-56 | a character of the upper half is encoded as 0xC2 and itself, or as 0xC3 and itself less 0x40 |
| `DeviceName.Latin1ToUtf8` | components/home_io_control/proto_codecs.cpp:35-56 | the encoding of the longest prefix that fits the 32-byte buffer |
| `DeviceName.TrimAsciiWhitespace` | components/home_io_control/proto_codecs.cpp:60-70 | the text without white space at its ends |
| `DeviceName.DecodeDeviceNamePayload` | components/home_io_control/proto_codecs.cpp:72-89 | the decoded payload, without a leading control byte and trailing padding |
| `DeviceName.DecodeWellFormed` | components/home_io_control/proto_codecs.cpp:72-89 | whatever the payload, well-formed UTF-8 of at most 31 bytes |
| `DeviceName.EncodeDeviceNamePayload` | components/home_io_control/proto_codecs.cpp:91-144 | the error of the first offending character, or the zero-padded payload and the normalized name; the last payload byte is always NUL |
| `DeviceName.EncodesExactly` | components/home_io_control/proto_codecs.cpp:91-144 | succeeds exactly for names that, trimmed, are one to fifteen Latin-1 characters in UTF-8; the normalized name is the trimmed one |
| `DeviceName.ReadUtf8` | components/home_io_control/proto_codecs.cpp:104-140 | a Latin-1 text is read back character by character, or is too long |
| `DeviceName.ReadSound` | components/home_io_control/proto_codecs.cpp:104-140 | whatever is read is the encoding of what it is read as |
| `DeviceName.DecodeEncoded` | components/home_io_control/proto_codecs.cpp:72-144 | decoding the payload returns the trimmed name exactly when that begins above the blank and does not end in NUL |
| `Tuning.CommandsToCsv` | components/home_io_control/tuning_config.cpp:149-157 | the printed commands with commas between them |
| `Tuning.PrintsCode` | components/home_io_control/tuning_config.cpp:143-147 | a command is printed as the hexadecimal digits of its byte |
| `Tuning.TuningConfig.SetDiscoveryCommands` | components/home_io_control/tuning_registry.cpp:76-94 | the setter accepts every string and stores what it parses to |
| `Tuning.ParseJoin` | components/home_io_control/tuning_registry.cpp:76-94 | parsing a joined list gives the commands of its tokens, whatever the tokens; unknown ones are skipped |
| `Tuning.RoundTrip` | components/home_io_control/tuning_registry.cpp:74-94 | a list of any length is parsed back as it was printed |
| `Tuning.BlanksIgnored` | components/home_io_control/tuning_registry.cpp:83-86 | spaces and tabs around tokens change nothing |
| `LinkHealth.Rounds` | components/home_io_control/proto_device_model.h:235-238 | with truncating division the displayed value is the nearest, half away from zero |
| `LinkHealth.AverageInRange` | components/home_io_control/hub_internal.h:290-299 | samples between a and b keep the average between 8a and 8b and the displayed value between a and b for ever: no overflow, no sentinel |
| `LinkHealth.Converges` | components/home_io_control/hub_internal.h:294-299 | a constant signal is what device_rssi_ema_dbm returns after at most as many steps as the average is away, and stays |
| `Captures.StatusReplyReported` | tests/corpus/captures/somfy_awning/status_poll_success_sx1276.yaml:31-47 | the captured answer to a poll leaves any record moving, at 1256 of 51200 on the way to 100 per cent, and clears the last refusal |
| `Captures.TiltReplyReported` | tests/corpus/captures/issues/issue_23_linked_remote_triggers_status_poll.yaml:45-50 | the captured answer of a device with tilt leaves both positions unknown and the tilt at 31.04 per cent, if it supports tilt |
| `Captures.CommandReplyReported` | tests/corpus/captures/somfy_awning/exchange_open_sx1276.yaml:31-36 | the positions in the captured answer to a command are not taken |
| `Captures.RefusalReported` | tests/corpus/captures/issues/issue_23_tilt_priority_locked_error.yaml:33-38 | a captured refusal is kept with its time and changes nothing else |
| `Captures.MovingUpdateReported` | tests/hub_core_test.cpp:671-694 | an update of a moving device, with its fields at other offsets |
| `Captures.ForcedOpeningSent` | tests/corpus/captures/somfy_awning/exchange_force_open_sx1276.yaml:27-32 | the forced opening is sent byte for byte as captured |
| `Captures.NameReplyRead` | tests/corpus/captures/somfy_awning/exchange_get_name_sx1276.yaml:31-36 | the captured name is read |
| `Captures.DiscoveryReplyRead` | tests/corpus/captures/issues/field_rs100_pairing_key_transfer_timeout.yaml:19-24 | the captured discovery response gives the device's address and type bytes |
| `Captures.FramesPlausible` | tests/corpus/captures/issues/issue_27_smoov_1w_sx1276_monitor.yaml:15-20 | the frame search takes a captured request without payload and a captured one-way packet with an unknown command, but not the same packet as a two-way one |
| `Captures.SamplesBlended` | tests/hub_core_test.cpp:902-921 | three samples, the average after each and what is displayed for it |

## Left out

- PollRuns.BoundedPolling: assumes the millisecond counter does not wrap within ten minutes of a begin_tracking, because the original compares absolute values there; the failure bounds assume ten minutes more.
- PollRuns.RetriesPerWindow: a command opens a new window each time a user repeats it, so the number of retries over several windows is not bounded.
- Motion.Reported: positions are real numbers; reported ones are exact in the original's floats too, an optimistic target set by an entity need not be.
- Hub.HubOperations.UpdateDeviceStatus: name and metadata replies count for the link only; a device's type, tilt support and inversion do not change.
- Hub.HubOperations.ExecuteDeviceCommand: whether the hub is ready, the device known and the command right for its type is one parameter, `admitted`, here and in the other commands.
- Exchange.Engine.WaitForFirstResponse: assumes finitely many interruptions and that clock lag, call overhead and slice are small against 2^31 ms.
- Pairing.PairingEngine.DiscoverAndPair: devices are kept by address and packed metadata bytes; type decoding, inversion defaults, the YAML text and the telemetry event log are not modelled.
- CommandFrames.CreateDiscoveryRequest: the random nonce, like the random challenge of authenticate_request, is a parameter.
- DeviceName.EncodeDeviceNamePayload: which characters the payload buffer holds after an error is not stated.
- Frames, operations and schedule entries are values in fields of classes; aliasing between the original's structures is not modelled.
- The microsecond hop timer (`maybe_hop`), listen-before-talk counters and the radio capture in the debug snapshot; its stage text is kept but nothing is promised about it.
- Radio chips, SPI, interrupts, ESPHome entities and actions, logging, YAML and Python code, the corpus scripts, and the debug trace of keys.
- One-way remotes and their optimistic targets, address classes and the remaining tuning fields, which would add only simple members.
- Cryptographic strength: AES is a permutation here and nothing more.
