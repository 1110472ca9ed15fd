# Verification model of the DALI to MQTT bridge

A Dafny model of the bridge's DALI driver and of the caches and the scheduler built on top of it, with proofs of what
they promise. `dafny verify dfyconfig.toml` checks everything.

## What is modelled

`Counting`, `Addressing` and `Ordered` are shared by the other modules.

The physical layer (`Bits`, `Manchester`, `Driver`, `DaliDriver`, `Receiver`, `ClockTolerance`, `Transmitter`,
`RoundTrip`, `Collision`). The class `DaliDriver.Dali` has the fields and buffers of the driver and its interrupt
routine, transmitter, receiver and decoder. Each method is proved against a step of the pure state machine in `Driver`
or against the decoder in `Manchester`. Several drivers on one bus tick in lock-step on the wired AND of their outputs:
all sample, then all drive. The main results are the clock tolerance of the receiver, amid any calls, the round trip of
frames between two drivers, the exact frame length at which it ends, that frames cut off by a collision are refused, the
safety and the bounded bus time of the state machine, and that colliding senders both notice.

Commissioning (`Gear`, `Search`, `CommandLog`, `BinarySearch`, `Assignment`, `Commissioning`). The units on the bus are
records with a random address, a short address, a search register and their state in the initialisation; each steps on
every frame, and acts on INITIALISE and RANDOMISE only when it hears them twice in a row. The class
`Commissioning.Master` issues the frames of one commissioning run. Replies are arbitrary: `Transfer` may return
anything, and every exchange goes into a ghost log. What holds whatever is replied (termination, number of searches and
frames, no address programmed twice) is stated without conditions; what depends on the units (the result of a search,
who gets which address) is stated for logs whose replies these units can cause (`Gear.Faithful`): any activity on the
bus counts as a reply to COMPARE, several answers garble each other, and the reply to a COMPARE may get lost, but not to
two in a row. The model is parameterised by the family of units, so that `commission`, `find_addr` and `compare` are
modelled together with `commission_id`, `find_addr_id` and `compare_id` of input devices. What control gear does is
documented in the repository; of an input device it is left open whether a given INITIALISE is for it and whether it
answers the query of the scan (`Gear.Conduct`), and the results are stated for every choice.

The bridge (`Scheduler`, `Devices`, `Adapter`, `GroupAssignments`, `GroupLevels`, `GroupStore`, `Discovery`,
`DeviceController`, `Sniffer`, `SyncTask`, `LongAddress`, `AddressMap`). Classes stand for the objects with their fields
and loops: `SyncScheduler` for the queue, set and deferred list of polls, `GroupAssigner` and `GroupManager` for the
group management, `Controller` for the device cache, its index, the sniffer and the sync task. Each method is proved
against a function of the old state, and the promises are proved about these functions: invariants over every
interleaving, bounded wait of every request, a round robin that leaves no address out, published state equal to the
cache, group levels equal to their definition, a diff that reaches its target on the bus, and round trips of everything
that is stored.

Published messages and sent frames are ghost logs. Driver calls, ticks, and blocks under a mutex are atomic. Maps are
walked in ascending order of their keys, as `std::map` does. Bytes are `bv8` in the driver and numbers elsewhere.

## Where the code differs from its comments

- The automatic collision handling tests for 14 half bits, which is a frame of four data bits. Frames of eight bits have
  22 and are therefore watched, although the comment exempts them (`Collision.AutomaticHandling`).
- A jamming driver releases the bus within its sixteenth tick, so that the bus is low for fifteen sample periods and not
  sixteen; this is still long enough for the winner to notice (`Collision.JamStep`, `Collision.CollisionSoundness`).
- The number of samples is passed to the decoder in eight bits and wraps from 256 on, which ends reception at 27 or 28
  bits although the sender accepts 32 (`RoundTrip.FrameLengthLimit`), and earlier for slow senders
  (`ClockTolerance.SlowFrameLimit`). Wrapped to 32 and more it also lets leading bits of a long frame that was cut off
  by a collision pass for a frame (`ClockTolerance.CutFrameIsRefused`).
- On arbitrary samples the decoder can make 35 bits, more than its callers have room for (`Manchester.LongestDecode`),
  but none of the buffers `rx` passes on give more than 32 (`Driver.DecodedLength`).
- `find_addr` never compares with 0 and returns 1 if the lowest random address is 0 (`BinarySearch.FindsLowest`).
  `commission` then spends all free addresses on the units that drew 1, and counts them (`Assignment.Stuck`); several
  such units end up with the same address (`Assignment.ClashFreeIff`).
- `commission_id` scans with the status query of control gear, code 144, while the repository's own code for input
  devices is 0x10. A device that does not answer it may have its short address given out again
  (`Assignment.ClashFreeIff`, `Assignment.SilentDeviceClashes`).
- The check that a special command does not look like an address keeps bit 8 of the command in the byte it tests, so it
  refuses only 0xFE and 0xFF (`Sniffer.SpecialIsIgnored`). `cmd` reports a refusal as a positive 104.
- Recalling a level for a group whose single member is not a known device creates an entry with default values for it
  (`DeviceController.Touched`); the model does the same, and the claims about known gear hold with it. This is the one
  way to an entry that does not stand under its own long address (`Sniffer.SniffedAddsEntry`,
  `SyncTask.EventKeepsLongs`). Saved and loaded, it comes back as an entry for address 0 (`AddressMap.MapRoundTrip`).
- A group is published with every update, changed or not. A level of 255 is never published. After any update of a gear
  its initial sync counts as done, published or not.
- The index is keyed by plain short addresses when it is loaded, but with bit 0x80 for input devices when it is
  discovered; this is why the loaded index is right for maps of control gear only (`AddressMap.LoadedIndexIsInverse`).

## Model

| member | source | states |
|---|---|---|
| `Manchester.LevelChanges` | src/DaliMQTT/dali/driver/DaliDriver.cxx:210-219 | in a Manchester string any three consecutive half bits show both levels |
| `Manchester.DecodeFrom` | src/DaliMQTT/dali/driver/DaliDriver.cxx:310-357 | on arbitrary samples the decoder ends, having found at most one bit for every seven samples |
| `Manchester.TrackerLocks` | src/DaliMQTT/dali/driver/DaliDriver.cxx:312-352 | if the window is at most one sample off, the best of the three candidates is the one four samples before the mid-bit transition; it has weight 25 for a one and 24 for a zero, and none of the three looks like a stop or a collision |
| `Manchester.DecodesExactly` | src/DaliMQTT/dali/driver/DaliDriver.cxx:310-357 | samples that carry bits with mid-bit transitions 8 or 9 samples apart decode to exactly these bits, and to nothing more after the last one |
| `Manchester.StoreBitsAt` | src/DaliMQTT/dali/driver/DaliDriver.cxx:343-350 | every decoded bit can be read back from its byte of the output; a last byte that is not full holds its bits at the low end |
| `Manchester.StoreWholeBytes` | src/DaliMQTT/dali/driver/DaliDriver.cxx:343-350 | the bits of whole bytes are stored as these bytes and the rest of the output is untouched |
| `Manchester.StoreBitsFrame` | src/DaliMQTT/dali/driver/DaliDriver.cxx:343-350 | output bytes beyond the last bit are not touched |
| `Manchester.FewBitsBeforeHigh` | src/DaliMQTT/dali/driver/DaliDriver.cxx:314-352 | sixteen high samples end the frame: all bits are found before them, at most one for every seven samples |
| `Manchester.CutDecodes` | src/DaliMQTT/dali/driver/DaliDriver.cxx:314-342 | if a Manchester signal is cut off anywhere by a low bus of fifteen samples, the decoder gives up if it looks that far, and otherwise finds at most one bit for every eight samples it looks at |
| `Manchester.UncutDecodes` | src/DaliMQTT/dali/driver/DaliDriver.cxx:310-357 | looking only at samples before the cut, the decoder does not give up and finds a bit at least every nine samples |
| `Manchester.LongestDecode` | src/DaliMQTT/dali/driver/DaliDriver.cxx:310-357 | on samples of a sender with seven samples to a bit the longest buffer gives 35 data bits, so that an arbitrary buffer can need five output bytes |
| `Driver.NextKeepsInv` | src/DaliMQTT/dali/driver/DaliDriver.cxx:79-239 | every call and every tick at any bus level keeps the invariant: receiving exactly in the receive state, all buffer positions in range, counters consistent, and a completed frame ends with high samples |
| `Driver.EveryStateSafe` | src/DaliMQTT/dali/driver/DaliDriver.cxx:79-239 | every state of every interleaving of ticks, tx, rx and tx_state satisfies the invariant, the high end of a completed frame included |
| `Driver.DecodedLength` | src/DaliMQTT/dali/driver/DaliDriver.cxx:359-398 | in every such state rx finds at most 33 bits with the start bit and reports at most 32, so that four bytes are enough for its caller |
| `Driver.CallsKeepReception` | src/DaliMQTT/dali/driver/DaliDriver.cxx:197-239 | a call changes the state on the bus exactly if it is a tx of at most 32 bits on an idle driver; no call touches the samples, or anything else of a reception that is going on |
| `Driver.ReceptionAmidCalls` | src/DaliMQTT/dali/driver/DaliDriver.cxx:79-398 | as long as the driver is receiving, any interleaving of ticks and calls leaves the reception as the ticks alone do |
| `Driver.TickMakesProgress` | src/DaliMQTT/dali/driver/DaliDriver.cxx:137-184 | each tick of a driver that holds the bus, under any bus level, shortens the time until it lets go |
| `Driver.LetsGoOfBus` | src/DaliMQTT/dali/driver/DaliDriver.cxx:137-184 | a transmitting or jamming driver is idle again within the time left, whatever the bus does, and holds the bus until then |
| `Driver.TransmissionEnds` | src/DaliMQTT/dali/driver/DaliDriver.cxx:137-228 | a frame accepted by tx occupies the driver for at most 4 * txhblen + 16 ticks, collisions included |
| `DaliDriver.Dali.constructor` | src/DaliMQTT/dali/driver/DaliDriver.cxx:49-69 | a new driver is idle, with nothing received and the bus released |
| `DaliDriver.Dali.Timer` | src/DaliMQTT/dali/driver/DaliDriver.cxx:79-185 | one tick of the interrupt routine on the real buffers is one step of the state machine |
| `DaliDriver.Dali.TransmitTick` | src/DaliMQTT/dali/driver/DaliDriver.cxx:137-176 | collision check first, then a half bit on every fourth tick, then back to idle |
| `DaliDriver.Dali.Sample` | src/DaliMQTT/dali/driver/DaliDriver.cxx:107-136 | a sample is packed and sixteen high ones complete the frame with a last byte 0xFF |
| `DaliDriver.Dali.PackSample` | src/DaliMQTT/dali/driver/DaliDriver.cxx:108-117 | eight samples, the oldest in the most significant bit, make one byte at the next position |
| `DaliDriver.Dali.TxPush2hb` | src/DaliMQTT/dali/driver/DaliDriver.cxx:188-194 | two half bits are appended and all other places of the buffer keep their value |
| `DaliDriver.Dali.FillTxBuffer` | src/DaliMQTT/dali/driver/DaliDriver.cxx:205-219 | the buffer holds the start bit, the Manchester form of the data bits in order and two stop bits |
| `DaliDriver.Dali.Tx` | src/DaliMQTT/dali/driver/DaliDriver.cxx:197-228 | frames over 32 bits and a busy driver are refused without any change; otherwise the frame is ready to go from its first half bit |
| `DaliDriver.Dali.TxState` | src/DaliMQTT/dali/driver/DaliDriver.cxx:230-239 | a collision is reported once and then forgotten |
| `DaliDriver.Dali.Rx` | src/DaliMQTT/dali/driver/DaliDriver.cxx:361-398 | a completed frame of at most 32 bits is decoded once into the caller's four bytes; results below three mean nothing, busy or undecodable |
| `DaliDriver.ManWeight` | src/DaliMQTT/dali/driver/DaliDriver.cxx:265-288 | the weight of a byte is twice the size of the signed sum of its samples, odd exactly if the sum is negative |
| `DaliDriver.ManSample` | src/DaliMQTT/dali/driver/DaliDriver.cxx:291-306 | the byte cut out across a byte border is the window of eight samples at that position, and marks all-high and all-low windows |
| `DaliDriver.BestWindow` | src/DaliMQTT/dali/driver/DaliDriver.cxx:315-341 | of the three windows the first of the greatest weight is chosen, and all reads stay inside the buffer |
| `DaliDriver.ManDecode` | src/DaliMQTT/dali/driver/DaliDriver.cxx:310-357 | for any samples and any length rx can pass, only 32 input bytes and the output bytes of the bits found are used, and the output and the length are those of the decoder's definition |
| `DaliDriver.FiveBytesAreEnough` | src/DaliMQTT/dali/driver/DaliDriver.cxx:310-357 | whatever the samples are, the decoder finds at most 35 data bits, which fit into five bytes |
| `Receiver.CollectAll` | src/DaliMQTT/dali/driver/DaliDriver.cxx:94-136 | while the bus is never high for sixteen samples, the buffer and the byte under construction hold exactly the samples since the first low one |
| `Receiver.CollectLast` | src/DaliMQTT/dali/driver/DaliDriver.cxx:119-131 | the sixteenth high sample in a row completes the frame and marks the last byte |
| `Receiver.SamplerHolds` | src/DaliMQTT/dali/driver/DaliDriver.cxx:94-136 | an idle driver fed a frame and a quiet bus ends up idle and holds the samples of the frame followed by high ones |
| `Receiver.FrameCompletes` | src/DaliMQTT/dali/driver/DaliDriver.cxx:94-136 | a frame of any length is completed by the quiet bus after it; the buffer position stops at its last place, and the idle counter starts again and stops at 255 |
| `Receiver.ReportsReceiving` | src/DaliMQTT/dali/driver/DaliDriver.cxx:361-366 | from the first low sample until the frame is completed rx reports that a frame is being received |
| `Receiver.FrameAmidCalls` | src/DaliMQTT/dali/driver/DaliDriver.cxx:79-398 | tx, rx and tx_state between the first sample of a frame and the one that completes it make no difference to what is received |
| `ClockTolerance.NeverHighForLong` | src/DaliMQTT/dali/driver/DaliDriver.cxx:118-135 | within a slow frame the bus is never high for twelve samples in a row, so reception does not end early |
| `ClockTolerance.SampledCarries` | src/DaliMQTT/dali/driver/DaliDriver.cxx:245-262 | the samples of a slow frame carry its start and data bits, each transition within the tracker's reach of the one before |
| `ClockTolerance.SlowFrameReceived` | src/DaliMQTT/dali/driver/DaliDriver.cxx:79-136 | clock tolerance: every frame of 1 to 24 bits from a transmitter 0 to 12.5 percent slow is decoded to exactly its bits, on top of any idle driver state; rx reports its length from three bits on |
| `ClockTolerance.SlowFrameAmidCalls` | src/DaliMQTT/dali/driver/DaliDriver.cxx:79-398 | and so it is, amid any calls of tx, rx and tx_state while the frame is being received |
| `ClockTolerance.SlowFrameLimit` | src/DaliMQTT/dali/driver/DaliDriver.cxx:79-398 | a slow frame of three bits or more, of any length, is reported with its length exactly if its last low sample and the 16 of the stop condition are fewer than 248; then its bits are right too, and a longer one wraps the 8 bit sample count |
| `ClockTolerance.CutFrameIsRefused` | src/DaliMQTT/dali/driver/DaliDriver.cxx:341-398 | if the bus goes low for at least fifteen samples at any place of a slow frame, as a jamming driver does, rx reports an undecodable frame as long as fewer than 280 samples are taken; from 280 on, where the 8 bit count has wrapped to 32 and more, leading bits of a frame cut late are taken for a frame |
| `Transmitter.KeepsSending` | src/DaliMQTT/dali/driver/DaliDriver.cxx:137-175 | as long as no collision is noticed the level on the bus is that of the half bit due at this tick |
| `Transmitter.DoneSending` | src/DaliMQTT/dali/driver/DaliDriver.cxx:138-140 | after the last half bit the driver goes idle and releases the bus |
| `Transmitter.NoticesCollision` | src/DaliMQTT/dali/driver/DaliDriver.cxx:142-155 | a driver that sends high in the middle of a half bit and sees low starts jamming |
| `RoundTrip.SenderAndListener` | src/DaliMQTT/dali/driver/DaliDriver.cxx:79-185 | two wired drivers in lock-step: the sender goes on undisturbed and the listener samples exactly the sender's line |
| `RoundTrip.LineIsSignal` | src/DaliMQTT/dali/driver/DaliDriver.cxx:137-228 | the line of a sender is a frame with four samples to a half bit |
| `RoundTrip.BytesArrive` | src/DaliMQTT/dali/driver/DaliDriver.cxx:79-398 | physical round trip: one to three bytes given to tx are accepted and arrive in the four bytes given to rx with their length, once; the sender is idle and reports no collision |
| `RoundTrip.FrameLengthLimit` | src/DaliMQTT/dali/driver/DaliDriver.cxx:310-398 | a frame of n bits, 3 <= n <= 32, is accepted by tx and received exactly if n <= 27, or n = 28 and its last bit is a one; beyond that the 8 bit sample count has wrapped |
| `RoundTrip.LongFrameIsLost` | src/DaliMQTT/dali/driver/DaliDriver.cxx:310-398 | a frame of 32 ones is accepted by tx and not received with its length |
| `RoundTrip.SenderReports` | src/DaliMQTT/dali/driver/DaliDriver.cxx:197-239 | a frame of up to 32 bits is accepted by an idle driver, which forgets a received one; tx_state says transmitting until the last half bit is over, and ok after that |
| `Collision.FramesDiffer` | src/DaliMQTT/dali/driver/DaliDriver.cxx:205-219 | different frames, also of different lengths, first differ at a half bit both still transmit |
| `Collision.ReleasesSoon` | src/DaliMQTT/dali/driver/DaliDriver.cxx:205-219 | a sender that holds the bus low releases it within the next two half bits |
| `Collision.JamStep` | src/DaliMQTT/dali/driver/DaliDriver.cxx:177-183 | a jamming driver holds the bus low and lets go on its sixteenth tick |
| `Collision.WinnerGoesOn` | src/DaliMQTT/dali/driver/DaliDriver.cxx:137-183 | while the other one jams, the winner does not notice as long as it sends low itself |
| `Collision.LoserThenWinner` | src/DaliMQTT/dali/driver/DaliDriver.cxx:137-183 | the driver that sends high where the other sends low notices first, and its jamming makes the other one notice too |
| `Collision.SameFrameBothSend` | src/DaliMQTT/dali/driver/DaliDriver.cxx:137-175 | two drivers that send the same frame on the same tick both finish undisturbed |
| `Collision.CollisionSoundness` | src/DaliMQTT/dali/driver/DaliDriver.cxx:137-239 | collision soundness: two watching drivers that start on the same tick both end OK if their frames are equal and both report a collision otherwise, once |
| `Collision.AutomaticHandling` | src/DaliMQTT/dali/driver/DaliDriver.cxx:143-146 | a frame is watched if handling is on, or automatic and the frame has not exactly four data bits; eight bit frames are watched, unlike the comment says |
| `Collision.UnwatchedFrame` | src/DaliMQTT/dali/driver/DaliDriver.cxx:137-175 | a frame that is not watched is sent to its end and never reports a collision, whatever the bus does |
| `Gear.SomeReplyIsPlausible` | src/DaliMQTT/dali/driver/DaliDriver.cxx:446-481 | the assumption about replies never runs dry: whatever was sent so far, some reply to the next frame meets it |
| `Gear.LowestIsMinimum` | src/DaliMQTT/dali/driver/DaliDriver.cxx:638-655 | the lowest random address is the minimum over the units taking part, and there is none exactly if nobody takes part |
| `CommandLog.FrameMeans` | src/DaliMQTT/dali/driver/DaliDriver.cxx:531-565 | the frame of each commissioning command is told apart from all others by the units of its family; whether an input device answers the query of the scan is left open |
| `CommandLog.GearFrames` | src/DaliMQTT/dali/driver/DaliDriver.cxx:531-565 | the command and argument values passed to cmd are accepted, give that frame, and ask for a repeat exactly where the gear needs one |
| `Search.WriteEffect` | src/DaliMQTT/dali/driver/DaliDriver.cxx:618-634 | a write changes one byte of the search registers of the units taking part and nothing else of them |
| `Search.ThreeBytes` | src/DaliMQTT/dali/driver/DaliDriver.cxx:618-623 | three writes complete the value whatever was in the register |
| `Search.WholeWrite` | src/DaliMQTT/dali/driver/DaliDriver.cxx:618-623 | after writing all bytes every unit that takes part has the value in its search register |
| `Search.DiffIsWhole` | src/DaliMQTT/dali/driver/DaliDriver.cxx:626-634 | writing only the bytes that differ from the last value has the effect of writing all of them |
| `Search.StepChangesFewBytes` | src/DaliMQTT/dali/driver/DaliDriver.cxx:677-686 | a step of the search changes two bytes only when it crosses a byte border, and one otherwise |
| `BinarySearch.AnswerMeansLowest` | src/DaliMQTT/dali/driver/DaliDriver.cxx:638-655 | somebody answers COMPARE exactly if the lowest address is at most the search address |
| `BinarySearch.CompareReply` | src/DaliMQTT/dali/driver/DaliDriver.cxx:638-655 | any sign of a reply means that somebody answered; two missing replies in a row mean that nobody did |
| `BinarySearch.FindsLowest` | src/DaliMQTT/dali/driver/DaliDriver.cxx:670-694 | the result of a search is the lowest random address exactly if no unit taking part has drawn 0 |
| `BinarySearch.ZeroIsMissed` | src/DaliMQTT/dali/driver/DaliDriver.cxx:670-694 | a single unit with random address 0 is reported as 1 |
| `BinarySearch.NextStep` | src/DaliMQTT/dali/driver/DaliDriver.cxx:677-686 | a step up or down leads to the centre of the half that is left, with half the step |
| `Commissioning.Master.Cmd` | src/DaliMQTT/dali/driver/DaliDriver.cxx:531-565 | cmd refuses bad addressing without sending anything, with a positive 104, and sends twice exactly where bit 9 asks for it |
| `Commissioning.Master.Issue` | src/DaliMQTT/dali/driver/DaliDriver.cxx:531-565 | a command reaches the units and the log once, or twice if it has to be repeated; programmed and answering addresses are recorded |
| `Commissioning.Master.SetSearchaddr` | src/DaliMQTT/dali/driver/DaliDriver.cxx:618-623 | three frames, and the whole register equals the address |
| `Commissioning.Master.SetSearchaddrDiff` | src/DaliMQTT/dali/driver/DaliDriver.cxx:626-634 | as many frames as bytes differ, and the whole register equals the new address |
| `Commissioning.Master.Compare` | src/DaliMQTT/dali/driver/DaliDriver.cxx:638-655 | any activity is a yes, and two attempts without any are a no; the answer is exact although one of the two may lose its reply |
| `Commissioning.Master.FindAddr` | src/DaliMQTT/dali/driver/DaliDriver.cxx:670-694 | a search takes at most 79 frames and ends with the register equal to the result; with the units' own replies the result is the lowest random address, 1 if that is 0, and 0x1000000 if nobody takes part |
| `Commissioning.Master.Scan` | src/DaliMQTT/dali/driver/DaliDriver.cxx:713-721 | every short address is asked once; exactly the ones that answered are marked, none if all gear is readdressed, and on a bus that causes the replies these are addresses some unit answers for, all that just one answers for included |
| `Commissioning.FirstUnmarked` | src/DaliMQTT/dali/driver/DaliDriver.cxx:729-733 | the first address that may be given out, or 64 |
| `Commissioning.Master.Commission` | src/DaliMQTT/dali/driver/DaliDriver.cxx:700-754 | commissioning ends after at most 65 searches whatever is replied, programs no short address twice, none that answered the scan unless all gear is readdressed, and counts what it programmed; with the units' own replies, for any argument and any units, the units addressed get the free addresses in the order of the random addresses they draw as far as these go, or what is said for a unit that drew 0, and all others keep theirs, the addresses that answered being kept out of the pool unless all gear is readdressed; input devices may still be in the initialise state before. For documented gear: with 0xFF nobody loses an address and new ones were free, with 0 all are numbered in the order of their random addresses |
| `Assignment.FinalShortsDistinct` | src/DaliMQTT/dali/driver/DaliDriver.cxx:700-754 | where just the units without a short address are addressed, the others answer the scan and had distinct addresses, commissioning leaves the old addresses alone, gives out only addresses nobody had, and ends with distinct ones exactly if the units that are given one drew different random addresses |
| `Assignment.ClashFreeIff` | src/DaliMQTT/dali/driver/DaliDriver.cxx:700-754 | after commissioning, also with a unit that drew 0, the short addresses of the units are distinct exactly if those that are given one drew different random addresses, the others had different short addresses, and none of these is given to somebody; with a 0 among the random addresses those given one are the units that drew 1, and it is the last free one |
| `Assignment.RankIsTaken` | src/DaliMQTT/dali/driver/DaliDriver.cxx:723-747 | every rank among the random addresses is that of one of them, so that all addresses up to the count are given out |
| `Assignment.SilentDeviceClashes` | src/DaliMQTT/dali/driver/DaliDriver.cxx:897-921 | an input device that keeps its address and does not answer the scan has the same one after commissioning as a unit that joined, unless that drew 0, although no addresses clashed before |
| `Assignment.GearIsHeard` | src/DaliMQTT/dali/driver/DaliDriver.cxx:696-721 | control gear told to join if unaddressed meets the conditions for distinct addresses |
| `Assignment.NewGearJoins` | src/DaliMQTT/dali/driver/DaliDriver.cxx:700-754 | end to end for documented gear and 0xFF: old addresses stay, and if they were distinct the new ones were held by nobody and all are distinct exactly if the gears that are given one drew different random addresses |
| `Assignment.AllReaddressed` | src/DaliMQTT/dali/driver/DaliDriver.cxx:700-754 | end to end for documented gear and 0: up to 64 gears that drew no 0 are numbered by the rank of their random addresses, so that these being different all short addresses are |
| `Assignment.CommissionedFromRest` | src/DaliMQTT/dali/driver/DaliDriver.cxx:897-910 | what an input device was left in by an earlier round makes no difference to who ends up with which address |
| `Assignment.OpeningPrepares` | src/DaliMQTT/dali/driver/DaliDriver.cxx:708-711 | initialising and randomising takes in exactly the units addressed, under the random addresses they drew; input devices are taken out of an earlier round first |
| `Assignment.StatusQuery` | src/DaliMQTT/dali/driver/DaliDriver.cxx:714-716 | a reply to the scan means that some unit answers for the address, and one that just one unit answers for is replied |
| `Assignment.FoundIsNext` | src/DaliMQTT/dali/driver/DaliDriver.cxx:723-727 | the address a search finds is the next one in the order of the random addresses |
| `Assignment.AssignOne` | src/DaliMQTT/dali/driver/DaliDriver.cxx:737-747 | programming and withdrawing gives the units with that random address the next free short address and leaves all others as they were |
| `Assignment.NobodyLeft` | src/DaliMQTT/dali/driver/DaliDriver.cxx:725-753 | when a search finds nobody, all random addresses have been served and every unit has its final short address |
| `Assignment.NothingFree` | src/DaliMQTT/dali/driver/DaliDriver.cxx:734-753 | when no short address is left, as many random addresses as there were free ones have been served |
| `Assignment.StuckAtOne` | src/DaliMQTT/dali/driver/DaliDriver.cxx:670-694 | as long as a unit that drew 0 takes part every search ends at 1 |
| `Assignment.AssignStuck` | src/DaliMQTT/dali/driver/DaliDriver.cxx:729-747 | then each round gives the next free address to the units that drew 1, withdrawn or not, and to nobody else |
| `Assignment.StuckRunsDry` | src/DaliMQTT/dali/driver/DaliDriver.cxx:729-753 | so that the whole pool is spent: the units that drew 1 have the last free address, everybody else is unchanged, and all free addresses are counted |
| `Scheduler.SyncScheduler.RequestDeviceSync` | src/DaliMQTT/dali/DaliDeviceController.cxx:418-433 | addresses above 63 are ignored, immediate requests queue once, others wait until their time |
| `Scheduler.SyncScheduler.PromoteDue` | src/DaliMQTT/dali/DaliDeviceController.cxx:333-350 | erasing while iterating moves exactly the due requests, in order and without duplicates |
| `Scheduler.SyncScheduler.SyncTurn` | src/DaliMQTT/dali/DaliDeviceController.cxx:333-371 | one turn polls the head of the queue, or else the address of the round robin, which only then moves on |
| `Scheduler.RunKeepsInv` | src/DaliMQTT/dali/DaliDeviceController.cxx:333-371 | in every reachable state the membership set is exactly the elements of the queue, which has no duplicates, and all addresses are below 64 |
| `Scheduler.TurnIsFair` | src/DaliMQTT/dali/DaliDeviceController.cxx:333-371 | a turn loses no request and promotes none early, and what it newly queues or polls on request was due |
| `Scheduler.QueuedIsPolled` | src/DaliMQTT/dali/DaliDeviceController.cxx:352-363 | the request at place i of the queue is polled within i + 1 turns, whatever else is requested |
| `Scheduler.DueIsPolled` | src/DaliMQTT/dali/DaliDeviceController.cxx:333-363 | bounded wait: a due request is polled within 64 turns, whatever else is requested |
| `Scheduler.RequestIsKept` | src/DaliMQTT/dali/DaliDeviceController.cxx:418-433 | accepted requests are queued or deferred, and nothing is dropped for them |
| `Scheduler.AcceptedIsPolled` | src/DaliMQTT/dali/DaliDeviceController.cxx:333-433 | from acceptance to poll: a delayed request is polled within 64 turns of the first turn that finds it due, in every run |
| `Scheduler.RoundRobinGoesRound` | src/DaliMQTT/dali/DaliDeviceController.cxx:352-371 | in every run, requests included, the polls nobody asked for go round all 64 addresses in order, and a cycle ends exactly with that of address 63 |
| `Scheduler.CyclePollsAll` | src/DaliMQTT/dali/DaliDeviceController.cxx:352-371 | between two ends of a cycle every address is polled, whatever is requested meanwhile |
| `Scheduler.IdleTurnsGoRound` | src/DaliMQTT/dali/DaliDeviceController.cxx:364-370 | with nothing requested the turns poll all 64 addresses in turn, and a cycle ends exactly after address 63 |
| `Devices.ShownChanges` | src/DaliMQTT/dali/DaliDeviceController.cxx:95-144 | the test for a change says so exactly if what a message would show differs |
| `Devices.UpdateKeepsAgreement` | src/DaliMQTT/dali/DaliDeviceController.cxx:48-147 | an update keeps the last message about each gear equal to its cached state |
| `Devices.RunsAgree` | src/DaliMQTT/dali/DaliDeviceController.cxx:48-147 | over any run of updates the last published level, status and colour of every synchronised gear with a known level are the cached ones |
| `Devices.PublishedWhenChanged` | src/DaliMQTT/dali/DaliDeviceController.cxx:140-144 | a gear is published, once, exactly when what is shown changes or it was never synchronised, and its level is known |
| `Devices.UpdatesAreLatest` | src/DaliMQTT/dali/DaliDeviceController.cxx:95-144 | over any run of updates level, status and each part of the colour are the ones reported last, the last level is the most recent positive one, and nothing else ever changes |
| `Devices.UpdateIsLocal` | src/DaliMQTT/dali/DaliDeviceController.cxx:95-147 | an update changes and publishes the one gear at most, and for input devices and unknown addresses nothing happens |
| `DeviceController.Controller.UpdateDeviceState` | src/DaliMQTT/dali/DaliDeviceController.cxx:95-147 | the cache and the messages after an update, for gear, input devices and unknown addresses |
| `DeviceController.Controller.PublishState` | src/DaliMQTT/dali/DaliDeviceController.cxx:48-82 | nothing is said about an unknown level |
| `DeviceController.Controller.PollSingleDevice` | src/DaliMQTT/dali/DaliDeviceController.cxx:724-764 | a poll of one address notes availability, and a responding gear goes into the cache with its level |
| `DeviceController.Controller.SyncTaskTurn` | src/DaliMQTT/dali/DaliDeviceController.cxx:315-414 | one turn of the endless loop: promote, poll, and at the end of a cycle synchronise and publish the groups |
| `DeviceController.Controller.RequestBroadcastSync` | src/DaliMQTT/dali/DaliDeviceController.cxx:510-521 | one request for each known gear in the order of the addresses, each later than the one before |
| `DeviceController.Controller.DiscoverAndMapDevices` | src/DaliMQTT/dali/DaliDeviceController.cxx:792-844 | both maps are replaced by what answered, and the gear found are returned |
| `SyncTask.PolledIsCached` | src/DaliMQTT/dali/DaliDeviceController.cxx:724-764 | after a poll the cache has what the device answered; one that does not respond only becomes unavailable, and an unknown level keeps the cached one |
| `SyncTask.PolledOthers` | src/DaliMQTT/dali/DaliDeviceController.cxx:524-764 | a poll changes no other device, of an input device only its availability, and publishes about the polled device at most |
| `SyncTask.CycleSyncsGroups` | src/DaliMQTT/dali/DaliDeviceController.cxx:368-412 | the turn that ends a cycle leaves every group with an available gear at the highest level of these, and the other groups alone |
| `SyncTask.EveryRunIsSound` | src/DaliMQTT/dali/DaliDeviceController.cxx:95-433 | in every interleaving of frames, turns, sync requests, updates and rescans the scheduler is sound, what was last published about every device and every group is what is cached, and every group has a level to go back to |
| `SyncTask.InitIsSound` | src/DaliMQTT/dali/DaliDeviceController.cxx:15-29 | where every run starts: with stored or with scanned devices, validated or not, the caches of a new controller are sound |
| `SyncTask.InitAvailable` | src/DaliMQTT/dali/DaliDeviceController.cxx:15-29 | after init a device is available only if it answered, the validation or the scan |
| `SyncTask.InitIsConsistent` | src/DaliMQTT/dali/DaliDeviceController.cxx:15-29 | every run starts with entries that stand under their own long addresses |
| `SyncTask.EventKeepsLongs` | src/DaliMQTT/dali/DaliDeviceController.cxx:95-433 | whatever happens, entries stay under their own long addresses, exactly unless an overheard frame adds one for a device whose address is not 0 |
| `SyncTask.RunMisplaces` | src/DaliMQTT/dali/DaliDeviceController.cxx:95-433 | over any run: if an entry does not stand under its own long address, such a frame was overheard while all of them did |
| `Discovery.DiscoveredMaps` | src/DaliMQTT/dali/DaliDeviceController.cxx:799-833 | the index has exactly the keys that answered, and every device found stands under a key that led to it |
| `Discovery.InverseIffFoundOnce` | src/DaliMQTT/dali/DaliDeviceController.cxx:799-833 | the two maps are mutually inverse exactly if no long address, pseudo addresses included, was found twice |
| `Discovery.FoundDevices` | src/DaliMQTT/dali/DaliDeviceController.cxx:799-833 | every device in the map answered at its short address with its long one, or stands under a pseudo address; it is available and new |
| `Discovery.FirstFoundStays` | src/DaliMQTT/dali/DaliDeviceController.cxx:799-833 | of a long address found more than once the device is the one the scan came to first |
| `Discovery.AnswersAreMapped` | src/DaliMQTT/dali/DaliDeviceController.cxx:799-833 | every gear and input device that answered leads to a device in the map, input devices with bit 0x80 |
| `Adapter.GroupCommandIs` | src/DaliMQTT/dali/DaliAdapter.cxx:262-271 | adding to and removing from a group is the same frame sent twice to the one gear |
| `Adapter.RefusedFrames` | src/DaliMQTT/dali/DaliAdapter.cxx:116-271 | nothing is sent for levels to special addresses, groups above 15, and address bytes that name neither gear nor group nor all |
| `GroupAssignments.GroupAssigner.CollectChanges` | src/DaliMQTT/dali/DaliGroupManagement.cxx:152-175 | the commands are the difference between old and new assignments, address by address |
| `GroupAssignments.GroupAssigner.SetAllAssignments` | src/DaliMQTT/dali/DaliGroupManagement.cxx:146-190 | the stored assignments are the new ones, and the frames sent are those of the difference |
| `GroupAssignments.FramesAreObeyed` | src/DaliMQTT/dali/DaliAdapter.cxx:129-163 | on the bus each command takes effect at exactly the gear it names |
| `GroupAssignments.DiffReachesTarget` | src/DaliMQTT/dali/DaliGroupManagement.cxx:146-190 | every reachable gear that was in its old groups ends up in exactly its new ones, none if it is not mentioned any more |
| `GroupAssignments.DiffLeavesOthers` | src/DaliMQTT/dali/DaliGroupManagement.cxx:146-190 | gear with another short address does not notice |
| `GroupAssignments.DiffIsMinimal` | src/DaliMQTT/dali/DaliGroupManagement.cxx:159-173 | the number of commands is the sum of the distances between old and new groups over the reachable gear |
| `GroupLevels.GroupManager.UpdateGroupState` | src/DaliMQTT/dali/DaliGroupManagement.cxx:273-306 | present parts of an update replace those of the group, and the group is published, changed or not |
| `GroupLevels.GroupManager.RestoreGroupLevel` | src/DaliMQTT/dali/DaliGroupManagement.cxx:308-318 | the group goes back to its last level and is published |
| `GroupLevels.GroupManager.StepGroupLevel` | src/DaliMQTT/dali/DaliGroupManagement.cxx:353-385 | a group that is on moves by ten within 1 to 254 and is published if it moved; one that is off stays off |
| `GroupLevels.GroupManager.SyncGroups` | src/DaliMQTT/dali/DaliDeviceController.cxx:372-411 | every group that has members takes what these add up to and is published, in the order of the groups |
| `GroupLevels.SyncedStates` | src/DaliMQTT/dali/DaliDeviceController.cxx:409-411 | applying the updates one after the other brings each group to its own aggregate and leaves those without one |
| `GroupLevels.ActedKeepsAgreement` | src/DaliMQTT/dali/DaliGroupManagement.cxx:273-385 | after each update, restore and step the last message about every group is its state |
| `GroupLevels.SyncedKeepsAgreement` | src/DaliMQTT/dali/DaliDeviceController.cxx:409-411 | and so it is after the synchronisation at the end of a cycle |
| `GroupLevels.CollectGroupStates` | src/DaliMQTT/dali/DaliDeviceController.cxx:379-407 | the updates collected over all assignments are, group by group, what the members add up to |
| `GroupLevels.LastLevelIsLastPositive` | src/DaliMQTT/dali/DaliGroupManagement.cxx:273-385 | over any run of updates, restores and steps the last level is the most recent positive one, 254 if there was none, and restoring goes back to it |
| `GroupLevels.StepNeverSwitches` | src/DaliMQTT/dali/DaliGroupManagement.cxx:353-385 | stepping moves a group that is on by ten but not beyond 1 and 254, and never turns one on or off |
| `GroupLevels.ColourIsLatest` | src/DaliMQTT/dali/DaliGroupManagement.cxx:273-306 | over any run of actions the colour of a group is the one it was given last |
| `GroupLevels.AggregateIsMax` | src/DaliMQTT/dali/DaliDeviceController.cxx:379-411 | a group with an available member gear ends up at the highest level of these; a group without one keeps its state |
| `GroupLevels.MergedColour` | src/DaliMQTT/dali/DaliDeviceController.cxx:395-403 | the colour a group gets is that of the last member with one of its kind, in the order of the addresses |
| `GroupLevels.SyncedColour` | src/DaliMQTT/dali/DaliDeviceController.cxx:379-411 | after a cycle the group has that colour |
| `GroupLevels.KeptColour` | src/DaliMQTT/dali/DaliDeviceController.cxx:379-411 | a group without such a member keeps its own colour |
| `GroupLevels.SyncedMessages` | src/DaliMQTT/dali/DaliDeviceController.cxx:409-411 | at the end of a cycle each group with available gear is published once, changed or not, in the order of the groups, and no other |
| `GroupStore.SaveToConfig` | src/DaliMQTT/dali/DaliGroupManagement.cxx:55-74 | the tree has a key and a list of group numbers for every stored address |
| `GroupStore.LoadFromConfig` | src/DaliMQTT/dali/DaliGroupManagement.cxx:18-53 | anything but an object clears the assignments; unreadable keys and numbers are skipped |
| `GroupStore.LoadedAre` | src/DaliMQTT/dali/DaliGroupManagement.cxx:18-53 | of any tree the addresses loaded are the readable keys, each with the groups of its last entry |
| `GroupStore.GroupsInAre` | src/DaliMQTT/dali/DaliGroupManagement.cxx:33-45 | the groups in a list are its numbers from 0 to 15, and anything else is none |
| `GroupStore.AssignmentsRoundTrip` | src/DaliMQTT/dali/DaliGroupManagement.cxx:18-85 | saving and loading gives back the assignments exactly if every address fits into 24 bits |
| `GroupStore.DeviceGroupsAre` | src/DaliMQTT/dali/DaliAdapter.cxx:273-284 | the two membership bytes of a gear, put together, are the groups it is in |
| `GroupStore.RefreshAssignmentsFromBus` | src/DaliMQTT/dali/DaliGroupManagement.cxx:192-232 | the stored assignments become exactly those of the available gear that answered; with no known device nothing changes |
| `GroupStore.ReportedIs` | src/DaliMQTT/dali/DaliGroupManagement.cxx:200-222 | a device counts as having answered exactly if it is available gear and both bytes came back |
| `GroupStore.RefreshedDiffReaches` | src/DaliMQTT/dali/DaliGroupManagement.cxx:146-232 | after a refresh a change of assignments reaches its target whatever groups the gear was in |
| `DeviceController.Controller.CollectTargets` | src/DaliMQTT/dali/DaliSnifferFrameHandler.cxx:15-59 | the bit tests on the address byte find the devices and the group a frame is about |
| `DeviceController.Controller.UpdateTargetGroup` | src/DaliMQTT/dali/DaliSnifferFrameHandler.cxx:61-92 | the group does what the command says and is published if the handler does so |
| `DeviceController.Controller.OnAndStepUp` | src/DaliMQTT/dali/DaliSnifferFrameHandler.cxx:110-141 | gear that is off goes back to its last level, and a poll is needed if any is on |
| `DeviceController.Controller.React` | src/DaliMQTT/dali/DaliSnifferFrameHandler.cxx:98-217 | known levels are cached, open ones are polled for, and other commands have no effect |
| `DeviceController.Controller.SnifferProcessFrame` | src/DaliMQTT/dali/DaliSnifferFrameHandler.cxx:8-218 | cache, messages about devices and groups, and scheduler after an overheard frame |
| `Sniffer.FramesSent` | src/DaliMQTT/dali/DaliAdapter.cxx:116-163 | a level or command for a short address, a group or all goes out as one frame, twice if asked for |
| `Sniffer.TargetRoundTrip` | src/DaliMQTT/dali/DaliSnifferFrameHandler.cxx:15-50 | decoding gives back the kind of frame, the target and the command the adapter was given |
| `Sniffer.TargetByteIsSent` | src/DaliMQTT/dali/DaliSnifferFrameHandler.cxx:21-50 | every address byte taken for a target is the one the adapter sends for it |
| `Sniffer.SpecialIsIgnored` | src/DaliMQTT/dali/driver/DaliDriver.cxx:531-541 | a special command is overheard without effect exactly if its code is 0xA0 to 0xFD; the driver lets smaller codes through although they look like addresses |
| `Sniffer.NobodyIsAffected` | src/DaliMQTT/dali/DaliSnifferFrameHandler.cxx:9-12 | backward frames and frames about nobody change nothing |
| `Sniffer.AffectedIsTargeted` | src/DaliMQTT/dali/DaliSnifferFrameHandler.cxx:18-59 | each device a frame is about is handled exactly once, in the order of the addresses |
| `Sniffer.SniffedCovers` | src/DaliMQTT/dali/DaliSnifferFrameHandler.cxx:94-217 | coverage: every known gear a level or level command is about ends up with the level meant in the cache, or with a poll scheduled |
| `Sniffer.SniffedGroup` | src/DaliMQTT/dali/DaliSnifferFrameHandler.cxx:61-92 | what a frame does to the group it is about, with numbers: direct levels are taken over, OFF and STEP DOWN AND OFF are 0, RECALL MAX 254, RECALL MIN 1, ON AND STEP UP the last level, steps are ten within 1 to 254 for a group that is on, and anything else leaves it alone; it is published with each level it is given |
| `Sniffer.OthersIgnored` | src/DaliMQTT/dali/DaliSnifferFrameHandler.cxx:94-200 | a command that is about no level changes nothing, whoever it is for |
| `Sniffer.InputsIgnored` | src/DaliMQTT/dali/DaliSnifferFrameHandler.cxx:94-217 | nothing changes about an input device |
| `Sniffer.SniffedLeavesOthers` | src/DaliMQTT/dali/DaliSnifferFrameHandler.cxx:18-217 | devices and groups the frame is not about keep their state and none goes missing |
| `Sniffer.SniffedAddsEntry` | src/DaliMQTT/dali/DaliSnifferFrameHandler.cxx:136-166 | a frame adds an entry exactly if it recalls a level for a single device that is not known; the entry has default values, long address 0 and the level recalled, and no other entry changes its long address |
| `Sniffer.SniffedPolls` | src/DaliMQTT/dali/DaliSnifferFrameHandler.cxx:199-216 | polls are scheduled only for affected devices, due 400 ms plus strictly increasing multiples of 150 ms later |
| `Sniffer.SniffedPollsTargeted` | src/DaliMQTT/dali/DaliSnifferFrameHandler.cxx:199-216 | each of them is for a known device the frame is about, at most one for each |
| `Sniffer.NothingToPoll` | src/DaliMQTT/dali/DaliSnifferFrameHandler.cxx:94-216 | a frame that leaves no level open schedules nothing |
| `Sniffer.SniffedKeepsSound` | src/DaliMQTT/dali/DaliSnifferFrameHandler.cxx:8-218 | an overheard frame keeps the scheduler, the published state and the groups sound |
| `Sniffer.ShortTargetsTheGear` | src/DaliMQTT/dali/DaliDeviceController.cxx:879-889 | after a discovery that found no address twice, a short address is about exactly the gear that has it |
| `Sniffer.StaggeredSchedules` | src/DaliMQTT/dali/DaliDeviceController.cxx:510-521 | each request of a staggered series is accepted, and nothing queued or deferred before is lost |
| `Sniffer.BroadcastReachesAll` | src/DaliMQTT/dali/DaliDeviceController.cxx:510-521 | a broadcast sync leaves no known gear out |
| `Sniffer.BroadcastReachesGear` | src/DaliMQTT/dali/DaliDeviceController.cxx:510-521 | and it asks for polls of known gear only |
| `LongAddress.LongAddressToString` | src/DaliMQTT/include/utils/DaliLongAddrConversions.hxx:12-29 | the buffer ends up with six upper-case digits of the low 24 bits and a NUL, whatever number of digits had to be moved |
| `LongAddress.PrintThenRead` | src/DaliMQTT/include/utils/DaliLongAddrConversions.hxx:12-42 | printing and reading gives back the low 24 bits of any address |
| `LongAddress.ReadThenPrint` | src/DaliMQTT/include/utils/DaliLongAddrConversions.hxx:12-42 | reading succeeds exactly on one to six hexadecimal digits, and printing the result pads and raises them |
| `AddressMap.Save` | src/DaliMQTT/dali/DaliAddressMap.cxx:86-117 | one record for every device, in the order of the addresses |
| `AddressMap.Load` | src/DaliMQTT/dali/DaliAddressMap.cxx:9-77 | without at least one whole record the maps stay as they are; otherwise they are what the records say |
| `AddressMap.GtinRoundTrip` | src/DaliMQTT/dali/DaliAddressMap.cxx:94-96 | a GTIN comes back from its field exactly if it has at most 15 characters and no NUL |
| `AddressMap.RecordRoundTrip` | src/DaliMQTT/dali/DaliAddressMap.cxx:42-117 | a device comes back with everything that is meant to be kept exactly if its GTIN fits and its type is not 0xFF |
| `AddressMap.GearComesBack` | src/DaliMQTT/dali/DaliAddressMap.cxx:42-117 | a storable gear comes back as it was stored, not available, with no state but the defaults, and with static data counted as loaded if some are known |
| `AddressMap.InputComesBack` | src/DaliMQTT/dali/DaliAddressMap.cxx:42-117 | a storable input device comes back whole, but not available |
| `AddressMap.LoadedAre` | src/DaliMQTT/dali/DaliAddressMap.cxx:38-73 | of any records the first one of a long address makes the device, and the last one of a short address makes its place in the index |
| `AddressMap.MapRoundTrip` | src/DaliMQTT/dali/DaliAddressMap.cxx:9-134 | for any map: it comes back with all its devices are meant to keep exactly if every entry stands under its own long address and is storable; with such entries exactly the storable ones do |
| `AddressMap.LoadedIndexIsInverse` | src/DaliMQTT/dali/DaliAddressMap.cxx:42-73 | for any map: the loaded index is the inverse of the devices that were saved exactly if these stand under their own long addresses and are control gear with distinct short addresses; with entries under their own addresses this is also exactly when it is the inverse of the loaded devices |
| `AddressMap.LoadedAgrees` | src/DaliMQTT/dali/DaliAddressMap.cxx:42-73 | whatever the records are, no loaded gear counts as published |

## Left out

- Commissioning.Master.FindAddr: the answer of a search is stated for replies these units can cause; a bus on which two
  COMPAREs in a row lose their reply is covered by the bounds only.
- Commissioning.Master.Commission: the assignment of addresses is stated for gear that is not in the initialise state
  before, and for scans in which no reply is lost; for others the bounds hold. The 15 minute timeout of the initialise
  state is not modelled.
- ClockTolerance.SlowFrameReceived: as `SlowFrameLimit`, covers transmitters that are exact or slow; half bits of three
  samples are not tracked exactly by the decoder, and there is no claim about them.
- Collision.CollisionSoundness: for two senders that start on the same tick; a sender that starts into a running frame
  is covered by `Driver.LetsGoOfBus` only.
- Sniffer.SniffedPolls: all polls of one frame are computed from one reading of the clock.
- DeviceController.Controller.PollSingleDevice: the check for colour features, the times at which colour is polled and
  the fetch of static data are left out; what a poll finds out about colour is part of the reply.
- Preemption of `tx` and `rx` by the interrupt routine: calls and ticks are atomic.
- `tx_wait` and `tx_wait_rx` with their timeouts and retransmissions: a frame is delivered once, with a reply or
  without.
- Discovery while devices come and go: what answers is fixed for one scan, and the three byte reads of a long address
  are one answer.
- Colour commands, the colour temperature limits and poll times of colour data, reading of GTIN and other static data,
  and the check for colour features: they only fill fields of the cache.
- The update of groups at the first sync of a gear: its flag is already cleared when it runs, so that it has no effect.
- `setGroupMembership` with its rollback, `validateAddressMap`, scenes, and availability and attribute messages.
- Input device events, which are published and change no state.
- Saving after a change, and publishing the groups of each device: the methods that change assignments or the device map
  leave this to separate calls.
- NVS, MQTT, JSON text, GPIO, tasks and delays, Wi-Fi, HTTP, OTA, the web interface and the configuration: foreign calls
  and plumbing. JSON is a tree of keys and numbers, NVS a sequence of records.
