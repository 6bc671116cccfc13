# Verified model of tokio-udt

tokio-udt implements UDT, a reliable stream over UDP datagrams. This project models its protocol
core in Dafny and proves what the stream promises, where the promise ends, and why.

The centre is one direction of a connection (`Connection.dfy`): a sender, a receiver and a network
that drops, duplicates and reorders messages. Every handler of `src/socket.rs` is a step. Timers,
pacing, window sizes, reads and closings are free choices of the environment, so every result holds
for all of them. The state is the source's state: counters in 31-bit cyclic arithmetic, loss lists
as interval maps, the send deque, the receive map and the ACK window, with a record of the run
beside them (messages accepted, blocks cut, numbers received, bytes read, ACKs sent).

## Main results

- **Safety, for every initial number and every run without a harmful read**
  (`StreamSafety.StreamIsPrefix`). The bytes read are a prefix of the bytes accepted, each once and
  in order. The reversed sign of wrapped
  subtractions does not endanger this: a subtraction always has the sign of the plain integer
  difference (`SeqNumber.DiffSign`), so wrapped packets are dropped as old.
- **The one thing safety depends on** (`Race`). A retransmission computes its buffer offset under one
  lock and reads the buffer under another. However many ACKs arrive in between, the block it sends
  is known exactly (`DisturbedRead`). The read does harm exactly when the receiver still waits for
  the number and the bytes found are not its own (`HarmfulIff`); it keeps the joint invariant if and
  only if it does no harm (`ReadIsSafeIff`). Safety is proved for every run without a harmful read.
  Conversely, from every live state about to make one, the application can be handed wrong bytes
  (`Corruption.HarmCorrupts`): as long as a number is left for one more byte, the stream stays right
  on every continuation if and only if the read does no harm (`Corruption.StaysRightIff`). A run is
  given that delivers "ACC" for "ABC". A sender that finishes each handler before the next makes no
  harmful read (`Invariant.SequentialIsUndisturbed`).
- **Eventual delivery** (`Eventual.EventuallyDelivered`). A round is a fixed schedule: finish what is
  under way, sweep the loss list, acknowledge, send, time out, sweep, deliver the packet waited for,
  acknowledge, read. Between rounds the network and both applications do anything short of closing:
  lose everything, repeat old messages, send more. After as many rounds as blocks were outstanding,
  every byte accepted before has been read.
- **Reliability, with its exact limit** (`Reliability.CompletableIff`). From every reachable state of
  two connected sockets, whatever the network lost, every accepted byte can still be delivered if
  the accepted blocks fit between an initial number above 0 and the maximum (or there are none), and
  only if they do, unless a harmful read is about to happen. With an initial number of 0 nothing is
  ever read.
- **Beyond the maximum** the rest of the stream is never read, and the sender stalls or breaks: an
  honest ACK or NAK breaks it exactly when the last number sent has wrapped below what it carries
  (`Breakage.FullAckBreaksIff`, `NakBreaksIff`, with a run). Before a wrap nothing of the peer's does.
- **What each handler must do** (`ReceiverLaws`, `SenderLaws`). Which packets have to be kept, when an
  ACK goes out and which, what a read answers in every status, which messages are accepted and how
  many packets a window lets out, each stated on the record of the run. What was acknowledged before
  the receiver closed is still delivered, whatever happens afterwards
  (`ReceiverLaws.ClosedDeliversRest`).
- **The joint invariant** (`Invariant.ReachableInv`): 11 clauses over both ends and the network, kept
  by all 13 kinds of steps, from which follow the order of all counters and faithful retransmission.
- **ACK2** (`StreamSafety.ConfirmedWasReleased`). The ACK handler answers before it releases blocks,
  so the confirmed number may run ahead of the released ones, as a run shows
  (`Race.ConfirmedEarly`), but never of the ACK being obeyed; with none being obeyed it is released.
- The loss list refines a set except for one exactly characterised insertion; loss reports list and
  schedule exactly what is missing; packets share bytes exactly when equal or twins in the address,
  and every message of every reachable state comes back from its bytes; the registry keeps at most
  one alive socket per peer if and only if no handshake meets an alive socket hidden behind a broken
  one with a smaller id, which needs ids to wrap past 0; sockets leave the registry only by closing;
  the rate control multiplies its period by 9/8 at most five times per loss epoch, and the period is
  exactly that power; the receive buffer overfills exactly at an offset-0 packet.

## How it is organised

Each mutable structure has two modules: `XModel` holds the operation as a function on a value, with
the lemmas about it, and `X` holds the class whose methods run the source's statements and loops and
are proved to compute the function (`LossList`, `SndBuffer`, `RcvBuffer`, `AckWindow`, `Sender`,
`Receiver`, `Udt`, `RateControl`). The state machine is built from the same functions.

The source's one socket object is split into `Sender` and `Receiver`: no handler touches the fields
of both. Handlers are single steps, with two exceptions whose sections other steps may separate: a
retransmission (`PickResend`, `ReadResend`) and a full ACK (its arrival, which answers with ACK2,
and `Obey`).

Results about a run assume `Undisturbed` (no harmful read), a payload size above 0 and a send buffer
of at most 2^30 blocks (the default is 81920). The last is exact: `StreamSafety.ReleaseIsExactIff`.

## Model

| member | source | states |
|---|---|---|
| SeqNumber.ShiftIsAction | src/seq_number.rs:67-83 | addition is an action of the integers modulo max + 1 and can be undone |
| SeqNumber.DistanceInverse | src/seq_number.rs:52-65 | b + (a - b) = a exactly when a and b are at most half the range apart; beyond that the sign is reversed and the cyclic magnitude kept |
| SeqNumber.DiffSign | src/seq_number.rs:52-65 | the sign of a subtraction is that of the plain difference, its value is exact up to half the range, and "more than 1 ahead" fails only for the pair maximum and 0 |
| SeqNumber.AheadIsCyclic | src/seq_number.rs:67-74 | the upward distance used to order lookups is the difference modulo 2^31, and adding it leads there |
| SeqNumber.WrapDisagrees | src/seq_number.rs:58-73 | 0 follows the maximum under addition and precedes it under subtraction |
| LossListModel.InsertMeaning | src/loss_list.rs:16-46 | insertion is union with the cyclic interval, less the tail of a span at 0 it cuts short; disjointness is kept |
| LossListModel.InsertIsUnionIff | src/loss_list.rs:16-46 | insertion is exactly union if and only if it does not cut a span at 0 short, for wrapped ranges too |
| LossListModel.InsertAtZeroForgets | src/loss_list.rs:39-45 | inserting 0 into 0 to 5 loses 3 |
| LossListModel.RemoveMeaning | src/loss_list.rs:48-65 | removal takes out exactly one number |
| LossListModel.RemoveAllMeaning | src/loss_list.rs:67-76 | removal of a range is difference with the cyclic interval, wrapped ranges included |
| LossListModel.PeekMeaning | src/loss_list.rs:144-160 | the result is the member first reached going up and around; none exactly for the empty list |
| LossListModel.PopMeaning | src/loss_list.rs:121-142 | popping returns what peeking would and removes only that |
| LossListModel.DrainMeaning | src/loss_list.rs:121-142 | repeated pops list the whole set, each number once, in cyclic order |
| LossList.LossList.Insert | src/loss_list.rs:16-46 | the loops compute the insertion, with its set meaning |
| LossList.LossList.Covered | src/loss_list.rs:26-33 | the collecting loop finds the greatest end of the spans starting in the range |
| LossList.LossList.Absorb | src/loss_list.rs:26-37 | the two loops drop the spans starting in the range |
| LossList.LossList.Remove | src/loss_list.rs:48-65 | set difference with one number |
| LossList.LossList.RemoveAll | src/loss_list.rs:67-76 | the downward loop is difference with the cyclic interval |
| LossList.LossList.IsEmpty | src/loss_list.rs:95-97 | true exactly when no number is recorded |
| LossList.LossList.PopAfter | src/loss_list.rs:121-142 | the three lookups pop the first member going up and around |
| LossList.LossList.PeekAfter | src/loss_list.rs:144-160 | the three lookups find the first member going up and around |
| SndBufferModel.SegmentMeaning | src/queue/snd_buffer.rs:71-102 | blocks together hold the message, none is empty or too long, only the last may be short, all carry the message's number |
| SndBufferModel.ReassembleSegment | src/queue/snd_buffer.rs:82-99 | a segmented message in front of any history is cut off again at its flags |
| SndBufferModel.ReassembleAll | src/queue/snd_buffer.rs:71-102 | cutting the block history at its flags recovers the exact list of messages |
| SndBuffer.SndBuffer.AddMessage | src/queue/snd_buffer.rs:71-102 | a refused message changes nothing, an accepted one is appended and never overfills |
| SndBuffer.SndBuffer.AckData | src/queue/snd_buffer.rs:104-110 | the popping loop drops as many blocks as there are, up to the offset, and moves the position back |
| SndBuffer.SndBuffer.ReadData | src/queue/snd_buffer.rs:112-142 | the block at the offset, if any; without expiry |
| SndBuffer.SndBuffer.FetchBatch | src/queue/snd_buffer.rs:144-162 | up to 100 blocks from the position on, numbered consecutively |
| RcvBufferModel.ReadableMeaning | src/queue/rcv_buffer.rs:59-76 | the keys visited are the buffered numbers awaiting a read, in cyclic order |
| RcvBufferModel.ReadMeaning | src/queue/rcv_buffer.rs:59-96 | a read delivers the longest run that fits and removes exactly that |
| RcvBufferModel.HasDataMeaning | src/queue/rcv_buffer.rs:44-57 | true exactly when some read would take a packet |
| RcvBuffer.RcvBuffer.Insert | src/queue/rcv_buffer.rs:28-31 | the first packet under a number stays |
| RcvBuffer.RcvBuffer.AckData | src/queue/rcv_buffer.rs:38-42 | the acknowledged position only moves forward |
| RcvBuffer.RcvBuffer.Collect | src/queue/rcv_buffer.rs:78-89 | the loop copies exactly the packets that fit |
| RcvBuffer.RcvBuffer.ReadBuffer | src/queue/rcv_buffer.rs:59-96 | the loops compute the read |
| RcvBuffer.RcvBuffer.HasDataToRead | src/queue/rcv_buffer.rs:44-57 | true exactly when an acknowledged unread packet is buffered |
| AckWindowModel.WindowMeaning | src/ack_window.rs:21-32 | with distinct ACK numbers the window answers exactly for the last `size` stores |
| AckWindow.AckWindow.Store | src/ack_window.rs:21-28 | stores the entry, evicting the oldest when full |
| AckWindow.AckWindow.Get | src/ack_window.rs:30-32 | the stored number, if any |
| Sender.Sender.constructor | src/state/socket_state.rs:41-72 | the sending fields start from the initial number |
| Sender.Sender.Send | src/socket.rs:984-1013 | status and empty data are checked first, then the message is added or refused |
| Sender.Sender.NextDataPackets | src/socket.rs:226-354 | a scheduled packet goes first; otherwise a batch under the window |
| Sender.Sender.OnLightAck | src/socket.rs:494-503 | moves the last ACK forward only |
| Sender.Sender.OnFullAck | src/socket.rs:521-556 | also releases blocks and scheduled numbers below the ACK |
| Sender.Sender.OnNak | src/socket.rs:602-652 | the loop records each range from the last ACK on, or breaks the socket |
| Sender.Sender.OnExp | src/socket.rs:941-964 | schedules everything unacknowledged when nothing is scheduled |
| SenderLaws.SendOutcome | src/socket.rs:984-1013 | a message is accepted exactly by a connected socket with room for its blocks, counted from its length, or if it is empty; only then does the stream grow |
| SenderLaws.FetchOutcome | src/socket.rs:295-334 | before a wrap, nothing new goes out with the last number more than the window ahead of the last ACK; otherwise exactly the next blocks, at most 100, under their own numbers |
| SenderLaws.WindowHolds | src/socket.rs:306-310 | a full window holds everything back, after a wrap too |
| SenderLaws.LightAckOutcome | src/socket.rs:494-503 | a light ACK that arrives moves the last ACK forward and does nothing else |
| SenderLaws.FullAckOutcome | src/socket.rs:504-519 | a full ACK that arrives is answered by its ACK2 if it is to be, before anything is released |
| SenderLaws.ObeySchedule | src/socket.rs:541-551 | a full ACK takes off the schedule exactly the numbers it releases |
| SenderLaws.ExpOutcome | src/socket.rs:941-964 | before a wrap a timeout acts exactly when something is unacknowledged and nothing scheduled, and then schedules exactly what is unacknowledged |
| SenderLaws.ExpIdle | src/socket.rs:941-964 | in any state a timeout with an empty buffer, everything acknowledged or something scheduled does nothing |
| SenderLaws.DeadSender | src/socket.rs:226-236 | a sender that is closed, broken or has given up stays so, accepts nothing more and sends no new packet, whatever happens |
| SenderLaws.GivingUp | src/socket.rs:930-939 | giving up at a timeout is such an end |
| Receiver.Receiver.constructor | src/state/socket_state.rs:41-72 | the receiving fields start from the initial number, for both sides of a handshake |
| Receiver.Receiver.OnData | src/socket.rs:698-754 | admission, insertion, gap report and bookkeeping of a packet; `ReceiverLaws.StoredIff` says which packets must be kept |
| Receiver.Receiver.SendAck | src/socket.rs:784-880 | which number is acknowledged, when an ACK is sent and what it stores; `ReceiverLaws.AckOutcome` says what that means for the connection |
| Receiver.Receiver.OnAck2 | src/socket.rs:581-600 | a known ACK number moves the confirmed number forward only |
| Receiver.Receiver.Recv | src/socket.rs:1065-1096 | the status checks and the read of a poll; `ReceiverLaws.RecvOutcome` says which answer each status gets |
| ReceiverLaws.StoredIff | src/socket.rs:698-754 | while the buffer is not overfilled, an arriving packet is received and buffered if its number lies from the last ACK on within the free slots, and answered by a report of exactly the numbers it jumps over; otherwise nothing changes and nothing is sent |
| ReceiverLaws.FirstPacketAdmitted | src/state/socket_state.rs:41-72 | the first packet is admitted always on the connecting side, and on the accepting side if and only if the buffer has a slot and the initial number is not 0 |
| ReceiverLaws.RecvOutcome | src/socket.rs:1072-1095 | a read fails exactly on a socket alive and not connected or dead with nothing awaiting, waits exactly on a connected one with nothing awaiting, and otherwise delivers what fits |
| ReceiverLaws.ClosedDeliversRest | src/socket.rs:1072-1095 | whatever happens after the receiver closes or breaks, one read with enough room delivers exactly the blocks acknowledged before |
| ReceiverLaws.AckOutcome | src/socket.rs:784-880 | with `f` the first missing number: nothing if it is confirmed, a light ACK of it on a light step, a full ACK if it is new however recent the last one, a repetition exactly when the last one is not recent |
| ReceiverLaws.ExhaustedAck | src/socket.rs:785-833 | with every number up to the maximum received, full ACKs stop and light ones carry 0 |
| LossReports.NakMeaning | src/socket.rs:602-652 | for a NAK of any number of ranges: broken exactly when one is malformed, with what is listed before it scheduled; else exactly the listed numbers from the last ACK on are scheduled |
| LossReports.GapIsListed | src/socket.rs:729-738 | the compressed form of a gap lists exactly the gap |
| LossReports.NakReportsGap | src/socket.rs:719-742 | a NAK lists exactly the numbers a packet reveals as missing, and is sent exactly when there are any |
| LossReports.NakSchedules | src/socket.rs:618-643 | a peer's NAK adds exactly what it lists, from the last ACK on, to the schedule |
| Invariant.StartInv | src/state/socket_state.rs:41-72 | the initial state of both ends satisfies the joint invariant |
| Invariant.ReadIsGood | src/socket.rs:255-293 | a retransmission that does no harm carries the bytes of its number or a number the receiver has received or passed |
| Invariant.FetchParts | src/socket.rs:295-334 | new packets carry the blocks of their numbers, and the buffer, position and last number stay in step |
| Invariant.FullAckParts | src/socket.rs:521-556 | an ACK releases exactly the acknowledged blocks, never more than were sent, whatever retransmission is under way |
| Invariant.NakParts | src/socket.rs:602-652 | a peer's NAK schedules only sent, unreleased numbers and does not break the sender before a wrap |
| Invariant.ExpKeepsLoss | src/socket.rs:952-964 | a timeout schedules exactly the numbers from the last ACK to the last one sent |
| Invariant.AdmittedIsGood | src/socket.rs:698-717 | an admitted packet carries the bytes of its number or is a duplicate, wrapped ones included |
| Invariant.DataParts | src/socket.rs:698-754 | received and lost numbers keep splitting the range, the buffer keeps the received unread packets |
| Invariant.NextMissingMeaning | src/socket.rs:785-793 | the number chosen is the first missing one, or 0 when all up to the maximum are received |
| Invariant.SendAckParts | src/socket.rs:784-880 | an ACK claims only what is received, and positions move forward |
| Invariant.RecvParts | src/socket.rs:1065-1096 | a read delivers the next blocks of the history |
| Invariant.StepKeepsInv | src/socket.rs:226-964 | every step keeps the joint invariant and undoes none of the monotone facts |
| Invariant.RunKeepsInv | src/socket.rs:226-964 | so does every run |
| Invariant.ReachableInv | src/socket.rs:226-964 | the joint invariant holds in every reachable state |
| Invariant.PickIsFresh | src/socket.rs:240-253 | the offset of a retransmission, when it is picked, is the place of its number in the send buffer |
| Invariant.SequentialIsUndisturbed | src/socket.rs:240-293 | a sender that finishes each handler before the next never reads a harmful retransmission |
| StreamSafety.StalledRun | src/state/socket_state.rs:48-60 | with initial number 0 every run leaves the receiver stalled |
| StreamSafety.StreamIsPrefix | src/socket.rs:226-880 | what is read is a prefix of what was accepted, in every run; nothing from the maximum number on is read |
| StreamSafety.CountersAreOrdered | src/socket.rs:493-556 | the order of all counters of both ends around the first missing number |
| StreamSafety.AckIsFirstMissing | src/socket.rs:784-833 | the number chosen is the first missing one, never below the last ACK, and the acknowledged unread packets are all buffered |
| StreamSafety.AckCarriesFirstMissing | src/socket.rs:800-869 | every ACK sent carries the first missing number |
| StreamSafety.FirstMissingGrows | src/socket.rs:784-833 | the first missing number never decreases along a run |
| StreamSafety.ReleasedWasReceived | src/socket.rs:541-553 | a block is released only after the receiver has it |
| StreamSafety.PeersNeverBreak | src/socket.rs:525-551 | before a wrap no ACK or NAK of the peer changes the sender's status |
| Breakage.FullAckBreaksIff | src/socket.rs:525-533 | an honest full ACK breaks the sender if and only if the last number sent has wrapped below it, the pair maximum and 0 excepted |
| Breakage.NakBreaksIff | src/socket.rs:602-652 | a peer's NAK breaks the sender if and only if it lists a number the last one sent has wrapped below |
| Breakage.HonestAckBreaks | src/socket.rs:525-533 | a run of four blocks across the maximum in which the first honest ACK breaks the sender |
| StreamSafety.ResendNeverMisses | src/socket.rs:248-293 | before a wrap the offset is never negative and the block is always found and genuine |
| StreamSafety.ReleaseIsExactIff | src/socket.rs:541-547 | an ACK releases what it acknowledges if and only if it advances by at most half the range |
| StreamSafety.StepKeepsFaithful | src/socket.rs:255-334 | with the sender's handlers uninterrupted every packet in flight carries the block of its number |
| StreamSafety.SameNumberSamePacket | src/socket.rs:255-293 | two transmissions of a number, any run apart, are the same packet |
| StreamSafety.WindowAnswers | src/ack_window.rs:30-32 | the window answers an ACK number with the number that ACK carried |
| StreamSafety.ConfirmationIsRecorded | src/socket.rs:581-600 | an ACK2 for one of the last 1024 ACKs moves the confirmed number to what that ACK carried |
| StreamSafety.StepKeepsAck2 | src/socket.rs:504-600 | every step keeps a confirmed number at or below what the sender has released or is releasing |
| StreamSafety.ConfirmedWasReleased | src/socket.rs:504-600 | in every run with distinct ACK numbers a confirmed number is at most the greater of what is released and what is being obeyed; with no ACK being obeyed it is released |
| Race.ConfirmedEarly | src/socket.rs:511-519 | a run in which ACK2, sent before the release, is confirmed ahead of it |
| Recovery.ExpCovers | src/socket.rs:952-964 | a timeout with nothing scheduled schedules every sent packet the receiver lacks |
| Recovery.SweepDrains | src/socket.rs:248-292 | resending sends each scheduled number exactly once and ends after as many rounds as there are members |
| Recovery.SweepIsAscending | src/socket.rs:248-253 | the order of that sweep is ascending |
| Recovery.StepKeepsRoom | src/socket.rs:698-717 | the accepting side keeps a slot for its first packet |
| Rounds.RoundGains | src/socket.rs:226-964 | a round reads everything below the first missing number and moves that number up unless nothing is outstanding, under any window and however full the buffer |
| Reliability.RoundsComplete | src/socket.rs:226-964 | as many rounds as blocks are outstanding deliver every accepted byte |
| Eventual.EventuallyDelivered | src/socket.rs:226-964 | the same with anything but closing between the rounds: whatever is lost, repeated or sent besides, the bytes accepted before are delivered, by a legal run |
| Reliability.CanComplete | src/socket.rs:226-964 | from every live state every accepted byte can be delivered, under any window |
| Reliability.CompletableIff | src/socket.rs:226-964 | in every reachable state this is possible if nothing was accepted or the blocks fit between an initial number above 0 and the maximum, and only then if no harmful read is pending |
| Race.DisturbedRead | src/socket.rs:240-293 | after any number of ACKs the retransmission sends exactly the block at its offset from what is released |
| Race.HarmfulIff | src/socket.rs:240-293 | it does harm exactly when the receiver has neither received nor acknowledged the number and the bytes of that block differ from the number's own |
| Race.ReadIsSafeIff | src/socket.rs:255-293 | the read keeps the joint invariant if and only if it does no harm |
| Race.UndisturbedRead | src/socket.rs:240-293 | a pick that is not stale sends the block of its number |
| Race.RaceCorruptsStream | src/socket.rs:240-293 | a run that delivers "ACC" for "ABC" |
| Corruption.ReachNumber | src/socket.rs:226-964 | rounds bring every live connection to the point where any chosen missing number is the one waited for |
| Corruption.WrongPacket | src/socket.rs:698-754 | the wrong packet, acknowledged and read, leaves exactly the state the right one does, but for the bytes delivered |
| Corruption.LeadsRead | src/socket.rs:1065-1096 | what the application has read influences no step: every continuation is there after any other bytes |
| Corruption.OneMoreByte | src/socket.rs:226-1013 | from every quiet state with a number to spare one more byte can be accepted and delivered |
| Corruption.HarmCorrupts | src/socket.rs:240-293 | from every live state about to make a harmful read, with a number to spare or what is found not how the stream goes on, a run without further interleaving or loss delivers wrong bytes |
| Corruption.StaysRightIff | src/socket.rs:240-293 | with a number to spare, or no fewer bytes found than the number's own, every continuation delivers a prefix of what was accepted if and only if the read does no harm |
| Occupancy.FitsUnlessOverfilled | src/socket.rs:698-717 | a step keeps the occupancy within the size if and only if it does not admit an offset-0 packet into a full buffer |
| Occupancy.OccupancyBounded | src/queue/rcv_buffer.rs:24-31 | in every run without such a step the free-slot subtraction never wraps |
| Occupancy.AlwaysFitsIff | src/queue/rcv_buffer.rs:24-31 | the occupancy is within the size at every point of a run if and only if no step of it is such a step |
| Occupancy.BoundaryRun | src/socket.rs:704-717 | a run that puts two packets into one slot and wraps the free slots |
| RegistryModel.GetPeerMeaning | src/udt.rs:59-76 | the lookup finds the serving socket with the smallest id, the newest until ids wrap, and none exactly when there is none |
| RegistryModel.HandshakeOutcome | src/udt.rs:94-175 | which answer a handshake gets, from which socket, and exactly what it registers and indexes |
| RegistryModel.OpenOutcome | src/udt.rs:78-92 | opening a socket uses up an id and registers a socket without a peer under it if it is free, touching no other |
| RegistryModel.CollectMeaning | src/udt.rs:248-256 | a collection removes the closing sockets, all of them and no others, and changes none |
| RegistryModel.SocketStays | src/udt.rs:78-259 | at a step with an unused id a socket leaves the registry exactly when it is closing and collected, and changes only by a change of its own |
| RegistryModel.SocketAppears | src/udt.rs:78-175 | a socket appears only by opening one or by an admitted handshake, under the id of the counter |
| RegistryModel.RunKeepsSocket | src/udt.rs:44-259 | along a run a socket that is not closing stays registered as it is until its own status changes |
| RegistryModel.NoneAliveBeforeAccept | src/udt.rs:94-132 | a handshake gets a new socket only when no socket serving that peer is alive |
| RegistryModel.RunKeepsRegistry | src/udt.rs:44-259 | every run of handshakes, openings, status changes and collections keeps the index and the order of ids |
| RegistryModel.AtMostOneAlive | src/udt.rs:94-175 | while ids have not wrapped, at most one alive accepted socket per peer address, peer socket id and initial number |
| RegistryModel.ShadowedIff | src/udt.rs:94-132 | a handshake gets a new socket beside an alive one exactly when a broken one with the smallest id hides it |
| RegistryModel.StepKeepsOneAliveIff | src/udt.rs:94-175 | a step with an unused id keeps at most one alive socket per peer if and only if it is not such an admitted handshake |
| RegistryModel.OneAliveFromStart | src/udt.rs:44-175 | along every run that takes at most 2^32 ids, wrapping or not, at most one is alive throughout if and only if no such handshake occurs |
| RegistryModel.IdsAreDistinct | src/udt.rs:44-48 | ids count down modulo 2^32 and repeat only after a multiple of 2^32 |
| RegistryModel.WrapAdmitsTwo | src/udt.rs:44-48 | past id 0 four steps lead to two alive sockets for one peer |
| Udt.Udt.GetNewSocketId | src/udt.rs:44-48 | hands out the current id and leaves its predecessor modulo 2^32, so that ids differ as `RegistryModel.IdsAreDistinct` says |
| Udt.Udt.GetPeerSocket | src/udt.rs:59-76 | the loop finds the serving socket with the smallest id, the newest until ids wrap |
| Udt.Udt.NewConnection | src/udt.rs:94-175 | answers with the existing socket unless it is broken, else registers a new one |
| Udt.Udt.GarbageCollect | src/udt.rs:227-259 | removes exactly the closing sockets, leaves every other one as it is, and reports the broken ones |
| RateControlModel.CountersBounded | src/rate_control.rs:63-202 | in every run of a fresh controller, `init` included, the counters stay at most 5, the modulus between 1 and 5, and the period is multiplied at most five times per epoch |
| RateControlModel.LossOutcome | src/rate_control.rs:166-202 | the new period of every loss is what it found, or slow start ended with, times 9/8 exactly when it counts as a multiplication; what an opening records, and what a loss within an epoch leaves alone |
| RateControlModel.AverageIsCeiling | src/rate_control.rs:181-182 | the average is the least whole number not below the weighted mean |
| RateControlModel.PeriodTracked | src/rate_control.rs:63-218 | in every run the period is the value it was last set to times 9/8 to the number of multiplications since, at most those of the epoch |
| RateControlModel.EpochPeriod | src/rate_control.rs:178-201 | through an epoch the period is what the opening loss found times 9/8 to the number of multiplications in the epoch, between one and five |
| RateControlModel.FirstLossOpens | src/rate_control.rs:63-77 | after `init` a loss opens an epoch if and only if no rate is known, the initial number is not 0 and the lost number is not below it |
| RateControl.RateControl.Init | src/rate_control.rs:63-77 | slow start is on, and exactly the losses of the connection's own packets will open an epoch |
| RateControlModel.EpochCoversSent | src/rate_control.rs:178-186 | a loss of a packet sent before an epoch opened does not open another |
| RateControlModel.BurstGrowth | src/rate_control.rs:192-201 | a burst of any length within an epoch multiplies the period by a power of 9/8 of at most what is left of five |
| RateControl.RateControl.OnLoss | src/rate_control.rs:166-202 | the counters, the epoch and the period after a loss, multiplied by 9/8 exactly when the loss counts |
| RateControl.RateControl.OnTimeout | src/rate_control.rs:208-218 | slow start is over afterwards; no counter and nothing of the loss epoch changes, and the period only if slow start was on |
| Codec.DataRoundTrip | src/data_packet.rs:14-79 | a data packet comes back from its bytes, whose first bit is 0 |
| Codec.DataDecodesOnce | src/data_packet.rs:14-79 | every long enough byte string with first bit 0 is the encoding of what it decodes to |
| Codec.HandShakeRoundTrip | src/control_packet.rs:230-275 | a handshake comes back, its address as IPv4 when it ends in twelve zero bytes |
| Codec.AckRoundTrip | src/control_packet.rs:285-327 | both forms of an ACK body come back |
| Codec.ReadWordsInverse | src/control_packet.rs:344-364 | a loss list of any length comes back |
| Codec.ControlRoundTripIff | src/control_packet.rs:123-155 | a control packet comes back if and only if it is not such a handshake with an IPv6 address, which comes back as IPv4 |
| Codec.RoundTripIff | src/packet.rs:19-39 | the same for packets of both kinds, through the dispatch on the first bit |
| Codec.KindsAreDisjoint | src/packet.rs:26-39 | data and control packets never share an encoding |
| Codec.EncodingsAreDistinct | src/packet.rs:19-24 | two packets have the same bytes if and only if they are equal or handshakes alike but for the same address as IPv4 and as IPv6 |
| Layout.DataLayout | src/data_packet.rs:33-79 | where number, position, order, message number, time, destination and payload of a data packet lie |
| Layout.ControlLayout | src/control_packet.rs:123-132 | the type bytes of each kind and the header words of a control packet |
| Layout.HandShakeLayout | src/control_packet.rs:231-247 | the eight words and sixteen address bytes of a handshake, in order |
| Layout.BodyLayout | src/control_packet.rs:309-364 | the words of ACK, NAK and drop-request bodies, in order |
| Layout.DecodeOutcome | src/packet.rs:26-39 | for every byte string, exactly when decoding panics, when it is refused and when it succeeds, and as which kind |
| Layout.DecodedControl | src/control_packet.rs:134-155 | what is decoded from a control packet stands at the places of the layout |
| Wire.WireIsFaithful | src/control_packet.rs:28-104 | every message in flight in a reachable state, for every initial number, is decoded from its bytes as what it is |
| Wire.MessageLayout | src/control_packet.rs:28-104 | where the numbers of each message lie in its bytes, and under which type |

## Left out

- Message expiry and drop requests: a stream never sets a time to live, so neither arises; `read_data` is modelled without expiry.
- SndBuffer.SndBuffer.ReadData: does not model expired blocks, because a stream never sets a time to live.
- Sender.Sender.OnNak: covers loss information whose numbers are at most 2^31 - 1, as the format prescribes; the source does not mask the end of a range.
- Sender.Sender.OnLightAck: covers acknowledged numbers up to 2^31 - 1, the documented range of the type; the source does not mask the field.
- Sender.Sender.OnFullAck: the same.
- LossList.LossList.Insert: covers numbers in the documented range of the type, like every method of the list.
- Corruption.StaysRightIff: with every number up to the maximum used and fewer bytes found than the number's own, `HarmCorrupts` decides it only where those bytes and the rest are not how the stream goes on; no further byte can then be delivered to tell them apart.
- Udt.Udt.GarbageCollect: the asynchronous close it spawns for a broken socket is a later status change of the registry's run; the removal from the listener's queue and the Closed status given to sockets after they leave the registry are not modelled, because no lookup sees either.
- Sender.Sender.NextDataPackets: the drop-request branch (a stream has no expired messages) and the pacing times are left out.
- RegistryModel.AtMostOneAlive: assumes that ids are taken only while the counter is above 0; `OneAliveFromStart` has the exact condition past it, until an id is taken a second time after 2^32.
- RateControl.RateControl.OnLoss: the period is a real number and the value slow start ends with is a parameter; floating-point rounding is not modelled.
- The rate formulas of `on_ack` and the estimators of `src/flow.rs`: floating point; the model lets an ACK set any period.
- Flow-window values, pacing and timer conditions: free choices of the events, because no result depends on them.
- A repaired subtraction: the model keeps the code's subtraction, and shows what it costs, instead of studying an intended one.
- Handshake, cookies and rendezvous mode: a connection starts after the handshake with one initial number on both sides.
- Sockets, multiplexer, workers, scheduling heap and wakers: system calls and plumbing.
- Datagram sockets: not implemented by the repository.
- Ack numbers that repeat after 2^31 ACKs: `ConfirmedWasReleased`, `CompletableIff` and `EventuallyDelivered` assume they have not; stream safety does not.
- Two full ACKs of one socket obeyed at the same time: the source takes a socket's control packets one after another.
