# evsemaster, modelled and proved in Dafny

evsemaster talks to electric-vehicle chargers over UDP. This project models its wire format, its router, the
session each device holds with its charger, its clock correction and its history reader, together with the
repository's own stand-in charger as the peer, and proves what they promise over every input, every run and every
behaviour of a network that loses, repeats and reorders datagrams. `dafny verify dfyconfig.toml` checks all of it.

## How it is laid out

| file | models |
|---|---|
| `ByteStrings.dfy`, `Packet.dfy`, `Protocol.dfy` | integers on the wire, the commands, the frame reader, the splitter and the builder (arrays written in place) |
| `Damage.dfy`, `Lengths.dfy` | splitter, reader and checksum together: what one changed byte costs a datagram, and what a changed length does |
| `Payloads.dfy` | weekly plan, faults, start of a charge, acknowledgement |
| `Clock.dfy` | the clock correction and the two epoch conversions |
| `Session.dfy`, `Logins.dfy`, `Relogin.dfy` | authorisation, headings and logins as a step relation over traces; what each login asks, returns and survives; the timing of automatic logins |
| `Loop.dfy` | the event loop's first-in first-out queue, and why logins keep apart under it |
| `Rereads.dfy` | the timers that read a setting back |
| `History.dfy`, `Reads.dfy` | the passes of a history read; the same read step by step, with its lock and anything else running in between |
| `Closing.dfy` | a closed device: what can still be sent without the application |
| `Device.dfy` | the class `EvseDevice`: its fields, handlers and commands, each proved against the functions above |
| `Charger.dfy` | the class `FakeEvse`, the charger of the repository's tests |
| `Network.dfy`, `Plans.dfy` | client and charger over the network: login safety, a completed handshake, history; which weekly plans the client can show |
| `Router.dfy`, `Listener.dfy` | the two indexes as values with their run properties; the class `EvseListener` over device objects |

Code that changes fields is a class here, and each of its methods is proved against a function of the old state:
`Session.Step`, `Router.Step`, `Rereads.Step`, `Clock.Measure`, `Device.HandleCore`, `History.AfterPasses`,
`Charger.Receive`. The theorems about runs are about those functions. A run is a list of timed steps in any order;
a step that is not enabled changes nothing, so no scheduler is assumed unless a lemma asks for one. Handling a packet
contains no `await`, so it is one step, and a login or a history read can be interleaved only where it waits.

Times are integers: milliseconds in `Session`, `Relogin` and `Rereads`, seconds in `Clock`. Our clock, the charger's
clock and the offset to Shanghai time are parameters. Exceptions are error values. The ghost results and the `sent`,
`reports` and `tasks` lists are the logs the properties speak of.

## Where code and documentation disagree

The model follows the code.

- The repository's README.md (lines 114-115) says `is_logged_in` needs any packet but an announcement within 120
  seconds. The code judges by headings alone and 35 seconds (evsemaster/device.py:122-137). The code's rule implies
  the other, and `Session.DocumentedNotReceiving` is a trace that keeps the other and not the code's.
- The docstring of `close` says the device stops sending after it (evsemaster/device.py:224-225). It does exactly if
  `Closing.CloseStopsExactly` says so: handlers already queued still run (`Closing.QueuedAnnouncementAsks`,
  `Closing.QueuedHandlersAnswer`, and `Listener.RemovedStillAnswers` on objects), logins of the application and
  overwritten automatic ones go on (`Logins.ForgottenLoginAsks`, `Logins.ForgottenExactly`), and so does a history
  read under way (`Closing.ReadGoesOn`).
- The docstring of `devices` says every registered device, and that of `get_device` looks a registered one up by its
  serial (evsemaster/listener.py:63-66, 141-143). `Router.LostDevice`, `Router.LostByRemoval` and
  `Router.RemovedTwice` are runs that lose one; `Router.DevicesExact` and `Router.LookupIsScan` say which steps do.
- "Rounded up, so a schedule fires late rather than early" (evsemaster/device.py:357-359) holds of a correction just
  measured. One kept from before fires early exactly if it lies below the skew, as `Clock.StartFires` states, and
  `Clock.KeptFiresEarly` is 60 s early.

## Model

| member | source | states |
|---|---|---|
| `Protocol.SplitFrames` | evsemaster/protocol.py:42-52 | the loop yields the frames of the recursive splitter `Split`, and ends, for every byte string |
| `Protocol.SplitCorrect` | evsemaster/protocol.py:42-52 | a list of frames is the split of a datagram if and only if the pieces join back to it, all but the last are exactly as long as they declare (at least 25), all but the first start with the header, and the last cannot be split further |
| `Protocol.SplitOnce` | evsemaster/protocol.py:42-52 | splitting any frame that came out of a split gives just that frame |
| `Protocol.BuildPacket` | evsemaster/protocol.py:55-85 | the writes into the zeroed buffer leave exactly the frame `Build`: every field at its offset, the checksum over everything before it |
| `Protocol.BuildIsFrame` | evsemaster/protocol.py:55-85 | every built packet has header, own length, command, checksum and tail, and says the command, serial and payload it was built from, with the password bytes at 13..18 |
| `Protocol.FrameRoundTrip` | evsemaster/data_types.py:327-359 | for every command, 16-digit lower-case serial, ASCII password and payload of at most 65510 bytes, decoding the built packet followed by any bytes returns command, serial and payload |
| `Protocol.UnreadableSerialIsZero` | evsemaster/protocol.py:66-73 | a packet built without a serial, or with one that is not hexadecimal, is read as coming from the zero serial |
| `Packet.DecodeFrame` | evsemaster/data_types.py:346-359 | bytes behind the declared end change nothing about what is read |
| `Packet.DecodeAccepts` | evsemaster/data_types.py:327-359 | the reader accepts exactly the byte strings that are a frame with anything behind it, or, when the length field cannot be the real end, that are a frame but for that field |
| `Damage.DamageContained` | evsemaster/protocol.py:42-52 | for any frames in one datagram and any one byte changed at frame offset 4 or later, the other frames are delivered exactly and in order and the damaged one is rejected |
| `Damage.HeaderDamage` | evsemaster/protocol.py:46-52 | a changed header byte loses only the first frame if it is the first frame's, and otherwise that frame and all behind it |
| `Damage.LengthDamage` | evsemaster/protocol.py:45-52 | a changed length byte leaves the frames before the damaged one delivered, followed by what the rest reads as on its own |
| `Lengths.LengthOutOfRange` | evsemaster/data_types.py:346-356 | a length changed to an impossible one makes one frame of everything behind it, accepted if and only if there are frames behind and the bytes before the last one sum to a multiple of 0xFFFF |
| `Lengths.LengthInRange` | evsemaster/protocol.py:45-52 | a length changed to a possible one cuts the datagram there: the piece up to the new end is read on its own, and what is behind it is read only if it starts like a frame |
| `Lengths.LengthAtBoundary` | evsemaster/protocol.py:45-52 | where the new end is the end of a later frame, the frames behind that one are delivered, and the merged piece before them is accepted if and only if the bytes before its last frame sum to a multiple of 0xFFFF |
| `Lengths.OutOfRangeContained` | evsemaster/data_types.py:346-356 | damage to an impossible length costs only the damaged frame if and only if no frame is behind it |
| `Lengths.BoundaryNotContained` | evsemaster/protocol.py:45-52 | damage to a length that ends at a later frame never costs only the damaged frame |
| `Lengths.NoHeaderContained` | evsemaster/protocol.py:46-52 | where no header stands at the new end at most one packet is delivered, and the damage is contained if and only if at most one frame is behind and the piece is read as just that |
| `Lengths.ResynchronisedContained` | evsemaster/protocol.py:42-52 | where headers inside the frames lead the splitter, by whatever pieces, back to the start of a later frame, the damage is contained if and only if the pieces that can be read say what the frames up to there say |
| `Lengths.LengthContainment` | evsemaster/protocol.py:42-52 | in a whole datagram all other frames are delivered if and only if the damaged frame and those behind it contain the damage |
| `Lengths.ContainmentFails` | evsemaster/protocol.py:42-52 | two headings and one length byte changed, to 0 or to the length of both: the second, which is whole, is not delivered, so containment is false for length bytes |
| `Damage.DamageAnywhere` | evsemaster/data_types.py:344-358 | any changed byte of any datagram of frames lies in one frame at one offset; at offset 4 or later exactly the other frames are delivered, in the header as `HeaderDamage` says, and for a length byte the frames in front, with the rest as the rows of `Lengths` say |
| `Damage.BuiltDelivered` | evsemaster/protocol.py:42-85 | any messages built into one datagram are delivered as they were, in order |
| `Damage.BuiltDamage` | evsemaster/protocol.py:42-85 | with one byte of one message changed at offset 4 or later, all other messages are delivered as they were, in order |
| `ByteStrings.SumUpdateMod` | evsemaster/protocol.py:82 | a change of one byte never vanishes in the checksum |
| `ByteStrings.HexRoundTrip` | evsemaster/protocol.py:68 | reading lower-case hexadecimal text and printing it gives the text back |
| `Payloads.BuildWeeklyPlanPayload` | evsemaster/protocol.py:271-277 | the appended slots are the plan payload of the specification |
| `Payloads.ParseWeeklyPlan` | evsemaster/protocol.py:254-268 | the loop reads seven slots, or says that the payload is short or a field out of range |
| `Payloads.PlanRoundTrip` | evsemaster/protocol.py:254-277 | a built plan parses to itself without seconds, so it comes back unchanged if and only if every start is on a minute |
| `Payloads.RebuildNormalises` | evsemaster/protocol.py:254-277 | building what was parsed parses to the same plan, and gives the same bytes if and only if they already were a set with states 1 and 3 and no limits |
| `Payloads.ParseFaults` | evsemaster/protocol.py:147-154 | the loop collects the members whose bit is set, in the order of the enumeration |
| `Payloads.FaultsRoundTrip` | evsemaster/data_types.py:148-183 | the fault list of any 32-bit field is strictly increasing, names exactly the faults set, and determines the field |
| `Payloads.BuildStartChargingPayload` | evsemaster/protocol.py:88-124 | the buffer holds ids, reservation flag, start, duration and limits where the request has them |
| `Payloads.StartReadBack` | evsemaster/protocol.py:88-124 | a charger reading the request finds the ids, start, duration, amperage and reservation that were asked for, and no other limit |
| `Payloads.BuildRecordAck` | evsemaster/protocol.py:249-251 | an acknowledgement carries the record's charge id, and is shorter only for a short record |
| `Clock.SkewBound` | evsemaster/device.py:342-360 | after any run of reports the correction is 0 exactly when the last skew is at most a day, else whole minutes of at least a day, within 60 s of the skew, 0 to 59 s above it when just measured and unchanged otherwise |
| `Clock.EpochRoundTrip` | evsemaster/device.py:598-627 | encoding with the correction and decoding returns the instant if and only if there is no correction or the epoch lies over a day ahead; and when it does without the correction |
| `Clock.FutureRoundTrip` | evsemaster/device.py:598-627 | every future instant round-trips when the correction exceeds a day plus the offset, and the present one does not for any smaller correction |
| `Clock.StartFires` | evsemaster/device.py:342-360 | a start aimed through the correction fires within 60 s of the requested instant when the skew is over a day, early if and only if the correction was kept and lies below the skew, and off by the skew when that is under a day |
| `Clock.KeptFiresEarly` | evsemaster/device.py:342-360 | two reports after which a start fires a whole minute early |
| `Device.DeltaIsMeasured` | evsemaster/device.py:342-360 | a device's correction after any packets is the skew controller run over the skews those packets report |
| `Session.AuthorisedMeaning` | evsemaster/device.py:224-274 | over every trace a device is authorised if and only if it handled a LOGIN_SUCCESS with no password error or close since |
| `Session.ReceivingMeaning` | evsemaster/device.py:122-132 | it is receiving if and only if it is authorised and a heading or success handled since the last password error is under 35 s old |
| `Session.NoLoginNoSession` | evsemaster/device.py:245-321 | headings, announcements and answered polls alone never make a device authorised or receiving |
| `Session.AliveMeaning` | evsemaster/device.py:247-248 | the last time alive is when the charger last sent anything but an announcement, since the last password error |
| `Session.ReceivingIsDocumented` | evsemaster/device.py:122-137 | a device that is receiving also meets the documented rule of a packet within 120 s |
| `Session.DocumentedNotReceiving` | evsemaster/device.py:122-137 | a trace where the documented rule holds and the device is not receiving |
| `Session.LoginMutualExclusion` | evsemaster/device.py:189-222 | in every trace at most one login is past the lock, and the lock and the future exist exactly while it waits |
| `Logins.RequestsBounded` | evsemaster/device.py:189-222 | each login sends at most four LOGIN_REQUESTs, and a waiting one as many as it counts |
| `Logins.FutureIsFirstAnswer` | evsemaster/device.py:260-274 | the future of a waiting login holds the first success or password error handled since it started, so it is resolved at most once |
| `Logins.LoginOutcome` | evsemaster/device.py:189-222 | a login past the lock returns True only after the first answer since its start was a success, with the device still authorised |
| `Logins.GoesOnExactly` | evsemaster/device.py:189-222 | a login that has not ended can still send a request or return True if and only if it has not run, or waits uncancelled with a request left or with an answer still open or a success |
| `Logins.CloseStopsLogins` | evsemaster/device.py:224-230 | of the logins there at a close one not ended goes on, over some continuation in order of time, if and only if it could before and is not the one the device remembers; the others are left as they are |
| `Logins.ForgottenExactly` | evsemaster/device.py:265-267 | an automatic login not ended is no longer remembered if and only if, before it first ran, another announcement was handled and made another |
| `Logins.ForgottenLoginAsks` | evsemaster/device.py:224-230 | a trace of two announcements after which the first automatic login sends a request after the close |
| `Closing.CloseStopsExactly` | evsemaster/device.py:224-230 | after a close in any reachable state, with any packets whose handlers are queued, the device sends something over some continuation without the application if and only if a queued handler answers its packet or is an announcement and there is a password, or a login not remembered can ask, or a history read can |
| `Closing.QueuedAnnouncementAsks` | evsemaster/listener.py:184-186 | a device without any login, closed with an announcement queued, logs in again |
| `Closing.QueuedHandlersAnswer` | evsemaster/device.py:245-321 | a queued heading is answered after the close, and a queued success authorises the closed device again |
| `Closing.ReadGoesOn` | evsemaster/device.py:559-570 | a history read under way asks again after the close |
| `Listener.RemovedStillAnswers` | evsemaster/listener.py:132-139 | on device objects: removing a device leaves its queued handler, which then answers |
| `Relogin.LockHeldBriefly` | evsemaster/device.py:189-222 | in every timely run a login holds its lock for at most 12 s after it began, less than the cooldown of 15 s |
| `Relogin.LoginsApart` | evsemaster/device.py:182-187 | an automatic login begins no sooner than 15 s after any login before it, in every trace in which created logins run before a waiting one is resumed |
| `Relogin.OrderMatters` | evsemaster/device.py:182-187 | a trace without that order in which two automatic logins begin with no time between |
| `Loop.LoopRuns` | evsemaster/device.py:262-267 | what a first-in first-out ready queue runs is a trace of the session in which created logins run before a waiting one is resumed, whatever becomes ready and when |
| `Loop.LoopLoginsApart` | evsemaster/device.py:182-187 | so with that queue, and nothing else asked of the order, automatic logins begin no sooner than 15 s after any login before them |
| `Relogin.BoundedRelogin` | evsemaster/device.py:262-267 | a charger that answers no login but announces itself at least every B seconds has an automatic login begun by B after both the last heading plus 35 s and the last attempt plus 15 s |
| `Relogin.NextRelogin` | evsemaster/device.py:182-222 | after an unanswered login the next automatic one begins at most 15 s plus B later |
| `Rereads.RereadsCoalesce` | evsemaster/device.py:525-531 | over every interleaving of sets, firings and closes a live timer is the remembered one of its setting, due 2 s after its latest set, and every latest set has its timer live or fired |
| `Rereads.OneLiveTimer` | evsemaster/device.py:224-230 | each setting has at most one live timer, and after a close there is none until another set |
| `Rereads.GetBelongsToLatestSet` | evsemaster/device.py:525-531 | every get sent belongs to the latest set of its setting, at least 2 s after it |
| `Rereads.OneGetPerSet` | evsemaster/device.py:525-531 | between two gets of one setting lies a set of it |
| `History.HistoryRequests` | evsemaster/device.py:533-557 | pass k+1 asks, in order and once each, for exactly the slots no reply was handled for by the end of pass k, the first for all; at most four passes, no slot more than four times, and four times the capacity requests |
| `History.HistoryNeverMisreports` | evsemaster/device.py:533-557 | whatever is lost, repeated or reordered, each slot is in `records` with exactly the charger's record, or was answered and holds none, or is in `unread_slots`, and exactly one of these; it is unread if and only if no reply for it was handled |
| `History.ReplyNoted` | evsemaster/device.py:374-380 | a charger's reply for a slot notes exactly what the slot holds |
| `Reads.ReadsExclude` | evsemaster/device.py:537-557 | over every interleaving of reads, packets and cancellations, a read that takes the lock finds no answers and no future of another, and only the one that holds it has any |
| `Reads.StepsRead` | evsemaster/device.py:533-570 | a read run step by step, with anything else between its steps, asks and returns exactly what the loops do over the packets its waits handled |
| `Charger.FakeEvse.DatagramReceived` | evsemaster/testing.py:223-280 | the state after a datagram and the frame sent back are those of the specification, in every branch, including the datagrams and the settings that make the code raise |
| `Charger.FakeEvse.Announce` | evsemaster/testing.py:187-197 | the announcement carries serial and device info and no password; one too long for a frame raises |
| `Charger.ReceiveKeeps` | evsemaster/testing.py:223-280 | a session begins exactly with a LOGIN_CONFIRM that is not ignored, no datagram ends one, and a plan the wire has room for stays one |
| `Charger.RepliesFromRing` | evsemaster/testing.py:271-280 | whatever a charger receives, an answer that is a history record is a reply of its ring |
| `Charger.LoginAnswered` | evsemaster/testing.py:232-239 | a login is answered with success if and only if its six password bytes are the charger's password in ASCII, and otherwise with a password error; a charger that cannot build the answer sends none |
| `Charger.SetPlanEchoesBack` | evsemaster/testing.py:265-268 | client frame, charger, echo and client parser together: the client holds the plan it set, without seconds, and the charger kept it; the echo is missing only for a password outside ASCII |
| `Charger.SetLanguageEchoesBack` | evsemaster/testing.py:261-264 | client frame, charger, echo and client handler together: the charger keeps the language and the client shows it |
| `Charger.CountsAreCapacity` | evsemaster/testing.py:269-270 | whatever a charger receives, an answer about the count gives its ring's capacity where the client reads it |
| `Charger.PlanReadBack` | evsemaster/device.py:512-531 | after any datagrams that set no other plan, the get that follows a set brings the client the plan it set |
| `Plans.ShownWasSet` | evsemaster/device.py:305-308 | over every trace of client, charger and lossy network, a plan the client comes to show was set by it before or is that of a charger nobody set one for |
| `Plans.CanShowExactly` | evsemaster/device.py:512-531 | until the client sets another plan, the plans it can come to show are, besides that of a charger nobody set one for, exactly those it set at any time before: a late copy of an older set can overwrite a newer one |
| `Network.ComposedLoginSafety` | evsemaster/device.py:254-261 | over a lossy, duplicating, reordering network the client is authorised, and the charger has a session, only after the client handled a LOGIN_SUCCESS; it handles one only after the charger heard a LOGIN_REQUEST with its own password |
| `Network.HandshakeCompletes` | evsemaster/device.py:189-222 | with the right password and nothing lost, six steps take any client with a free lock to a login that returns True and the charger to a session |
| `Network.ComposedHistory` | evsemaster/testing.py:269-280 | over every trace of client, charger and network, wherever in it the waits of a read lie, a read that does not time out learns the charger's capacity and misreports no slot of its ring |
| `Router.LookupIsScan` | evsemaster/listener.py:141-143 | over every run of add, remove, frame and stop, looking a serial up finds exactly the registered device that has it and was not cut, and registered devices share a serial only if one was cut; a step cuts a device if it removes another one with its serial |
| `Router.RegisteredRemovalsCutNothing` | evsemaster/listener.py:132-139 | where only registered devices are removed nothing is cut, so a lookup is a scan |
| `Router.RemovedTwice` | evsemaster/listener.py:132-139 | a run that removes a device a second time and leaves another, registered and with a serial, in neither index |
| `Router.ConsistentRun` | evsemaster/listener.py:199-208 | over every run each address entry's device has that address and each serial entry's device that non-zero serial, and every registered device with a serial is indexed under it unless it was cut |
| `Router.DevicesExact` | evsemaster/listener.py:63-66 | over every run a registered device is missing from `devices` if and only if its serial is unknown or a step cut it, and since a step last gave it its address another took it: a charger recorded elsewhere sent from it, or another device recorded there was removed |
| `Router.AddressMeaning` | evsemaster/listener.py:199-208 | the address index holds a registered device if and only if it was added there or moved there, and no step since took the address |
| `Router.LosesStep` | evsemaster/listener.py:132-139 | a step takes a registered device out of `devices` if and only if neither index holds it any more by that step, and no step puts a missing one back |
| `Router.LostDevice` | evsemaster/listener.py:205-208 | a run after which a registered device is in neither index because a known charger moved to its address, so its docstring does not hold of `devices` |
| `Router.LostByRemoval` | evsemaster/listener.py:132-139 | a run after which a registered device is in neither index because another one was removed |
| `Router.SerialWriteOnce` | evsemaster/device.py:232-243 | over every run a serial once learned is kept, and a removed device keeps its fields and is never registered again |
| `Router.HandedRight` | evsemaster/listener.py:167-197 | a frame is handed only to a registered device whose serial afterwards is the frame's, or is unknown while the frame names none; a frame handed to nobody has the serial of no registered device but those cut |
| `Router.RemovedNeverHanded` | evsemaster/listener.py:132-139 | a removed device is never handed a frame again |
| `Router.DiscoveryOnce` | evsemaster/listener.py:210-232 | between two reports of one serial lies a stop or the removal of a device that has it |
| `Router.DiscoveredMeaning` | evsemaster/listener.py:132-139 | over every run a serial is remembered as discovered if and only if it was reported with no stop and no removal of its device since |
| `Router.StrangersReported` | evsemaster/listener.py:210-232 | a frame handed to nobody that names a charger is reported if and only if reporting is on and no report of its serial stands |
| `Router.AddedLearnsSerial` | evsemaster/listener.py:120-130 | the first unclaimed frame from an added device's address is handed to it and teaches its serial, under which it is found from then on |
| `Router.MovedIsFollowed` | evsemaster/listener.py:188-208 | frames of a known charger from a new address reach its device if and only if it was not cut; the index then holds the new address and not the old |
| `Router.ReportedIsStranger` | evsemaster/listener.py:210-232 | the zero serial is never reported, nor a serial a registered device holds that was not cut |
| `Listener.EvseListener.AddDevice` | evsemaster/listener.py:120-130 | an address already indexed is refused with the device that holds it; otherwise the indexes take the router's step for a fresh device |
| `Listener.EvseListener.RemoveDevice` | evsemaster/listener.py:132-139 | closes the device, registered or not, and takes the router's step, leaving the indexes consistent |
| `Listener.EvseListener.Stop` | evsemaster/listener.py:97-118 | closes every indexed device, drops the queued handlers and empties the indexes |
| `Listener.EvseListener.GetDeviceIsScan` | evsemaster/listener.py:141-143 | on device objects, a lookup finds exactly the registered device with the serial that was not cut |
| `Listener.EvseListener.Route` | evsemaster/listener.py:188-197 | serial first, then the address unless a different charger answers there |
| `Listener.EvseListener.Reindex` | evsemaster/listener.py:199-208 | both indexes follow a device's new serial and address, in place |
| `Listener.EvseListener.Discover` | evsemaster/listener.py:210-232 | reports and remembers a serial exactly if reporting is on and it is neither known nor zero |
| `Listener.EvseListener.OnFrame` | evsemaster/listener.py:167-186 | indexes, device fields, queued handlers and reports after one frame, read or not |
| `Listener.EvseListener.OnDatagram` | evsemaster/listener.py:163-165 | a datagram amounts to the packets it delivers, taken in order, with the indexes consistent after |
| `Listener.DatagramIsRun` | evsemaster/listener.py:163-186 | a datagram is a run of the router's frame steps, so what holds of every run holds of it |
| `Listener.EvseListener.RunTask` | evsemaster/listener.py:184-186 | a queued handler changes its own device, the history it notes, the capacity it resolves and what it sends, as the handler specification says, and nothing of the indexes |
| `Device.EvseDevice.Bind` | evsemaster/device.py:232-243 | a packet teaches a serial if it names one, and its source address and port |
| `Device.EvseDevice.HandlePacket` | evsemaster/device.py:245-321 | every field after any packet, the answer it sends, the history slot it notes, the capacity it resolves, and that address, serial and re-read timers stay |
| `Device.EvseDevice.HandleSystemTime` | evsemaster/device.py:342-360 | short or zero reports leave the correction; others take the skew controller's step |
| `Device.EvseDevice.HandleHistoryRecord` | evsemaster/device.py:374-380 | notes the slot only while a read is on |
| `Device.EvseDevice.HandleChargeRecord` | evsemaster/device.py:362-372 | acknowledges a record that can be read, in the answer of its command, and nothing else |
| `Device.EvseDevice.UpdateDeviceInfo` | evsemaster/device.py:323-332 | a login payload keeps nickname, amperage and language read before |
| `Device.SettingsKept` | evsemaster/device.py:323-332 | over any run of packets without a reply about them, the settings read last survive |
| `Device.ShowsLastReported` | evsemaster/device.py:275-308 | over any run of packets the status, charging status and weekly plan shown are those of the last packet that could be read as one, and the ones before if there was none |
| `Device.EvseDevice.Login` | evsemaster/device.py:189-222 | a call takes the session's step; it sends one LOGIN_REQUEST if the lock was free and none otherwise |
| `Device.EvseDevice.ResumeLogin` | evsemaster/device.py:196-222 | a waiting login woken takes the session's step and sends exactly the request or the essentials that step calls for |
| `Device.EvseDevice.Close` | evsemaster/device.py:224-230 | ends the authorisation, cancels the automatic login and stops the remembered timers |
| `Device.EvseDevice.RereadLater` | evsemaster/device.py:525-531 | cancels the timer remembered for the setting and remembers a new one due 2 s later |
| `Device.EvseDevice.FireReread` | evsemaster/device.py:525-531 | a due timer sends the get of its setting once |
| `Device.EvseDevice.SetLanguage` | evsemaster/device.py:502-510 | refused without authorisation or for UNKNOWN with nothing changed; otherwise one set and one re-read |
| `Device.EvseDevice.SetWeeklyPlan` | evsemaster/device.py:512-523 | refused without authorisation or for an enabled day without duration; otherwise one set of the plan's payload and one re-read |
| `Device.EvseDevice.ReadHistoryCapacity` | evsemaster/device.py:559-570 | the first capacity reported during one of at most four waits, and how many waits that took |
| `Device.FoundIsFirst` | evsemaster/device.py:559-570 | the capacity a read learns is the first one reported during its waits; it waits no longer than that, and gives up only after all four |
| `Device.Reply` | evsemaster/device.py:245-372 | an answer's code is its event's with the top bit set, but for the login confirmation, which answers exactly a success; a record is acknowledged by its charge id |
| `Device.CountResolvedOnce` | evsemaster/device.py:315-317 | the future of the capacity is resolved by the first report handled and by none after it |
| `Device.EvseDevice.ReadHistory` | evsemaster/device.py:533-557 | records, unread slots, the slots asked for and no slot more than four times, the waits used, and every packet handled meanwhile applied once and in order; without authorisation or capacity the error, and nothing asked |

## Left out

- Sockets, address resolution, and the start and probe of the listener: an added host is already resolved, and sending appends to a log.
- The asyncio scheduler: traces stand for it, any order of steps for safety.
- Relogin.LoginsApart: asks that a created login runs before a waiting one is resumed; `Loop.LoopLoginsApart` derives it from the event loop's queue, and `Relogin.OrderMatters` shows that it is needed.
- Relogin.BoundedRelogin: asks that no time passes while a task can run and that timers fire when due, because without that no login is bounded in time; it is about stretches without an answered login, and without logins or closes by the application.
- Relogin.LockHeldBriefly: asks the same of the scheduler, because a late timer holds the lock longer.
- Device.EvseDevice.ReadHistory: is one uninterrupted call, with the packets its waits handle, for a caller that holds the history lock; the lock, and other steps between its waits, are in `Reads.StepsRead`. A capacity that arrives just as its wait times out counts as lost.
- History.HistoryNeverMisreports: the ring is one and the same during the read, as the property is about what a ring holds.
- Device.EvseDevice.ResumeLogin: asks that the epoch of now fits its 32-bit field, where the code would raise from 2106 on.
- Device.EvseDevice.HandlePacket: status, charging status and charge records are kept as the bytes their fields are read from; a device info is its 54 bytes with nickname, amperage and language.
- Closing.CloseStopsExactly: what the application calls after the close, and frames that arrive after it: a removed device gets none, as `Router.RemovedNeverHanded` says. Sends are counted whether or not the socket is still open.
- Listener.EvseListener.RemoveDevice: a device of another listener, because nothing is known of its fields here.
- Lengths.NoHeaderContained: where a header stands at the new end inside a frame and its pieces never lead back to the start of a frame, `Lengths.LengthInRange` says what is delivered and no shorter condition for containment is given.
- Network.ComposedLoginSafety: one client and no damage on the way; another client's confirmation would start a session as well.
- Protocol.FrameRoundTrip: payloads over 65510 bytes and passwords outside ASCII, where the code raises.
- The field tables of `parse_status`, `parse_charging_status`, `parse_device_info` and `parse_charge_record`: bounds checks and slices.
- `start_charging`, `stop_charging`, `set_nickname`, `set_output_amperage` and the capabilities table: single checks in front of one command.
- Consumer callbacks, logging, masked dumps and text forms of objects: the logs record what is delivered.
- Time zones and daylight saving: the offset is a number, and the current times are after 1970, where Python's truncation and Dafny's rounding of seconds agree.
- UTF-8 decoding of strings: names are kept as bytes up to the first zero.
- The stand-in's unsolicited record uploads and broadcast headings.
- The command-line tools under tools/ and test.py.
