# ThetisLink: proofs about its state machines

ThetisLink operates a transceiver over a network. This project models six parts of it in Dafny and proves
what they are for, for every input, every run and every order in which the network delivers.

| part | files |
|---|---|
| Acknowledged controls: a client numbers each control, repeats it until the server says it arrived, and gives up; the server applies a setting only when it is newer and does an act once | `SerialNumbers`, `Wire`, `ControlSender`, `ControlReceiver`, `AckProtocol`, `AckResults`, `AckTiming` |
| The adaptive jitter buffer between a datagram stream and a sound card | `JitterBuffer`, `JitterResults`, `JitterSteps`, `JitterPacing`, `JitterPlayout`, `JitterDrain`, `JitterTarget`, `JitterRuns` |
| The chat as state: a bounded conversation, unread counts, answers folded away | `ChatModel`, `ChatResults`, `ChatSteps` |
| Grouping the lines of a config file under headings | `ConfLayout`, `ConfLayoutResults`, `ConfLayoutText` |
| Taking hosts and user names out of a report | `Text`, `Redaction`, `RedactionText` |
| The form a password takes in a settings file | `StoredPassword`, `StoredPasswordText` |

`Options` and `Collections` hold what several parts share.

**How a stateful object is written.** Its state is a datatype whose functions say what each operation does to a
value. Beside it stands the class with the object's own fields, whose methods change them in place, loops
included, and ensure that the new state (and what is returned) is that function of the old state. The theorems are
about those functions: about one step, and about any sequence of steps.

**The protocol as a whole.** `AckProtocol` puts sender, network and receiver into one transition system. Any packet
ever sent and any acknowledgement ever given may arrive at any time, any number of times, or never; sessions end and
the server may start over whenever they like. A run is any sequence of such steps with the states it passes through
(`IsRun`), and the main results are about all runs. Beside the two parties runs a ledger with one entry per numbered control
in the order of sending. The ledger knows sends by their *place*, not by their wrapping 32-bit number, it never
forgets, and it is advanced by the events alone. `SenderAgreesAlways` shows that the sender's queue, numbers and repeat
switch are exactly what the ledger says; `ReceiverAgreesAlways` does the same for the server's memory. Everything else
about the protocol (no repeat without proof, conservation of sends, eventual agreement) is read off the ledger.

**What one operation does** is also told without those functions, in `Wire`, `JitterSteps`, `ChatSteps`, `ConfLayoutText`,
`RedactionText` and `StoredPasswordText`: in bytes, in numbers behind the cursor, in answers on screen, in lines of the
file, in what stands before and behind a match.

The table lists the results first, part by part, then the lemmas that carry them, then the operations.

**What the code does not quite promise.** Some claims hold only under a condition, or with another bound. Each is
proved with its exact one, and shown to fail at an input:

- Grouping a grouped config file is said to change nothing (`sdr-remote-core/src/conf_layout.rs:44-46`). It changes
  nothing exactly when no kept line ends in a carriage return that `lines` left standing: `SettlesIff`, and
  `StrayCrDoesNotSettle` for a line that ends in two of them.
- Playout is meant to start with the oldest frame. It does exactly when the frames held do not straddle the wrap of the
  sequence, since the map orders plain numbers, and no trim is due on the pull that starts it: `StartsAtOldestIff`. The
  grace period that holds the trim back is not given again by `discard`, `drain_all` or a restart of the stream, so the
  second way occurs without any wrap: `StartsBehindTheWrap`, `StartTrimsTheOldest`. For the same reason as the first the
  "sequence order" of `drain_all` is the order of plain numbers.
- The end of a transmission is meant to be played. It is, within the drain bound, when no more frames lie from it on in
  the map than the trim leaves alone: ten at a target of two, since in the transmit buffer the slow trim is out of reach
  (`ReleasePlays`, `LastReleasePlays`). A release behind the wrap can come first in the map instead. Then it plays exactly
  when the first pull past the grace period does not trim it, and with that period over exactly when no more than those
  frames are held (`FirstReleasePlaysIff`, and `StartingReleasePlaysIff` for any tuning); `ReleaseLostAcrossTheWrap` is a run
  that loses it. `LeavesUnplayedIff` decides any single pull.
- Packets on time are meant not to raise the target. A new buffer starts at its lowest target, so this holds in all runs
  exactly when that covers what a line without jitter asks for: `TargetNeverRisesOnTimeIff`, `SecondPacketRaises`. All
  buffers that the programs make meet it (`WhichBuffersStartUp`).
- An act past the repeat window is said to have been given up anyway (`sdr-remote-core/src/control_ack.rs:243-246`), and
  repeats to come within 7.5 s (`:329-331`). The first acknowledgement of a session gives what still waits its first wait
  again, so the true bound is twice that, and it is reached: `LastRepeatOfAct`, `LastRepeatCanBeTwoWindowsLate`.
- A correction is meant to replace the message it corrects. A poll answered twice brings a message twice, and then only
  the first copy is replaced; all are right exactly when the others have the text already: `CorrectsAllIff`,
  `SecondCopyKeepsOldText`.
- A host taken out of a report can still be read in it when the label put in its place holds it, as `<relay>` does for
  a host called `relay`: `HostLeftIff`, `RelayCalledRelayIsLeft`.
- A password typed into a settings file by hand is taken as typed exactly when it is empty, no hex, or hex that decodes to
  no text: `TypedIsKeptIff`, with `TypedHexIsMisread` for `1234`.

Two bounds of the 32-bit numbers are exact as well: `LaterIsNewerIff` says how far ahead a send may be before it is
taken for an older one, and `SessionIntervalExact` with `FullSessionAcknowledgesNothing` that an acknowledgement is
told from a stale one for exactly as long as a session has fewer than 2^32 - 1 sends.

`dafny verify dfyconfig.toml` checks the whole project.

## Model

| member | source | states |
|---|---|---|
| `AckProtocol.SenderAgreesAlways` | sdr-remote-core/src/control_ack.rs:197-289 | In every run the sender's queue is the live part of the ledger, its numbers are the places, its repeat switch is the proof of this session; each entry keeps its schedule and left for a true reason, an expired one for its age |
| `AckResults.ReceiverAgreesAlways` | sdr-remote-core/src/control_ack.rs:356-385 | In every run whose deliveries are near what was applied, the server's memory is what the places delivered since it last started over say |
| `AckResults.QuietMeansAgreement` | sdr-remote-core/src/control_ack.rs:182-196 | Eventual agreement: when nothing of a setting waits any more, the server holds the number of its last send, unless that send was given up on, its session ended first, or the server started over after it had it |
| `AckResults.AckTellsTheTruth` | sdr-remote-core/src/control_ack.rs:227-238 | A control the sender counts as acknowledged was done, or its setting was applied in this or a later send, if the server has not started over since before it first acknowledged that send |
| `AckResults.ProvenMeansProofArrived` | sdr-remote-core/src/control_ack.rs:218-237 | The sender repeats exactly when, since the last end of a session, an acknowledgement arrived for a send of the present one |
| `AckResults.NoRepeatWithoutProof` | sdr-remote-core/src/control_ack.rs:218-274 | In every run whatever is handed back for repeating is a packet of this session still waiting, repeated fewer than four times, not before (2^k - 1) first waits, and only after that proof |
| `AckResults.AtMostFourRepeats` | sdr-remote-core/src/control_ack.rs:257-270 | In no run, however long, do more than four polls hand the packet of one send back |
| `AckTiming.LastRepeatOfAct` | sdr-remote-core/src/control_ack.rs:218-274 | In every run no act is sent again later than two repeat windows (15 s) after its send, and five times what the polls were late |
| `AckTiming.LastRepeatCanBeTwoWindowsLate` | sdr-remote-core/src/control_ack.rs:243-246 | A run polled without delay that takes all of the 15 s |
| `AckResults.HandedBackIff` | sdr-remote-core/src/control_ack.rs:247-274 | What is handed back for repeating is exactly the packets of the places that wait, may be repeated and are due |
| `AckResults.NothingRepeatedBeforeProof` | sdr-remote-core/src/control_ack.rs:188-196 | Without the proof, nothing that waits has been repeated |
| `AckResults.EverySendAccountedFor` | sdr-remote-core/src/control_ack.rs:197-284 | At every moment of every run the counters balance: each numbered control is pending, acknowledged, superseded, given up, expired or dropped; and repeats are at most four per send |
| `AckResults.PendingInSendOrder` | sdr-remote-core/src/control_ack.rs:210-214 | The queue is in send order, with distinct keys and distinct numbers, all of this session |
| `AckResults.SupersededBySameControl` | sdr-remote-core/src/control_ack.rs:210-214 | In every run a send is superseded only by a later one that sets the same control, told from the bytes of both packets |
| `AckResults.WaitingIsTheLastOfItsControl` | sdr-remote-core/src/control_ack.rs:210-214 | And no setting that waits has a later send of the same control behind it |
| `Wire.SameKeyIff` | sdr-remote-core/src/protocol.rs:2079-2110 | Any two numbered packets have the same key exactly when they set the same control - type and id, or type, radio and control - whatever their values and numbers, or ask for the same act under the same number |
| `Wire.KeyFromBytes` | sdr-remote-core/src/control_ack.rs:71-100 | Which ids and values are acts, told from the bytes |
| `Wire.NumberedIff` | sdr-remote-core/src/protocol.rs:2079-2089 | A packet carries a number exactly when it is a control with four bytes behind it |
| `AckResults.SettingJudgedByPlace` | sdr-remote-core/src/control_ack.rs:370-377 | In a run a setting is applied exactly when it was sent after the one last applied |
| `AckResults.StaleOnlyBehindSameControl` | sdr-remote-core/src/control_ack.rs:370-377 | In a run a setting is passed over only when a packet that sets the same control was delivered and sent no earlier |
| `AckResults.ActJudgedByPlace` | sdr-remote-core/src/control_ack.rs:357-369 | In a run an act judged a repeat is one that was itself done; an act is never stale |
| `AckResults.ShortRunsAreNear` | sdr-remote-core/src/control_ack.rs:348-354 | In a run of fewer than 2^31 sends no delivery comes too far behind for the results about the server |
| `ControlReceiving.HoldsTheNewest` | sdr-remote-core/src/control_ack.rs:370-377 | After any deliveries, in any order and with any duplicates, the server holds for every setting the serially newest number delivered for it, and nothing else |
| `ControlReceiving.OrderIndependent` | sdr-remote-core/src/control_ack.rs:356-378 | Two delivery sequences with the same settings in them leave the same memory |
| `ControlReceiving.AppliedIffNewest` | sdr-remote-core/src/control_ack.rs:370-377 | A setting is applied exactly when it is newer than all deliveries of it before: a late "PTT on" after "off" never is |
| `ControlReceiving.ActMemory` | sdr-remote-core/src/control_ack.rs:357-369 | The act queue is always the last 64 acts of the whole history, without duplicates, and the set holds the same numbers |
| `ControlReceiving.ActDoneOnce` | sdr-remote-core/src/control_ack.rs:357-369 | An act is a repeat exactly when its number is among the last 64 applied, else it is applied; it is never stale |
| `ControlReceiving.SameActFarApart` | sdr-remote-core/src/control_ack.rs:329-332 | Between two times the same number is applied as an act lie at least 64 other acts |
| `ControlSending.RepeatsFitTheWindow` | sdr-remote-core/src/control_ack.rs:102-111 | A control polled on time goes out exactly four more times, the last 15 first waits after the send and inside the repeat window, and is then given up |
| `ControlSending.LetGoKeepsYoung` | sdr-remote-core/src/control_ack.rs:249-255 | Against a server that has not acknowledged, exactly the settings and the acts younger than the repeat window stay queued |
| `ControlSending.SendOnTheWire` | sdr-remote-core/src/control_ack.rs:197-216 | What a send returns and queues, told from the packet: a control with its number behind it, anything else as it is |
| `ControlSending.DueInOrder` | sdr-remote-core/src/control_ack.rs:257-270 | What is handed back, entry by entry and oldest first: the packet, the key given up, or nothing |
| `ControlSending.FirstWaitFollowsRoundTrip` | sdr-remote-core/src/control_ack.rs:312-314 | The first wait is one and a half round trips to the nanosecond, or the limit it would pass |
| `JitterResults.EveryFrameAccountedFor` | sdr-remote-core/src/jitter.rs:56-71 | Over any operations in any order: received = late + overwritten + capped + trimmed + cleared + drained + played + held |
| `JitterResults.DepthBounded` | sdr-remote-core/src/jitter.rs:256-266 | Over any operations the depth never exceeds `max_depth` + `cap_above_max`, and each frame sits under its own number |
| `JitterSteps.LatePacketIsDropped` | sdr-remote-core/src/jitter.rs:235-252 | A packet 1 to 64 numbers behind the cursor is counted as late and changes nothing held, nor the cursor |
| `JitterSteps.RestartHoldsTheFrameAlone` | sdr-remote-core/src/jitter.rs:235-254 | Further behind it is held alone, the cursor is forgotten and the rest counted as cleared |
| `JitterSteps.FittingPacketIsHeld` | sdr-remote-core/src/jitter.rs:254-266 | At the cursor or ahead it is held beside the others, up to the cap |
| `JitterSteps.CapKeepsTheLast` | sdr-remote-core/src/jitter.rs:256-266 | The cap keeps the last frames of the map, as many as the hard limit |
| `JitterSteps.PullAnswers` | sdr-remote-core/src/jitter.rs:270-370 | When a pull waits, plays, jumps or calls a number missing, and what it leaves of frames, cursor and flags in each case |
| `JitterSteps.PullTrimsIff` | sdr-remote-core/src/jitter.rs:317-346 | A pull trims exactly when it plays on past the grace period and the buffer is far enough or for long enough above its target |
| `JitterSteps.OffPacketLifts` | sdr-remote-core/src/jitter.rs:186-214 | A packet early or late by so much: the peak, the estimate and the target after it |
| `JitterSteps.UnmeasuredPacketIsRemembered` | sdr-remote-core/src/jitter.rs:186-216 | A first packet, one out of order or one a second on changes none of them |
| `JitterSteps.ResetIsNew` | sdr-remote-core/src/jitter.rs:469-480 | A reset buffer is a new one with the old target, tuning and counters |
| `JitterSteps.DiscardLikeDrain` | sdr-remote-core/src/jitter.rs:438-451 | `discard` and `drain_all` forget the frames and the cursor and nothing else |
| `JitterPlayout.EpochCountsEachOnce` | sdr-remote-core/src/jitter.rs:270-369 | A whole playout epoch from the pull that starts it: the way of the cursor from the first key = played + lost + skipped + trimmed + capped, and the played numbers strictly increase |
| `JitterPlayout.CursorCountsEachOnce` | sdr-remote-core/src/jitter.rs:231-369 | The same from any moment within an epoch, with every frame held at or after the cursor |
| `JitterRuns.JumpPassesAHeldFrame` | sdr-remote-core/src/jitter.rs:353-365 | A run in which, across the wrap, a jump to the first key passes a frame still held and counts it as skipped |
| `JitterPlayout.StartsAtOldestIff` | sdr-remote-core/src/jitter.rs:270-346 | Playout starts with the oldest frame in stream order exactly when the frames do not straddle the wrap and no trim is due on that pull |
| `JitterRuns.StartTrimsTheOldest` | sdr-remote-core/src/jitter.rs:317-346 | A run without a wrap in which the oldest of eleven frames, held after the grace period, is trimmed |
| `JitterRuns.StartsBehindTheWrap` | sdr-remote-core/src/jitter.rs:275-277 | A run of two packets, one on each side of the wrap: the later one is played first |
| `JitterDrain.DrainsInTime` | sdr-remote-core/src/jitter.rs:270-370 | With no more arrivals a buffer that plays or has enough to start is empty after depth * (`max_depth` + 2) pulls |
| `JitterDrain.DrainsIff` | sdr-remote-core/src/jitter.rs:270-391 | It ever empties, and then within that many pulls, exactly when it is empty or can go |
| `JitterDrain.ReleasePlays` | sdr-remote-core/src/jitter.rs:270-391 | The end of a transmission plays within depth * (`max_depth` + 2) pulls, also from a refilling or unstarted buffer and below the target, when no more frames lie from it on in the map than the trim leaves alone: the fast one, if the slow one is out of reach |
| `JitterDrain.LastReleasePlays` | sdr-remote-core/src/jitter.rs:270-391 | So it does whenever it is the last frame in the map |
| `JitterDrain.TransmitSpares` | sdr-remote-core/src/jitter.rs:496-527 | In the transmit buffer at its lowest target that is ten frames |
| `JitterDrain.ReleasePlaysIff` | sdr-remote-core/src/jitter.rs:317-351 | For any release: it plays exactly when no pull finds it first in the map with a trim due |
| `JitterDrain.FirstReleasePlaysIff` | sdr-remote-core/src/jitter.rs:317-351 | A release first in the map, wherever the cursor is and with the slow trim out of reach, plays exactly when the first pull past the grace period does not trim it; with the grace period over, exactly when the frames held are no more than target + `trim_above_target` + `fast_trim_above` |
| `JitterDrain.StartingReleasePlaysIff` | sdr-remote-core/src/jitter.rs:317-351 | With playout yet to start it plays exactly when that pull does not trim, under any tuning |
| `JitterRuns.ReleaseLostAcrossTheWrap` | sdr-remote-core/src/jitter.rs:317-346 | A run in which a release that came right after the wrap, behind eleven frames from before it, is trimmed and never plays |
| `JitterDrain.LeavesUnplayedIff` | sdr-remote-core/src/jitter.rs:317-351 | A pull takes a frame out unplayed exactly when it plays on, finds that frame first in the map, and a trim is due |
| `JitterPacing.WaitsForTargetIff` | sdr-remote-core/src/jitter.rs:271-310 | Before playout starts, and after an underflow, a pull changes nothing exactly while the buffer is empty, or below its target without the end of a transmission |
| `JitterPacing.SlowTrimRate` | sdr-remote-core/src/jitter.rs:515-527 | Over any operations, short of a big lead at a pull, at most one frame is trimmed per `trim_every_pulls` pulls |
| `JitterPacing.TrimKeepsPace` | sdr-remote-core/src/jitter.rs:515-527 | And while it stays above its target the buffer loses at least one frame per `trim_every_pulls` pulls |
| `JitterTarget.TargetFollowsDeviation` | sdr-remote-core/src/jitter.rs:186-214 | In every run the estimate and the peak lie between zero and the largest deviation measured, the target in its limits and under what that deviation asks for |
| `JitterTarget.TargetNeverRisesOnTimeIff` | sdr-remote-core/src/jitter.rs:208-211 | No packet on time raises the target in any run exactly when `min_depth` is at least `target_add`, or equals `max_depth` |
| `JitterTarget.SecondPacketRaises` | sdr-remote-core/src/jitter.rs:142-146 | Otherwise the second packet of a stream, on time as it is, raises it |
| `JitterTarget.PeakFades` | sdr-remote-core/src/jitter.rs:201-206 | Over n packets on time, pushed into any buffer, the peak falls by (1 - 1/decay)^n |
| `JitterTarget.EstimateFades` | sdr-remote-core/src/jitter.rs:196-198 | And the estimate by (15/16)^n |
| `ChatResults.WindowKeepsCount` | sdr-remote-chat/src/model.rs:251-295 | In every run, whatever ids come and however often: the ids held are the last 500 delivered, `last_id` the highest of all, `unread` the others' messages since the last reading or leaving |
| `ChatResults.WindowShowsTheLog` | sdr-remote-chat/src/model.rs:284-295 | With no id delivered twice the messages held are the last 500 of the log, every correction in place |
| `ChatResults.CorrectsAllIff` | sdr-remote-chat/src/model.rs:284-290 | One correction reaches every copy held under its id exactly when all but the first have its text already |
| `ChatResults.SecondCopyKeepsOldText` | sdr-remote-chat/src/model.rs:274-290 | A batch delivered twice and then corrected leaves the second copy as it was |
| `ChatResults.AsksAtMostTwice` | sdr-remote-chat/src/model.rs:296-387 | In every run the service is asked at most twice to put one answer aside |
| `ChatResults.AskedOnceMore` | sdr-remote-chat/src/model.rs:296-309 | A list of answers asks each folded-away one away once more, and only if that was not done before |
| `ChatResults.FoldedAwayForGood` | sdr-remote-chat/src/model.rs:361-387 | An answer once folded away is never shown again, whatever happens after |
| `ChatSteps.DismissFoldsAway` | sdr-remote-chat/src/model.rs:380-387 | After a dismissal no answer with that id is shown, the others stay in their order, the id is written down, one command goes out if the model is wired and the id was new and none otherwise, and nothing else changes |
| `ChatSteps.DismissAsksOnce` | sdr-remote-chat/src/model.rs:380-387 | The count of commands for the id rises by exactly that one |
| `ChatSteps.DismissedNeverShows` | sdr-remote-chat/src/model.rs:361-387 | In every run an answer once dismissed is not shown again |
| `ChatSteps.ShownInOrder` | sdr-remote-chat/src/model.rs:361-367 | Shown are the answers of the service in its order, but for the ids written down |
| `ChatSteps.RestoreFoldsAway` | sdr-remote-chat/src/model.rs:402-404 | Taking back the ids written down folds those away and asks for nothing |
| `ChatSteps.LastWordStands` | sdr-remote-chat/src/model.rs:228-330 | In every run the reason to be offline, the standing refusal, the answers and what is known of the station are the last word of the service on each |
| `ChatResults.UnseenExactly` | sdr-remote-chat/src/model.rs:361-367 | An answer is shown exactly when it is listed and not folded away |
| `ChatResults.RestartShowsTheSame` | sdr-remote-chat/src/model.rs:395-404 | A fresh model given the ids written down shows the same answers of any list |
| `ConfLayoutResults.LongestPrefixDecides` | sdr-remote-core/src/conf_layout.rs:21-40 | A key goes to the section with its longest matching prefix, the first one on ties, and to none when none matches |
| `ConfLayoutText.KeyDecides` | sdr-remote-core/src/conf_layout.rs:58-64 | A line goes by what stands before its first `=`, without the blanks around it |
| `ConfLayoutText.NoKeyNoSection` | sdr-remote-core/src/conf_layout.rs:55-64 | A line without `=` belongs to no section |
| `ConfLayoutText.NothingThrownAway` | sdr-remote-core/src/conf_layout.rs:42-54 | On the text: every line on which something stands and no `#` in front comes out as often as it stands in the file |
| `ConfLayoutText.OnlyHeadingsAdded` | sdr-remote-core/src/conf_layout.rs:68-98 | And nothing else is written but headings and blank lines |
| `ConfLayoutText.LinesUnderTheirHeading` | sdr-remote-core/src/conf_layout.rs:68-91 | The lines of a section stand together under its heading, the rest under theirs at the end, with a blank line between blocks |
| `ConfLayoutText.LayoutLength` | sdr-remote-core/src/conf_layout.rs:68-91 | One heading for each section that has a line, and no more |
| `ConfLayoutText.LinesSplit` | sdr-remote-core/src/conf_layout.rs:51 | A text is its first line and the rest; a last line without a line feed counts |
| `ConfLayoutResults.NothingLost` | sdr-remote-core/src/conf_layout.rs:42-46 | The kept lines section by section are the kept lines, each as often as before |
| `ConfLayoutResults.OrderUntouched` | sdr-remote-core/src/conf_layout.rs:42-46 | Within a section and among the leftovers the order is the original one |
| `ConfLayoutResults.GroupReadsBack` | sdr-remote-core/src/conf_layout.rs:47-92 | Read back, a grouped file has every kept line once, under its section |
| `ConfLayoutResults.SettlesIff` | sdr-remote-core/src/conf_layout.rs:44-46 | Grouping a grouped file changes nothing exactly when no kept line of it ends in a carriage return |
| `ConfLayoutResults.StrayCrDoesNotSettle` | sdr-remote-core/src/conf_layout.rs:44-46 | A line with two carriage returns is such a case |
| `ConfLayoutResults.LayoutSettles` | sdr-remote-core/src/conf_layout.rs:44-46 | On lines, laying out a layout changes nothing |
| `ConfLayoutResults.GroupTwice` | sdr-remote-core/src/conf_layout.rs:47-92 | What grouping twice gives, for every text |
| `Redaction.HostLeftIff` | sdr-remote-core/src/diagnose.rs:362-374 | A host can be read after its replacement, in any case of letters, exactly when it stood there and the label itself holds it |
| `Redaction.RelayCalledRelayIsLeft` | sdr-remote-core/src/diagnose.rs:169-173 | A relay called `relay` can still be read in the label put in its place |
| `Redaction.HostsGone` | sdr-remote-core/src/diagnose.rs:343-351 | After all replacements a host on the list is left in no line, when no label on the list holds it - whatever the other hosts are |
| `RedactionText.FirstHostReplaced` | sdr-remote-core/src/diagnose.rs:362-374 | At the first match: what stands before it stays, the label takes its place, and so on with the rest |
| `RedactionText.NoHostNoChange` | sdr-remote-core/src/diagnose.rs:362-374 | A line without the host stays as it is |
| `Redaction.NoNameLeft` | sdr-remote-core/src/diagnose.rs:494-529 | After all three walks no name follows any of the three markers, in any case of letters |
| `RedactionText.FirstNameTaken` | sdr-remote-core/src/diagnose.rs:499-526 | At the first marker: what stands before it stays, the whole name behind it and no more gives way to `<user>`, and so on with the rest |
| `RedactionText.NoMarkerNoChange` | sdr-remote-core/src/diagnose.rs:499-526 | Where the marker does not stand, nothing changes |
| `RedactionText.EveryTextHasAName` | sdr-remote-core/src/diagnose.rs:506-517 | Behind a marker there is always a name, empty or not, and a rest: the two laws cover every line |
| `RedactionText.OneNameTaken` | sdr-remote-core/src/diagnose.rs:494-529 | One user path in a line, in any of the three spellings: exactly the name is taken out |
| `RedactionText.NoPathNoChange` | sdr-remote-core/src/diagnose.rs:494-529 | A line without any of them stays as it is |
| `RedactionText.NamesOfTwoUsersTaken` | sdr-remote-core/src/diagnose.rs:493-529 | `/home/jan/x` and `C:\Users\chiron\AppData`, in full |
| `Redaction.PathsKeepHostsHidden` | sdr-remote-core/src/diagnose.rs:347-355 | Taking the names out brings no host back, unless `<user>` holds it |
| `StoredPassword.ReadsIffStored` | sdr-remote-core/src/auth.rs:222-241 | A value reads as a password exactly when, in lower case, it is that password's stored form |
| `StoredPasswordText.TextIff` | sdr-remote-core/src/auth.rs:240 | Bytes pass for text exactly when they are the UTF-8 encoding of some characters, as in section 3 of RFC 3629 |
| `StoredPasswordText.MaskIsTheKey` | sdr-remote-core/src/auth.rs:212-217 | Each byte is masked by the letter of the key in its place, round and round |
| `StoredPasswordText.StoredDigits` | sdr-remote-core/src/auth.rs:214-220 | And stored as two lower-case digits, the upper half first |
| `StoredPassword.StoredReadsBack` | sdr-remote-core/src/auth.rs:207-241 | Whatever password is stored is the one read back |
| `StoredPassword.SavingKeepsThePassword` | sdr-remote-server/src/config.rs:1402-1413 | A settings file written with what was read from it reads the same from then on, typed or stored |
| `StoredPassword.TypedIsKeptIff` | sdr-remote-core/src/auth.rs:222-227 | A typed value is taken as typed exactly when it is empty, no hex, or hex of bytes that are no text; and apart from the empty one that is exactly when it is no stored form of a password |
| `StoredPassword.TypedHexIsMisread` | sdr-remote-core/src/auth.rs:225-227 | `1234` typed by hand is read as `F\` |
| `StoredPassword.StoredApart` | sdr-remote-core/src/auth.rs:214-220 | Two passwords are never stored alike |
| `SerialNumbers.HalfWindowOrder` | sdr-remote-core/src/control_ack.rs:370-377 | Among numbers within half the space of a base, the sign test on the wrapping difference is the order of their offsets: serial order as in section 3.2 of RFC 1982 |
| `SerialNumbers.NumberClosed` | sdr-remote-core/src/control_ack.rs:207 | The k-th number issued, in closed form: zero is stepped over at the wrap |
| `SerialNumbers.NumberDistance` | sdr-remote-core/src/control_ack.rs:207 | How far apart two issued numbers are: the sends between them, and one more when the wrap lies between |
| `SerialNumbers.NumberPeriod` | sdr-remote-core/src/control_ack.rs:207 | A number comes back after exactly 2^32 - 1 sends |
| `SerialNumbers.NumbersDistinct` | sdr-remote-core/src/control_ack.rs:207 | And not before |
| `SerialNumbers.IssueOrder` | sdr-remote-core/src/control_ack.rs:370-377 | For sends at most 2^31 - 2 apart, older by number means sent earlier, and equal numbers mean the same send, across the wrap too |
| `SerialNumbers.LaterIsNewerIff` | sdr-remote-core/src/control_ack.rs:370-377 | The exact distance up to which a later send is not judged older |
| `SerialNumbers.SessionIntervalExact` | sdr-remote-core/src/control_ack.rs:286-289 | The interval test says yes to a number in flight exactly when its send belongs to this session, although zero lies inside the interval and is never sent |
| `SerialNumbers.FullSessionAcknowledgesNothing` | sdr-remote-core/src/control_ack.rs:286-289 | After 2^32 - 1 sends in one session the interval is empty: no acknowledgement counts |
| `Wire.BytesRoundTrip` | sdr-remote-core/src/control_ack.rs:200-201 | The four big-endian bytes appended to a packet read back as the number |
| `Wire.NumberReadsBack` | sdr-remote-core/src/protocol.rs:2079-2110 | Whatever control the packet is, its number is read back as put on; a setting has one key under all numbers, an act a key of its own with its number in it |
| `ControlSending.OnTimeClosed` | sdr-remote-core/src/control_ack.rs:259-269 | Polled on time, the k-th repeat doubles the wait and is due (2^k - 1) first waits after the send |
| `AckProtocol.SweepFollowsLedger` | sdr-remote-core/src/control_ack.rs:213-237 | A pass over the queue that treats each entry as the event treats it in the ledger leaves the queue equal to the live part of the ledger |
| `AckProtocol.SendKeepsAgreement` | sdr-remote-core/src/control_ack.rs:197-216 | A send keeps sender and ledger in agreement: numbers by place, one live entry per key, what it supersedes marked so |
| `AckProtocol.AckKeepsAgreement` | sdr-remote-core/src/control_ack.rs:227-238 | An acknowledgement takes out the very send it is for and no other, and one of an earlier session none at all |
| `AckProtocol.TickKeepsAgreement` | sdr-remote-core/src/control_ack.rs:247-274 | A poll keeps the agreement, whether repeating is on or off |
| `AckProtocol.SessionEndKeepsAgreement` | sdr-remote-core/src/control_ack.rs:280-284 | So does the end of a session |
| `AckResults.CountersAgreeAlways` | sdr-remote-core/src/control_ack.rs:271-272 | The sender's counters are what the ledger adds up to |
| `JitterResults.InOrderIsAll` | sdr-remote-core/src/jitter.rs:447-451 | `drain_all` hands over every frame once, by increasing number |
| `JitterResults.CappedFacts` | sdr-remote-core/src/jitter.rs:256-266 | The cap brings the depth under the limit, counts each frame it takes, and touches no other |
| `JitterResults.PullShape` | sdr-remote-core/src/jitter.rs:270-315 | A pull either waits and touches no frame, or trims and plays |
| `JitterResults.PullBalances` | sdr-remote-core/src/jitter.rs:270-370 | What a pull takes out is trimmed or played, once |
| `JitterResults.PushBalances` | sdr-remote-core/src/jitter.rs:183-267 | What a push brings is late, overwrites a frame, or is held; what it drives out is capped or cleared |
| `JitterPlayout.CapMoves` | sdr-remote-core/src/jitter.rs:256-266 | Within an epoch every number the cap moves the cursor over is counted as capped or skipped, once |
| `JitterPlayout.PullMoves` | sdr-remote-core/src/jitter.rs:317-369 | Every number a pull moves the cursor over is played, lost, skipped or trimmed, once, and what it plays was held at or after the cursor |
| `JitterPlayout.PushMoves` | sdr-remote-core/src/jitter.rs:231-267 | A push within an epoch keeps all frames at or after the cursor |
| `ChatResults.CorrectionsKeepTail` | sdr-remote-chat/src/model.rs:284-295 | Corrections keep the window a tail of the log corrected in full |
| `ChatResults.TakenFacts` | sdr-remote-chat/src/model.rs:274-283 | New messages are appended, the last id is the highest delivered, others' messages are counted |
| `ChatResults.SortedFacts` | sdr-remote-chat/src/model.rs:395-399 | The ids written down are those folded away, strictly increasing |
| `ConfLayoutResults.LayoutKeeps` | sdr-remote-core/src/conf_layout.rs:68-91 | Headings and blanks apart, the layout holds the kept lines section by section |
| `ConfLayoutResults.LinesOfUnlines` | sdr-remote-core/src/conf_layout.rs:51-84 | The text written reads back as its lines, but for a carriage return at the end of one |
| `Text.SearchFindsFirst` | sdr-remote-core/src/diagnose.rs:363-366 | The search from a cursor finds the first place where the text stands, in any case of letters |
| `Redaction.NothingElseAppears` | sdr-remote-core/src/diagnose.rs:362-374 | A replacement brings no other host into being, unless in its label |
| `Redaction.WalkMoves` | sdr-remote-core/src/diagnose.rs:499-526 | Each step leaves less of the line ahead of the cursor, though the line may grow |
| `Redaction.WalkCleans` | sdr-remote-core/src/diagnose.rs:499-526 | After a walk every occurrence of its marker is followed by `<user>` or by no name |
| `Redaction.WalkKeepsClean` | sdr-remote-core/src/diagnose.rs:496-527 | And no walk spoils what another one cleaned |
| `StoredPassword.ObfuscateIsHex` | sdr-remote-core/src/auth.rs:214-220 | The stored form is hex and gives the password's bytes back under the key |
| `StoredPassword.ObfuscateUnmasked` | sdr-remote-core/src/auth.rs:228-238 | Storing what a hex text decodes to gives that text in lower case |
| `JitterDrain.PullIsSooner` | sdr-remote-core/src/jitter.rs:270-370 | Every pull of a buffer that can go takes something off the pulls left, whether it plays, trims, jumps or loses, wherever in the number space |
| `ControlSending.FirstWait` | sdr-remote-core/src/control_ack.rs:312-314 | The first wait lies between 100 and 500 ms |
| `ControlSending.ControlSender.StartingAt` | sdr-remote-core/src/control_ack.rs:169-180 | A sender starts at its number, never at zero, with nothing pending and repeating off |
| `ControlSending.ControlSender.Send` | sdr-remote-core/src/control_ack.rs:197-216 | Numbering, superseding the same key, queueing; a packet that is no control goes out as it is and uses up no number |
| `ControlSending.ControlSender.Acknowledged` | sdr-remote-core/src/control_ack.rs:227-238 | A number of this session leaves the queue; the first one switches repeating on and starts the waits anew; any other number changes nothing |
| `ControlSending.ControlSender.DueAt` | sdr-remote-core/src/control_ack.rs:247-274 | What is repeated and what is given up, oldest first, and the queue left; before the first acknowledgement nothing is handed back and no old act is left |
| `ControlSending.ControlSender.SessionEnded` | sdr-remote-core/src/control_ack.rs:280-284 | The queue is dropped, repeating is off, the next session starts at the next number |
| `ControlSending.ControlSender.TakeCounts` | sdr-remote-core/src/control_ack.rs:300-306 | The three counters are handed over and start again |
| `ControlReceiving.ControlReceiver.constructor` | sdr-remote-core/src/control_ack.rs:344-346 | A new receiver remembers nothing |
| `ControlReceiving.ControlReceiver.Judge` | sdr-remote-core/src/control_ack.rs:356-378 | The verdict and the memory after it |
| `ControlReceiving.ControlReceiver.Reset` | sdr-remote-core/src/control_ack.rs:381-385 | After a reset nothing is remembered |
| `Jitter.JitterBuffer.constructor` | sdr-remote-core/src/jitter.rs:142-179 | An empty buffer, target at the minimum, in its grace period |
| `Jitter.JitterBuffer.Heard` | sdr-remote-core/src/jitter.rs:183-214 | The estimate, the peak and the target after a packet |
| `Jitter.JitterBuffer.Push` | sdr-remote-core/src/jitter.rs:183-267 | Late, restart or fits; the insertion; the cap |
| `Jitter.JitterBuffer.CapOldest` | sdr-remote-core/src/jitter.rs:256-266 | The loop that takes the lowest number off until the hard limit is met |
| `Jitter.JitterBuffer.Trim` | sdr-remote-core/src/jitter.rs:317-346 | At most one frame off per pull, slow or fast, never in the grace period |
| `Jitter.JitterBuffer.PlayNext` | sdr-remote-core/src/jitter.rs:348-369 | The frame at the cursor, a jump over a wide gap, or one number lost |
| `Jitter.JitterBuffer.Pull` | sdr-remote-core/src/jitter.rs:270-370 | Start, underflow, refill, grace, trim, play |
| `Jitter.JitterBuffer.Discard` | sdr-remote-core/src/jitter.rs:438-442 | Emptied, counted as cleared, what is learned about the line kept |
| `Jitter.JitterBuffer.DrainAll` | sdr-remote-core/src/jitter.rs:447-451 | All frames handed over in the order of the map, the cursor forgotten |
| `Jitter.JitterBuffer.Reset` | sdr-remote-core/src/jitter.rs:469-480 | Emptied and forgotten, but for the target, the tuning and the counters |
| `Chat.ChatModel.constructor` | sdr-remote-chat/src/model.rs:108-131 | The chat before anything is known |
| `Chat.ChatModel.Apply` | sdr-remote-chat/src/model.rs:228-330 | What each event does to the whole state |
| `Chat.ChatModel.TakeState` | sdr-remote-chat/src/model.rs:253-268 | Consent and name taken over; leaving clears the conversation |
| `Chat.ChatModel.TakeIn` | sdr-remote-chat/src/model.rs:274-283 | The loop over new messages |
| `Chat.ChatModel.CorrectInPlace` | sdr-remote-chat/src/model.rs:284-295 | The loop over corrections, and the bound |
| `Chat.ChatModel.AskAgain` | sdr-remote-chat/src/model.rs:296-309 | The loop that asks folded-away answers away a second time |
| `Chat.ChatModel.Tick` | sdr-remote-chat/src/model.rs:148-160 | The first tick starts the worker; before it nothing is sent anywhere |
| `Chat.ChatModel.MarkRead` | sdr-remote-chat/src/model.rs:348-350 | Nothing unread, all else as it was |
| `Chat.ChatModel.Dismiss` | sdr-remote-chat/src/model.rs:380-387 | An answer folded away, and the service told when that was news |
| `Chat.ChatModel.RestoreSeen` | sdr-remote-chat/src/model.rs:402-404 | The ids written down are folded away again |
| `Chat.ChatModel.UnreadAnswers` | sdr-remote-chat/src/model.rs:361-367 | The answers not folded away, in the order of the service |
| `ConfLayout.FindSection` | sdr-remote-core/src/conf_layout.rs:27-40 | The nested loops find the section of the best match |
| `ConfLayout.Distribute` | sdr-remote-core/src/conf_layout.rs:48-66 | The loop over the lines fills one bucket per section and the leftovers, in order |
| `ConfLayout.AddBlock` | sdr-remote-core/src/conf_layout.rs:72-80 | A heading and its lines appended, after a blank line unless first |
| `ConfLayout.Regroup` | sdr-remote-core/src/conf_layout.rs:47-92 | The text written is the layout of the kept lines |
| `Redaction.ReplaceIgnoreCase` | sdr-remote-core/src/diagnose.rs:362-374 | The loop replaces every match found left to right |
| `Redaction.HideHosts` | sdr-remote-core/src/diagnose.rs:347-351 | The loop over the hosts and their labels |
| `Redaction.Strip` | sdr-remote-core/src/diagnose.rs:499-526 | The walk of one marker through the line it rewrites ends, and leaves this line |
| `Redaction.StripPaths` | sdr-remote-core/src/diagnose.rs:494-529 | The three walks one after the other |

## Left out

- Runs assume that no session has 2^32 - 1 sends and that no acknowledgement arrives a whole cycle of numbers late; the results about the server also that a delivery is within 2^31 - 2 sends of what was last applied under its key or number; `LaterIsNewerIff`, `NumberPeriod` and `FullSessionAcknowledgesNothing` show what happens beyond.
- The server acknowledges a numbered control before it looks for a session (`sdr-remote-server/src/network.rs:4294-4298`); the model has one session per server, so a control from an address without one is not covered.
- QuietMeansAgreement: says nothing of a last send that was given up on, whose session ended first, or that the server forgot by starting over: the code does not promise that it is held.
- TakeCounts: is not a step of the runs, whose counters are totals; counters are unbounded where the code has 32 bits.
- Clock seeding of a new sender, and the log lines.
- Waits and times are whole nanoseconds without an upper limit, where a `Duration` or an `Instant` can overflow.
- The jitter estimate is over the reals: `f32` rounding, the saturating cast of a huge estimate to an integer and the casts of depths to `i32` are not modelled. Counters are unbounded.
- `Settings.Usable` asks for `min_depth` <= `max_depth`, where `clamp` otherwise panics, and for a positive `ms_per_frame` and a decay of at least one packet; all buffers the code makes have them.
- EpochCountsEachOnce, CursorCountsEachOnce: are about an epoch that does not cross the wrap of the sequence; `JumpPassesAHeldFrame` shows the count fail across it. The balance of frames, the depth bound and the drain bound need no such condition.
- ReleasePlays: says when a release is safe whatever the gaps, the grace period and the cursor; one that is not first in the map and has more frames behind it may or may not be lost, as the gaps in front of it decide, pull by pull (`LeavesUnplayedIff`, `ReleasePlaysIff`).
- The read-only peeks of the jitter buffer (depth, next frame, a press in hand).
- WindowShowsTheLog: asks for message ids that do not come twice; `WindowKeepsCount` asks for nothing and says all but the texts. The saturation of `unread` and the 64-bit width of ids are not modelled.
- The polling clock of the chat, the commands for consent, sending, editing, leaving and reporting, `can_edit`, and the one-shot read of the report flag.
- GroupReadsBack, SettlesIff: ask for headings that are single lines, as the tables have.
- Strings are sequences of characters, where the code has UTF-8 bytes; lengths of prefixes of one key compare alike in both, and all cuts fall next to characters that were matched.
- HostsGone: asks that no label on the list holds the host and that the host has no angle bracket; `HostLeftIff` is exact for one replacement.
- The redaction of addresses, e-mails and secrets, and the choice of settings that go into a report.
- Blanks around a settings value, which the readers trim, and values that are empty, which they skip: a stored form has neither.
- The session key, the HMAC handshake and the one-time passwords: cryptography from elsewhere.
