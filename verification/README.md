# PS/2 controller, keyboard and touchpad command model

A Dafny model of the PS/2 driver stack in `ApplePS2Controller`, `ApplePS2Keyboard` and the command part of
`ApplePS2SmartTouchPad`, with proofs of what its functions do together. Both compile options of the controller, the
keyboard queue for debuggers and the reordering of late acknowledgements, are on.

One hardware port carries two byte streams, keyboard and mouse. It is modelled as an unbounded script of poll outcomes
(nothing, or a byte with its source). A keyboard byte may be marked as one whose interrupt is served as soon as the
controller lock is free; the interrupt handler then moves it to the keyboard queue. Everything the controller does leaves
an event in a log: byte handed to a driver, byte returned to a request, byte lost, zero made up on a timeout, port write.
The theorems quantify over all scripts, so over everything the devices can do.

| file | contents |
|---|---|
| Sequences.dfy | subsequences, lists of different numbers |
| Port.dfy | the port, the interrupt handler, both blocking reads defined on the list of arrivals |
| KeyboardQueue.dfy | the 32-element interrupt-time queue |
| Requests.dfy | request programs: streams, effects, first failure, runs, batches |
| Controller.dfy | `ApplePS2Controller` as a class whose loops refine those definitions |
| Streams.dfy, Progress.dfy | the two byte streams in one read: fates, order, budgets, losses; what a read leaves behind |
| MouseOrder.dfy, Overtaking.dfy | when a read of the mouse keeps the keys in order; which keys it moves past each other |
| Runs.dfy, Service.dfy | conservation and order over whole runs of requests and interrupts; what serving interrupts hands over |
| Writes.dfy | what requests put on the ports |
| RequestQueue.dfy, InterruptRace.dfy | concurrent steps as state machines: the request queue, the unlocked data read |
| Power.dfy, WakeUp.dfy | power transitions; what a wake-up asks, writes and takes off the keyboard queue |
| ScanCodes.dfy, AckTransparency.dfy, Typing.dfy | scan-code framing; acknowledgements in the middle of typing, for one request and for runs of requests and interrupts |
| CommandByte.dfy, SetCommandByte.dfy, CommandByteEcho.dfy, SharedCommandByte.dfy | the test-and-set loop: several drivers that are answered, one call against any device, several drivers against any device |
| KeyVector.dfy, AutoRepeat.dfy, Modifiers.dfy, KeyCombination.dfy, Leds.dfy | parts of the keyboard driver |
| Keyboard.dfy, Restored.dfy | `ApplePS2Keyboard` as a class on top of the controller; what a wake-up leaves the keyboard with |
| SlicedCommand.dfy, MouseAnswers.dfy | sliced touchpad commands and their decoder; when the mouse stream answers in time |

Methods of the two classes state their new state through the functions of the other files, and the lemmas are about
those functions. `hide` statements only keep proofs quick.
The devices at the other end (the register of the controller, the lights, the touchpad, the frames of a keyboard) are defined
on literal bytes, the programs of the drivers on the constants of the source.

## Where the code and its comments differ

The model follows the code.

- `interruptOccurred` is said to toss data that arrives while offline; bytes already moved to the keyboard queue stay there
  (`ApplePS2Controller/ApplePS2Controller.cpp:805-810`). Four of them, or of keys whose interrupts are served before the
  first question, are taken for answers at wake-up, two of these become command bytes (`PS2WakeUp.StaleAnswers`,
  `PS2WakeUp.KeysStored`, `PS2WakeUp.KeyInPause`), and the rest is delivered (`PS2WakeUp.SleepersDelivered`).
  `PS2WakeUp.KeepsTheRegisterExactly` says when the register is kept all the same.
- The reset is said to disable the interrupts; it clears the mouse interrupt only, so keys are queued while it runs
  (`ApplePS2Controller/ApplePS2Controller.cpp:471-482`).
- `setCommandByte` is said to set and clear the given bits. It takes the first keyboard byte that comes again within five
  for the register, a typed key included, and 0 if the bytes run out (`ApplePS2Keyboard/ApplePS2Keyboard.cpp:3683-3734`;
  `PS2CommandByteEcho.TouchesOnlyItsBits` says when the other bits survive, `PS2CommandByteEcho.KeyTakenForRegister` is an
  input where they do not).
- A keyboard byte polled by a reader of the mouse is handed on ahead of those on the keyboard queue
  (`ApplePS2Controller/ApplePS2Controller.cpp:1061`, `1126`; `PS2Runs.KeyOvertaken` is an input,
  `PS2MouseOrder.MouseReadKeepsOrder` and `PS2Overtaking.OvertakesExactly` the exact conditions).
- Waking is said to unblock the request queue; requests met offline are not kept, they fail with count 0
  (`ApplePS2Controller/ApplePS2Controller.cpp:902-907`).
- The reordering read is described as putting bytes back in order; on give-up and on timeout the second and third held byte
  are lost (`ApplePS2Controller/ApplePS2Controller.cpp:1209-1211`, `1314-1323`), and a timeout with nothing held answers 0,
  which a comparison with 0 accepts.
- The branch that would switch the alternate function off lies behind one that takes every such case
  (`ApplePS2Keyboard/ApplePS2Keyboard.cpp:2384`, `2403`).
- The loop that releases keys at wake-up runs after the key vector was cleared
  (`ApplePS2Keyboard/ApplePS2Keyboard.cpp:4051-4059`).
- An empty token of a key combination is compared over length 0 and so matches CMD
  (`ApplePS2Keyboard/ApplePS2Keyboard.cpp:1210`).

## Model

| member | source | states |
|---|---|---|
| `PS2Controller.Controller.InterruptHandlerKeyboard` | ApplePS2Controller/ApplePS2Controller.cpp:95-156 | what the interrupt handler does with each content of the port: a keyboard byte goes to the queue, or is dropped if the queue is full, a mouse byte stays and only wakes the work loop, an idle port changes nothing |
| `PS2Controller.Controller.LockController` | ApplePS2Controller/ApplePS2Controller.cpp:1544-1547 | when the lock is taken, every keyboard byte whose interrupt could be served has been moved to the queue, and nothing else |
| `PS2Controller.Controller.FetchByte` | ApplePS2Controller/ApplePS2Controller.cpp:1056-1119 | one turn of the loop both reads share: the next byte from the queue or the port with the idle budget that is left, or a timeout when the budget is used up |
| `PS2Controller.Controller.ReadDataPort` | ApplePS2Controller/ApplePS2Controller.cpp:1037-1129 | the loop is the plain read: the first byte of the requested stream after the other stream's bytes were handed to their driver in order, or 0 when 10000 idle polls have gone by |
| `PS2Controller.Controller.ReadDataPortExpecting` | ApplePS2Controller/ApplePS2Controller.cpp:1135-1337 | the loop with its held bytes is the expecting read: value, port and events agree with the read defined on the list of all arrivals |
| `PS2Port.ExpectHit` | ApplePS2Controller/ApplePS2Controller.cpp:1244-1272 | the expected byte behind at most three others is the answer, after those three went to the driver in order |
| `PS2Port.ExpectGivesUp` | ApplePS2Controller/ApplePS2Controller.cpp:1274-1323 | with a fourth mismatch the fourth byte goes to the driver, the first is the answer, the second and third are lost |
| `PS2Port.ExpectRunsOut` | ApplePS2Controller/ApplePS2Controller.cpp:1189-1212 | when the budget runs out the answer is the first held byte, the other held bytes are lost, and with no byte held the answer is 0 |
| `PS2Controller.Controller.DispatchHeld` | ApplePS2Controller/ApplePS2Controller.cpp:1258-1271 | the held bytes reach the driver oldest first |
| `PS2Controller.Controller.InterruptOccurred` | ApplePS2Controller/ApplePS2Controller.cpp:795-856 | asynchronous service is: empty the keyboard queue into the keyboard driver, then take mouse bytes while the port shows one; offline nothing is touched |
| `PS2KeyboardQueue.KeyboardQueue.Enqueue` | ApplePS2Controller/ApplePS2Controller.cpp:1494-1513 | a bounded first-in first-out queue that drops the newest byte when 32 are waiting |
| `PS2KeyboardQueue.KeyboardQueue.Dequeue` | ApplePS2Controller/ApplePS2Controller.cpp:1515-1537 | the oldest byte comes off, and an empty queue says so |
| `PS2KeyboardQueue.Partition` | ApplePS2Controller/ApplePS2Controller.cpp:255-261 | the used and the unused list always split the same 32 elements between them |
| `PS2Runs.EveryByteOnce` | ApplePS2Controller/ApplePS2Controller.cpp:795-1337 | over any run of interrupts and requests every byte of a stream is still to come, was refused by the full queue, or met exactly one fate: its own driver, a request, or lost |
| `PS2Runs.DeliveredInOrder` | ApplePS2Controller/ApplePS2Controller.cpp:795-1337 | over any run the mouse driver sees a subsequence of what the mouse sent, and the keyboard driver of what the keyboard sent if every read of the mouse in the run is orderly |
| `PS2Runs.PlayConserves` | ApplePS2Controller/ApplePS2Controller.cpp:795-1337 | the invariant behind both, step by step: nothing appears or disappears in either stream, and what is delivered followed by what is pending stays in order |
| `PS2MouseOrder.MouseReadKeepsOrder` | ApplePS2Controller/ApplePS2Controller.cpp:1061-1127 | either whole read of the mouse, interrupts during it included: the keys stay in order exactly if the bytes it polled, followed by the queue it left, are a subsequence of the queue it found, followed by what came off the port |
| `PS2MouseOrder.CommutesWithQueue` | ApplePS2Controller/ApplePS2Controller.cpp:1061-1127 | if the queue is as long after the read as at the lock, the keys stay in order exactly if those polled before the answer commute with those on the queue |
| `PS2Overtaking.OvertakesExactly` | ApplePS2Controller/ApplePS2Controller.cpp:1061-1127 | either whole read of the mouse, on keys that can be told apart: they stay in order exactly if the queue is empty whenever the reader polls one; with room on the queue exactly then every key keeps its place |
| `PS2Overtaking.NoneOvertakesInOrder` | ApplePS2Controller/ApplePS2Controller.cpp:1061-1127 | the driver is handed exactly the keys polled before the answer, and if none of them is polled while others are queued the order is kept whatever the keys are |
| `PS2Overtaking.CommutesWithoutInterrupts` | ApplePS2Controller/ApplePS2Controller.cpp:1061-1127 | with no interrupt left to serve at the lock, the keys stay in order exactly if those that arrive before the answer commute with those on the queue |
| `PS2Runs.CommandKeepsOrder` | ApplePS2Controller/ApplePS2Controller.cpp:913-981 | a command of a request moves keys past each other exactly when it reads the mouse in a way that is not orderly |
| `PS2Runs.TameIsOrderly` | ApplePS2Controller/ApplePS2Controller.cpp:913-981 | a run whose requests read no stream but the keyboard is orderly |
| `PS2Runs.PolledIsOrderlyRun` | ApplePS2Controller/ApplePS2Controller.cpp:1061-1127 | so is every run in which no key goes through the interrupt queue |
| `PS2Runs.KeyOvertaken` | ApplePS2Controller/ApplePS2Controller.cpp:1061-1127 | one queued key, one key and a mouse byte on the port, and a request that reads the mouse: the driver is handed the second key first |
| `PS2Streams.PlainReadAccounts` | ApplePS2Controller/ApplePS2Controller.cpp:1037-1129 | one plain read accounts for every byte it took and sits through at most 10000 idle polls however the streams interleave |
| `PS2Streams.ExpectReadAccounts` | ApplePS2Controller/ApplePS2Controller.cpp:1135-1337 | the same for the expecting read, with each held byte given exactly one fate |
| `PS2Streams.ExpectReadTakes` | ApplePS2Controller/ApplePS2Controller.cpp:1244-1323 | an expecting read takes at most four bytes of its own stream |
| `PS2Streams.ExpectReadLoses` | ApplePS2Controller/ApplePS2Controller.cpp:1209-1323 | the exact number it loses, by the bytes that arrive in its budget: none if the expected one is among the first four, two if it gives up, all but the first of those held if the budget runs out |
| `PS2Runs.RunLoses` | ApplePS2Controller/ApplePS2Controller.cpp:886-1337 | over a whole run no more than two bytes are lost for each comparison carried out |
| `PS2Runs.PlayLater` | ApplePS2Controller/ApplePS2Controller.cpp:795-1337 | any run leaves a later part of the script and forgets no refused byte; if the queue has room for every key that may come by interrupt, it refuses none |
| `PS2Runs.ServiceConserves` | ApplePS2Controller/ApplePS2Controller.cpp:805-844 | serving interrupts neither loses nor reorders a byte of either stream |
| `PS2Service.ServiceServes` | ApplePS2Controller/ApplePS2Controller.cpp:805-844 | when the loop ends nothing is queued and neither a mouse byte nor a key that can interrupt is ready; each mouse byte that was ready without a pause has gone to the mouse driver, and, unless the full queue refused one, each queued key and each key that interrupted to the keyboard driver, all in order |
| `PS2Service.MouseServed` | ApplePS2Controller/ApplePS2Controller.cpp:833-838 | mouse bytes ready at the head of the port all reach the mouse driver, in order |
| `PS2Requests.StreamStep` | ApplePS2Controller/ApplePS2Controller.cpp:896-976 | the two variables of the request loop compute the declared stream of each command: the last mode-setting command decides, and a data write means mouse exactly if a 0xD4 command came since the previous data write |
| `PS2Controller.Controller.ExecuteCommand` | ApplePS2Controller/ApplePS2Controller.cpp:913-981 | one arm of the command switch has the effect declared for its command and stream, and updates the two variables |
| `PS2Controller.Controller.RunCommands` | ApplePS2Controller/ApplePS2Controller.cpp:911-991 | the loop over the commands stops at the first failed comparison and leaves later commands and the port alone |
| `PS2Controller.Controller.ProcessRequest` | ApplePS2Controller/ApplePS2Controller.cpp:886-1004 | a request ends with the count, commands and port of its declared run, and is completed or freed, once and never both |
| `PS2Requests.FirstFailure` | ApplePS2Controller/ApplePS2Device.h:218-222 | the count a requester sees is the index of the first comparison that fails, or the number of commands |
| `PS2Requests.NothingAfterFailure` | ApplePS2Controller/ApplePS2Controller.cpp:983-991 | whatever follows the failed comparison has no influence on count, port or log |
| `PS2Requests.OnlyReadsAnswer` | ApplePS2Controller/ApplePS2Controller.cpp:913-981 | only plain read commands before the failure come back changed, and only in their byte |
| `PS2Requests.BatchOffline` | ApplePS2Controller/ApplePS2Controller.cpp:902-907 | offline every request of a queue fails with count 0 and touches nothing |
| `PS2Controller.Controller.SubmitRequest` | ApplePS2Controller/ApplePS2Controller.cpp:732-746 | a request is queued last and the work loop signalled |
| `PS2Controller.Controller.ProcessLocalQueue` | ApplePS2Controller/ApplePS2Controller.cpp:1008-1033 | requests of a drained queue run oldest first, each on the port its predecessors left |
| `PS2Controller.Controller.ProcessRequestQueue` | ApplePS2Controller/ApplePS2Controller.cpp:1008-1033 | a drain empties the queue and disposes of every request in it exactly once |
| `PS2Controller.Controller.SubmitRequestAndBlockGated` | ApplePS2Controller/ApplePS2Controller.cpp:759-786 | a synchronous request runs after everything queued before it |
| `PS2Controller.Controller.Stop` | ApplePS2Controller/ApplePS2Controller.cpp:392-436 | what is queued when the driver stops is disposed of with count 0, once, without touching the port |
| `PS2RequestQueue.RunsOnceInOrder` | ApplePS2Controller/ApplePS2Controller.cpp:732-786 | under every interleaving of submitters, work loop and synchronous callers: no request runs twice, queued ones run in lock order, a synchronous one has run once its caller left the gate, a non-empty queue has a signal pending, a submitter about to signal or a drain about to take it, and at rest every request, queued or synchronous, has run |
| `PS2RequestQueue.DrainedIsRan` | ApplePS2Controller/ApplePS2Controller.cpp:1008-1033 | the order in which queued requests ran is the order in which they were drained |
| `PS2RequestQueue.SyncRunsLast` | ApplePS2Controller/ApplePS2Controller.cpp:759-786 | when a synchronous request runs, exactly what was queued before its drain has been drained and has run |
| `PS2RequestQueue.DrainAnswersSignal` | ApplePS2Controller/ApplePS2Controller.cpp:1008-1033 | a signal is answered by one drain that runs the whole queue in order and leaves no signal behind |
| `PS2RequestQueue.StepKeepsInv` | ApplePS2Controller/ApplePS2Controller.cpp:732-1033 | each step keeps: every queued request is in exactly one of drained, local and queue |
| `PS2InterruptRace.NoByteGoesAstray` | ApplePS2Controller/ApplePS2Controller.cpp:816-844 | although the lock is dropped between status and data, no interleaving makes the loop hand a keyboard byte to the mouse driver or lose a mouse byte; keys are lost only to a full queue |
| `PS2InterruptRace.KeysAttended` | ApplePS2Controller/ApplePS2Controller.cpp:110-147 | under every interleaving, if keys are queued while the work loop is at rest, its signal is pending |
| `PS2InterruptRace.MouseAttended` | ApplePS2Controller/ApplePS2Controller.cpp:110-147 | the same for a mouse byte whose interrupt has been taken, for as long as it is in the buffer |
| `PS2InterruptRace.LockedServes` | ApplePS2Controller/ApplePS2Controller.cpp:816-844 | with the lock, the loop hands over the oldest queued key, or else the mouse byte, and looks again; with neither it rests |
| `PS2InterruptRace.StepKeepsMouse` | ApplePS2Controller/ApplePS2Controller.cpp:816-844 | the status seen stays true: nobody but the reader empties a buffer that holds a mouse byte |
| `PS2InterruptRace.StepKeepsKeys` | ApplePS2Controller/ApplePS2Controller.cpp:110-147 | keys handed over or on their way stay a subsequence of those sent, short only of refused ones |
| `PS2Power.PowerRuns` | ApplePS2Controller/ApplePS2Controller.cpp:1618-1741 | offline holds exactly in sleep and drivers hear disable, enable, ... while the hardware is online, at every point of a run, exactly if the run never leaves sleep for an invalid ordinal |
| `PS2Power.PowerStatesOnly` | ApplePS2Controller/ApplePS2Controller.cpp:1618-1741 | so for every run over the three power states |
| `PS2Controller.Controller.SetPowerStateGated` | ApplePS2Controller/ApplePS2Controller.cpp:1618-1741 | one transition: waking up does what the declared wake-up does to the port and to the multiplexing mode, any other transition touches neither, and the offline flag and the notices follow the declared step |
| `PS2Controller.Controller.ResetController` | ApplePS2Controller/ApplePS2Controller.cpp:463-503 | the reset does what is declared, and leaves nothing ready on the port |
| `PS2Controller.Controller.DetectMuxModeSupport` | ApplePS2Controller/ApplePS2Controller.cpp:505-610 | the activation sequence and the loop over the mouse ports do what is declared, set the mode and the routing prefix, and leave nothing ready on the port |
| `PS2WakeUp.MuxFoundExactly` | ApplePS2Controller/ApplePS2Controller.cpp:542-610 | on what the mouse reads bring back: the mode is on exactly if the first answer is F0, the second 56, the third not A4 and one of the four ports answers FA; the prefix is then 90 plus the number of the first such port, and no more is sent than it takes to know |
| `PS2WakeUp.ResetConverses` | ApplePS2Controller/ApplePS2Controller.cpp:479-494 | against a controller that answers at once, the reset takes two command bytes and one acknowledgement from each device, each behind its own question, and leaves nothing over |
| `PS2Controller.Controller.FlushInput` | ApplePS2Controller/ApplePS2Controller.cpp:1678-1683 | the bytes the port shows without a pause are thrown away, but a key whose interrupt can be served meanwhile is queued, as the lock is free |
| `PS2WakeUp.WakeUpWrites` | ApplePS2Controller/ApplePS2Controller.cpp:1678-1718 | whatever the devices answer, a wake-up writes the reset, then, in mux mode, some of the seven probes in their order and the command byte for mux mode if it is found, then the command byte; the routing prefix is that of the port probed last, or stays |
| `PS2WakeUp.WakeUpStores` | ApplePS2Controller/ApplePS2Controller.cpp:1705-1711 | the register of the controller ends with both interrupts and both clocks on and every other bit as in the byte read for it |
| `PS2WakeUp.StaleAnswers` | ApplePS2Controller/ApplePS2Controller.cpp:1667-1711 | where the two stored bytes come from, as a function of the queue behind the first flush, which starts with what was queued while asleep: its first byte, else what the port shows; its fourth byte if there are four, else the port, unless later interrupts left something on the queue |
| `PS2WakeUp.KeepsTheRegisterExactly` | ApplePS2Controller/ApplePS2Controller.cpp:1667-1711 | the store of the reset and the store at the end each change only their own bits of the register exactly if the byte taken, a queued key or what the port shows, agrees with the register on the others; likewise for the register from before the wake-up to its end |
| `PS2WakeUp.AnsweredWakeUp` | ApplePS2Controller/ApplePS2Controller.cpp:1667-1711 | if both questions are answered with the register before any key, only the bits of the two masks change |
| `PS2WakeUp.AskedRegister` | ApplePS2Controller/ApplePS2Controller.cpp:463-610 | what the register holds at the second question: the byte stored by the reset, or the one for multiplexing if that was found |
| `PS2WakeUp.KeysStored` | ApplePS2Controller/ApplePS2Controller.cpp:1667-1711 | a key pressed and released twice, while asleep or by interrupts before the first question: its scan code becomes the command byte, whatever the controller answers |
| `PS2WakeUp.KeyInPause` | ApplePS2Controller/ApplePS2Controller.cpp:1667-1711 | with nothing queued while asleep, one key whose interrupt is served in the pause: its scan code is stored although the port shows the register |
| `PS2WakeUp.SleepersDelivered` | ApplePS2Controller/ApplePS2Controller.cpp:805-844 | no queued key is tossed: behind the four bytes taken for answers, what was queued while asleep or before the first question is handed to the driver at the next interrupt |
| `PS2Writes.RunWrites` | ApplePS2Controller/ApplePS2Controller.cpp:911-984 | the bytes a request writes depend only on its program and where it stopped |
| `PS2AckTransparency.AckFound` | ApplePS2Controller/ApplePS2Controller.cpp:1135-1337 | an acknowledgement behind at most three typed bytes is found, those bytes go to the driver, and they and the acknowledgement are all that is gone from the stream |
| `PS2AckTransparency.AckTooLate` | ApplePS2Controller/ApplePS2Controller.cpp:1314-1323 | behind four it is not: the second and third typed byte are gone |
| `PS2AckTransparency.LedRun` | ApplePS2Keyboard/ApplePS2Keyboard.cpp:3623-3645 | the lights request ends with count 1, 3 or 4 according to which acknowledgement is missing |
| `PS2AckTransparency.TypingThroughLeds` | ApplePS2Controller/ApplePS2Controller.cpp:1135-1337 | a lights request in the middle of typing of any length succeeds, the driver is handed exactly the bytes typed before the second acknowledgement, and all later typing is still to come exactly if the full queue refused none of it |
| `PS2Typing.TypingThroughAll` | ApplePS2Keyboard/ApplePS2Keyboard.cpp:3623-3645 | any number of lights requests in the middle of typing, each acknowledgement behind at most three typed bytes and within the budget: all succeed, and the driver is handed exactly what was typed before the last acknowledgement |
| `PS2Typing.KeysThroughLeds` | ApplePS2Keyboard/ApplePS2Keyboard.cpp:1402-1470 | those requests and all interrupts served after them, with room on the queue: what the driver has been handed decodes to the keys of the typing, which are those of the raw stream with the acknowledgements in it |
| `PS2Typing.KeysThroughRuns` | ApplePS2Keyboard/ApplePS2Keyboard.cpp:1402-1470 | any run of interrupts and lights requests in any order, each request submitted when its acknowledgements are near and in time: all are answered, what was handed over and what is to come are the stream with every byte but acknowledgements in its place, and the driver decodes the keys of the raw stream |
| `PS2AckTransparency.LedsAreTame` | ApplePS2Keyboard/ApplePS2Keyboard.cpp:3623-3645 | the lights request reads the keyboard stream only |
| `PS2AckTransparency.LedsKeepOrder` | ApplePS2Keyboard/ApplePS2Keyboard.cpp:3623-3645 | any number of lights requests and interrupts, whatever is acknowledged, hand the keys over in order |
| `PS2ScanCodes.FrameDecodes` | ApplePS2Keyboard/ApplePS2Keyboard.cpp:1441-1495 | a frame, that is a key code and whether it goes down, the high bit saying up, alone or behind its prefix, decodes to that code and direction exactly when its byte is none of E0, E1, FA and FE (the dropped pause byte may be E0) |
| `PS2ScanCodes.RoundTrip` | ApplePS2Keyboard/ApplePS2Keyboard.cpp:1402-1495 | any list of such frames parses to exactly its codes and directions in order and leaves the parser at rest |
| `PS2ScanCodes.Resynchronises` | ApplePS2Keyboard/ApplePS2Keyboard.cpp:1441-1478 | a prefixed frame brings the parser back in step from any state |
| `PS2ScanCodes.RepliesAreSilent` | ApplePS2Keyboard/ApplePS2Keyboard.cpp:1415-1422 | acknowledge and resend bytes anywhere, even inside a frame, change nothing |
| `PS2Keyboard.Keyboard.InterruptOccurred` | ApplePS2Keyboard/ApplePS2Keyboard.cpp:1402-1424 | a byte is ignored while the keyboard is disabled, and otherwise heard as the decoder says |
| `PS2Keyboard.Keyboard.DispatchKeyboardEventWithScancode` | ApplePS2Keyboard/ApplePS2Keyboard.cpp:1426-1495 | prefix bytes set the count, dropped bytes lower it, any other byte yields one raw key |
| `PS2CommandByte.StepMeans` | ApplePS2Keyboard/ApplePS2Keyboard.cpp:3697-3728 | run on the controller's answers, the first request of the loop reads the register and the second stores the new value exactly if the register is unchanged |
| `PS2CommandByte.Linearizable` | ApplePS2Keyboard/ApplePS2Keyboard.cpp:3683-3734 | under every interleaving of requests of any number of drivers, and with keys typed in between that are not taken for an answer, the register is the fold of the finished updates, each applied once to the value then current, and no driver retries more often than there are others |
| `PS2CommandByte.StepKeepsInv` | ApplePS2SmartTouchPad/PS2Interface.cpp:212-265 | each retry is paid for by an update that took effect since the driver read |
| `PS2CommandByte.BitsSurvive` | ApplePS2SmartTouchPad/PS2Interface.cpp:212-265 | bits a finished update set or cleared stay so as long as no other driver's mask touches them |
| `PS2SetCommandByte.SetCommandByte` | ApplePS2Keyboard/ApplePS2Keyboard.cpp:3683-3734 | the loop against the controller, online: it ends, everything queued has run first, and the port is left as the declared update says |
| `PS2SetCommandByte.FailureShrinks` | ApplePS2Keyboard/ApplePS2Keyboard.cpp:3720-3731 | a turn that fails has used up a byte that arrived, so the loop ends on any finite input |
| `PS2SetCommandByte.UpdateWrites` | ApplePS2Keyboard/ApplePS2Keyboard.cpp:3697-3731 | whatever the devices answer, a call asks twice a turn and stores exactly once, at its end |
| `PS2SetCommandByte.UpdateSets` | ApplePS2Keyboard/ApplePS2Keyboard.cpp:3707-3718 | afterwards every bit is as asked for, clearing winning over setting |
| `PS2SetCommandByte.SilenceClears` | ApplePS2Controller/ApplePS2Controller.cpp:1209-1212 | with no keyboard byte in sight both reads make up a 0 and agree on it, so the update succeeds and clears every bit not asked for |
| `PS2CommandByteEcho.TurnSees` | ApplePS2Keyboard/ApplePS2Keyboard.cpp:3696-3731 | one turn, whatever arrives: it takes the first byte of its read, or 0, for the register, and succeeds exactly if that byte is among the first four of the comparison, or nothing arrives and it is 0 |
| `PS2CommandByteEcho.UpdateEchoes` | ApplePS2Keyboard/ApplePS2Keyboard.cpp:3683-3734 | a whole call on the keyboard bytes that arrive: five at a time, the first that comes again within its five is taken for the register, and 0 if they run out |
| `PS2CommandByteEcho.UpdateSettles` | ApplePS2Keyboard/ApplePS2Keyboard.cpp:3696-3731 | a whole call, whatever arrives and when: it takes the byte of the first turn whose comparison finds it, a function of the port alone |
| `PS2CommandByteEcho.TouchesOnlyItsBits` | ApplePS2Keyboard/ApplePS2Keyboard.cpp:3683-3718 | a register ends with the given bits changed and all others as they were exactly if that byte agrees with it on those others; on bytes that arrive promptly it is the echo |
| `PS2CommandByteEcho.AnsweredEcho` | ApplePS2Keyboard/ApplePS2Keyboard.cpp:3683-3718 | with both questions answered by the register before anything typed, that byte is the register |
| `PS2CommandByteEcho.KeyTakenForRegister` | ApplePS2Keyboard/ApplePS2Keyboard.cpp:3683-3718 | a key pressed and repeated before the answers: its scan code becomes the command byte |
| `PS2SharedCommandByte.EachStoresItsEcho` | ApplePS2Keyboard/ApplePS2Keyboard.cpp:3683-3734 | several drivers, any interleaving, any arrivals: the register changes only in a turn whose comparison finds its byte, to that byte with the bits of the driver changed, and the byte is the first that arrived at that driver's last read |
| `PS2SharedCommandByte.FoldsExactly` | ApplePS2SmartTouchPad/PS2Interface.cpp:212-265 | the register is at every point the fold of the finished updates, each applied once, exactly if every byte stored was made from one that agrees with the register outside the mask of its driver |
| `PS2KeyVector.KeyVector.KeyDown` | ApplePS2Keyboard/ApplePS2Keyboard.h:48-49 | the set of codes that are down gains the code and nothing else changes |
| `PS2KeyVector.KeyVector.KeyUp` | ApplePS2Keyboard/ApplePS2Keyboard.h:51-52 | the set loses the code and nothing else changes |
| `PS2KeyVector.KeyVector.Clear` | ApplePS2Keyboard/ApplePS2Keyboard.cpp:4051 | all codes are up |
| `PS2KeyVector.Separate` | ApplePS2Keyboard/ApplePS2Keyboard.h:48-55 | two codes with the same word and the same bit are the same code |
| `PS2AutoRepeat.DownIsHeld` | ApplePS2Keyboard/ApplePS2Keyboard.cpp:1904-1947 | over any run a code is in the vector exactly if it was pressed and neither released nor reset since |
| `PS2AutoRepeat.AcceptedExactly` | ApplePS2Keyboard/ApplePS2Keyboard.cpp:1904-1947 | which events are accepted, said on the run alone: a press of a key held since is accepted for the four brightness and volume codes only, without control, command, or alternate unless with shift |
| `PS2AutoRepeat.NoRepeats` | ApplePS2Keyboard/ApplePS2Keyboard.cpp:1913-1940 | two accepted presses of a code have a release or reset between them unless it is one of the four brightness and volume codes |
| `PS2Keyboard.Keyboard.AcceptKey` | ApplePS2Keyboard/ApplePS2Keyboard.cpp:1894-1947 | the filter on the bit vector accepts and records exactly as defined on sets of codes |
| `PS2Modifiers.RunTells` | ApplePS2Keyboard/ApplePS2Keyboard.cpp:2373-2440 | over any run feature on and off, command down and up, control down and up each take turns, on or down first; alternate is switched on at most once and never off; the flags follow the state byte |
| `PS2Modifiers.OneNotice` | ApplePS2Keyboard/ApplePS2Keyboard.cpp:2373-2440 | one event changes at most one mark and sends the one notice that says so |
| `PS2Modifiers.Settles` | ApplePS2Keyboard/ApplePS2Keyboard.cpp:2373-2440 | with the same keys down the touchpad is brought up one notice at a time: the feature is right after one event, the alternate function after two, command after three, control after four, and then nothing more is sent |
| `PS2Modifiers.AlternateSince` | ApplePS2Keyboard/ApplePS2Keyboard.cpp:2373-2440 | the alternate function is on exactly if at some event command and alternate were down and the feature needed no notice |
| `PS2Keyboard.Keyboard.NotifyModifiers` | ApplePS2Keyboard/ApplePS2Keyboard.cpp:2373-2440 | the chain of tests on the state byte and the bit vector is that step |
| `PS2Leds.OwnBitOnly` | ApplePS2Keyboard/ApplePS2Keyboard.cpp:3589-3619 | a feedback call changes its own light and no other bit |
| `PS2Leds.TakenOverExactly` | ApplePS2Keyboard/ApplePS2Keyboard.cpp:3623-3645 | the keyboard takes a lights request over exactly if its first acknowledgement is found |
| `PS2Leds.LightsAtRest` | ApplePS2Keyboard/ApplePS2Keyboard.cpp:3589-3645 | over any run of feedback calls, requests of other drivers, interrupts and drains that run request by request, whenever nothing is queued or about to run the lights of the keyboard equal the state of the driver, that is, what the last calls said |
| `PS2Leds.RunAgrees` | ApplePS2Keyboard/ApplePS2Keyboard.cpp:3589-3645 | at every point of such a run, a drain under way included, the rest of the drain and the queue, once run, would make the lights agree |
| `PS2Leds.MouseProgramsAreQuiet` | ApplePS2Controller/ApplePS2Controller.cpp:962-976 | commands to the mouse never reach the keyboard's lights, wherever they break off |
| `PS2Leds.CommandByteQuiet` | ApplePS2Keyboard/ApplePS2Keyboard.cpp:3697-3718 | nor does either request of an update of the command byte |
| `PS2Keyboard.Keyboard.SetAlphaLockFeedback` | ApplePS2Keyboard/ApplePS2Keyboard.cpp:3589-3601 | the caps-lock bit is changed and one lights request for the new state is queued |
| `PS2Keyboard.Keyboard.SetNumLockFeedback` | ApplePS2Keyboard/ApplePS2Keyboard.cpp:3605-3619 | the same for num lock, and nothing at all without that light |
| `PS2Keyboard.Keyboard.EnableDevice` | ApplePS2Keyboard/ApplePS2Keyboard.cpp:4041-4084 | waking up releases no key, runs what was queued and the lights before the command byte, leaves only the enable request queued, and, whatever arrives, a register with the keyboard interrupt and the translation on and the keyboard clock not switched off |
| `PS2Keyboard.RestoredRegister` | ApplePS2Keyboard/ApplePS2Keyboard.cpp:4072-4073 | the same of the register, for any queue and any arrivals |
| `PS2Restored.LightsRestored` | ApplePS2Keyboard/ApplePS2Keyboard.cpp:4065 | the lights follow the state of the driver exactly if FA is among the first four keyboard bytes behind what was queued; else they stay as they were |
| `PS2Keyboard.Keyboard.ReleaseKeys` | ApplePS2Keyboard/ApplePS2Keyboard.cpp:4054-4059 | the release loop releases exactly the codes that are down |
| `PS2Keyboard.Keyboard.FallAsleep` | ApplePS2Controller/ApplePS2Controller.cpp:1626-1645 | whatever requests the other driver blocks on when told: with none, the keyboard's disable request and everything queued before it are disposed of unsent, because the queue next runs offline; with one or more, all of it runs first, in order, while the hardware is as it was |
| `PS2Keyboard.EnableIsSent` | ApplePS2Controller/ApplePS2Controller.cpp:1745-1754 | in the list that runs then, the byte that disables the keyboard goes out right behind what the requests before it write |
| `PS2Keyboard.Keyboard.WakeUp` | ApplePS2Controller/ApplePS2Controller.cpp:1654-1741 | the transition and both handlers together: the keyboard is told online, what was queued and the lights come behind everything the wake-up writes and before the command byte; the enable request stays queued, alone, exactly until the other driver blocks on a request, and then runs before that |
| `PS2KeyCombination.ProcessKeyCombinations` | ApplePS2Keyboard/ApplePS2Keyboard.cpp:1183-1270 | the character loop with its reused buffer dispatches exactly the first three recognised tokens, with shift lifted before or pressed after; tokens behind the third are of any length |
| `PS2KeyCombination.SentInOrder` | ApplePS2Keyboard/ApplePS2Keyboard.cpp:1192-1270 | what a call dispatches, event by event: shift up first or down last, and in between the first three recognised tokens, one event each, in the order of the string |
| `PS2KeyCombination.HeldWhenPressed` | ApplePS2Keyboard/ApplePS2Keyboard.cpp:1240-1247 | in a press, a token named before another is down when the other goes down |
| `PS2KeyCombination.NamedKeys` | ApplePS2Keyboard/ApplePS2Keyboard.cpp:1209-1234 | a token of two characters or more is the key whose name it starts |
| `PS2KeyCombination.CharactersAgree` | ApplePS2Keyboard/ApplePS2ToADBMap.h:35-86 | a character is the key with its legend in the map of scan codes, and no other character is known |
| `PS2KeyCombination.SplitJoins` | ApplePS2Keyboard/ApplePS2Keyboard.cpp:1200-1263 | the tokens are what stands between the spaces: joined by spaces they give the string back |
| `PS2KeyCombination.PressAndRelease` | ApplePS2Keyboard/ApplePS2Keyboard.cpp:1193-1270 | a call down and a call up release every key pressed and press shift again outside gestures; exactly when nothing else has changed |
| `PS2KeyCombination.CommandTokens` | ApplePS2Keyboard/ApplePS2Keyboard.cpp:1209-1234 | the command key is pressed for CMD, for CM and for an empty token, and for no other |
| `PS2KeyCombination.EmptyTokens` | ApplePS2Keyboard/ApplePS2Keyboard.cpp:1203-1211 | there is an empty token exactly if the string is empty, starts or ends with a space or has two in a row |
| `PS2SlicedCommand.SendSlicedPS2Cmd` | ApplePS2SmartTouchPad/PS2Interface.cpp:172-204 | the digit loop builds the nine-byte request, runs it after everything queued, and reports success exactly if all nine were acknowledged |
| `PS2SlicedCommand.SendWrites` | ApplePS2Controller/ApplePS2Controller.cpp:962-983 | each byte sent goes out behind the routing prefix; if number j is not acknowledged, exactly the first j + 1 were sent |
| `PS2SlicedCommand.Understands` | ApplePS2SmartTouchPad/PS2Interface.cpp:163-168 | a touchpad that hears the nine bytes decodes 64rr+16ss+4tt+uu to the command |
| `PS2SlicedCommand.CommandsArrive` | ApplePS2SmartTouchPad/PS2Interface.cpp:172-204 | a sequence of acknowledged commands, in mux or plain mode, arrives as that sequence |
| `PS2SlicedCommand.AfterFailure` | ApplePS2SmartTouchPad/PS2Interface.cpp:172-204 | after a command that broke off at byte j the next one is understood, and alone, exactly for j in 0, 2, 4, 6 |
| `PS2SlicedCommand.InformationRun` | ApplePS2SmartTouchPad/PS2Interface.cpp:273-323 | the three answer bytes are the next plain reads of the mouse stream, and none is read if the question was not acknowledged |
| `PS2MouseAnswers.PlainMouseRead` | ApplePS2Controller/ApplePS2Controller.cpp:1056-1119 | a plain read of the mouse returns its next byte exactly if fewer than 10000 polls show nothing before it, whatever the keyboard sends meanwhile; if not, 0 |
| `PS2MouseAnswers.MouseAckFound` | ApplePS2Controller/ApplePS2Controller.cpp:1135-1337 | an acknowledgement of the mouse behind at most three of its bytes and within the budget is found, and those bytes go to the mouse driver in order |
| `PS2MouseAnswers.MouseCommandAnswers` | ApplePS2Controller/ApplePS2Controller.cpp:913-944 | a read of the mouse in a request brings back the next mouse byte if that is in time, and 0 if not |
| `PS2MouseAnswers.Acknowledged` | ApplePS2SmartTouchPad/PS2Interface.cpp:172-204 | bytes sent to a touchpad that acknowledges each in time, in the middle of its packets and of typing: the request runs to its end and every packet byte reaches the driver in order |
| `PS2MouseAnswers.AcknowledgedCommand` | ApplePS2SmartTouchPad/PS2Interface.cpp:172-204 | so a sliced command is understood |
| `PS2MouseAnswers.InformationAnswered` | ApplePS2SmartTouchPad/PS2Interface.cpp:273-323 | the question for the status, answered in time, brings back the three bytes behind the acknowledgement |
| `PS2SlicedCommand.GetMouseInformation` | ApplePS2SmartTouchPad/PS2Interface.cpp:273-323 | the answer is handed on exactly if all four commands succeeded |

## Left out

- IOKit plumbing (matching, attaching, retain and release, thread calls, the nubs): thin forwarding. The lock, the command
  gate and the interrupt event source appear as atomic steps and pending flags.
- Port access and delays: the scripted port stands for `inb`, `outb` and the waits around them; a script has an end, after
  which no poll shows data.
- Blocking inside an interrupt routine: forbidden to drivers by `ApplePS2Controller/ApplePS2Device.h:294-296` and assumed
  never to happen in `PS2RequestQueue`.
- Interrupt and power handlers are taken to be installed; a byte for an absent driver is dropped by the code.
- The handlers of `dispatchDriverPowerControl`: in the controller class a call is only recorded; the keyboard's own handlers
  are methods of `PS2Keyboard.Keyboard`, and `FallAsleep` and `WakeUp` put the two together, with the requests on which
  the other driver then blocks as a parameter; asynchronous requests of that driver are not among them.
- The bytes that a wake-up reads and discards: outside the conservation runs; `PS2WakeUp` says what becomes of queued ones.
- PS2Controller.Controller.FetchByte: one method for the turn that the two read loops each spell out, with the held bytes
  of the second loop as a sequence instead of three variables.
- PS2Controller.Controller.ProcessRequest: completion routines are counted, not run.
- PS2Overtaking.OvertakesExactly: assumes that no two keys of the stream are the same byte, since equal bytes that change
  places cannot be told apart; for any stream `PS2MouseOrder.MouseReadKeepsOrder` is the condition.
- PS2CommandByteEcho.UpdateEchoes: assumes that five bytes in a row, or all that are left, come within one idle budget, and
  that the full queue refuses none (`RoomySuffices` gives a condition for that); `TurnSees` and `UpdateSettles` assume nothing.
- PS2KeyCombination.ProcessKeyCombinations: requires that no token up to the third recognised one has more than four
  characters, which the five-byte buffer of the source requires too; the null string, for which the source returns at once,
  is not modelled.
- PS2Keyboard.Keyboard.DispatchKeyboardEventWithScancode: ends at the raw key; the translation tables, Fn layouts and
  special keys between it and `AcceptKey` are configuration and foreign calls.
- PS2Keyboard.Keyboard.EnableDevice: requires the hardware to be online, as `PS2Keyboard.Keyboard.WakeUp` finds it after the
  transition; offline the command-byte loop would not end.
- PS2CommandByte.Linearizable: assumes that the controller answers a question with its register before anything typed, and
  within four bytes, none of them a typed copy of the expected one, when the answer is compared; what happens otherwise is
  in `PS2CommandByteEcho` for one caller and in `PS2SharedCommandByte` for several.
- PS2Leds.LightsAtRest: excludes power changes, and assumes that the keyboard answers each set-LEDs byte and that other
  requests do not address the lights.
- The debugger escape (`doEscape`): its flag is never set here.
- Double frees on the failure paths of `sendSlicedPS2Cmd` and `sendElantechCmd`, and the reuse after free in
  `sendElactechPS2Cmd`: who frees a request is not modelled for these callers.
- Touchpad packets, gestures, backlight, ACPI, brightness and logging.
