# Raspberry Pi drivers: models and proofs

A Dafny model of the parts of the repository that carry state and arithmetic over long runs, with
proofs about every run, every interleaving or every input.

| files | what they model |
|---|---|
| `KeyCode`, `EdgeTimer`, `InfraredDecoder`, `InfraredReceiver` | the inline infrared driver: time stamps of falling edges, gaps, bits, the key byte, the digit; the interrupt handler in place over its arrays |
| `InfraredStream` | messages of the NEC infrared protocol as edge streams; the round trip and what happens to a message met in any state |
| `DeferredDecoder`, `DeferredReceiver`, `InfraredDelivery` | the two drivers that decode in a kernel thread: interleavings, exact deadlines for refining the inline driver, signals; the handler and the thread in place |
| `DeferredDigits`, `DeferredHandshake`, `DeferredProgress`, `DeferredRaces` | the same drivers: the deadlines for the digits alone, the flag handshake counted, the steps that clear the flag, and what is printed when a deadline is missed |
| `JobQueue`, `JobRun`, `JobRunner`, `JobCrash` | the analyzer scripts' persistent job queue: scan, batches, driving loops, kills and restarts |
| `LoopPwm` | software PWM with three counters |
| `TimerPwm` | PWM by high-resolution timers, one channel and two |
| `WaitQueue`, `Debounce`, `EchoRanging` | the wait-queue thread, the debounced button, ultrasonic ranging |
| `IntMath`, `MachineWords`, `Sequences` | integer facts, word sizes and sequence facts shared by the others |

Each component has a machine on values (`Step`, `Act`, `Tick`, `Round`, ...), a class that updates the
source's own globals and arrays in place and whose methods are proved equal to that machine (one call
to one step, or a whole loop to the machine's run), and lemmas about the machine's runs. Interrupts,
callbacks and thread steps are the events of a schedule; every theorem about a schedule holds for all
of them. An interrupt may come between any two steps: between two array reads of the decoding thread,
between its print and its signal, and between the two statements that step a duty. What a driver
prints or signals is appended to a sequence in its state. Integer widths are written out: `u64`
differences wrap, `jiffies` and `read_count` are 32 bits wide, the distance product wraps at 32 bits.
`char` is taken as unsigned, as on the ARM targets of the drivers; the labels of the key switch (191
to 244) presuppose it.

Findings that the proofs pin down, each with its exact condition:

- A frame is decoded exactly when its first edge can be placed (`MessageSynchronisesIff`). With `counter`
  at 33, which noise can reach (`LockIsReachable`), frames spaced by 14 ms or more are never decoded
  again: each prints a digit of the previous frame's bits, one place off, until a repeat code comes
  (`SpacedStreamLocked`).
- The deferred drivers stay on the way to the inline driver's state all through a schedule if and only
  if every edge meets its deadline (`RefinesThroughoutIff`, `EdgeRefinesIff`): it completes no frame
  while the flag is raised, repeats no digit other than the one due, and overwrites no key gap still to
  be read with one that means another bit. Each part of the deadline can be missed on a run from load: for
  any two keys a digit is lost (`OverrunLosesADigit`), for any key but 0 the old digit is shown in place
  of the new one (`EarlyRepeatShowsOldDigit`), and for any two keys the second is printed in place of
  the first (`LateThreadPrintsNextKey`). A thread that gets its 38 steps before the edge that overwrites
  gap 16, and before any repeat, meets them all (`PacedPrintsSameDigits`).
- An overwritten key bit need not show: when every frame completed has its key gaps in the bit windows,
  the digits printed and due are the inline driver's throughout if and only if every edge leaves the
  digit due as it is, repeats no other and completes no frame too early (`SameDigitsThroughoutIff`).
- The number of digits alone is right exactly when no frame is completed while the flag is raised
  (`NoDigitMissingIff`).
- The LED's and the servo's duty stand at their limit for a moment, between the increment and the
  comparison: a callback just then asks for no off time of the LED at all, which then is off for just as
  long as that callback runs late, and one nanosecond (`LedOffTime`, `VoidIsReachable`); and it asks for a
  servo pulse of 2304 us (`ServoPulse`).
- The analyzer's loop does not end for a batch size below 1 with files pending; the SVG script's does
  (`EndsIff`). After a short last batch the analyzer's closing status line counts files as pending that
  are not (`ProcessDirectory`).
- The wait-queue thread hears the request to exit exactly when it does not come between the thread's
  look at the flag and its reset of it, and the thread's next look comes before any further read of the
  device (`ExitHeardIff`). The kernel, which keeps the module while the device is open and refuses to open
  it during removal, rules out such a read, but not the first case.
- A button press a whole turn of `jiffies` after the last one is dropped (`DroppedAfterWrap`).
- The comments at driver/Remote_controller/gpio_interrupt.c:127 and 434 speak of a rising edge; the
  handler is installed for falling edges, and the model follows the code.

## Model

| member | source | states |
|---|---|---|
| KeyCode.ConvertBinaryToHex | driver/Remote_controller/gpio_interrupt.c:112-124 | the loop yields the unsigned character code of the number that bits 16..23 denote, most significant first |
| KeyCode.ByteValue | driver/Remote_controller/gpio_interrupt.c:112-117 | eight bits are packed with the weights 128, 64, ..., 1, the first bit first |
| KeyCode.ValueOfBitString | driver/Remote_controller/gpio_interrupt.c:112-117 | packing undoes writing a byte in binary |
| KeyCode.BitStringOfValue | driver/Remote_controller/gpio_interrupt.c:112-117 | and writing in binary undoes packing, for every string of bits |
| KeyCode.HexadecimalCode | driver/Remote_controller/gpio_interrupt.c:119-123 | numbers below 16 become their hexadecimal digit, larger ones go on from there modulo 256 |
| KeyCode.CharCodeCollisions | driver/Remote_controller/gpio_interrupt.c:119-123 | two bytes share a character code exactly when they are a <= 6 and a + 249 |
| KeyCode.SwitchIsTableLookup | driver/Remote_controller/gpio_interrupt.c:209-243 | for every byte the switch on its character code is a search in the table of key bytes, with the previous output when it is absent |
| KeyCode.DigitExactlyWhenKey | driver/Remote_controller/gpio_interrupt.c:209-243 | a byte selects digit d whatever was shown before if and only if it is d's key |
| KeyCode.DigitOfKey | driver/Remote_controller/gpio_interrupt.c:209-243 | the key byte of a digit, sent as bits, decodes to the digit |
| EdgeTimer.CaptureKeepsOrder | driver/Remote_controller/gpio_interrupt.c:133-160 | every edge keeps the stamps up to the position in order, late leaders included, and the u64 subtraction does not wrap |
| EdgeTimer.ElapsedWraps | driver/Remote_controller/gpio_interrupt.c:138-139 | for any two 64-bit stamps the gap is their unsigned 64-bit difference in whole microseconds |
| EdgeTimer.EdgeInNanoseconds | driver/Remote_controller/gpio_interrupt.c:133-160 | in real nanoseconds since the last stored edge: 13001000 to 13999999 opens a frame at position 2, 11001000 to 11999999 is a repeat and goes back to position 0, any other gap counts on to position 34, where the frame is complete; and what is stored |
| InfraredDecoder.RunKeepsInvariant | driver/Remote_controller/gpio_interrupt.c:128-255 | on every run with a monotone clock: position 0..33, stamps in order, bits 0 or 1, output a decimal digit |
| InfraredDecoder.EveryRunFromLoad | driver/Remote_controller/gpio_interrupt.c:106-125 | the same from the initial globals |
| InfraredDecoder.PrintedDigits | driver/Remote_controller/gpio_interrupt.c:147-154 | what is printed is never taken back and is always a decimal digit |
| InfraredDecoder.StepInNanoseconds | driver/Remote_controller/gpio_interrupt.c:128-255 | in the same nanoseconds, for every reachable state: what an edge prints and shows, and which of the 32 bits it sets (0 for 1001 to 1499 us, 1 for 2001 to 2499 us, unchanged otherwise) |
| InfraredReceiver.RecordEdge | driver/Remote_controller/gpio_interrupt.c:133-160 | the front half of the handler, in place over the two arrays: next position, stored stamps and gaps, and what the edge means |
| InfraredReceiver.ClassifyStoredGaps | driver/Remote_controller/gpio_interrupt.c:182-188 | the loop sets the bits whose gap lies in a bit window and leaves the others |
| InfraredReceiver.InlineReceiver.constructor | driver/Remote_controller/gpio_interrupt.c:106-125 | the globals start at zero |
| InfraredReceiver.InlineReceiver.GpioIrqHandler | driver/Remote_controller/gpio_interrupt.c:128-255 | one interrupt takes the whole state of the driver, arrays included, to the decoder's next state |
| InfraredStream.QuietRun | driver/Remote_controller/gpio_interrupt.c:136-157 | any number of gaps outside the leader and repeat windows only fills the gap array, slot by slot |
| InfraredStream.LeaderOpens | driver/Remote_controller/gpio_interrupt.c:140-146 | a leader in any slot opens a frame: the stale stamp in slot 1 can start nothing and repeat nothing |
| InfraredStream.MessageInStep | driver/Remote_controller/gpio_interrupt.c:128-255 | from every reachable state a clean frame or repeat whose first edge can be placed prints exactly its digit and ends at position 0 |
| InfraredStream.FrameOutOfStep | driver/Remote_controller/gpio_interrupt.c:128-255 | exactly what is printed and where the decoder ends when the first edge of a frame cannot be placed |
| InfraredStream.RepeatOutOfStep | driver/Remote_controller/gpio_interrupt.c:147-154 | the same for a repeat code |
| InfraredStream.MessageSynchronisesIff | driver/Remote_controller/gpio_interrupt.c:136-160 | a clean message leaves the decoder at position 0 if and only if the condition on its first edge holds |
| InfraredStream.StreamRoundTrip | driver/Remote_controller/gpio_interrupt.c:128-255 | a clean stream of frames and repeats with arbitrary pauses prints one digit per message, the fold of their meanings |
| InfraredStream.DigitsRoundTrip | driver/Remote_controller/gpio_interrupt.c:203-244 | keys pressed and held are the digits printed, from every state at position 0 |
| InfraredStream.CleanIff | driver/Remote_controller/gpio_interrupt.c:140-154 | what a clean message is, to the nanosecond: leader 13001000 to 13999999, bit 0 1001000 to 1499999, bit 1 2001000 to 2499999, repeat mark 11001000 to 11999999 |
| InfraredStream.RoundTripInNanoseconds | driver/Remote_controller/gpio_interrupt.c:128-255 | the round trip from load on gaps in these windows: keys pressed and held are the digits printed, and the decoder ends at position 0 |
| InfraredStream.SpacedStreamInStep | driver/Remote_controller/gpio_interrupt.c:136-160 | from every reachable state but position 33, after any noise, a stream with pauses of 14 ms decodes as from the start |
| InfraredStream.SpacedStreamLocked | driver/Remote_controller/gpio_interrupt.c:136-160 | from position 33 such a stream prints misaligned digits one message late, and is there again at the end if and only if it holds no repeat |
| InfraredStream.LockIsReachable | driver/Remote_controller/gpio_interrupt.c:157-160 | position 33 is reachable from load |
| DeferredDecoder.FlagDisciplineKept | driver/remote_controller_wait_queue/remote_controller_wait_queue.c:214-229 | on every interleaving the flag is 0 or 1 and raised while the thread is out of its wait, and the thread never stops |
| DeferredDecoder.EdgeRefinesIff | driver/remote_controller_signal/remote_controller_signal.c:281-314 | an interrupt keeps the deferred state on its way to the inline state if and only if it meets its deadline: no frame completed over a raised flag, no repeat of a digit other than the one due, no unread key gap overwritten with another bit |
| DeferredDecoder.RefinesThroughoutIff | driver/remote_controller_signal/remote_controller_signal.c:128-314 | the refinement holds at every moment of a schedule if and only if every edge of it meets its deadline |
| DeferredDecoder.WorkRefines | driver/remote_controller_signal/remote_controller_signal.c:128-252 | so does every step of the thread, down to single array reads |
| DeferredDecoder.DeferredRefinesInline | driver/remote_controller_signal/remote_controller_signal.c:128-314 | so it holds at the end of every interleaving whose edges meet their deadlines |
| DeferredDecoder.SameDigitsFromLoad | driver/remote_controller_wait_queue/remote_controller_wait_queue.c:119-296 | from load, the digits printed are those of the inline driver on the same edges, up to the one in hand, and all of them once the flag is clear |
| DeferredDecoder.TimelyIsHarmless | driver/remote_controller_signal/remote_controller_signal.c:281-314 | the deadline that looks at no digit (no key gap overwritten unread, no repeat while a digit is undecided, no completion over a raised flag) is enough |
| DeferredDecoder.ClearedInTimeIsTimely | driver/remote_controller_signal/remote_controller_signal.c:240-250 | clearing the flag before the edge that overwrites gap 16, with no repeat before that, is enough for that one |
| DeferredDecoder.SignalsFollowLog | driver/remote_controller_signal/remote_controller_signal.c:211-236 | after registration, on every interleaving and at every moment, the signals sent are exactly the digits printed, in order, but for one digit that the thread has printed and is about to send |
| DeferredDecoder.SignalsAfterRegister | driver/remote_controller_signal/remote_controller_signal.c:230-235 | whatever happened before, from the moment a process registers it stays registered and is sent every digit printed from then on, in order |
| DeferredDecoder.SignalsFromLoad | driver/remote_controller_signal/remote_controller_signal.c:438-446 | from load, that is all it is sent |
| DeferredDecoder.NoSignalBeforeRegister | driver/remote_controller_signal/remote_controller_signal.c:230-235 | without a registered process nothing is sent |
| DeferredDigits.EdgeKeepsDigitsIff | driver/remote_controller_signal/remote_controller_signal.c:281-314 | when the frame it may complete has clear key gaps, an interrupt keeps the digits printed and due equal to the inline driver's if and only if it completes no frame over a raised flag, repeats no digit other than the one due, and leaves the digit due as it is |
| DeferredDigits.SameDigitsThroughoutIff | driver/remote_controller_signal/remote_controller_signal.c:128-314 | so they are equal at every moment of a schedule if and only if every edge of it is of that kind |
| DeferredDigits.SameDigitsWhenKept | driver/remote_controller_wait_queue/remote_controller_wait_queue.c:119-296 | from load, the digits printed are then the inline driver's, up to the one in hand |
| DeferredDigits.HarmlessKeepsDigits | driver/remote_controller_signal/remote_controller_signal.c:281-314 | the deadline on key bits implies the one on digits |
| DeferredDigits.DigitsNeedLess | driver/remote_controller_signal/remote_controller_signal.c:128-219 | but not the other way round: an edge that turns one byte of no key into another |
| DeferredHandshake.HandshakeConserved | driver/remote_controller_wait_queue/remote_controller_wait_queue.c:214-296 | with no timing assumption: completed frames = decodings + frames still owed + completions that found the flag raised |
| DeferredHandshake.DigitsBehind | driver/remote_controller_wait_queue/remote_controller_wait_queue.c:214-296 | how many digits the deferred driver is behind the inline one, at every moment of every interleaving |
| DeferredHandshake.NoDigitMissingIff | driver/remote_controller_wait_queue/remote_controller_wait_queue.c:214-296 | with the flag clear, the number of digits printed is the inline driver's if and only if no completion found the flag raised; about their number only |
| DeferredProgress.TurnCompletes | driver/remote_controller_wait_queue/remote_controller_wait_queue.c:217-227 | 38 undisturbed steps of the thread are one whole decoding turn, and any further ones change nothing |
| DeferredProgress.StopRequested | driver/remote_controller_wait_queue/remote_controller_wait_queue.c:219-223 | a flag of 2 makes the waiting thread return, for good |
| DeferredProgress.FlagClears | driver/remote_controller_wait_queue/remote_controller_wait_queue.c:217-227 | on every interleaving a raised flag is cleared by exactly the step of the thread that completes its turn, and stays raised until then |
| DeferredProgress.PacedIffClearedInTime | driver/remote_controller_wait_queue/remote_controller_wait_queue.c:217-296 | counting the thread's steps between the edges decides whether the flag is cleared in time |
| DeferredProgress.PacedPrintsSameDigits | driver/remote_controller_wait_queue/remote_controller_wait_queue.c:119-296 | a thread that gets its steps in that time prints, from load, the inline driver's digits |
| DeferredRaces.OverrunLosesADigit | driver/remote_controller_wait_queue/remote_controller_wait_queue.c:292-296 | for any two keys, a run from load in which the thread gets its turn after both: one digit is printed instead of two |
| DeferredRaces.EarlyRepeatShowsOldDigit | driver/remote_controller_signal/remote_controller_signal.c:298-306 | for any key but 0, a run in which the key is held before the thread gets its turn: the old digit is printed in place of the new one, and none is missing |
| DeferredRaces.LateThreadPrintsNextKey | driver/remote_controller_signal/remote_controller_signal.c:285-312 | for any two keys, a run in which the thread comes when the second key's byte is stored: the second is printed in place of the first, and none is missing |
| DeferredReceiver.ThreadedReceiver.GpioIrqHandler | driver/remote_controller_signal/remote_controller_signal.c:281-409 | the handler in place, wherever the thread is |
| DeferredReceiver.ThreadedReceiver.RemoteControlFunction | driver/remote_controller_signal/remote_controller_signal.c:128-219 | decoding in place, printing and signalling: one turn but for the flag |
| DeferredReceiver.ThreadedReceiver.WaitFunctionTurn | driver/remote_controller_signal/remote_controller_signal.c:238-252 | one turn of the thread's loop, with both tests of the flag |
| DeferredReceiver.ThreadedReceiver.Emit | driver/remote_controller_signal/remote_controller_signal.c:211-236 | a digit is printed, and signalled if a process is registered |
| DeferredReceiver.ThreadedReceiver.RegisterCurrentTask | driver/remote_controller_signal/remote_controller_signal.c:438-446 | registration sets the task and touches nothing else |
| InfraredDelivery.MessagesDelivered | driver/remote_controller_signal/remote_controller_signal.c:128-314 | end to end: over every interleaving of a clean stream that meets the deadlines, what is printed and signalled is one digit per message |
| InfraredDelivery.DeliveredFromLoad | driver/remote_controller_signal/remote_controller_signal.c:128-446 | from load, a process that registers is sent exactly the digits of the messages, under the same deadlines |
| JobQueue.ScanClosedForm | LLMscript/deepseek_code_analyzer.py:356-400 | the scan's lists in closed form, in walk order |
| JobQueue.ScanPartition | LLMscript/deepseek_code_analyzer_svg.py:216-249 | pending has no duplicates and nothing settled, every eligible file is pending or settled, and nothing settled is forgotten (both scripts) |
| JobQueue.AnalyzerLists | LLMscript/deepseek_code_analyzer.py:363-396 | by file names: a file of the walk is pending if and only if it is a .c, .cpp or .dts file not ending in .cmd, not a .c file ending in mod.c, not skipped as documented and not settled; and completed if and only if it was, or is such a file and skipped as documented |
| JobQueue.SvgLists | LLMscript/deepseek_code_analyzer_svg.py:221-245 | the same for the SVG script: .c and .cpp files not ending in .cmd or mod.c |
| JobQueue.EndsWithIff | LLMscript/deepseek_code_analyzer.py:365 | ending in a suffix |
| JobQueue.OnlyWalkedListed | LLMscript/deepseek_code_analyzer.py:362-396 | nothing but files of the walk is listed anew |
| JobRun.ProcessResult | LLMscript/deepseek_code_analyzer.py:462-476 | n files leave pending in order, and completed and failed grow by exactly the successes and failures |
| JobRun.ProcessConserves | LLMscript/deepseek_code_analyzer.py:462-476 | the multiset of all listed files is conserved |
| JobRun.RunToEnd | LLMscript/deepseek_code_analyzer.py:497-505 | for a positive batch size: exactly ceil(n / size) batches and no fewer, every pending file processed once in queue order, nothing pending at the end, no file lost |
| JobRun.EndsIff | LLMscript/deepseek_code_analyzer.py:497-505 | the loops end if and only if the batch size is positive, or nothing is pending, or it is the SVG script |
| JobRun.EmptyBatchesForEver | LLMscript/deepseek_code_analyzer.py:497-505 | with a batch size below 1 every turn of the analyzer's loop changes nothing |
| JobRun.SvgEmptyBatch | LLMscript/deepseek_code_analyzer_svg.py:301-309 | the SVG script's loop then ends with nothing processed |
| JobRunner.Runner.FindEligibleFiles | LLMscript/deepseek_code_analyzer.py:356-400 | the loop over the walk computes the scan and saves it |
| JobRunner.Runner.ProcessFile | LLMscript/deepseek_code_analyzer.py:402-451 | question after question until one gets no answer, cannot be saved or raises: completed if and only if the file can be read and every answer is saved (three questions, one for the SVG script), and how many were asked |
| JobRunner.Runner.ProcessBatch | LLMscript/deepseek_code_analyzer.py:453-482 | a batch of min(size, n) files in order, with the state after each file saved |
| JobRunner.Runner.ProcessDirectory | LLMscript/deepseek_code_analyzer.py:484-508 | the whole run ends where the machine's run of ceil(n / size) batches ends, every pending file settled once in order; the status it reports is the state after the full batches only |
| JobRunner.Runner.MainProcess | LLMscript/deepseek_code_analyzer_svg.py:297-311 | the SVG run, for every batch size: its number of batches, its files, and the end of the machine's run |
| JobCrash.HistoryAccounted | LLMscript/deepseek_code_analyzer.py:453-482 | over every history of starts, calls, saves and kills, calls are paid for by settled files, kills and the call under way |
| JobCrash.CallsBounded | LLMscript/deepseek_code_analyzer.py:356-508 | process_file is called at most once per file not settled at the beginning, plus once per kill, and nothing settled is lost |
| JobCrash.FinishSettlesTree | LLMscript/deepseek_code_analyzer.py:484-508 | a run that gets to its end has settled every eligible file |
| JobCrash.OutcomesKept | LLMscript/deepseek_code_analyzer.py:453-482 | over every history of starts and kills: a file newly in completed had its last call completed or its outputs met by a scan, one newly in failed had its last call failed, and what was listed stays where it was |
| JobCrash.RestartEnds | LLMscript/deepseek_code_analyzer.py:484-508 | after any history, a start that is not killed gets to its end: one call and one save for each file its scan found pending, in order, and the state is then what the batches of an undisturbed run make of the scan, completed and failed extended by exactly the files whose call came to that |
| LoopPwm.ClosedForm | app/led_PWM_2/led_pwm_2.c:36-62 | the whole state at every loop head; the two counters agree |
| LoopPwm.LedTrace | app/led_PWM_2/led_pwm_2.c:36-62 | in period p >= 1 the LED is on for exactly the first 1 + ((p - 1) mod 98) ticks, in period 0 not at all |
| LoopPwm.TwoWrites | app/led_PWM_2/led_pwm_2.c:39-58 | exactly two writes a period, and when |
| LoopPwm.FirstWrites | app/led_PWM_2/led_pwm_2.c:36-58 | the first period writes once, off, at its first tick |
| LoopPwm.AverageOnTime | app/led_PWM_2/led_pwm_2.c:36-62 | over any 98 periods the LED is on for 4851 of 9800 ticks |
| LoopPwm.LedProgram.LoopBody | app/led_PWM_2/led_pwm_2.c:39-60 | one turn of the loop, with what it writes |
| LoopPwm.LedProgram.Loop | app/led_PWM_2/led_pwm_2.c:37-62 | the loop for any number of ticks shows the levels of the closed form |
| TimerPwm.EveryRun | driver/High_Resolution_Timer_LED/High_Resolution_Timer_pwm.c:49-78 | over every interleaving of callbacks with the two statements of the duty step: levels alternate, the pin is low exactly while the flag is set, the duty is a sawtooth of the steps that stands at its limit only inside a step, every phase lasts what its duty asks for; one level change for each callback, the first due one unit after the start, and one step for each two statements |
| TimerPwm.ForwardExactIff | driver/High_Resolution_Timer_LED/High_Resolution_Timer_pwm.c:60-65 | a phase has its nominal length if and only if the callback ran less than one interval late |
| TimerPwm.ForwardPastNow | driver/High_Resolution_Timer_LED/High_Resolution_Timer_pwm.c:60-65 | the expiry moves by the fewest whole intervals that take it past the moment of the callback |
| TimerPwm.CycleLength | driver/High_Resolution_Timer_LED/High_Resolution_Timer_pwm.c:52-69 | a cycle whose callbacks are less than an interval late lasts 99 units plus the duty at the rise less the duty at the fall, whatever other cycles do; after an off time of 0 its callback may be as late as it likes, and lateness and one nanosecond are added; exactly 99 units if and only if the two duties are equal, or the lateness makes up for an off time of 0 (stated for both channels) |
| TimerPwm.SameDutyIff | driver/High_Resolution_Timer_LED/High_Resolution_Timer_pwm.c:72-78 | two edges see the same duty if and only if the steps between them are a multiple of 98, unless just one of them came inside the step at the limit |
| TimerPwm.CyclesLength | driver/High_Resolution_Timer_LED/High_Resolution_Timer_pwm.c:52-69 | n cycles last the sum, off times of 0 included |
| TimerPwm.ServoPulse | driver/High_Resolution_Timer_servo/High_Resolution_Timer_servo.c:45-75 | a servo pulse whose callback is on time lasts 704 us and 16 us more for each step modulo 100, or 2304 us exactly when that callback comes inside the step at the limit |
| TimerPwm.ServoCycle | driver/High_Resolution_Timer_servo/High_Resolution_Timer_servo.c:45-75 | a servo cycle whose callbacks are on time is 20 ms if and only if the duty is the same at rise and fall |
| TimerPwm.LedOnTime | driver/High_Resolution_Timer_LED/High_Resolution_Timer_pwm.c:52-78 | the LED is on for 100 us and 100 us more for each step modulo 98, or 9900 us when the callback comes inside the step at the limit |
| TimerPwm.LedOffTime | driver/High_Resolution_Timer_LED/High_Resolution_Timer_pwm.c:52-78 | the LED is off for at least 100 us times 99 less the duty, and for just that if the callback is on time; at a duty of 99, inside the step at the limit, it is off for the callback's lateness and one nanosecond |
| TimerPwm.VoidIsReachable | driver/High_Resolution_Timer_LED/High_Resolution_Timer_pwm.c:52-78 | for any lateness, a run of the LED driver in which that happens |
| TimerPwm.Projection | driver/High_Resolution_Timer_servo_LED/High_Resolution_Timer_servo.c:52-115 | each channel of the combined driver runs as its own driver does, whatever the interleaving |
| TimerPwm.PwmDriver.TimerCallback | driver/High_Resolution_Timer_servo/High_Resolution_Timer_servo.c:48-64 | the callback of a single channel, in place |
| TimerPwm.PwmDriver.IncrementDuty | driver/High_Resolution_Timer_servo/High_Resolution_Timer_servo.c:71 | the first statement of the duty step, after which a callback may come |
| TimerPwm.PwmDriver.WrapDuty | driver/High_Resolution_Timer_servo/High_Resolution_Timer_servo.c:72-73 | the second |
| TimerPwm.PwmDriver.KernelTimerFunc | driver/High_Resolution_Timer_servo/High_Resolution_Timer_servo.c:69-75 | both, with nothing in between |
| TimerPwm.ServoLedDriver.LedTimerCallback | driver/High_Resolution_Timer_servo_LED/High_Resolution_Timer_servo.c:55-72 | the LED callback of the combined driver leaves the servo alone |
| TimerPwm.ServoLedDriver.TimerCallback | driver/High_Resolution_Timer_servo_LED/High_Resolution_Timer_servo.c:78-94 | the servo callback leaves the LED alone |
| TimerPwm.ServoLedDriver.KernelTimerLedFunc | driver/High_Resolution_Timer_servo_LED/High_Resolution_Timer_servo.c:109-115 | the LED duty step |
| TimerPwm.ServoLedDriver.ServoKernelTimerFunc | driver/High_Resolution_Timer_servo_LED/High_Resolution_Timer_servo.c:100-106 | the servo duty step |
| WaitQueue.EveryRunFromLoad | driver/Wait_queue/wait_queue.c:61-104 | on every interleaving the count never exceeds the device reads, each count has a read of its own, and the thread returns only after exit |
| WaitQueue.EveryRun | driver/Wait_queue/wait_queue.c:61-104 | the invariant behind it, from any state that has it, with the reads and the exit those of the schedule |
| WaitQueue.TurnCompletes | driver/Wait_queue/wait_queue.c:64-73 | one undisturbed turn: a raised flag is cleared and the count goes up by one modulo 2^32, the exit request makes the thread return, and a clear flag changes nothing |
| WaitQueue.FlagClears | driver/Wait_queue/wait_queue.c:64-73 | progress: over every interleaving of reads a raised flag is cleared by exactly the step of the thread that ends its turn, and by then the thread has counted once |
| WaitQueue.ReadsAccounted | driver/Wait_queue/wait_queue.c:61-104 | on every interleaving, device reads = counted + in hand + still to be noticed + unheard (met a raised flag, a thread past its look, or an exit) |
| WaitQueue.EveryReadCountedIff | driver/Wait_queue/wait_queue.c:61-104 | with the thread waiting and the flag clear, every read is counted if and only if none went unheard |
| WaitQueue.ExitHeardIff | driver/Wait_queue/wait_queue.c:66-72 | over every schedule of reads and thread steps that follows it, the request to exit reaches the thread if and only if it does not come between the test and the reset of the flag, and the thread's look comes before any further read |
| WaitQueue.ExitCanBeLost | driver/Wait_queue/wait_queue.c:172-175 | a run from load after which the thread never returns, whatever follows |
| WaitQueue.EtxDriver.WaitFunctionTurn | driver/Wait_queue/wait_queue.c:64-73 | one undisturbed turn of the thread's loop, in place: what it does to the flag and the count, as four steps of the machine |
| WaitQueue.EtxDriver.EtxRead | driver/Wait_queue/wait_queue.c:98-104 | a device read, wherever the thread is, is the machine's Read |
| WaitQueue.EtxDriver.EtxDriverExit | driver/Wait_queue/wait_queue.c:172-175 | the exit function is the machine's Exit |
| Debounce.AcceptedIff | driver/GPIO_Interrupt_2/GPIO_Interrupt_2.c:59-63 | an interrupt is accepted if and only if the real distance to the last accepted one, less whole turns of the counter, is at least 20 jiffies |
| Debounce.DroppedAfterWrap | driver/GPIO_Interrupt_2/GPIO_Interrupt_2.c:59-63 | so one that comes whole turns later, within 19 jiffies, is dropped |
| Debounce.AcceptedApart | driver/GPIO_Interrupt_2/GPIO_Interrupt_2.c:59-65 | accepted interrupts are at least 20 real jiffies apart although jiffies wraps and is read twice |
| Debounce.StateAfter | driver/GPIO_Interrupt_2/GPIO_Interrupt_2.c:65-70 | the output is the parity of the accepted interrupts |
| Debounce.WindowBound | driver/GPIO_Interrupt_2/GPIO_Interrupt_2.c:59-70 | a window of T jiffies holds at most T / 20 + 1 toggles |
| Debounce.ButtonDriver.GpioIrqHandler | driver/GPIO_Interrupt_2/GPIO_Interrupt_2.c:54-74 | the handler in place, from the two values read |
| EchoRanging.ExactIffNoOverflow | driver/UltraSonic_Interrupt/gpio_interrupt.c:135-140 | the printed distance is floor(17 us / 1000) if and only if the echo is at most 126322567 us, where the product does not overflow |
| EchoRanging.Printed | driver/UltraSonic_Interrupt/gpio_interrupt.c:136-140 | for any echo: 17 times the microseconds, reduced to the signed 32-bit range, divided by 1000 towards zero |
| EchoRanging.Monotone | driver/UltraSonic_Interrupt/gpio_interrupt.c:138-140 | a longer echo never prints a smaller distance, within that bound |
| EchoRanging.RoundingError | driver/UltraSonic_Interrupt/gpio_interrupt.c:136-140 | the value is floor(17 ns / 10^6) or one less, and exactly when it is one less |
| EchoRanging.ReportsLatestRise | driver/UltraSonic_Interrupt/gpio_interrupt.c:121-136 | every falling edge after a rising one measures from the most recent rise |
| EchoRanging.EchoDriver.GpioIrqHandler | driver/UltraSonic_Interrupt/gpio_interrupt.c:119-143 | the handler in place |

## Left out

- Module set-up and removal, device files, GPIO and UART access: kernel calls. The exit functions of the infrared drivers do not tell their thread to stop, so only the running phase is modelled.
- DeferredDecoder.RefinesThroughoutIff: an interrupt handler runs as a whole between two steps of the thread; a thread that runs on another core while the handler is between two of its own statements, or in the middle of one array access, is not modelled.
- DeferredDecoder.SignalsFollowLog: for the same reason the print and the signal of a repeat (remote_controller_signal.c lines 303 and 304) are one step: a thread on another core that sets the output in between would have another digit signalled than printed. A signal counts as sent when the driver asks for it; a `send_sig_info` that fails (a full signal queue in the receiving process) is not modelled, nor is which of several registered processes gets it.
- JobCrash.CallsBounded: the state file is written whole or not at all; a file cut short by a kill in the middle of the save, and a save that fails, are not modelled.
- JobRunner.Runner.ProcessDirectory: only called where its loop ends; that it does not end elsewhere is `JobRun.EndsIff`.
- JobRunner.Runner.ProcessFile: what the service answers, and whether an answer can be saved, is given with each call, after all retries; the prompts, the HTTP requests, throttling and the text of the files are not modelled; splitting an extension off a file name and looking for existing outputs are given with each file of the walk.
- TimerPwm.CycleLength: durations are between the moments the timer was due; the pin itself changes later by the lateness of the callback. The timer's resolution is taken to be 1 ns, as in the kernel's high-resolution mode.
- EchoRanging.ExactIffNoOverflow: the overflowing product wraps, as in kernels built without strict overflow; the language leaves it open.
- LoopPwm.LedProgram.Loop: a tick is one turn of the loop; how much longer than 100 us a turn takes is not modelled.
- app/led_PWM_3, the ultrasonic driver's variants with tasklets, threaded interrupts and work queues, and the other small drivers: the same arithmetic, or only easy members.
