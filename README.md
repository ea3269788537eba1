# rtos-esp32-examples: the sequential logic inside the FreeRTOS sketches

The repository is a set of ESP32 FreeRTOS teaching sketches. Most of their
work is done by the kernel and the board support library. Around those
calls sits small integer logic with clear state and rules, and this
project models that logic in Dafny and proves properties of it:

- the serial line editors and command parsers (a fixed buffer, an index,
  a newline rule, `memcmp` prefix dispatch, `atoi`, `abs`, `strcpy`);
- the LED fade and colour-wheel steps and the `ledcAnalogWrite` duty
  arithmetic;
- the ISR-driven double-buffered ADC sampler with its semaphore and
  overrun handshake;
- the counting-semaphore ring buffer;
- the chopstick ordering of the dining philosophers.

Each task loop, ISR and critical section is one atomic step. A step that
would block in the kernel does nothing and says so in its result.
Queues, semaphores and task notifications are booleans or counters inside
those steps. The C library functions are modelled as follows:

- `strlen`, `strcpy`, `memcmp` (ISO C11 sections 7.24.6.3, 7.24.2.3 and
  7.24.4.1).
- `atoi` (ISO C11 section 7.22.1.2): leading white space, an optional
  sign, then decimal digits up to the first non-digit. Its result must fit
  an `int`.
- `abs`, and narrowing to `short` modulo 2^16, as GCC does it.

Files:

- `cstring.dfy` (module `CString`): the C string and conversion functions.
- `linebuffer.dfy` (`LineEdit`): the line buffer shared by every serial
  task.
- `serialint.dfy` (`SerialInt`): the integer line readers of 01b, 02 and
  both 03a copies.
- `ledc.dfy` (`Ledc`): `ledcAnalogWrite`.
- `softfade.dfy` (`SoftFade`): the fades of 01, 01a, 02 and the 01b colour
  wheel.
- `clileds.dfy` (`CliLeds`): 04-CLI-LEDs.
- `adcbuffer.dfy` (`AdcBuffer`): the sampler of 09c, 09d and 12d.
- `samplecli.dfy` (`SampleCli`): the command line of 09c, 09d and 12d.
- `ringbuffer.dfy` (`RingBuffer`): 07b.
- `queueblink.dfy` (`QueueBlink`): 05a.
- `heapmsg.dfy` (`HeapMsg`): 04a.
- `philosophers.dfy` (`Philosophers`): 10c-dining-philosophers-hierarchy.
- `option.dfy` (`Options`): an optional value.

Several sketches are copies of one another. For a member shared by
several sketches, the table cites the first sketch, and its "states"
column names the others.

## Model

| member | source | states |
|---|---|---|
| CString.StrLen | My-RTOS-Projects/04-CLI-LEDs/src/main.cpp:83-85 | strlen: the index of the first NUL, with no NUL before it, or the whole length when there is none |
| CString.CStr | My-RTOS-Projects/04-CLI-LEDs/src/main.cpp:127 | the C string a buffer holds is a NUL-free prefix of it |
| CString.CStrOfNulFree | Intro-To-RTOS/05a-queues-multitask/src/main.cpp:82 | a buffer without a NUL is its own C string, so a typed line is copied whole |
| CString.CStrOfTerminated | My-RTOS-Projects/04-CLI-LEDs/src/main.cpp:66 | a NUL-free line followed by a terminator reads back as that line, whatever bytes follow |
| CString.CStrOfPrefix | Intro-To-RTOS/09c-ISR-ADC-buffer-sample-avg/src/main.cpp:178 | the C string of a buffer with a NUL at k is the C string of its first k bytes |
| CString.CStrOfAppendedNul | Intro-To-RTOS/04a-mem-mgmt/src/main.cpp:43 | appending a terminator does not change a C string |
| CString.StrCpy | My-RTOS-Projects/04-CLI-LEDs/src/main.cpp:66 | strcpy keeps the destination size, gives the destination the source's C string, and leaves the bytes after the copied terminator unchanged; a source as long as the destination is excluded |
| CString.MemEq | My-RTOS-Projects/04-CLI-LEDs/src/main.cpp:94 | memcmp(a, b, n) == 0: the first n bytes agree (its meaning on a line is MemEqIsPrefix) |
| CString.MemEqIsPrefix | My-RTOS-Projects/04-CLI-LEDs/src/main.cpp:94 | memcmp of a NUL-free command against a NUL-padded line is 0 exactly when the command is a prefix of the line |
| CString.IsSpace | 03a-task-mgmt/src/main.cpp:52 | isspace in the "C" locale, which atoi skips: space, tab, newline, vertical tab, form feed and carriage return |
| CString.IsDigit | 03a-task-mgmt/src/main.cpp:52 | isdigit: '0' to '9', the characters atoi accumulates |
| CString.SpaceRun | 03a-task-mgmt/src/main.cpp:52 | atoi's skip of leading white space: all skipped characters are white space and the next is not |
| CString.DigitRun | 03a-task-mgmt/src/main.cpp:52 | atoi's digit scan: all scanned characters are digits and the next is not |
| CString.DecimalValue | 03a-task-mgmt/src/main.cpp:52 | the value of a run of decimal digits, most significant first (inverted by DecimalValueOfDecimal) |
| CString.Magnitude | 03a-task-mgmt/src/main.cpp:52 | the value of the digits at the start of a string (characterised by MagnitudeOfDigits) |
| CString.Atoi | 03a-task-mgmt/src/main.cpp:52 | atoi: white space skipped, an optional sign, then digits up to the first non-digit; no digits gives 0 (inverted by AtoiOfIntToString, NUL-bounded by AtoiStopsAtNul) |
| CString.SpaceRunStopsAtNul | 03a-task-mgmt/src/main.cpp:52 | the white-space skip never passes a NUL |
| CString.DigitRunStopsAtNul | 03a-task-mgmt/src/main.cpp:52 | the digit scan never passes a NUL |
| CString.MagnitudeStopsAtNul | 03a-task-mgmt/src/main.cpp:52 | the digits read are the same in a buffer and in its part before the first NUL |
| CString.AtoiStopsAtNul | 03a-task-mgmt/src/main.cpp:52 | atoi reads nothing past the terminator: the bytes after a NUL do not change the result |
| CString.DigitChar | 03a-task-mgmt/src/main.cpp:54 | a value below 10 gives a digit character |
| CString.Decimal | 03a-task-mgmt/src/main.cpp:54 | the decimal rendering of a natural number is a non-empty run of digits |
| CString.IntToString | 03a-task-mgmt/src/main.cpp:54 | the rendering of an int starts with '-' or a digit |
| CString.DecimalValueOfDecimal | 03a-task-mgmt/src/main.cpp:52-54 | reading back the decimal rendering of n gives n |
| CString.DigitRunOfDigits | 03a-task-mgmt/src/main.cpp:52 | the digit scan of digits followed by a non-digit stops exactly after the digits |
| CString.MagnitudeOfDigits | 03a-task-mgmt/src/main.cpp:52 | the number read from digits followed by a non-digit is the value of exactly those digits |
| CString.AtoiNoLeadingSpace | 03a-task-mgmt/src/main.cpp:52 | without leading white space, atoi reads an optional sign and then the digits right at the start |
| CString.AtoiOfDigits | 03a-task-mgmt/src/main.cpp:52 | atoi of a digit run followed by a non-digit is the run's decimal value |
| CString.AtoiOfMinus | 03a-task-mgmt/src/main.cpp:52 | atoi of a minus sign followed by t is minus the value of the digits at the start of t |
| CString.AtoiOfNegatedDigits | 03a-task-mgmt/src/main.cpp:52 | atoi of '-' and a digit run followed by a non-digit is minus the run's decimal value |
| CString.AtoiOfIntToString | 03a-task-mgmt/src/main.cpp:52-54 | atoi inverts the printed form of any int, also when a non-digit such as '\n' follows |
| CString.CAbs | 01b-LED-RGB-color-wheel/src/main.cpp:88 | abs on int: the result is non-negative exactly when the argument is not INT_MIN, and is the argument or its negation |
| CString.ToShort | My-RTOS-Projects/04-CLI-LEDs/src/main.cpp:97 | the narrowing to short lies in [-32768, 32767], is congruent modulo 2^16 and is the identity in range |
| CString.ShortAbs | My-RTOS-Projects/04-CLI-LEDs/src/main.cpp:97-98 | narrowing the atoi result to short, abs, and narrowing again (characterised by ShortAbsSign) |
| CString.ShortAbsSign | My-RTOS-Projects/04-CLI-LEDs/src/main.cpp:97-98 | `short v = atoi(..); v = abs(v);` gives the absolute value of x when x is in short range, is non-negative exactly when the narrowed value is not -32768, and gives -32768 for it |
| LineEdit.LineBuffer.Appended | My-RTOS-Projects/04-CLI-LEDs/src/main.cpp:58-62 | a character is kept exactly while there is room for it and a terminator, so a line stays shorter than the buffer |
| LineEdit.LineBuffer.BytesAreLinePadded | My-RTOS-Projects/04-CLI-LEDs/src/main.cpp:47-50 | the buffer is always the line followed by NULs, so it holds a terminated string |
| LineEdit.LineBuffer.constructor | My-RTOS-Projects/04-CLI-LEDs/src/main.cpp:47-50 | a zeroed buffer with index 0 |
| LineEdit.LineBuffer.Append | My-RTOS-Projects/04-CLI-LEDs/src/main.cpp:58-62 | stores the character and advances the index exactly when index < N - 1; otherwise nothing changes |
| LineEdit.LineBuffer.Clear | My-RTOS-Projects/04-CLI-LEDs/src/main.cpp:69-70 | memset and index = 0 leave an empty, all-NUL buffer |
| LineEdit.LineBuffer.TerminateAtIndex | Intro-To-RTOS/09c-ISR-ADC-buffer-sample-avg/src/main.cpp:178 | the write is in bounds and leaves the bytes as they were (also 09d:187) |
| LineEdit.LineBuffer.TerminateLast | Intro-To-RTOS/12d-multicore-ISR-ADC-buffer-sample/src/main.cpp:112 | the last stored byte becomes the terminator (also 04a:43) |
| SerialInt.IntLineReader.constructor | 03a-task-mgmt/src/main.cpp:20-22 | an empty 20-byte buffer and the initial setting (500 in 03a, 30 in 01b and 02) |
| SerialInt.IntLineReader.Feed | 03a-task-mgmt/src/main.cpp:47-68 | '\n' is never stored and sets the value to atoi of the line (abs of it in 01b:85-94; plain atoi in 02:60-68 and both 03a copies), then clears the buffer; another character is stored only while index < 19 |
| Ledc.Min | 01-LED-sw-fade/src/main.cpp:20 | the Arduino min() of the value and valueMax (its bound is what DutyMonotone and DutySaturates use) |
| Ledc.ToUint32 | 01-LED-sw-fade/src/main.cpp:18 | the uint32_t parameter is the argument modulo 2^32 |
| Ledc.MulMonotone | 01-LED-sw-fade/src/main.cpp:20 | the product in the duty grows with the clamped value |
| Ledc.Duty | 01-LED-sw-fade/src/main.cpp:18-22 | for valueMax > 0 the duty never exceeds 4095, so the uint32 product cannot wrap (also 01a:23-28, 01b:35-39, 02:26-30) |
| Ledc.AnalogWriteDuty | 01-LED-sw-fade/src/main.cpp:18-22 | the two-argument call ledcAnalogWrite(LEDCchan, brightness): the int converted to uint32_t and the default valueMax 255 (as at 01:32, 01a:34, 01b:49, 02:36); DefaultDuty gives it as 16 times the brightness |
| Ledc.DutyMonotone | 01-LED-sw-fade/src/main.cpp:20 | a larger value never gives a smaller duty |
| Ledc.DutySaturates | 01-LED-sw-fade/src/main.cpp:20 | every value at or above valueMax gives the same duty, 4095 rounded down to a multiple of valueMax |
| Ledc.DefaultDuty | 01-LED-sw-fade/src/main.cpp:18-20 | with the default valueMax 255 the duty of a brightness in [0, 255] is 16 times it, 4080 at full brightness |
| SoftFade.Step | 01-LED-sw-fade/src/main.cpp:34-39 | one loop pass: brightness += fadeInterval, reversal at or beyond 0 and 255 (its reachable states are RunKeepsInv's) |
| SoftFade.Run | 01-LED-sw-fade/src/main.cpp:30-42 | n passes of the loop |
| SoftFade.StepKeepsInv | 01-LED-sw-fade/src/main.cpp:32-39 | a step from a reachable state (a multiple of 5 in [0, 255], moving away from a bound it sits on) reaches another one |
| SoftFade.ReversesExactlyAtBounds | 01-LED-sw-fade/src/main.cpp:36-39 | fadeInterval flips exactly when the new brightness is 0 or 255, and brightness moves by exactly fadeInterval |
| SoftFade.RunKeepsInv | 01-LED-sw-fade/src/main.cpp:15-16 | every brightness the loop reaches from 0 and step 5 is a multiple of 5 in [0, 255], so min() never clamps (also 01a:20-21, 02:22-23, 01b:29-30 from 65) |
| SoftFade.FadeLoop.constructor | 01-LED-sw-fade/src/main.cpp:15-16 | brightness 0, fadeInterval 5 (also 01a:20-21, 02:22-23) |
| SoftFade.FadeLoop.Iterate | 01-LED-sw-fade/src/main.cpp:30-39 | writes 16 times the pre-step brightness, then steps; the state stays reachable (also 01a:34-40, 02:36-42) |
| SoftFade.WheelStep | 01b-LED-RGB-color-wheel/src/main.cpp:50-67 | one pass of the colour wheel: the fade step and, at the floor, hue += 32 reset to 0 at 255 |
| SoftFade.WheelStepKeepsInv | 01b-LED-RGB-color-wheel/src/main.cpp:50-64 | the hue stays one of 0, 32, ..., 224, changes exactly when the brightness reaches 0, and then moves by 32 modulo 256 |
| SoftFade.ColorWheel.constructor | 01b-LED-RGB-color-wheel/src/main.cpp:29-30 | brightness 65, fadeInterval 5, hue 0 |
| SoftFade.ColorWheel.Iterate | 01b-LED-RGB-color-wheel/src/main.cpp:47-68 | writes 16 times the pre-step brightness, steps the fade and at the floor the hue |
| CliLeds.Interpret | My-RTOS-Projects/04-CLI-LEDs/src/main.cpp:94-128 | msgRXTask on the raw 25 bytes, which hold a terminator: memcmp against "fade ", "delay ", "pattern " in turn, short atoi and abs of the rest, otherwise print (equal to LineRequest by InterpretIsLineRequest) |
| CliLeds.LineRequest | My-RTOS-Projects/04-CLI-LEDs/src/main.cpp:94-128 | the same decision stated on the typed line with prefix tests, the reference Interpret is proved against |
| CliLeds.ArgumentStopsAtNul | My-RTOS-Projects/04-CLI-LEDs/src/main.cpp:96-97 | atoi of the bytes after a command name gives the same number in the 25-byte Command as in the typed line |
| CliLeds.InterpretIsLineRequest | My-RTOS-Projects/04-CLI-LEDs/src/main.cpp:94-128 | the dispatch on the raw 25-byte Command equals the meaning of the line it holds, whatever bytes follow the terminator |
| CliLeds.PrefixesExclusive | My-RTOS-Projects/04-CLI-LEDs/src/main.cpp:94-114 | no line starts with two of "fade ", "delay ", "pattern ", so exactly one branch applies |
| CliLeds.LineRequestValues | My-RTOS-Projects/04-CLI-LEDs/src/main.cpp:96-128 | a line naming no command sets nothing and prints the line; a command's value is a short, non-negative unless the number narrows to -32768 |
| CliLeds.CommandCli.constructor | My-RTOS-Projects/04-CLI-LEDs/src/main.cpp:45-50 | an empty 255-byte buffer and an uninitialised Command |
| CliLeds.CommandCli.Feed | My-RTOS-Projects/04-CLI-LEDs/src/main.cpp:54-75 | every character, '\n' included, is stored while index < 254; '\n' then strcpy's the line into the Command, sends it and clears the buffer; a line of 25 or more characters is excluded |
| CliLeds.SentCommandIsLine | My-RTOS-Projects/04-CLI-LEDs/src/main.cpp:66-128 | the task end to end: msgRXTask interprets the sent Command as the line that was typed |
| CliLeds.WrapHue | My-RTOS-Projects/04-CLI-LEDs/src/main.cpp:152-154 | hueVal goes back to 0 once it reaches 255 (also 197-199); PatternStepHue and PatternStepKeepsInv state its effect |
| CliLeds.PatternStep | My-RTOS-Projects/04-CLI-LEDs/src/main.cpp:142-212 | one pass of the switch on patternType (patterns 1, 2, 3 and the default) |
| CliLeds.PatternStepKeepsInv | My-RTOS-Projects/04-CLI-LEDs/src/main.cpp:142-212 | brightness stays in [0, 255], fadeInterval within a short's magnitude and the hue in [0, 255) |
| CliLeds.Clamp | My-RTOS-Projects/04-CLI-LEDs/src/main.cpp:147-162 | the clamp lies in the LED range [0, 255] |
| CliLeds.FadePatternsClamp | My-RTOS-Projects/04-CLI-LEDs/src/main.cpp:146-188 | patterns 1 and 2: the new brightness is the old plus fadeInterval clamped to [0, 255], and fadeInterval is negated exactly when a bound is reached |
| CliLeds.PatternStepHue | My-RTOS-Projects/04-CLI-LEDs/src/main.cpp:151-210 | pattern 1: the hue moves exactly at the floor, to hue + 32, or 0 when that reaches 255; pattern 3: brightness 250, hue + 1 modulo 255; pattern 2: red/blue toggles exactly at the floor; any other pattern becomes 1 with nothing else changed |
| CliLeds.LedSettings.constructor | My-RTOS-Projects/04-CLI-LEDs/src/main.cpp:29-32 | brightness 65, fadeInterval 5, delayInterval 30, patternType 1, hue 0, red |
| CliLeds.LedSettings.Receive | My-RTOS-Projects/04-CLI-LEDs/src/main.cpp:92-128 | the matched command sets only its own global to the dispatched value; any other message changes no setting |
| CliLeds.LedSettings.Iterate | My-RTOS-Projects/04-CLI-LEDs/src/main.cpp:140-212 | one pass of the switch on patternType is the pattern step; delayInterval is untouched |
| AdcBuffer.Swap | Intro-To-RTOS/09c-ISR-ADC-buffer-sample-avg/src/main.cpp:104-110 | swap(): writeTo and readFrom exchanged |
| AdcBuffer.IsrTick | Intro-To-RTOS/09c-ISR-ADC-buffer-sample-avg/src/main.cpp:117-135 | one ISRtimer run, with or without the index reset (09c/09d reset; 12d:70 does not) |
| AdcBuffer.ConsumerStep | Intro-To-RTOS/09c-ISR-ADC-buffer-sample-avg/src/main.cpp:212-235 | one step of the processing task: wake on a notification, the overrun check, the clear-and-give |
| AdcBuffer.SwapInvolution | Intro-To-RTOS/09c-ISR-ADC-buffer-sample-avg/src/main.cpp:104-110 | swap exchanges the pointers, keeps them distinct, and two swaps are the identity (also 09d:113-119, 12d:44-50) |
| AdcBuffer.InitialInv | Intro-To-RTOS/09c-ISR-ADC-buffer-sample-avg/src/main.cpp:38-42 | the state after setup (semaphore given, index 0, no overrun, writeTo = buf0) satisfies the handshake invariant (also 09d:44-48,81, 12d:32-36,188) |
| AdcBuffer.IsrTickKeepsInv | Intro-To-RTOS/09c-ISR-ADC-buffer-sample-avg/src/main.cpp:112-135 | an ISR run keeps index <= BUF_LEN, the pointers distinct, "semaphore available implies no overrun" and the three handshake phases, with or without the index reset |
| AdcBuffer.ConsumerStepKeepsInv | Intro-To-RTOS/09c-ISR-ADC-buffer-sample-avg/src/main.cpp:210-236 | so does each step of the processing task, because the flag is cleared and the semaphore given together |
| AdcBuffer.IsrTickCases | Intro-To-RTOS/09c-ISR-ADC-buffer-sample-avg/src/main.cpp:117-134 | a sample is stored while index < BUF_LEN and no overrun; when full, a failed take sets the overrun flag with no swap or notification, and a successful take swaps, notifies once and resets the index where the ISR does (also 09d:126-143, 12d:57-73) |
| AdcBuffer.SwapOnlyWhenIdle | Intro-To-RTOS/09c-ISR-ADC-buffer-sample-avg/src/main.cpp:123-134 | a swap happens only when the task has given the semaphore back and has no notification pending |
| AdcBuffer.ReadFromStableWhileBusy | Intro-To-RTOS/09c-ISR-ADC-buffer-sample-avg/src/main.cpp:212-235 | from the notification until the semaphore is given, neither pointer changes, so the task reads the buffer it was notified about |
| AdcBuffer.FirstBufferFills | Intro-To-RTOS/09c-ISR-ADC-buffer-sample-avg/src/main.cpp:117-134 | from setup(), ten interrupts with BUF_LEN 10 fill buf0, reset the index, swap to buf1 and notify the task once |
| AdcBuffer.SecondBufferNearlyFull | Intro-To-RTOS/09c-ISR-ADC-buffer-sample-avg/src/main.cpp:117-123 | after that the task wakes and nine more interrupts leave buf1 one sample short of full, with no overrun and the semaphore still held |
| AdcBuffer.UnreportedOverrun | Intro-To-RTOS/09c-ISR-ADC-buffer-sample-avg/src/main.cpp:226-234 | a schedule from setup() (ten ticks, the task wakes, nine ticks) reaches a state where the check finds no overrun, the next tick flags one and the release clears it, with no report at any step |
| AdcBuffer.RunKeepsInv | Intro-To-RTOS/09c-ISR-ADC-buffer-sample-avg/src/main.cpp:112-236 | the handshake invariant holds after any interleaving of ISR runs and task steps |
| AdcBuffer.RunAppend | Intro-To-RTOS/09c-ISR-ADC-buffer-sample-avg/src/main.cpp:112-236 | running two schedules in turn is running their concatenation |
| AdcBuffer.Ticks | Intro-To-RTOS/09c-ISR-ADC-buffer-sample-avg/src/main.cpp:112 | a schedule of n timer interrupts |
| AdcBuffer.TicksBelowFull | Intro-To-RTOS/09c-ISR-ADC-buffer-sample-avg/src/main.cpp:117-123 | interrupts that do not fill the buffer each store one sample and change nothing else |
| AdcBuffer.InitialResetInv | Intro-To-RTOS/09c-ISR-ADC-buffer-sample-avg/src/main.cpp:38-42 | after setup, a full buffer would have an overrun or an available semaphore (trivially, the index is 0) |
| AdcBuffer.IsrTickKeepsResetInv | Intro-To-RTOS/09c-ISR-ADC-buffer-sample-avg/src/main.cpp:123-134 | with the reset, a full buffer always has the overrun flagged or the semaphore available, because a successful take resets the index at once |
| AdcBuffer.ConsumerStepKeepsResetInv | Intro-To-RTOS/09c-ISR-ADC-buffer-sample-avg/src/main.cpp:232-235 | the task steps keep that property |
| AdcBuffer.RunKeepsResetInv | Intro-To-RTOS/09c-ISR-ADC-buffer-sample-avg/src/main.cpp:112-236 | it holds in every state 09c and 09d reach (12d breaks it) |
| AdcBuffer.SwapResumesSampling | Intro-To-RTOS/09c-ISR-ADC-buffer-sample-avg/src/main.cpp:129-134 | with the reset, the run after a swap stores into the new buffer from index 0 (also 09d:138-143) |
| AdcBuffer.FullStaysFull | Intro-To-RTOS/12d-multicore-ISR-ADC-buffer-sample/src/main.cpp:57-73 | as written, once the index reaches BUF_LEN it stays there and no sample is stored again |
| AdcBuffer.FullSwapsOnEveryTake | Intro-To-RTOS/12d-multicore-ISR-ADC-buffer-sample/src/main.cpp:62-73 | as written, every run that finds the semaphore available still swaps the stale buffers and notifies |
| AdcBuffer.MissingResetExample | Intro-To-RTOS/12d-multicore-ISR-ADC-buffer-sample/src/main.cpp:70 | a concrete schedule in which 12d stores nothing after the first swap while the reset version stores the next sample |
| AdcBuffer.DoubleBuffer.constructor | Intro-To-RTOS/09c-ISR-ADC-buffer-sample-avg/src/main.cpp:38-42 | two buffers of BUF_LEN, writeTo = buf0, readFrom = buf1, in the initial handshake state (also 09d:44-48, 12d:32-36) |
| AdcBuffer.DoubleBuffer.SwapBuffers | Intro-To-RTOS/09c-ISR-ADC-buffer-sample-avg/src/main.cpp:104-110 | exchanges writeTo and readFrom and nothing else |
| AdcBuffer.DoubleBuffer.IsrTimer | Intro-To-RTOS/09c-ISR-ADC-buffer-sample-avg/src/main.cpp:112-135 | the ISR run on the arrays: the sample lands at writeTo[index] exactly when it is stored, the buffer being read is never written, and the state follows the ISR tick (also 09d:121-144, 12d:52-74) |
| AdcBuffer.DoubleBuffer.ProcessStep | Intro-To-RTOS/09c-ISR-ADC-buffer-sample-avg/src/main.cpp:210-236 | one task step on the arrays: it reports exactly when the check finds an overrun, and the pointers do not move (also 09d:222-258, 12d:149-175) |
| SampleCli.Terminated | Intro-To-RTOS/12d-multicore-ISR-ADC-buffer-sample/src/main.cpp:112 | the line the command test sees is a prefix of the stored bytes: all of them (09c:178, 09d:187), or one fewer where 12d writes the terminator over the last |
| SampleCli.TerminateLastDropsNewline | Intro-To-RTOS/12d-multicore-ISR-ADC-buffer-sample/src/main.cpp:103-112 | in 12d (Terminated over the last byte) the terminator replaces the stored '\n', or the last typed character of a full line |
| SampleCli.Action | Intro-To-RTOS/09c-ISR-ADC-buffer-sample-avg/src/main.cpp:181-191 | on a finished line: the value printed when it starts with the command, otherwise an echo of its C string |
| SampleCli.PaddedLine | Intro-To-RTOS/09c-ISR-ADC-buffer-sample-avg/src/main.cpp:178-181 | on a NUL-padded line, memcmp with the command is a prefix test and the copied C string is the line's |
| SampleCli.SampleCli.constructor | Intro-To-RTOS/09c-ISR-ADC-buffer-sample-avg/src/main.cpp:151-155 | an empty 255-byte buffer for "avg" (also 09d "rms", 12d "avg") |
| SampleCli.SampleCli.Feed | Intro-To-RTOS/09c-ISR-ADC-buffer-sample-avg/src/main.cpp:164-198 | a character is stored while index < 254; '\n' prints the value when the line starts with the command, otherwise queues an echo of the line, then clears; an echo of 100 or more characters is excluded (also 09d:173-207, 12d:99-132) |
| RingBuffer.Idx | Intro-To-RTOS/07b-counting-semaphores/src/main.cpp:106 | a slot index stays in [0, 5) |
| RingBuffer.IdxShift | Intro-To-RTOS/07b-counting-semaphores/src/main.cpp:127 | advancing the tail by one shifts every slot offset by one |
| RingBuffer.IdxZero | Intro-To-RTOS/07b-counting-semaphores/src/main.cpp:126 | the slot at offset 0 is the tail itself |
| RingBuffer.SlotsDistinct | Intro-To-RTOS/07b-counting-semaphores/src/main.cpp:105 | offsets below 5 name distinct slots, so head never names an unread slot |
| RingBuffer.SharedBuffer.constructor | Intro-To-RTOS/07b-counting-semaphores/src/main.cpp:30-32 | head and tail 0, five empty slots, none filled, nothing queued (semaphores created at 43-44) |
| RingBuffer.SharedBuffer.Produce | Intro-To-RTOS/07b-counting-semaphores/src/main.cpp:102-109 | with a free slot: writes buffer[head], advances head modulo 5, moves one slot from empty to filled and appends the value to the queue without overwriting any unread value; without one nothing changes; empty + filled = 5 and head = tail + filled (mod 5) are kept |
| RingBuffer.SharedBuffer.Consume | Intro-To-RTOS/07b-counting-semaphores/src/main.cpp:123-132 | with a filled slot: reads the oldest value, advances tail modulo 5 and moves one slot back to empty; without one nothing changes |
| RingBuffer.Producer.constructor | Intro-To-RTOS/07b-counting-semaphores/src/main.cpp:95-96 | a producer with its own number and no writes yet |
| RingBuffer.Producer.Step | Intro-To-RTOS/07b-counting-semaphores/src/main.cpp:100-111 | each turn with a free slot appends the producer's own number, at most numWrites (3) times |
| QueueBlink.LineSend | Intro-To-RTOS/05a-queues-multitask/src/main.cpp:68-85 | what a finished line sends: abs(atoi(rest)) on the delay queue after "delay ", otherwise its C string with count = index (its meaning on typed text is DelayLineSend and MessageLineSend) |
| QueueBlink.DelayLineSend | Intro-To-RTOS/05a-queues-multitask/src/main.cpp:68-77 | typing "delay ", an int and Enter sends the int's absolute value (INT_MIN stays INT_MIN) |
| QueueBlink.MessageLineSend | Intro-To-RTOS/05a-queues-multitask/src/main.cpp:79-85 | any other NUL-free typed text goes out as body text + '\n' with count its length + 1, and fits the 20-byte body exactly when fewer than 19 characters were typed |
| QueueBlink.UserCommand.constructor | Intro-To-RTOS/05a-queues-multitask/src/main.cpp:39-44 | an empty 255-byte buffer |
| QueueBlink.UserCommand.Feed | Intro-To-RTOS/05a-queues-multitask/src/main.cpp:54-92 | every character, '\n' included, is stored while index < 254; '\n' sends what the line means and resets the buffer; an echoed line of 20 or more characters is excluded |
| QueueBlink.NextCount | Intro-To-RTOS/05a-queues-multitask/src/main.cpp:118-126 | the blink counter stays in [0, 99] and advances modulo 100 |
| QueueBlink.CountAndReports | Intro-To-RTOS/05a-queues-multitask/src/main.cpp:118-126 | after n blinks from c the counter is (c + n) mod 100 and (c + n) / 100 "# Of Blinks" messages were sent |
| QueueBlink.BlinkTask.constructor | Intro-To-RTOS/05a-queues-multitask/src/main.cpp:100-101 | led_delay 500, counter 0 |
| QueueBlink.BlinkTask.Iterate | Intro-To-RTOS/05a-queues-multitask/src/main.cpp:105-127 | a received delay replaces led_delay and is answered by "New Delay Val: " with that value; the hundredth blink sends "# Of Blinks: " 100 and resets the counter |
| HeapMsg.Block | Intro-To-RTOS/04a-mem-mgmt/src/main.cpp:43-49 | the block holds the index stored bytes, the last replaced by the terminator, so its C string is the line without the '\n' (or without the last character of a full line) |
| HeapMsg.HeapMessage.constructor | Intro-To-RTOS/04a-mem-mgmt/src/main.cpp:17-18 | no message waiting, msg_ptr NULL, empty buffer |
| HeapMsg.HeapMessage.ReadChar | Intro-To-RTOS/04a-mem-mgmt/src/main.cpp:31-54 | '\n' hands the line over in a fresh block and sets the flag exactly when no message is waiting; the buffer is reset either way; the flag is set exactly while a block is held |
| HeapMsg.HeapMessage.PrintStep | Intro-To-RTOS/04a-mem-mgmt/src/main.cpp:63-76 | prints the waiting message, frees it and clears the flag; every handed-over text is printed once, in order |
| Philosophers.Order | Intro-To-RTOS/10c-dining-philosophers-hierarchy/src/main.cpp:36-45 | the choice of index1 and index2 |
| Philosophers.EatOps | Intro-To-RTOS/10c-dining-philosophers-hierarchy/src/main.cpp:47-65 | the take and give calls of eatTask, in program order |
| Philosophers.OrderIsHierarchy | Intro-To-RTOS/10c-dining-philosophers-hierarchy/src/main.cpp:36-45 | index1 < index2 < 5, {index1, index2} = {num, (num + 1) mod 5}, and only num = 4 takes the else branch, giving 0 and 4 |
| Philosophers.EatOpsNest | Intro-To-RTOS/10c-dining-philosophers-hierarchy/src/main.cpp:47-65 | the lower chopstick is taken first, and they are given back in reverse order |
| Philosophers.WaitChainIncreases | Intro-To-RTOS/10c-dining-philosophers-hierarchy/src/main.cpp:47-53 | along a chain of philosophers each waiting for the next one's chopstick, the first chopsticks strictly increase, so no circular wait can form |

## Left out

- The FreeRTOS kernel is not modelled. This covers queues, semaphores,
  mutexes, task notifications, task creation, `vTaskDelay` and scheduling.
  Its effects are booleans or counters inside atomic steps, and a step that
  would block does nothing. Timeouts on `xQueueSend` are not modelled, so a
  full queue is not modelled either.
- Preemption inside a task loop is not modelled. Each ISR run, each
  critical section and each task-loop pass is one atomic step, except that
  the ADC processing task is split at its overrun check.
- Hardware and I/O are not modelled: `analogRead` (a sample is a
  parameter), `ledcWrite`, `ledcSetup`, `digitalWrite`, FastLED, and
  `Serial` input and output. Typed characters are parameters. Printed text
  appears only as the returned values (value shown, echo text, messages).
- `calcAvg` (09c, 12d) and `calcRMS` (09d) are not modelled, since they
  compute in floating point. The model captures only that they read
  `readFrom` while the handshake keeps it stable. 09d:236 indexes with the
  stale `i` (equal to BUF_LEN), an out-of-bounds read, and this is not
  modelled.
- The message queues of 04-CLI-LEDs, 05a, 09c, 09d and 12d are not
  modelled. The model returns what is sent and leaves the receiving,
  printing task out. The 25-byte Command that 04-CLI-LEDs sends is
  modelled. In 09c, 09d and 12d the CLI task reuses its own 100-byte
  `Message rxMsg` both to receive messages and to send its echo
  (09c:149-190, 09d:158-199, 12d:84-124); that sharing is not modelled.
- `strcpy` overflows are preconditions, not behaviour, so a longer line is
  outside the model. The bounds are 25 bytes in 04-CLI-LEDs, 20 in 05a and
  100 in 09c, 09d and 12d.
- CliLeds.Interpret: requires a NUL among the 25 bytes. Without one, atoi
  and `%s` in 04-CLI-LEDs would read past the Command, which C leaves
  undefined. userCLITask's strcpy always writes the terminator
  (InterpretIsLineRequest shows it is present).
- Undefined behaviour of `atoi` outside the `int` range is a precondition.
  `abs(INT_MIN)` is taken as INT_MIN, the two's-complement result.
- `pvPortMalloc` failure, `configASSERT` and the heap statistics of 04a
  are not modelled. A block is a fresh sequence holding the copied bytes,
  and freeing it sets the pointer to none.
- `delayInterval / portTICK_PERIOD_MS` is not modelled. This includes a
  negative delay (-32768 in 04-CLI-LEDs, or a negative value in 02 and
  03a) reaching `vTaskDelay` as a huge tick count.
- setup() of 10c passes `&j` to each task, guarded by a binary semaphore.
  That hand-off is not modelled; each philosopher's number is a parameter.
- RingBuffer.Producer.Step: states "at most three writes, one per turn
  with a free slot", not that all three eventually happen. Waiting for a
  free slot is the kernel's blocking.

## Findings

| source | as written | input that shows it | evidently intended | confidence | as-written member | corrected member |
|---|---|---|---|---|---|---|
| Intro-To-RTOS/12d-multicore-ISR-ADC-buffer-sample/src/main.cpp:70 | `index == 0;` compares and discards, so the ISR index is never reset after a swap | ten ISR runs fill buf0 and swap; after the task finishes, the next run stores nothing and swaps the two stale buffers again, and so on forever | `index = 0;` as in 09c:131 and 09d:140, resuming sampling into the new buffer | not executed | AdcBuffer.MissingResetExample | AdcBuffer.SwapResumesSampling |
