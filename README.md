# Sous-vide controller core in Dafny

This project models the sequential logic of the firmware of an Arduino
sous-vide immersion circulator and proves properties of that model. The
target is an AVR board: `software_Reset` jumps to address 0 with the AVR
instruction `jmp 0` (`lib/myincludes/generic.cpp:9`). There `unsigned int` is
16 bits and `unsigned long`, the type of `millis()`, is 32 bits. There are
three parts:

- **The control loop** (`src/main.cpp`). One call of `loop()` runs:
  - the 2000 ms message-alternation timer;
  - the Ethernet link rule;
  - the wake-on-press and backlight timeout;
  - the menu-return timeout;
  - the out-of-water interlock, which returns early;
  - the 100 ms gated dispatch to the operating-state handlers `on`, `off`,
    `preset` and `tempMenu`.

  `Controller.Step` specifies one iteration as a pure function over an explicit
  state record, with the inputs sampled once: clock, button mask, in-water
  flag and link state. It yields the record of commands the iteration issues
  to the pump, heater (SSR), LED, backlight, LCD and network stack. The class
  `Controller.ControlLoop` holds the firmware's globals as fields. Its methods
  are the firmware's functions, step by step, and each is proved to follow its
  pure counterpart. `LoopProperties` proves what one iteration, and any run
  from start-up, guarantees.
- **Network helpers** (`lib/myincludes/network.cpp`):
  - the subnet-mask contiguity check, with its nested bit loops
    (`SubnetMask`);
  - the line-anchored `Host: ` scanner that copies the header value into a
    bounded buffer (`HttpHost`);
  - the big-endian read of the 32-bit TCP sequence number (`TcpSeq`).
- **Temperature reading** (`lib/myincludes/temperature.cpp`,
  `Temperature`):
  - the resolution-to-latency table;
  - the remaining conversion wait;
  - the loop that overwrites every sensor slot and averages the readings.

Time arithmetic is that of the firmware. Every elapsed-time test is the
32-bit unsigned difference `(now - since) mod 2^32` compared with a strict
`>` (`Clock.Elapsed`, `Clock.Due`).

Some behaviour of the loop that a reader might not expect, all of it
as the code does it:

- `on()` moves from OFF_TURN_ON to OPSTATE_MENU_TEMP (`src/main.cpp:158`).
  The operating-state enum has only the six states the model's `OpState`
  lists.
- Out of the water, the code commands the pump and heater off in every
  state, OFF_TURN_ON included (`src/main.cpp:330-342`).
- The backlight timeout applies in every state, OFF_TURN_ON included
  (`src/main.cpp:312-317`). Only the menu-return timeout exempts
  OFF_TURN_ON (`src/main.cpp:321-322`).
- A press that wakes the backlight only suppresses the dispatch of that
  iteration, through the restamped dispatch time (`src/main.cpp:305-310`).
  Out of the water, the same press still switches the device off when it
  includes OK (`src/main.cpp:356-357`).

## Model

| member | source | states |
|---|---|---|
| Clock.Elapsed | src/main.cpp:315 | `millis() - t` on 32-bit unsigned integers: the plain difference when `t <= now`, `2^32 - t + now` across a wrap-around, always a 32-bit value |
| Clock.Due | src/main.cpp:134 | the strict `millis() - t > threshold` test of every timer; the body is the model, and `Clock.ResetGateIsClosed` and `LoopProperties.DispatchGate` state its properties |
| Clock.ResetGateIsClosed | src/main.cpp:372-376 | a timed gate whose timestamp was just set to `now` cannot fire at `now` |
| Controller.Initial | src/main.cpp:49-103 | the start-up state is OFF_TURN_ON, with the network not initialised and every timestamp a 32-bit clock value |
| Controller.AlternationTick | src/main.cpp:133-138 | the body is the model of `increaseMessageAlternationIndexes`; `LoopProperties.AlternationGate` states its properties |
| Controller.LinkRule | src/main.cpp:271-290 | the body is the model of the link rule; `LoopProperties.LinkStateRule` states its properties |
| Controller.BacklightRule | src/main.cpp:297-317 | the body is the model of the wake-on-press and backlight timeout; `LoopProperties.WakeOnPress` and `LoopProperties.BacklightTimeout` state its properties |
| Controller.MenuReturnRule | src/main.cpp:319-324 | the body is the model of the menu-return timeout; `LoopProperties.MenuReturnTimeout` states its properties |
| Controller.OutOfWater | src/main.cpp:330-360 | the body is the model of the out-of-water interlock; `LoopProperties.OutOfWaterInterlock` states its properties |
| Controller.OnAction | src/main.cpp:146-165 | the body is the model of `on()`; `LoopProperties.InWaterDispatch` and `LoopProperties.PutInWaterThenOk` state its properties |
| Controller.OffAction | src/main.cpp:173-183 | the body is the model of `off()`; `LoopProperties.InWaterDispatch` and `LoopProperties.HandlersKeepOpState` state its properties |
| Controller.PresetAction | src/main.cpp:190-196 | the body is the model of `preset()`, which does nothing; `LoopProperties.HandlersKeepOpState` states it |
| Controller.TempMenuAction | src/main.cpp:203-219 | the body is the model of `tempMenu()`; `LoopProperties.HandlersKeepOpState` and `LoopProperties.InWaterDispatch` state its properties |
| Controller.Prelude | src/main.cpp:263-324 | the stages before the interlock keep every timestamp a 32-bit value and the alternation index below 256 |
| Controller.Dispatch | src/main.cpp:372-397 | the gated handler dispatch keeps the state well formed |
| Controller.Step | src/main.cpp:261-399 | one iteration keeps the state well formed |
| Controller.ControlLoop.constructor | src/main.cpp:49-103 | the globals' initialisers give the state `Initial(now)` |
| Controller.ControlLoop.IncreaseMessageAlternationIndexes | src/main.cpp:133-138 | after strictly more than 2000 ms, the `uint8_t` index steps by one, modulo 256, and the timestamp becomes `now`; otherwise nothing changes |
| Controller.ControlLoop.On | src/main.cpp:146-165 | in OFF_TURN_ON: in the water, show "press OK to start" and go to MENU_TEMP if OK is pressed; otherwise show "put device in water"; other states unchanged |
| Controller.ControlLoop.Off | src/main.cpp:173-183 | in ON_TURN_OFF with OK pressed: pump off, SSR 0, backlight off, LED off; the operating state is kept |
| Controller.ControlLoop.Preset | src/main.cpp:190-196 | changes neither state nor commands |
| Controller.ControlLoop.TempMenu | src/main.cpp:203-219 | in MENU_TEMP, redraws the temperature screen and restamps only after strictly more than 1000 ms; MENU_TEMP_SETUP does nothing |
| Controller.ControlLoop.UpdateLink | src/main.cpp:271-290 | configures the addresses when the link comes up, forgets the network when it goes down, and processes packets only while it stays up |
| Controller.ControlLoop.CheckBacklight | src/main.cpp:297-317 | a press other than the float switch alone restamps the press time and, if the backlight was off, turns it on and restamps the dispatch time; with no press, more than 20000 ms turns the backlight off |
| Controller.ControlLoop.CheckMenuReturn | src/main.cpp:321-324 | more than 30000 ms without a press sends every state but OFF_TURN_ON to MENU_TEMP |
| Controller.ControlLoop.Interlock | src/main.cpp:330-360 | out of the water: pump off and SSR 0; in OFF_TURN_ON, LED off and "put device in water"; otherwise LED red, message by index parity, and OK switches to OFF_TURN_ON |
| Controller.ControlLoop.DispatchOpState | src/main.cpp:372-397 | after strictly more than 100 ms, restamps and runs the handler of the current state: `on` for OFF_TURN_ON, `off` for ON_TURN_OFF, `preset` for the two preset states, and `tempMenu` for MENU_TEMP and MENU_TEMP_SETUP; the switch's `default` cannot be reached with the six-value enum |
| Controller.ControlLoop.Loop | src/main.cpp:261-399 | the new globals and the issued commands are exactly `Step` of the old globals and the sampled inputs, the early return included |
| LoopProperties.LinkStateRule | src/main.cpp:271-290 | after any iteration `netInitialized` equals the link state; packets are processed iff the network was already initialised and the link is up; the addresses are configured iff it was not and the link is up |
| LoopProperties.DispatchFrame | src/main.cpp:380-396 | no handler touches the network state or the message alternation |
| LoopProperties.PreludeOpState | src/main.cpp:297-324 | the state the interlock sees reflects the menu-return timeout only; the dispatch time is `now` exactly after a waking press |
| LoopProperties.WakeOnPress | src/main.cpp:297-311 | a qualifying press restamps the press time; if the backlight was off it turns it on, no handler runs, and the dispatch time becomes `now` |
| LoopProperties.BacklightTimeout | src/main.cpp:312-317 | in the reachable states the backlight is commanded off iff there was no qualifying press and more than 20000 ms have passed, and the backlight flag follows |
| LoopProperties.MenuReturnTimeout | src/main.cpp:319-324 | after the timeout every state but OFF_TURN_ON becomes MENU_TEMP, unless OK out of the water switches it off in the same iteration; OFF_TURN_ON is left only through `on()` |
| LoopProperties.OutOfWaterInterlock | src/main.cpp:330-360 | out of the water, in every state: pump off, SSR 0, no handler runs, and the dispatch time is untouched; LED and message as the interlock prescribes; only OK changes the state, to OFF_TURN_ON |
| LoopProperties.InWaterDispatch | src/main.cpp:361-397 | in the water, pump and SSR are commanded only by `off()`; LED off in OFF_TURN_ON, green in MENU_TEMP; the state changes only by `on()` going to MENU_TEMP on OK |
| LoopProperties.HandlersKeepOpState | src/main.cpp:173-219 | `off`, `preset` and `tempMenu` never change the operating state |
| LoopProperties.DispatchGate | src/main.cpp:372-377 | handlers run iff in the water, not woken this iteration, and more than 100 ms have passed; the dispatch time becomes `now` exactly then or on a waking press |
| LoopProperties.AlternationGate | src/main.cpp:133-138 | after more than 2000 ms the index steps by one, flipping its parity even at the 255-to-0 wrap, and the timestamp is reset; otherwise both are unchanged |
| LoopProperties.IndexStepFlipsParity | src/main.cpp:135 | incrementing a `uint8_t` always flips its parity |
| LoopProperties.StepKeepsReachable | src/main.cpp:261-399 | from OFF_TURN_ON or MENU_TEMP, one iteration reaches only OFF_TURN_ON or MENU_TEMP |
| LoopProperties.RunKeepsReachable | src/main.cpp:261-399 | any number of iterations from a reachable state stays in OFF_TURN_ON or MENU_TEMP |
| LoopProperties.AlwaysReachableFromStart | src/main.cpp:49 | from start-up, `opState` is always OFF_TURN_ON or MENU_TEMP |
| LoopProperties.PutInWaterThenOk | src/main.cpp:146-165 | start-up out of the water shows "put device in water"; in the water (float-switch bit set in the mask), OK then runs `on()` and switches to MENU_TEMP |
| SubnetMask.SubnetMaskValid | lib/myincludes/network.cpp:3-50 | returns true iff, reading octet 0 first and each octet's MSB first, no 1 bit follows a 0 bit |
| SubnetMask.ScanBitsMeaning | lib/myincludes/network.cpp:8-45 | after the first `p` bits the loop has stopped iff some 1 bit followed a 0 bit among them; otherwise `found_zero` is set iff a 0 bit was among them |
| SubnetMask.ScanOctetIsScanBits | lib/myincludes/network.cpp:8-12 | the nested loops, at octet `i` and bit `j`, have scanned exactly the first `8 * i + j` bits in transmission order |
| SubnetMask.ShiftSelectsNextBit | lib/myincludes/network.cpp:28 | shifting the test mask right selects the next lower bit |
| SubnetMask.ContiguousIffPrefix | lib/myincludes/network.cpp:8-49 | a mask is valid iff it is `k` ones followed by `32 - k` zeros for some `k` in 0..32 |
| SubnetMask.Examples | lib/myincludes/network.h:50-55 | 255.255.255.0, 0.0.0.0 and 255.255.255.255 are valid; 255.254.255.0 is not |
| TcpSeq.GetTcpSeq | lib/myincludes/network.cpp:114-123 | the shift-and-or expression on 32-bit integers; the body is the model, and `TcpSeq.GetTcpSeqValue`, `TcpSeq.ReadWrittenSeq` and `TcpSeq.SplitReadSeq` state its properties |
| TcpSeq.GetTcpSeqValue | lib/myincludes/network.cpp:114-123 | the result is `b0 * 2^24 + b1 * 2^16 + b2 * 2^8 + b3` for the bytes at offsets 0x26..0x29 |
| TcpSeq.ReadWrittenSeq | lib/myincludes/network.cpp:117-120 | any 32-bit value written big-endian into the field is read back unchanged |
| TcpSeq.SplitReadSeq | lib/myincludes/network.cpp:117-120 | splitting the value read gives back the field's four bytes |
| TcpSeq.GetTcpSeq16 | lib/myincludes/network.cpp:114-123 | the declared 16-bit `unsigned int` result, where the shifts by 16 and 24 are undefined behaviour; the body models the usual outcome, keeping bytes 2 and 3, and `TcpSeq.GetTcpSeq16Truncates` and `TcpSeq.SequenceNumbersCollideOn16Bits` state its properties |
| TcpSeq.GetTcpSeq16Truncates | lib/myincludes/network.cpp:114-115 | with a 16-bit `unsigned int` the result is the sequence number modulo 2^16 |
| TcpSeq.SequenceNumbersCollideOn16Bits | lib/myincludes/network.cpp:114-123 | two fields whose 32-bit values differ read as the same 16-bit value |
| HttpHost.StrLen | lib/myincludes/network.cpp:65 | `strlen` is the position of the first NUL |
| HttpHost.HostHeaderAt | lib/myincludes/network.cpp:86-91 | the six characters from a position on are `Host: `; `HttpHost.HostHeaderChars` ties it to the firmware's test |
| HttpHost.HostHeaderChars | lib/myincludes/network.cpp:86-91 | the six-character short-circuit test is exactly "`Host: ` starts here" |
| HttpHost.CopyValue | lib/myincludes/network.cpp:95-108 | the copy writes only slots `j..hostname_size-1` of the buffer and never moves backwards in the data |
| HttpHost.ScanFrom | lib/myincludes/network.cpp:65-111 | the scan never writes a slot at or beyond `hostname_size` |
| HttpHost.Extract | lib/myincludes/network.cpp:52-112 | the whole function from `i = 0` to `strlen(data)`; the body is the model, `HttpHost.GetHostnameFromHttpRequest` is proved to follow it, and `HttpHost.ExtractsHostValue`, `HttpHost.NoHostLineLeavesBuffer` and `HttpHost.LongHostValueUnterminated` state its properties |
| HttpHost.GetHostnameFromHttpRequest | lib/myincludes/network.cpp:52-112 | the loops leave the buffer, and end the scan, exactly as `Extract` of the request and the old buffer says |
| HttpHost.NoHostLineNoWrite | lib/myincludes/network.cpp:65-111 | from any position (at a line start if `end_of_line` is set), when no later line starts with `Host: ` the buffer is not written and the loop runs to the end; a `Host: ` in the middle of a line does not matter |
| HttpHost.NoHostLineLeavesBuffer | lib/myincludes/network.cpp:52-112 | a request none of whose lines starts with `Host: ` leaves the buffer unchanged, and the function runs to `strlen(data)` |
| HttpHost.SkipLine | lib/myincludes/network.cpp:70-80 | in the middle of a line the scan moves to the start of the next line at the first CR LF |
| HttpHost.SkipHeader | lib/myincludes/network.cpp:84-91 | a header line that does not start with `Host: ` is passed over |
| HttpHost.SkipHeaders | lib/myincludes/network.cpp:65-111 | any run of such header lines is passed over |
| HttpHost.CopyShortValue | lib/myincludes/network.cpp:95-104 | a CR LF-terminated value shorter than the buffer is copied and followed by NUL |
| HttpHost.CopyLongValue | lib/myincludes/network.cpp:95-108 | a value of `hostname_size` characters or more fills the buffer with its first `hostname_size` characters, with no NUL written |
| HttpHost.ReachesHostLine | lib/myincludes/network.cpp:63-80 | the request line is skipped, never tested for `Host: `, even if it starts with it; the Host line is reached at the start of a line |
| HttpHost.ExtractsHostValue | lib/myincludes/network.cpp:52-112 | request line, other headers, then a Host line whose value is shorter than the buffer: the buffer becomes that value, a NUL, and its old tail, and the function returns |
| HttpHost.LongHostValueUnterminated | lib/myincludes/network.cpp:95-111 | a Host value of `hostname_size` characters or more, with no later line of the request starting with `Host: `: the buffer holds its first `hostname_size` characters with no NUL, and the scan runs to the end |
| HttpHost.LongValueFromHostLine | lib/myincludes/network.cpp:84-111 | from a Host line with a long value, with no later line starting with `Host: `, the copy fills the buffer, the outer loop resumes after the copied characters and runs to the end |
| Temperature.ConversionTime | lib/myincludes/temperature.h:13-15 | 750 ms at 12 bits, halved for each bit less; the body is the model, and `Temperature.DocumentedConversionTimes` states its values |
| Temperature.DocumentedConversionTimes | lib/myincludes/temperature.h:13-15 | the conversion times at 9, 10, 11 and 12 bits are exactly the documented 93.75, 187.5, 375 and 750 ms |
| Temperature.RequiredLatency | lib/myincludes/temperature.cpp:37-56 | for 9..12 bits the wait is the documented conversion time (93.75, 187.5, 375, 750 ms) rounded up to a whole millisecond |
| Temperature.UnknownResolutionAsTwelveBits | lib/myincludes/temperature.cpp:50-55 | any other resolution falls through to the 12-bit latency |
| Temperature.LatencyIncreasing | lib/myincludes/temperature.cpp:38-54 | the latencies strictly increase from 9 to 12 bits |
| Temperature.ConversionWait | lib/myincludes/temperature.cpp:39-54 | the delay never exceeds the latency, elapsed plus delay reaches the latency, and the delay is 0 or ends exactly at the latency |
| Temperature.AverageBounds | lib/myincludes/temperature.cpp:58-63 | readings within `[lo, hi]` average within `[lo, hi]` |
| Temperature.AverageBetweenMinAndMax | lib/myincludes/temperature.cpp:58-63 | the average lies between the smallest and the largest reading |
| Temperature.Sensors.constructor | lib/myincludes/temperature.cpp:12-13 | allocates one slot per sensor |
| Temperature.Sensors.ReadAllTemperatures | lib/myincludes/temperature.cpp:36-64 | returns the wait for the configured 11-bit resolution; every slot of the same array holds its sensor's reading; the average is the sum divided by `numSensors` |

## Left out

- The network stack and packet handling: EtherCard's `packetReceive`/`packetLoop`, `initNetworkAddr` and `eth_link_state_up` are foreign calls. The link state is an input and the packet path is a `packetsProcessed` flag. `processEthernetPacket` is only declared (`lib/myincludes/network.h:43`), and its body is not part of this model.
- `src/main.cpp:400-439`: unreachable after the `return` at line 399, so there is no PID computation, sensor re-arm or setpoint assignment.
- Hardware wrappers and display output: LCD, RGB LED, backlight, `pump_operate` and `ssr_operate` appear only as the commands an iteration issues. `isLcdBacklightOn()` is a `backlightOn` flag that tracks those commands; it starts on, as `setup()` leaves it.
- `readButtons`, `deviceIsInWater`, `BTN_OK` and `BTN_FLOAT_SW` are defined outside these files. The two masks are constants of the controller, and the button mask and in-water flag are inputs.
- The loop reads `millis()` several times per iteration (e.g. `src/main.cpp:134`, 301, 315, 321, 372). The model samples it once, so a clock tick inside one iteration is not modelled. `eth_link_state_up` runs once per iteration: the `&&` at `src/main.cpp:271` skips it when `netInitialized` is true, and line 276 runs only then. The single link input therefore loses nothing. `deviceIsInWater` is called at lines 330 and 149 on the same `buttonsPressed`, and the model takes one in-water flag for both.
- `setup()`, `initTempSensors`, `printTemperature`, `print_macAddress` and all `Serial` output: start-up and debug output. The "Unknown resolution" message of the `default` branch is therefore not modelled.
- `delay()` in `readAllTemperatures`: a blocking wait; the model returns its amount.
- Floating point: readings and the average are reals, without `float` rounding. A disconnected sensor's reading is averaged like any other.
- The string tables (`web_page_strings.h`, `flash_strings.h`) and the web page templating.
- Setpoint editing: the MENU_TEMP_SETUP branch of `tempMenu` and both branches of `preset` are empty in the source, and stay empty here.
- `MIN_TEMPERATURE`/`MAX_TEMPERATURE`: no code in these files uses them.
- HttpHost.GetHostnameFromHttpRequest: a read past the end of the data array is undefined behaviour in the firmware. The model ends the scan there with the outcome `OutOfBounds`. In the firmware that happens when the copy of a Host value reaches the end of the data array before a CR LF and before `hostname_size` characters have been copied, since the copy goes on over the NUL. The data and hostname arrays are assumed distinct. The 16-bit width of the index `unsigned i` is not modelled.
- HttpHost.GetHostnameFromHttpRequest: the function is `void`. The returned outcome is an addition of the model that says how the scan ended.

## Findings

| source | as written | input that shows it | evidently intended | confidence | as-written member | corrected member |
|---|---|---|---|---|---|---|
| lib/myincludes/network.cpp:114-123 | `get_TCP_seq` builds and returns the sequence number in an `unsigned int`, which has 16 bits on this AVR target (`lib/myincludes/generic.cpp:9`). The shifts by 16 and 24 are by at least the operand's width, which C++ leaves undefined. The usual outcome, modelled by `TcpSeq.GetTcpSeq16`, keeps only bytes 2 and 3 of the field. Whatever the shifts yield, a 16-bit result cannot distinguish all 2^32 sequence numbers. The function's caller is `processEthernetPacket`, whose body is not part of this model, so what it does with the truncated value is not modelled | two frames whose sequence number fields are `00 00 00 00` and `00 01 00 00`: different segments, same 16-bit value 0 | the 32-bit value of the 4-byte field (section 3.1 of RFC 793), e.g. in a `uint32_t` | medium, not executed | TcpSeq.SequenceNumbersCollideOn16Bits | TcpSeq.ReadWrittenSeq |
