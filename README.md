# Button, host-link and display logic of the `interface` firmware

The firmware (`interface.c`) runs on a Raspberry Pi Pico board. Two push
buttons (GPIO 5 and 6) toggle a green and a blue LED through a debounced
falling-edge interrupt; a third line (the joystick button, GPIO 22) sends the
chip to its USB bootloader. The main loop reads one byte at a time from the
host: a decimal digit is shown on the NeoPixel LED matrix, `*` clears the
matrix, and every byte is shown on the OLED panel below two status lines
("AZUL LIGADO"/"AZUL DESLIGADO", "VERDE LIGADO"/"VERDE DESLIGADO").

The project models this as:

- `Words`: the `uint32_t`/`uint64_t`/`char` widths, the 64-to-32-bit
  truncation of the microsecond clock and wrapping `uint32_t` subtraction.
- `Debounce`: the gate `current_time - last_time > 200000` on the wrapping
  32-bit clock, with its behaviour across the wrap.
- `HostInput`: which LED-matrix driver calls one byte of host input causes.
- `Display`: the frame `atualiza_display` draws.
- `Machine`: the shared state as a value (`Snapshot`) and each interrupt or
  main-loop pass as one atomic `Step`; lemmas about single steps and about
  whole runs of events.
- `Firmware`: class `DeviceState`, holding the firmware's globals, whose
  methods are the handlers, the refresh and the main loop, each proved to
  move the state exactly as `Machine` says while the firmware is in
  control, that is before any bootloader request.

Behaviour of the code worth noting:

- A press at or before 200000 us after boot is rejected, because both
  stamps start at 0 (interface.c:24-25, 129).
- The main loop blocks on `fgetc`, redraws after every byte and then sleeps
  one second (interface.c:48-65).
- The button handlers redraw the panel themselves, from interrupt context
  (interface.c:138, 154).
- The third line is the C string `{c, '\0'}` (interface.c:182-184). When `c`
  is 0, as it is before the first byte arrives, that string is empty.
- Once the joystick has called `reset_usb_boot` (interface.c:160), which
  does not return, no handler and no pass of the main loop runs again.

## Model

| member | source | states |
|---|---|---|
| Words.Truncate | interface.c:128 | the stored clock value is congruent to the 64-bit reading modulo 2^32 and equals it below 2^32 |
| Words.Sub | interface.c:129 | unsigned subtraction gives the `uint32_t` that added to the old stamp yields the new time modulo 2^32; the plain difference when no wrap occurs, 2^32 minus the gap otherwise |
| Words.SubUnique | interface.c:129 | the wrapped difference is the unique `uint32_t` with that property |
| Debounce.RejectsWithinWindow | interface.c:129-130 | an edge at most 200000 us (mod 2^32) after the stored stamp is rejected |
| Debounce.AcceptsAfterWindow | interface.c:129-130 | an edge more than 200000 us and less than 2^32 us after the stored stamp is accepted |
| Debounce.FromBoot | interface.c:24-25 | with the initial stamp 0 the gate accepts exactly the clock readings above 200000 |
| Debounce.TruncatedDistance | interface.c:128-129 | for real boot times less than 2^32 us apart, the truncated wrapped difference is the real distance |
| Debounce.ShortGapDecision | interface.c:128-129 | for such times the gate accepts iff more than 200000 us really elapsed |
| Debounce.WrapAliasRejected | interface.c:128 | a press one full clock wrap plus at most 200000 us after the last accepted one is rejected |
| HostInput.DigitByte | interface.c:50-51 | the byte spelling digit d is a digit byte and `c - '0'` recovers d |
| HostInput.ShowDigitExactly | interface.c:50-55 | the matrix shows digit d, with colours (0,10,0) and (0,0,0), iff the byte is the digit byte of d, and d is in 0..9 |
| HostInput.ClearExactly | interface.c:56-59 | the matrix is cleared iff the byte is `*`, and then clear is followed by write |
| HostInput.Exclusive | interface.c:50-59 | digit and clear never both happen; a byte that is neither causes no matrix call |
| HostInput.HostDigitsInRange | interface.c:48-59 | over any run of the main loop every shown digit is in 0..9 and comes from a digit byte of the input |
| HostInput.SevenThenClear | interface.c:48-59 | input `7` then `*` shows 7, then clears and flushes the matrix |
| Display.CharString | interface.c:182-184 | the third line has at most one character, is empty iff `c` is 0, and otherwise is `c` |
| Display.RenderShowsState | interface.c:185-192 | line 1 at (5,10) reads "AZUL LIGADO" iff blue is on, line 2 at (5,30) reads "VERDE LIGADO" iff green is on, line 3 at (62,50) shows `c` |
| Display.RenderInjective | interface.c:186-192 | two states that differ in either LED or in `c` never draw the same frame |
| Debounce.Accepts | interface.c:129 | definition of the gate: the wrapped difference between the reading and the stamp exceeds 200000 |
| HostInput.IsDigit | interface.c:50 | definition of the digit test `c >= '0' && c <= '9'` |
| HostInput.MatrixCommands | interface.c:50-59 | definition of the LED-matrix calls of one byte: the digit test, then the `*` test |
| HostInput.HostCommands | interface.c:48-65 | definition of the matrix calls of a run of the main loop: those of each byte, in order |
| Display.Render | interface.c:185-193 | definition of the frame: the blue line, the green line and the character line |
| Machine.PowerOn | interface.c:68-111 | definition of the state after `setup`: LEDs low, stamps 0, `c` 0, panel blank, no bootloader request |
| Machine.Booted | interface.c:44-46 | definition of the state after `setup` and the first `atualiza_display` |
| Machine.Redrawn | interface.c:180-194 | definition of `atualiza_display` on the state: only the panel changes |
| Machine.RedrawIdempotent | interface.c:180-194 | redrawing twice gives the same state as redrawing once, and a state whose panel is in step is left unchanged |
| Machine.PressA | interface.c:127-140 | definition of button A's handler at a truncated reading |
| Machine.PressB | interface.c:142-156 | definition of button B's handler at a truncated reading |
| Machine.Dispatch | interface.c:113-125 | definition of the callback's routing on lines 5, 6 and 22 |
| Machine.Receive | interface.c:49-63 | definition of one main-loop pass on the state: store the byte, redraw |
| Machine.Step | interface.c:49-161 | definition of one atomic event; the identity once the bootloader has been requested |
| Machine.Run | interface.c:49-161 | definition of a run: the events applied in order |
| Firmware.BootAndPressTwice | interface.c:44-140 | after power-on, the first refresh and two presses of A 50 ms apart, the first later than 200000 us after boot (and before the 32-bit clock wraps), the green LED is on and the panel reads "VERDE LIGADO" |
| Machine.ButtonAStep | interface.c:127-140 | button A changes the state iff its gate accepts; then A's stamp becomes the truncated time, green flips, the panel is redrawn, and blue, B's stamp, `c` and the mode are untouched; a rejected edge changes nothing |
| Machine.ButtonBStep | interface.c:142-156 | the same for button B with the blue LED and B's stamp |
| Machine.JoystickStep | interface.c:158-161 | a joystick edge requests the bootloader with no debounce check and changes nothing else |
| Machine.OtherLineStep | interface.c:113-125 | an edge on any line other than 5, 6 and 22 changes nothing |
| Machine.HostCharStep | interface.c:49-63 | a host byte becomes `c` and is shown; LEDs, stamps and mode are untouched |
| Machine.EarlyPressIgnored | interface.c:24-25 | in any state where a button's stamp is still 0 (including during `setup` once interrupts are enabled), a press of it at or before 200000 us leaves the state unchanged |
| Machine.EarlyPressIgnoredAfterBoot | interface.c:24-25 | from the power-on and the booted state, a press of A or B at or before 200000 us leaves the state unchanged |
| Machine.BootloaderIsFinal | interface.c:158-161 | once the bootloader is requested, no sequence of events changes anything |
| Machine.BootloaderSticks | interface.c:158-161 | the bootloader request is never withdrawn later in a run |
| Machine.SyncedOnlyAfterFirstRedraw | interface.c:44-46 | the blank panel after `setup` is not in step with the state; after the first `atualiza_display` it is |
| Machine.RunKeepsSynced | interface.c:49-161 | from a state whose panel is in step with the LEDs and `c`, every event (button edge, joystick edge, other line or host byte) keeps it in step (the power-on state, before the redraw at line 46, is not in step) |
| Machine.StepOnButton | interface.c:127-156 | for one event, a button's stamp and LED change exactly when its gate accepts |
| Machine.StampAndLedAfterRun | interface.c:127-156 | over any run, a button's stamp is its last accepted edge time (or the starting stamp) and its LED has flipped once per accepted edge |
| Machine.AcceptedEdgesSpaced | interface.c:129-130 | over any run, a button's first accepted edge is more than 200000 us (mod 2^32) after the starting stamp and consecutive accepted edges are more than 200000 us apart mod 2^32 |
| Machine.TwoPressesFiftyMsApart | interface.c:127-140 | if the first press of A passes the gate, a second press 50 ms later is rejected, so green flips once and A's stamp stays at the first press |
| Firmware.DeviceState.constructor | interface.c:68-111 | after the globals' initialisation and `setup`: LEDs off, stamps 0, `c` 0, panel blank, no bootloader request |
| Firmware.DeviceState.Refresh | interface.c:180-194 | the panel is redrawn from the LEDs and `c`; nothing else changes |
| Firmware.DeviceState.ButtonAHandler | interface.c:127-140 | the new state is `Machine.PressA` of the old one at the truncated clock reading |
| Firmware.DeviceState.ButtonBHandler | interface.c:142-156 | the new state is `Machine.PressB` of the old one at the truncated clock reading |
| Firmware.DeviceState.JoystickHandler | interface.c:158-161 | only the bootloader flag changes, and it becomes set |
| Firmware.DeviceState.ButtonHandler | interface.c:113-125 | the new state is `Machine.Dispatch` of the old one, which is also `Machine.Step` of the edge event |
| Firmware.DeviceState.ReceiveChar | interface.c:49-63 | the byte is stored and shown (`Machine.Step` of the host-byte event), and the matrix calls are those of `HostInput.MatrixCommands` |
| Firmware.DeviceState.ServeHost | interface.c:48-65 | after the loop over the input the state is the run of its bytes, and the matrix calls are their concatenation |

## Left out

- Hardware bring-up (`stdio_init_all`, `npInit`, `display_init`, GPIO and UART set-up, interrupt registration): only its effect on the modelled state (LEDs low, blank panel) is kept.
- The LED-matrix and OLED drivers (`exibirNumeroComFundo`, `npClear`, `npWrite`, `ssd1306_*`) are not part of this model; their calls are recorded as commands or as the frame last sent.
- `reset_usb_boot` is modelled only as a one-way mode flag; what the bootloader does is not part of this model.
- The clock (`to_us_since_boot(get_absolute_time())`) is a parameter of the handlers; its monotonicity is not assumed.
- `fgetc` is replaced by the byte passed in; its EOF value and the `int`-to-`char` conversion are not modelled.
- The `printf` echoes and log lines, and `sleep_ms(1000)`, are left out: they change no modelled state.
- Concurrency: each interrupt and each pass of the main loop is one atomic step; interleavings inside a handler or inside a pass, and the unsynchronised read of `c` from interrupt context, are not modelled.
- `events`, the second argument of the callback, is unused by the source and left out, as are the unused `RED_PIN`, `BUFFER_SIZE` and `last_time_button_joystick`.
- Firmware.DeviceState.ButtonAHandler: requires that no bootloader request has happened, because `reset_usb_boot` does not return and no handler runs afterwards.
- Firmware.DeviceState.ButtonBHandler: requires that no bootloader request has happened, for the same reason.
- Firmware.DeviceState.JoystickHandler: requires that no bootloader request has happened, for the same reason.
- Firmware.DeviceState.ButtonHandler: requires that no bootloader request has happened, for the same reason.
- Firmware.DeviceState.ReceiveChar: requires that no bootloader request has happened, because the main loop no longer runs after `reset_usb_boot`.
- Firmware.DeviceState.ServeHost: requires that no bootloader request has happened, because `reset_usb_boot` does not return and the main loop then no longer runs.
