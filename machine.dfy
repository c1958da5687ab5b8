/** The device as a state machine over atomic events: a falling edge on a GPIO
    line (handled by the shared interrupt callback) or one byte from the host
    link (one pass of the main loop). */
module Machine {
  import opened Words
  import opened Debounce
  import opened HostInput
  import opened Display

  const BUTTON_A: u32 := 5
  const BUTTON_B: u32 := 6
  const BUTTON_JOYSTICK: u32 := 22

  /** The shared state: the levels of the green and blue LED pins, the last
      accepted edge time of each debounced button, the last host byte, whether
      the joystick has handed the chip to the USB bootloader, and the panel. */
  datatype Snapshot = Snapshot(
    green: bool,
    blue: bool,
    lastA: u32,
    lastB: u32,
    c: u8,
    bootloader: bool,
    screen: Frame)

  /** An interrupt on line `gpio` at `bootUs` microseconds since boot, or a host byte. */
  datatype Event = Edge(gpio: u32, bootUs: u64) | HostChar(b: u8)

  /** The two debounced buttons. */
  datatype Button = ButtonA | ButtonB

  function PinOf(k: Button): u32
  {
    match k
    case ButtonA => BUTTON_A
    case ButtonB => BUTTON_B
  }

  /** The LED a button toggles: A drives green, B drives blue. */
  function Led(s: Snapshot, k: Button): bool
  {
    match k
    case ButtonA => s.green
    case ButtonB => s.blue
  }

  function Stamp(s: Snapshot, k: Button): u32
  {
    match k
    case ButtonA => s.lastA
    case ButtonB => s.lastB
  }

  /** The state once `setup` has run: both LEDs off, both stamps 0, `c` 0
      (a zero-initialised global), the panel blank. */
  function PowerOn(): Snapshot
  {
    Snapshot(false, false, 0, 0, 0, false, BLANK)
  }

  /** `atualiza_display`: redraw the panel from the current state. */
  function Redrawn(s: Snapshot): Snapshot
  {
    s.(screen := Render(s.blue, s.green, s.c))
  }

  /** Redrawing is idempotent, and a panel already in step is not changed by a redraw. */
  lemma RedrawIdempotent(s: Snapshot)
    ensures Redrawn(Redrawn(s)) == Redrawn(s)
    ensures Synced(Redrawn(s))
    ensures Synced(s) ==> Redrawn(s) == s
  {
  }

  /** The state after `setup` and the first redraw at the top of `main`. */
  function Booted(): Snapshot
  {
    Redrawn(PowerOn())
  }

  /** The panel shows the current state. */
  predicate Synced(s: Snapshot)
  {
    s.screen == Render(s.blue, s.green, s.c)
  }

  /** `gpio_button_a_handler` at truncated time `now`. */
  function PressA(s: Snapshot, now: u32): Snapshot
  {
    if Accepts(s.lastA, now) then Redrawn(s.(lastA := now, green := !s.green)) else s
  }

  /** `gpio_button_b_handler` at truncated time `now`. */
  function PressB(s: Snapshot, now: u32): Snapshot
  {
    if Accepts(s.lastB, now) then Redrawn(s.(lastB := now, blue := !s.blue)) else s
  }

  /** `gpio_button_handler`: route by line number; the handlers of A and B read
      the clock and keep its low 32 bits; the joystick goes to the bootloader
      with no gate; any other line is ignored. */
  function Dispatch(s: Snapshot, gpio: u32, bootUs: u64): Snapshot
  {
    if gpio == BUTTON_A then PressA(s, Truncate(bootUs))
    else if gpio == BUTTON_B then PressB(s, Truncate(bootUs))
    else if gpio == BUTTON_JOYSTICK then s.(bootloader := true)
    else s
  }

  /** One pass of the main loop on byte `b`: store it, then redraw. */
  function Receive(s: Snapshot, b: u8): Snapshot
  {
    Redrawn(s.(c := b))
  }

  /** One atomic event. `reset_usb_boot` never returns, so once the bootloader
      has been requested the firmware handles nothing more. */
  function Step(s: Snapshot, e: Event): Snapshot
  {
    if s.bootloader then s
    else match e
      case Edge(gpio, t) => Dispatch(s, gpio, t)
      case HostChar(b) => Receive(s, b)
  }

  /** The state after the events `es`, in order. */
  function Run(s: Snapshot, es: seq<Event>): Snapshot
    decreases |es|
  {
    if |es| == 0 then s else Step(Run(s, es[..|es| - 1]), es[|es| - 1])
  }

  /** Whether event `e` passes button `k`'s gate in state `s`. */
  predicate Accepted(s: Snapshot, e: Event, k: Button)
  {
    !s.bootloader && e.Edge? && e.gpio == PinOf(k) && Accepts(Stamp(s, k), Truncate(e.bootUs))
  }

  /** The truncated times of the edges on button `k` that its gate accepted during `es`. */
  function AcceptedTimes(s: Snapshot, es: seq<Event>, k: Button): seq<u32>
    decreases |es|
  {
    if |es| == 0 then []
    else
      var pre, e := es[..|es| - 1], es[|es| - 1];
      AcceptedTimes(s, pre, k) + (if Accepted(Run(s, pre), e, k) then [Truncate(e.bootUs)] else [])
  }

  /** Button A's handler changes the state exactly when its gate accepts; an
      accepted edge stores the new time, flips the green LED, redraws, and
      leaves the blue LED, B's stamp, `c` and the mode alone. */
  lemma ButtonAStep(s: Snapshot, t: u64)
    requires !s.bootloader
    ensures Step(s, Edge(BUTTON_A, t)) != s <==> Accepts(s.lastA, Truncate(t))
    ensures !Accepts(s.lastA, Truncate(t)) ==> Step(s, Edge(BUTTON_A, t)) == s
    ensures Accepts(s.lastA, Truncate(t)) ==>
      var s' := Step(s, Edge(BUTTON_A, t));
      && s'.lastA == Truncate(t) && s'.green == !s.green
      && s'.blue == s.blue && s'.lastB == s.lastB && s'.c == s.c && !s'.bootloader
      && Synced(s')
  {
  }

  /** The same for button B and the blue LED. */
  lemma ButtonBStep(s: Snapshot, t: u64)
    requires !s.bootloader
    ensures Step(s, Edge(BUTTON_B, t)) != s <==> Accepts(s.lastB, Truncate(t))
    ensures !Accepts(s.lastB, Truncate(t)) ==> Step(s, Edge(BUTTON_B, t)) == s
    ensures Accepts(s.lastB, Truncate(t)) ==>
      var s' := Step(s, Edge(BUTTON_B, t));
      && s'.lastB == Truncate(t) && s'.blue == !s.blue
      && s'.green == s.green && s'.lastA == s.lastA && s'.c == s.c && !s'.bootloader
      && Synced(s')
  {
  }

  /** The joystick requests the bootloader whatever the clock and the stamps say,
      and changes nothing else. */
  lemma JoystickStep(s: Snapshot, t: u64)
    requires !s.bootloader
    ensures Step(s, Edge(BUTTON_JOYSTICK, t)) == s.(bootloader := true)
  {
  }

  /** Edges on any line other than 5, 6 and 22 change nothing. */
  lemma OtherLineStep(s: Snapshot, gpio: u32, t: u64)
    requires gpio != BUTTON_A && gpio != BUTTON_B && gpio != BUTTON_JOYSTICK
    ensures Step(s, Edge(gpio, t)) == s
  {
  }

  /** A host byte is stored and shown; LEDs, stamps and mode are untouched. */
  lemma HostCharStep(s: Snapshot, b: u8)
    requires !s.bootloader
    ensures var s' := Step(s, HostChar(b));
      s'.c == b && s'.green == s.green && s'.blue == s.blue
      && s'.lastA == s.lastA && s'.lastB == s.lastB && !s'.bootloader && Synced(s')
  {
  }

  /** While a button's stamp is still its initial 0 (during `setup` once the
      interrupts are enabled, or right after boot), a press of it at or before
      200000 us is rejected. */
  lemma EarlyPressIgnored(s: Snapshot, k: Button, t: u64)
    requires !s.bootloader && Stamp(s, k) == 0 && t <= WINDOW_US
    ensures Step(s, Edge(PinOf(k), t)) == s
  {
  }

  /** In particular from the power-on state and from the booted state. */
  lemma EarlyPressIgnoredAfterBoot(k: Button, t: u64)
    requires t <= WINDOW_US
    ensures Step(PowerOn(), Edge(PinOf(k), t)) == PowerOn()
    ensures Step(Booted(), Edge(PinOf(k), t)) == Booted()
  {
    EarlyPressIgnored(PowerOn(), k, t);
    EarlyPressIgnored(Booted(), k, t);
  }

  /** Once the bootloader has been requested no event changes anything. */
  lemma {:induction false} BootloaderIsFinal(s: Snapshot, es: seq<Event>)
    requires s.bootloader
    ensures Run(s, es) == s
    decreases |es|
  {
    if |es| > 0 {
      BootloaderIsFinal(s, es[..|es| - 1]);
    }
  }

  /** The bootloader request is never withdrawn. */
  lemma {:induction false} BootloaderSticks(s: Snapshot, es: seq<Event>, n: nat)
    requires n <= |es| && Run(s, es[..n]).bootloader
    ensures Run(s, es).bootloader
    decreases |es| - n
  {
    if n < |es| {
      assert es[..n + 1][..n] == es[..n];
      BootloaderSticks(s, es, n + 1);
    } else {
      assert es[..n] == es;
    }
  }

  /** The blank panel left by `setup` is not in step with the state until the
      redraw at the top of `main`; after it, it is. */
  lemma SyncedOnlyAfterFirstRedraw()
    ensures !Synced(PowerOn())
    ensures Synced(Booted())
  {
    assert |PowerOn().screen.texts| == 0;
  }

  /** Every event keeps the panel in step with the state. */
  lemma {:induction false} RunKeepsSynced(s: Snapshot, es: seq<Event>)
    requires Synced(s)
    ensures Synced(Run(s, es))
    decreases |es|
  {
    if |es| > 0 {
      RunKeepsSynced(s, es[..|es| - 1]);
    }
  }

  /** One event seen from button `k`: its stamp and LED move exactly when its gate accepts. */
  lemma StepOnButton(s: Snapshot, e: Event, k: Button)
    ensures Stamp(Step(s, e), k) == if Accepted(s, e, k) then Truncate(e.bootUs) else Stamp(s, k)
    ensures Led(Step(s, e), k) == (Led(s, k) != Accepted(s, e, k))
  {
  }

  /** The last element of `acc`, or `otherwise` when it is empty. */
  function LastOr(acc: seq<u32>, otherwise: u32): u32
  {
    if |acc| == 0 then otherwise else acc[|acc| - 1]
  }

  /** Over any run, for either button: its stamp is the last accepted time and
      its LED has flipped once per accepted edge. */
  lemma {:induction false} StampAndLedAfterRun(s: Snapshot, es: seq<Event>, k: Button)
    ensures Stamp(Run(s, es), k) == LastOr(AcceptedTimes(s, es, k), Stamp(s, k))
    ensures Led(Run(s, es), k) == (Led(s, k) != (|AcceptedTimes(s, es, k)| % 2 == 1))
    decreases |es|
  {
    if |es| > 0 {
      var pre, e := es[..|es| - 1], es[|es| - 1];
      var r := Run(s, pre);
      StampAndLedAfterRun(s, pre, k);
      StepOnButton(r, e, k);
      var accPre := AcceptedTimes(s, pre, k);
      if Accepted(r, e, k) {
        assert AcceptedTimes(s, es, k) == accPre + [Truncate(e.bootUs)];
      } else {
        assert AcceptedTimes(s, es, k) == accPre;
      }
    }
  }

  /** Over any run, for either button: the first accepted edge is more than
      200 ms (mod 2^32) after the starting stamp, and every two consecutive
      accepted edges are more than 200 ms (mod 2^32) apart. */
  lemma {:induction false} AcceptedEdgesSpaced(s: Snapshot, es: seq<Event>, k: Button)
    ensures var acc := AcceptedTimes(s, es, k);
      && (|acc| > 0 ==> Accepts(Stamp(s, k), acc[0]))
      && (forall i :: 0 < i < |acc| ==> Accepts(acc[i - 1], acc[i]))
    decreases |es|
  {
    if |es| > 0 {
      var pre, e := es[..|es| - 1], es[|es| - 1];
      var accPre := AcceptedTimes(s, pre, k);
      AcceptedEdgesSpaced(s, pre, k);
      if Accepted(Run(s, pre), e, k) {
        StampAndLedAfterRun(s, pre, k);
        var acc := accPre + [Truncate(e.bootUs)];
        assert AcceptedTimes(s, es, k) == acc;
        assert Accepts(LastOr(accPre, Stamp(s, k)), acc[|acc| - 1]);
      } else {
        assert AcceptedTimes(s, es, k) == accPre;
      }
    }
  }

  /** Two presses of A 50 ms apart: only the first toggles the green LED. */
  lemma TwoPressesFiftyMsApart(s: Snapshot, t: u64)
    requires !s.bootloader && Accepts(s.lastA, Truncate(t))
    requires t + 50000 < MOD64
    ensures var s' := Run(s, [Edge(BUTTON_A, t), Edge(BUTTON_A, t + 50000)]);
      s'.green == !s.green && s'.lastA == Truncate(t)
  {
    var es := [Edge(BUTTON_A, t), Edge(BUTTON_A, t + 50000)];
    assert es[..1] == [Edge(BUTTON_A, t)] && es[..1][..0] == [];
    var s1 := Step(s, Edge(BUTTON_A, t));
    assert Run(s, es[..1]) == s1;
    ButtonAStep(s, t);
    ShortGapDecision(t, t + 50000);
    ButtonAStep(s1, t + 50000);
    assert Run(s, es) == s1;
  }
}
