/** The firmware's globals and the code that updates them in place: the GPIO
    interrupt callback with its three handlers, the display refresh, and the
    main loop over the host link. Every method is proved against the event
    machine of module Machine. */
module Firmware {
  import opened Words
  import opened Debounce
  import opened HostInput
  import opened Display
  import opened Machine

  class DeviceState {
    /** Output levels of GREEN_PIN and BLUE_PIN, as `gpio_get` reads them back. */
    var green: bool
    var blue: bool
    /** `last_time_button_a` and `last_time_button_b`. */
    var lastA: u32
    var lastB: u32
    /** The global `c`: the last byte read from the host link. */
    var c: u8
    /** Set once `reset_usb_boot` has been called. */
    var bootloader: bool
    /** What the OLED panel shows. */
    var screen: Frame

    function Snap(): Snapshot
      reads this
    {
      Snapshot(green, blue, lastA, lastB, c, bootloader, screen)
    }

    /** The globals' initial values and `setup`: both LEDs driven low, the panel cleared. */
    constructor ()
      ensures Snap() == PowerOn()
    {
      green, blue := false, false;
      lastA, lastB := 0, 0;
      c := 0;
      bootloader := false;
      screen := BLANK;
    }

    /** `atualiza_display`. */
    method Refresh()
      modifies this
      ensures Snap() == Redrawn(old(Snap()))
    {
      screen := Render(blue, green, c);
    }

    /** `gpio_button_a_handler`, with the clock reading `bootUs` passed in. */
    method ButtonAHandler(bootUs: u64)
      requires !bootloader
      modifies this
      ensures Snap() == PressA(old(Snap()), Truncate(bootUs))
    {
      var currentTime := Truncate(bootUs);
      if Sub(currentTime, lastA) > WINDOW_US {
        lastA := currentTime;
        if green {
          green := false;
        } else {
          green := true;
        }
        Refresh();
      }
    }

    /** `gpio_button_b_handler`, with the clock reading `bootUs` passed in. */
    method ButtonBHandler(bootUs: u64)
      requires !bootloader
      modifies this
      ensures Snap() == PressB(old(Snap()), Truncate(bootUs))
    {
      var currentTime := Truncate(bootUs);
      if Sub(currentTime, lastB) > WINDOW_US {
        lastB := currentTime;
        if blue {
          blue := false;
        } else {
          blue := true;
        }
        Refresh();
      }
    }

    /** `gpio_button_joystick_handler`: hand the chip to the USB bootloader. */
    method JoystickHandler()
      requires !bootloader
      modifies this
      ensures Snap() == old(Snap()).(bootloader := true)
    {
      bootloader := true;
    }

    /** `gpio_button_handler`: the callback registered for all three lines. */
    method ButtonHandler(gpio: u32, bootUs: u64)
      requires !bootloader
      modifies this
      ensures Snap() == Dispatch(old(Snap()), gpio, bootUs)
      ensures Snap() == Step(old(Snap()), Edge(gpio, bootUs))
    {
      if gpio == BUTTON_A {
        ButtonAHandler(bootUs);
      } else if gpio == BUTTON_B {
        ButtonBHandler(bootUs);
      } else if gpio == BUTTON_JOYSTICK {
        JoystickHandler();
      }
    }

    /** One pass of the main loop on byte `b`; returns the LED-matrix calls it makes. */
    method ReceiveChar(b: u8) returns (cmds: seq<MatrixCommand>)
      requires !bootloader
      modifies this
      ensures Snap() == Receive(old(Snap()), b)
      ensures Snap() == Step(old(Snap()), HostChar(b))
      ensures cmds == MatrixCommands(b)
    {
      c := b;
      cmds := [];
      if DIGIT_ZERO <= c <= DIGIT_NINE {
        cmds := cmds + [ShowDigit(c - DIGIT_ZERO, DIGIT_FIRST_COLOUR, DIGIT_SECOND_COLOUR)];
      }
      if c == CLEAR_MARK {
        cmds := cmds + [Clear, Write];
      }
      Refresh();
    }

    /** The main loop over the bytes `input` the host sends; it runs while the
        firmware is in control, that is before any bootloader request. */
    method ServeHost(input: seq<u8>) returns (cmds: seq<MatrixCommand>)
      requires !bootloader
      modifies this
      ensures Snap() == Run(old(Snap()), seq(|input|, i requires 0 <= i < |input| => HostChar(input[i])))
      ensures cmds == HostCommands(input)
    {
      ghost var events := seq(|input|, i requires 0 <= i < |input| => HostChar(input[i]));
      ghost var start := Snap();
      cmds := [];
      var n := 0;
      while n < |input|
        invariant 0 <= n <= |input|
        invariant Snap() == Run(start, events[..n])
        invariant !bootloader
        invariant cmds == HostCommands(input[..n])
      {
        var more := ReceiveChar(input[n]);
        assert events[..n + 1][..n] == events[..n];
        assert input[..n + 1][..n] == input[..n];
        cmds := cmds + more;
        n := n + 1;
      }
      assert events[..n] == events;
      assert input[..n] == input;
    }
  }

  /** Power-on, the first refresh of `main`, then two presses of A 50 ms apart:
      the green LED ends on and the panel says so. */
  method BootAndPressTwice(t: u64) returns (green: bool, greenLine: string)
    requires WINDOW_US < t < MOD32 - 50000
    ensures green && greenLine == GREEN_ON
  {
    var d := new DeviceState();
    d.Refresh();
    assert d.Snap() == Booted();
    d.ButtonHandler(BUTTON_A, t);
    assert d.green;
    ShortGapDecision(t, t + 50000);
    d.ButtonHandler(BUTTON_A, t + 50000);
    assert d.green && d.lastA == t;
    green, greenLine := d.green, d.screen.texts[1].s;
  }
}
