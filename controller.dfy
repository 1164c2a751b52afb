/** One iteration of the appliance's cooperative control loop: the
    alternation timer, the network link rule, the backlight and menu-return
    timeouts, the out-of-water interlock and the 100 ms dispatch of the
    operating-state handlers.

    The pure functions below specify one call of `loop()` over an explicit
    state record; the class `ControlLoop` holds the same state as mutable
    fields, the way the firmware keeps it in globals, and its methods are
    proved to follow the functions. */
module Controller {
  import opened Clock

  datatype Option<T> = None | Some(value: T)

  /** The operating states of the menu/control machine. */
  datatype OpState =
    | OffTurnOn          // "Press OK to start"
    | OnTurnOff          // "Press OK to turn off"
    | MenuTemp           // current and desired temperatures
    | MenuTempSetup
    | MenuPreset
    | MenuPresetChoose

  /** Colours the loop gives the RGB LED. */
  datatype Led = LedOff | LedRed | LedGreen

  /** The two-line LCD messages the loop prints. */
  datatype Screen =
    | PressOkToStart     // "Press the "OK"" / "button to start"
    | PutDeviceInWater   // "Please put" / "device in water"
    | OrTurnOff          // "Or press "OK"" / "to turn off"
    | TemperatureScreen  // the temperature menu's screen

  const LCD_BACKLIGHT_TIMEOUT: nat := 20000
  const MENU_RETURN_TIMEOUT: nat := 30000
  /** Minimum spacing of two operating-state handler runs. */
  const OPSTATE_FUNC_INTERVAL: nat := 100
  /** Spacing of two steps of the alternating LCD messages. */
  const ALTERNATION_INTERVAL: nat := 2000
  /** Spacing of two redraws of the temperature screen. */
  const TEMP_PRINT_INTERVAL: nat := 1000
  /** The alternation index is a `uint8_t`. */
  const ALTERNATION_WRAP: nat := 256

  /** The bits of the button mask that mean "OK pressed" and "float switch
      closed"; their values are defined outside this model. */
  datatype Keys = Keys(ok: bv8, floatSwitch: bv8)

  /** What one iteration samples: the clock, the button mask, whether the
      device is in the water and whether the Ethernet link is up. */
  datatype Inputs = Inputs(now: nat, buttons: bv8, inWater: bool, linkUp: bool)

  /** The loop's mutable globals, plus the backlight state it queries. */
  datatype Ctl = Ctl(
    opState: OpState,
    lastTimeButtonWasPressed: nat,
    lastTimeExecutedOpStateFunc: nat,
    lastTimeAlternatedMessage: nat,
    lastSincePrintTemp: nat,
    alternationIndex: nat,
    netInitialized: bool,
    backlightOn: bool)

  predicate WellFormed(s: Ctl) {
    && IsMillis(s.lastTimeButtonWasPressed)
    && IsMillis(s.lastTimeExecutedOpStateFunc)
    && IsMillis(s.lastTimeAlternatedMessage)
    && IsMillis(s.lastSincePrintTemp)
    && s.alternationIndex < ALTERNATION_WRAP
  }

  /** The commands one iteration issues to the hardware and the network
      stack. Each `Option` is the last command of its kind in the iteration,
      `None` when the iteration leaves that output alone. */
  datatype Commands = Commands(
    pump: Option<bool>,
    ssr: Option<bv8>,
    led: Option<Led>,
    backlight: Option<bool>,
    screen: Option<Screen>,
    netAddrInitialized: bool,   // the network addresses were (re)configured
    packetsProcessed: bool,     // the packet receive/process path ran
    dispatched: bool)           // an operating-state handler ran

  const NoCommands: Commands := Commands(None, None, None, None, None, false, false, false)

  datatype StepResult = StepResult(state: Ctl, cmds: Commands)

  /** State after the globals' initialisers and `setup()`: every timestamp
      is the clock value at start-up and the backlight is on. */
  function Initial(now: nat): (s: Ctl)
    requires IsMillis(now)
    ensures WellFormed(s) && s.opState == OffTurnOn && !s.netInitialized
  {
    Ctl(OffTurnOn, now, now, now, now, 0, false, true)
  }

  predicate OkPressed(keys: Keys, buttons: bv8) {
    buttons & keys.ok != 0
  }

  /** A press that counts as user activity: anything but no button at all
      or the float switch alone. */
  predicate ButtonPressed(keys: Keys, buttons: bv8) {
    buttons != 0 && buttons != keys.floatSwitch
  }

  /** The states the shown code can reach. */
  predicate Reachable(s: Ctl) {
    s.opState == OffTurnOn || s.opState == MenuTemp
  }

  // ---------------------------------------------------------------------
  // The pieces of one iteration, in the order the loop runs them.

  function AlternationTick(s: Ctl, now: nat): Ctl
    requires WellFormed(s) && IsMillis(now)
  {
    if Due(now, s.lastTimeAlternatedMessage, ALTERNATION_INTERVAL) then
      s.(alternationIndex := (s.alternationIndex + 1) % ALTERNATION_WRAP,
         lastTimeAlternatedMessage := now)
    else
      s
  }

  function LinkRule(s: Ctl, linkUp: bool, c: Commands): StepResult {
    if !s.netInitialized && linkUp then
      StepResult(s.(netInitialized := true), c.(netAddrInitialized := true))
    else if s.netInitialized then
      if !linkUp then StepResult(s.(netInitialized := false), c)
      else StepResult(s, c.(packetsProcessed := true))
    else
      StepResult(s, c)
  }

  function BacklightRule(s: Ctl, keys: Keys, now: nat, buttons: bv8, c: Commands): StepResult
    requires WellFormed(s) && IsMillis(now)
  {
    if ButtonPressed(keys, buttons) then
      if !s.backlightOn then
        StepResult(s.(lastTimeButtonWasPressed := now, backlightOn := true,
                      lastTimeExecutedOpStateFunc := now),
                   c.(backlight := Some(true)))
      else
        StepResult(s.(lastTimeButtonWasPressed := now), c)
    else if Due(now, s.lastTimeButtonWasPressed, LCD_BACKLIGHT_TIMEOUT) then
      StepResult(s.(backlightOn := false), c.(backlight := Some(false)))
    else
      StepResult(s, c)
  }

  function MenuReturnRule(s: Ctl, now: nat): Ctl
    requires WellFormed(s) && IsMillis(now)
  {
    if Due(now, s.lastTimeButtonWasPressed, MENU_RETURN_TIMEOUT) && s.opState != OffTurnOn then
      s.(opState := MenuTemp)
    else
      s
  }

  /** Everything the loop does before the out-of-water test. */
  function Prelude(s: Ctl, keys: Keys, inp: Inputs): (r: StepResult)
    requires WellFormed(s) && IsMillis(inp.now)
    ensures WellFormed(r.state)
  {
    var s1 := AlternationTick(s, inp.now);
    var r2 := LinkRule(s1, inp.linkUp, NoCommands);
    var r3 := BacklightRule(r2.state, keys, inp.now, inp.buttons, r2.cmds);
    StepResult(MenuReturnRule(r3.state, inp.now), r3.cmds)
  }

  /** The interlock branch, after which the loop returns. */
  function OutOfWater(s: Ctl, keys: Keys, buttons: bv8, c: Commands): StepResult {
    var c1 := c.(pump := Some(false), ssr := Some(0));
    if s.opState == OffTurnOn then
      StepResult(s, c1.(led := Some(LedOff), screen := Some(PutDeviceInWater)))
    else
      var msg := if s.alternationIndex % 2 == 0 then PutDeviceInWater else OrTurnOff;
      var c2 := c1.(led := Some(LedRed), screen := Some(msg));
      if OkPressed(keys, buttons) then StepResult(s.(opState := OffTurnOn), c2)
      else StepResult(s, c2)
  }

  /** `on()`: in OFF_TURN_ON, switch on when in the water and OK is pressed. */
  function OnAction(s: Ctl, keys: Keys, buttons: bv8, inWater: bool, c: Commands): StepResult {
    if s.opState == OffTurnOn then
      if inWater then
        var c1 := c.(screen := Some(PressOkToStart));
        if OkPressed(keys, buttons) then StepResult(s.(opState := MenuTemp), c1)
        else StepResult(s, c1)
      else
        StepResult(s, c.(screen := Some(PutDeviceInWater)))
    else
      StepResult(s, c)
  }

  /** `off()`: in ON_TURN_OFF, OK stops the pump and heater and darkens the
      display and LED. */
  function OffAction(s: Ctl, keys: Keys, buttons: bv8, c: Commands): StepResult {
    if s.opState == OnTurnOff && OkPressed(keys, buttons) then
      StepResult(s.(backlightOn := false),
                 c.(pump := Some(false), ssr := Some(0), backlight := Some(false), led := Some(LedOff)))
    else
      StepResult(s, c)
  }

  /** `preset()`: both of its branches are empty. */
  function PresetAction(s: Ctl, buttons: bv8, c: Commands): StepResult {
    StepResult(s, c)
  }

  /** `tempMenu()`: in MENU_TEMP, redraw the screen at most once a second;
      its MENU_TEMP_SETUP branch is empty. */
  function TempMenuAction(s: Ctl, now: nat, c: Commands): StepResult
    requires WellFormed(s) && IsMillis(now)
  {
    if s.opState == MenuTemp && Due(now, s.lastSincePrintTemp, TEMP_PRINT_INTERVAL) then
      StepResult(s.(lastSincePrintTemp := now), c.(screen := Some(TemperatureScreen)))
    else
      StepResult(s, c)
  }

  /** The 100 ms gate and the switch over the operating state. */
  function Dispatch(s: Ctl, keys: Keys, inp: Inputs, c: Commands): (r: StepResult)
    requires WellFormed(s) && IsMillis(inp.now)
    ensures WellFormed(r.state)
  {
    if Due(inp.now, s.lastTimeExecutedOpStateFunc, OPSTATE_FUNC_INTERVAL) then
      var s1 := s.(lastTimeExecutedOpStateFunc := inp.now);
      var c1 := c.(dispatched := true);
      match s.opState
      case OffTurnOn => OnAction(s1, keys, inp.buttons, inp.inWater, c1)
      case OnTurnOff => OffAction(s1, keys, inp.buttons, c1)
      case MenuPreset | MenuPresetChoose => PresetAction(s1, inp.buttons, c1)
      case MenuTemp | MenuTempSetup => TempMenuAction(s1, inp.now, c1)
    else
      StepResult(s, c)
  }

  /** One call of `loop()`. */
  function Step(s: Ctl, keys: Keys, inp: Inputs): (r: StepResult)
    requires WellFormed(s) && IsMillis(inp.now)
    ensures WellFormed(r.state)
  {
    var p := Prelude(s, keys, inp);
    if !inp.inWater then
      OutOfWater(p.state, keys, inp.buttons, p.cmds)
    else
      var led := if p.state.opState == OffTurnOn then LedOff else LedGreen;
      Dispatch(p.state, keys, inp, p.cmds.(led := Some(led)))
  }

  /** The loop run over a sequence of iterations. */
  function Run(s: Ctl, keys: Keys, inputs: seq<Inputs>): Ctl
    requires WellFormed(s)
    requires forall k :: 0 <= k < |inputs| ==> IsMillis(inputs[k].now)
    decreases |inputs|
  {
    if inputs == [] then s
    else
      Run(Step(s, keys, inputs[0]).state, keys, inputs[1..])
  }

  // ---------------------------------------------------------------------
  // The firmware's globals and its loop functions, as a class.

  class ControlLoop {
    /** BTN_OK and BTN_FLOAT_SW. */
    const keys: Keys

    var opState: OpState
    var lastTimeButtonWasPressed: nat
    var lastTimeExecutedOpStateFunc: nat
    var lastTimeAlternatedMessage: nat
    var lastSincePrintTemp: nat
    var alternationIndex: nat
    var netInitialized: bool
    var backlightOn: bool

    function State(): Ctl
      reads this
    {
      Ctl(opState, lastTimeButtonWasPressed, lastTimeExecutedOpStateFunc,
          lastTimeAlternatedMessage, lastSincePrintTemp, alternationIndex,
          netInitialized, backlightOn)
    }

    ghost predicate Valid()
      reads this
    {
      WellFormed(State())
    }

    /** The globals' initialisers, with the clock read once at start-up. */
    constructor (keys: Keys, now: nat)
      requires IsMillis(now)
      ensures Valid() && this.keys == keys && State() == Initial(now)
    {
      this.keys := keys;
      opState := OffTurnOn;
      lastTimeButtonWasPressed := now;
      lastTimeExecutedOpStateFunc := now;
      lastTimeAlternatedMessage := now;
      lastSincePrintTemp := now;
      alternationIndex := 0;
      netInitialized := false;
      backlightOn := true;
    }

    method IncreaseMessageAlternationIndexes(now: nat)
      requires Valid() && IsMillis(now)
      modifies this
      ensures Valid() && State() == AlternationTick(old(State()), now)
    {
      if Elapsed(now, lastTimeAlternatedMessage) > ALTERNATION_INTERVAL {
        alternationIndex := (alternationIndex + 1) % ALTERNATION_WRAP;
        lastTimeAlternatedMessage := now;
      }
    }

    method On(buttons: bv8, inWater: bool, c: Commands) returns (c': Commands)
      requires Valid()
      modifies this
      ensures Valid() && StepResult(State(), c') == OnAction(old(State()), keys, buttons, inWater, c)
    {
      c' := c;
      if opState == OffTurnOn {
        if inWater {
          c' := c'.(screen := Some(PressOkToStart));
          if buttons & keys.ok != 0 {
            opState := MenuTemp;
          }
        } else {
          c' := c'.(screen := Some(PutDeviceInWater));
        }
      }
    }

    method Off(buttons: bv8, c: Commands) returns (c': Commands)
      requires Valid()
      modifies this
      ensures Valid() && StepResult(State(), c') == OffAction(old(State()), keys, buttons, c)
    {
      c' := c;
      if opState == OnTurnOff {
        if buttons & keys.ok != 0 {
          c' := c'.(pump := Some(false), ssr := Some(0));
          backlightOn := false;
          c' := c'.(backlight := Some(false), led := Some(LedOff));
        }
      }
    }

    method Preset(buttons: bv8, c: Commands) returns (c': Commands)
      requires Valid()
      ensures StepResult(State(), c') == PresetAction(State(), buttons, c)
    {
      c' := c;
    }

    method TempMenu(now: nat, c: Commands) returns (c': Commands)
      requires Valid() && IsMillis(now)
      modifies this
      ensures Valid() && StepResult(State(), c') == TempMenuAction(old(State()), now, c)
    {
      c' := c;
      if opState == MenuTemp {
        if Elapsed(now, lastSincePrintTemp) > TEMP_PRINT_INTERVAL {
          c' := c'.(screen := Some(TemperatureScreen));
          lastSincePrintTemp := now;
        }
      }
    }

    /** The link-state rule of `loop()`. */
    method UpdateLink(linkUp: bool, c: Commands) returns (c': Commands)
      requires Valid()
      modifies this
      ensures Valid() && StepResult(State(), c') == LinkRule(old(State()), linkUp, c)
    {
      c' := c;
      if netInitialized == false && linkUp == true {
        netInitialized := true;
        c' := c'.(netAddrInitialized := true);
      } else if netInitialized == true {
        if linkUp == false {
          netInitialized := false;
        } else {
          c' := c'.(packetsProcessed := true);
        }
      }
    }

    /** The wake-on-press and backlight-timeout rule of `loop()`. */
    method CheckBacklight(now: nat, buttons: bv8, c: Commands) returns (c': Commands)
      requires Valid() && IsMillis(now)
      modifies this
      ensures Valid() && StepResult(State(), c') == BacklightRule(old(State()), keys, now, buttons, c)
    {
      c' := c;
      if buttons != 0 && buttons != keys.floatSwitch {
        lastTimeButtonWasPressed := now;
        if !backlightOn {
          backlightOn := true;
          c' := c'.(backlight := Some(true));
          lastTimeExecutedOpStateFunc := now;
        }
      } else {
        if Elapsed(now, lastTimeButtonWasPressed) > LCD_BACKLIGHT_TIMEOUT {
          backlightOn := false;
          c' := c'.(backlight := Some(false));
        }
      }
    }

    /** The menu-return timeout of `loop()`. */
    method CheckMenuReturn(now: nat)
      requires Valid() && IsMillis(now)
      modifies this
      ensures Valid() && State() == MenuReturnRule(old(State()), now)
    {
      if Elapsed(now, lastTimeButtonWasPressed) > MENU_RETURN_TIMEOUT && opState != OffTurnOn {
        opState := MenuTemp;
      }
    }

    /** The out-of-water branch of `loop()`, after which the loop returns. */
    method Interlock(buttons: bv8, c: Commands) returns (c': Commands)
      requires Valid()
      modifies this
      ensures Valid() && StepResult(State(), c') == OutOfWater(old(State()), keys, buttons, c)
    {
      ghost var s0 := State();
      var c1 := c.(pump := Some(false), ssr := Some(0));
      if opState == OffTurnOn {
        c' := c1.(led := Some(LedOff), screen := Some(PutDeviceInWater));
      } else {
        var msg := if alternationIndex % 2 == 0 then PutDeviceInWater else OrTurnOff;
        c' := c1.(led := Some(LedRed), screen := Some(msg));
        if buttons & keys.ok != 0 {
          assert OkPressed(keys, buttons);
          opState := OffTurnOn;
          assert State() == s0.(opState := OffTurnOn);
          assert OutOfWater(s0, keys, buttons, c).state == s0.(opState := OffTurnOn);
          assert OutOfWater(s0, keys, buttons, c).cmds == c';
        } else {
          assert !OkPressed(keys, buttons);
          assert State() == s0;
          assert OutOfWater(s0, keys, buttons, c).state == s0;
          assert OutOfWater(s0, keys, buttons, c).cmds == c';
        }
      }
    }

    /** The 100 ms gate and the switch over `opState`. */
    method DispatchOpState(now: nat, buttons: bv8, inWater: bool, c: Commands) returns (c': Commands)
      requires Valid() && IsMillis(now)
      modifies this
      ensures Valid()
      ensures StepResult(State(), c') == Dispatch(old(State()), keys, Inputs(now, buttons, inWater, false), c)
    {
      c' := c;
      if Elapsed(now, lastTimeExecutedOpStateFunc) > OPSTATE_FUNC_INTERVAL {
        lastTimeExecutedOpStateFunc := now;
        c' := c'.(dispatched := true);
        match opState
        case OffTurnOn => c' := On(buttons, inWater, c');
        case OnTurnOff => c' := Off(buttons, c');
        case MenuPreset | MenuPresetChoose => c' := Preset(buttons, c');
        case MenuTemp | MenuTempSetup => c' := TempMenu(now, c');
      }
    }

    /** One call of `loop()`. */
    method Loop(now: nat, buttons: bv8, inWater: bool, linkUp: bool) returns (cmds: Commands)
      requires Valid() && IsMillis(now)
      modifies this
      ensures Valid()
      ensures StepResult(State(), cmds) == Step(old(State()), keys, Inputs(now, buttons, inWater, linkUp))
    {
      cmds := NoCommands;
      IncreaseMessageAlternationIndexes(now);
      cmds := UpdateLink(linkUp, cmds);
      cmds := CheckBacklight(now, buttons, cmds);
      CheckMenuReturn(now);
      if !inWater {
        cmds := Interlock(buttons, cmds);
        return;
      } else {
        if opState == OffTurnOn {
          cmds := cmds.(led := Some(LedOff));
        } else {
          cmds := cmds.(led := Some(LedGreen));
        }
      }
      cmds := DispatchOpState(now, buttons, inWater, cmds);
    }
  }
}
