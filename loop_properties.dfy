/** What one iteration of the control loop guarantees, stated over the
    specification `Controller.Step` that `ControlLoop.Loop` is proved to
    follow. */
module LoopProperties {
  import opened Clock
  import opened Controller

  /** After every iteration `netInitialized` follows the link, and packets
      are processed only when the network was already initialised and the
      link is still up. */
  lemma LinkStateRule(s: Ctl, keys: Keys, inp: Inputs)
    requires WellFormed(s) && IsMillis(inp.now)
    ensures var r := Step(s, keys, inp);
      && r.state.netInitialized == inp.linkUp
      && (r.cmds.packetsProcessed <==> s.netInitialized && inp.linkUp)
      && (r.cmds.netAddrInitialized <==> !s.netInitialized && inp.linkUp)
  {
    var p := Prelude(s, keys, inp);
    assert p.state.netInitialized == inp.linkUp;
    assert p.cmds.packetsProcessed <==> s.netInitialized && inp.linkUp;
    assert p.cmds.netAddrInitialized <==> !s.netInitialized && inp.linkUp;
    if inp.inWater {
      var led := if p.state.opState == OffTurnOn then LedOff else LedGreen;
      DispatchFrame(p.state, keys, inp, p.cmds.(led := Some(led)));
    }
  }

  /** The handlers leave the network state and the message alternation
      alone. */
  lemma DispatchFrame(s: Ctl, keys: Keys, inp: Inputs, c: Commands)
    requires WellFormed(s) && IsMillis(inp.now)
    ensures var r := Dispatch(s, keys, inp, c);
      && r.state.netInitialized == s.netInitialized
      && r.state.alternationIndex == s.alternationIndex
      && r.state.lastTimeAlternatedMessage == s.lastTimeAlternatedMessage
      && r.cmds.packetsProcessed == c.packetsProcessed
      && r.cmds.netAddrInitialized == c.netAddrInitialized
  {
    if Due(inp.now, s.lastTimeExecutedOpStateFunc, OPSTATE_FUNC_INTERVAL) {
      var s1 := s.(lastTimeExecutedOpStateFunc := inp.now);
      var c1 := c.(dispatched := true);
      match s.opState
      case OffTurnOn => assert Dispatch(s, keys, inp, c) == OnAction(s1, keys, inp.buttons, inp.inWater, c1);
      case OnTurnOff => assert Dispatch(s, keys, inp, c) == OffAction(s1, keys, inp.buttons, c1);
      case MenuPreset | MenuPresetChoose => assert Dispatch(s, keys, inp, c) == PresetAction(s1, inp.buttons, c1);
      case MenuTemp | MenuTempSetup => assert Dispatch(s, keys, inp, c) == TempMenuAction(s1, inp.now, c1);
    }
  }

  /** The operating state the interlock and the dispatch see: the
      menu-return timeout, and nothing else, has been applied. */
  lemma PreludeOpState(s: Ctl, keys: Keys, inp: Inputs)
    requires WellFormed(s) && IsMillis(inp.now)
    ensures var p := Prelude(s, keys, inp).state;
      && p.opState == (if s.opState != OffTurnOn && !ButtonPressed(keys, inp.buttons)
                          && Due(inp.now, s.lastTimeButtonWasPressed, MENU_RETURN_TIMEOUT)
                       then MenuTemp else s.opState)
      && p.alternationIndex == AlternationTick(s, inp.now).alternationIndex
      && p.lastTimeAlternatedMessage == AlternationTick(s, inp.now).lastTimeAlternatedMessage
      && p.lastTimeExecutedOpStateFunc ==
           (if ButtonPressed(keys, inp.buttons) && !s.backlightOn then inp.now
            else s.lastTimeExecutedOpStateFunc)
  {
    ResetGateIsClosed(inp.now, MENU_RETURN_TIMEOUT);
  }

  /** A button press other than the float switch alone restarts the
      inactivity timer; when the backlight was off it only wakes the display,
      and no operating-state handler runs in that iteration. */
  lemma WakeOnPress(s: Ctl, keys: Keys, inp: Inputs)
    requires WellFormed(s) && IsMillis(inp.now)
    requires ButtonPressed(keys, inp.buttons)
    ensures var r := Step(s, keys, inp);
      && r.state.lastTimeButtonWasPressed == inp.now
      && (!s.backlightOn ==>
            && r.state.backlightOn
            && r.cmds.backlight == Some(true)
            && !r.cmds.dispatched
            && r.state.lastTimeExecutedOpStateFunc == inp.now)
  {
    PreludeOpState(s, keys, inp);
    ResetGateIsClosed(inp.now, OPSTATE_FUNC_INTERVAL);
  }

  /** In the reachable states the backlight is switched off exactly when
      there was no qualifying press and more than the backlight timeout has
      passed since the last one. */
  lemma BacklightTimeout(s: Ctl, keys: Keys, inp: Inputs)
    requires WellFormed(s) && IsMillis(inp.now) && Reachable(s)
    ensures var r := Step(s, keys, inp);
      var timedOut := !ButtonPressed(keys, inp.buttons)
                      && Due(inp.now, s.lastTimeButtonWasPressed, LCD_BACKLIGHT_TIMEOUT);
      && (r.cmds.backlight == Some(false) <==> timedOut)
      && r.state.backlightOn == (if ButtonPressed(keys, inp.buttons) then true
                                 else if timedOut then false else s.backlightOn)
  {
    var p := Prelude(s, keys, inp);
    PreludeOpState(s, keys, inp);
    PreludeCommands(s, keys, inp);
    if inp.inWater {
      var led := if p.state.opState == OffTurnOn then LedOff else LedGreen;
      DispatchEffects(p.state, keys, inp, p.cmds.(led := Some(led)));
    }
  }

  /** The stages before the interlock command only the backlight and the
      network, and the backlight flag follows the backlight command. */
  lemma PreludeCommands(s: Ctl, keys: Keys, inp: Inputs)
    requires WellFormed(s) && IsMillis(inp.now)
    ensures var r := Prelude(s, keys, inp);
      var timedOut := !ButtonPressed(keys, inp.buttons)
                      && Due(inp.now, s.lastTimeButtonWasPressed, LCD_BACKLIGHT_TIMEOUT);
      && r.cmds.pump == None && r.cmds.ssr == None
      && r.cmds.led == None && r.cmds.screen == None && !r.cmds.dispatched
      && r.cmds.backlight == (if ButtonPressed(keys, inp.buttons) && !s.backlightOn then Some(true)
                              else if timedOut then Some(false) else None)
      && r.state.backlightOn == (if ButtonPressed(keys, inp.buttons) then true
                                 else if timedOut then false else s.backlightOn)
  {
    var s1 := AlternationTick(s, inp.now);
    var r2 := LinkRule(s1, inp.linkUp, NoCommands);
    assert r2.cmds.backlight == None && r2.state.backlightOn == s.backlightOn;
    assert r2.state.lastTimeButtonWasPressed == s.lastTimeButtonWasPressed;
  }

  /** What the handlers change: outside ON_TURN_OFF neither the pump, the
      heater, the LED nor the backlight, and the operating state only by
      `on()` switching to MENU_TEMP on OK. */
  lemma DispatchEffects(s: Ctl, keys: Keys, inp: Inputs, c: Commands)
    requires WellFormed(s) && IsMillis(inp.now)
    ensures var r := Dispatch(s, keys, inp, c);
      && (s.opState != OnTurnOff ==>
            && r.cmds.pump == c.pump && r.cmds.ssr == c.ssr && r.cmds.led == c.led
            && r.cmds.backlight == c.backlight && r.state.backlightOn == s.backlightOn)
      && (|| r.state.opState == s.opState
          || (&& s.opState == OffTurnOn && r.state.opState == MenuTemp
              && OkPressed(keys, inp.buttons) && r.cmds.dispatched))
  {
    if Due(inp.now, s.lastTimeExecutedOpStateFunc, OPSTATE_FUNC_INTERVAL) {
      var s1 := s.(lastTimeExecutedOpStateFunc := inp.now);
      var c1 := c.(dispatched := true);
      match s.opState
      case OffTurnOn => assert Dispatch(s, keys, inp, c) == OnAction(s1, keys, inp.buttons, inp.inWater, c1);
      case OnTurnOff => assert Dispatch(s, keys, inp, c) == OffAction(s1, keys, inp.buttons, c1);
      case MenuPreset | MenuPresetChoose => assert Dispatch(s, keys, inp, c) == PresetAction(s1, inp.buttons, c1);
      case MenuTemp | MenuTempSetup => assert Dispatch(s, keys, inp, c) == TempMenuAction(s1, inp.now, c1);
    }
  }

  /** After the menu-return timeout every state but OFF_TURN_ON falls back
      to MENU_TEMP (unless, out of the water, OK switches the device off in
      the same iteration); OFF_TURN_ON is left only through `on()`. */
  lemma MenuReturnTimeout(s: Ctl, keys: Keys, inp: Inputs)
    requires WellFormed(s) && IsMillis(inp.now)
    ensures var r := Step(s, keys, inp);
      && (s.opState != OffTurnOn && !ButtonPressed(keys, inp.buttons)
          && Due(inp.now, s.lastTimeButtonWasPressed, MENU_RETURN_TIMEOUT) ==>
            r.state.opState == (if !inp.inWater && OkPressed(keys, inp.buttons) then OffTurnOn
                                else MenuTemp))
      && (s.opState == OffTurnOn ==>
            || r.state.opState == OffTurnOn
            || (&& r.state.opState == MenuTemp && inp.inWater
                && OkPressed(keys, inp.buttons) && r.cmds.dispatched))
  {
    PreludeOpState(s, keys, inp);
  }

  /** Out of the water the pump and the heater are commanded off whatever the
      state, no handler runs, and the LED and message depend only on whether
      the device is switched on; there OK switches it off. */
  lemma OutOfWaterInterlock(s: Ctl, keys: Keys, inp: Inputs)
    requires WellFormed(s) && IsMillis(inp.now)
    requires !inp.inWater
    ensures var p := Prelude(s, keys, inp).state;
      var r := Step(s, keys, inp);
      && r.cmds.pump == Some(false)
      && r.cmds.ssr == Some(0)
      && !r.cmds.dispatched
      && r.state.lastTimeExecutedOpStateFunc == p.lastTimeExecutedOpStateFunc
      && (p.opState == OffTurnOn ==>
            && r.cmds.led == Some(LedOff)
            && r.cmds.screen == Some(PutDeviceInWater)
            && r.state.opState == OffTurnOn)
      && (p.opState != OffTurnOn ==>
            && r.cmds.led == Some(LedRed)
            && r.cmds.screen == Some(if p.alternationIndex % 2 == 0 then PutDeviceInWater
                                     else OrTurnOff)
            && r.state.opState == (if OkPressed(keys, inp.buttons) then OffTurnOn else p.opState))
  {
  }

  /** In the water the LED shows whether the device is on, and the operating
      state changes only through `on()`: OFF_TURN_ON becomes MENU_TEMP when
      OK is pressed and the handlers run. */
  lemma InWaterDispatch(s: Ctl, keys: Keys, inp: Inputs)
    requires WellFormed(s) && IsMillis(inp.now)
    requires inp.inWater
    ensures var p := Prelude(s, keys, inp).state;
      var r := Step(s, keys, inp);
      && (p.opState != OnTurnOff ==> r.cmds.pump == None && r.cmds.ssr == None)
      && (p.opState == OffTurnOn ==> r.cmds.led == Some(LedOff))
      && (p.opState == MenuTemp ==> r.cmds.led == Some(LedGreen))
      && (|| r.state.opState == p.opState
          || (&& p.opState == OffTurnOn && r.state.opState == MenuTemp
              && OkPressed(keys, inp.buttons) && r.cmds.dispatched))
  {
    var p := Prelude(s, keys, inp);
    var led := if p.state.opState == OffTurnOn then LedOff else LedGreen;
    PreludeCommands(s, keys, inp);
    DispatchEffects(p.state, keys, inp, p.cmds.(led := Some(led)));
  }

  /** `off()`, `preset()` and `tempMenu()` never change the operating state. */
  lemma HandlersKeepOpState(s: Ctl, keys: Keys, buttons: bv8, now: nat, c: Commands)
    requires WellFormed(s) && IsMillis(now)
    ensures OffAction(s, keys, buttons, c).state.opState == s.opState
    ensures PresetAction(s, buttons, c).state.opState == s.opState
    ensures TempMenuAction(s, now, c).state.opState == s.opState
  {
  }

  /** The handlers run only in the water, only after strictly more than
      100 ms since they last ran (or since a waking press), and running them
      resets that timestamp to now. */
  lemma DispatchGate(s: Ctl, keys: Keys, inp: Inputs)
    requires WellFormed(s) && IsMillis(inp.now)
    ensures var r := Step(s, keys, inp);
      var wake := ButtonPressed(keys, inp.buttons) && !s.backlightOn;
      && (r.cmds.dispatched <==>
            inp.inWater && !wake && Due(inp.now, s.lastTimeExecutedOpStateFunc, OPSTATE_FUNC_INTERVAL))
      && r.state.lastTimeExecutedOpStateFunc ==
           (if r.cmds.dispatched || wake then inp.now else s.lastTimeExecutedOpStateFunc)
  {
    PreludeOpState(s, keys, inp);
    ResetGateIsClosed(inp.now, OPSTATE_FUNC_INTERVAL);
  }

  /** The alternation gate fires only after strictly more than 2000 ms, then
      steps the `uint8_t` index by one, which flips its parity even when it
      wraps, and resets its timestamp; otherwise both are unchanged. */
  lemma AlternationGate(s: Ctl, keys: Keys, inp: Inputs)
    requires WellFormed(s) && IsMillis(inp.now)
    ensures var r := Step(s, keys, inp).state;
      if Due(inp.now, s.lastTimeAlternatedMessage, ALTERNATION_INTERVAL) then
        && r.alternationIndex == (s.alternationIndex + 1) % ALTERNATION_WRAP
        && r.alternationIndex % 2 != s.alternationIndex % 2
        && r.lastTimeAlternatedMessage == inp.now
      else
        && r.alternationIndex == s.alternationIndex
        && r.lastTimeAlternatedMessage == s.lastTimeAlternatedMessage
  {
    var p := Prelude(s, keys, inp);
    PreludeOpState(s, keys, inp);
    if inp.inWater {
      var led := if p.state.opState == OffTurnOn then LedOff else LedGreen;
      DispatchFrame(p.state, keys, inp, p.cmds.(led := Some(led)));
    }
    IndexStepFlipsParity(s.alternationIndex);
  }

  /** Stepping a `uint8_t` by one flips its parity, 255 to 0 included. */
  lemma IndexStepFlipsParity(x: nat)
    requires x < ALTERNATION_WRAP
    ensures (x + 1) % ALTERNATION_WRAP % 2 != x % 2
  {
    if x + 1 == ALTERNATION_WRAP {
      assert (x + 1) % ALTERNATION_WRAP == 0;
    } else {
      assert (x + 1) % ALTERNATION_WRAP == x + 1;
    }
  }

  /** No transition leaves the two states the shown code ever targets. */
  lemma StepKeepsReachable(s: Ctl, keys: Keys, inp: Inputs)
    requires WellFormed(s) && IsMillis(inp.now) && Reachable(s)
    ensures Reachable(Step(s, keys, inp).state)
  {
    PreludeOpState(s, keys, inp);
  }

  /** From start-up, `opState` is always OFF_TURN_ON or MENU_TEMP. */
  lemma {:induction false} RunKeepsReachable(s: Ctl, keys: Keys, inputs: seq<Inputs>)
    requires WellFormed(s) && Reachable(s)
    requires forall k :: 0 <= k < |inputs| ==> IsMillis(inputs[k].now)
    ensures Reachable(Run(s, keys, inputs))
    decreases |inputs|
  {
    if inputs != [] {
      StepKeepsReachable(s, keys, inputs[0]);
      RunKeepsReachable(Step(s, keys, inputs[0]).state, keys, inputs[1..]);
    }
  }

  lemma AlwaysReachableFromStart(t0: nat, keys: Keys, inputs: seq<Inputs>)
    requires IsMillis(t0)
    requires forall k :: 0 <= k < |inputs| ==> IsMillis(inputs[k].now)
    ensures var s := Run(Initial(t0), keys, inputs);
      s.opState == OffTurnOn || s.opState == MenuTemp
  {
    RunKeepsReachable(Initial(t0), keys, inputs);
  }

  /** Start-up out of the water asks for the water; once in the water, so
      that the float-switch bit is set in the mask, OK switches the device on. */
  lemma PutInWaterThenOk(keys: Keys)
    requires keys.ok != 0
    ensures var s1 := Step(Initial(0), keys, Inputs(1000, 0, false, false));
      var s2 := Step(s1.state, keys, Inputs(1200, keys.ok | keys.floatSwitch, true, false));
      && s1.cmds.screen == Some(PutDeviceInWater)
      && s1.state.opState == OffTurnOn
      && s2.cmds.dispatched
      && s2.state.opState == MenuTemp
  {
    var s1 := Step(Initial(0), keys, Inputs(1000, 0, false, false));
    assert s1.state.opState == OffTurnOn && s1.state.backlightOn;
    assert s1.state.lastTimeExecutedOpStateFunc == 0;
    assert OkPressed(keys, keys.ok | keys.floatSwitch);
  }
}
