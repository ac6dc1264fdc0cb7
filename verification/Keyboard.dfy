/** `ApplePS2Keyboard` as a client of the controller: its fields, and its methods proved against the meaning of the
    scan-code parser, the auto-repeat filter, the modifier notices, the lights and the command-byte update. */
module PS2Keyboard {
  import opened PS2Port
  import opened PS2Requests
  import opened PS2Writes
  import opened PS2ScanCodes
  import opened PS2KeyVector
  import opened PS2Power
  import opened PS2CommandByte
  import opened PS2SetCommandByte
  import opened PS2Controller
  import Acks = PS2AckTransparency
  import Leds = PS2Leds
  import Mods = PS2Modifiers
  import Repeat = PS2AutoRepeat

  const ENABLE: byte := 0xF4
  const SET_DEFAULTS_AND_DISABLE: byte := 0xF5
  const KEYBOARD_IRQ: byte := 0x01
  const TRANSLATE: byte := 0x40
  const KEYBOARD_CLOCK_OFF: byte := 0x10

  /** The request of `setKeyboardEnable`. */
  function EnableProgram(enable: bool): seq<Command> {
    [Command(WriteDataPort, if enable then ENABLE else SET_DEFAULTS_AND_DISABLE),
     Command(ReadDataPortAndCompare, ACKNOWLEDGE)]
  }

  /** Raw keys are handed on to the translation tables; releases are those sent at wake-up. */
  class Keyboard {
    const device: Controller
    const keyBitVector: KeyVector
    const bindings: Repeat.Bindings
    const noNumLockLED: bool
    var extendCount: nat
    var extendedCode: bool
    var isKeyboardEnabled: bool
    var modifierKeystate: byte
    var controllingFeature: bool
    var altFunctionEnabled: bool
    var ledState: byte
    ghost var rawKeys: seq<RawKey>
    ghost var notices: seq<Mods.Notice>
    ghost var releases: seq<code>

    ghost predicate Valid() {
      && keyBitVector.Valid()
      && bindings.command < NUM_KEYCODES && bindings.control < NUM_KEYCODES && bindings.alt < NUM_KEYCODES
    }

    ghost function ModifiersNow(): Mods.Modifiers
      reads this`modifierKeystate, this`controllingFeature, this`altFunctionEnabled
    {
      Mods.Modifiers(modifierKeystate, controllingFeature, altFunctionEnabled)
    }

    ghost function HeldNow(): Mods.Held
      requires Valid()
      reads keyBitVector.words
    {
      var down := keyBitVector.Down();
      Mods.Held(bindings.command in down, bindings.control in down, bindings.alt in down)
    }

    constructor (device: Controller, bindings: Repeat.Bindings, noNumLockLED: bool)
      requires bindings.command < NUM_KEYCODES && bindings.control < NUM_KEYCODES && bindings.alt < NUM_KEYCODES
      ensures Valid() && this.device == device && this.bindings == bindings && this.noNumLockLED == noNumLockLED
      ensures fresh(keyBitVector) && fresh(keyBitVector.words) && keyBitVector.Down() == iset{}
      ensures ModifiersNow() == Mods.AT_START && extendCount == 0 && ledState == 0 && !isKeyboardEnabled
      ensures rawKeys == [] && notices == [] && releases == []
    {
      this.device, this.bindings, this.noNumLockLED := device, bindings, noNumLockLED;
      keyBitVector := new KeyVector();
      extendCount, extendedCode, isKeyboardEnabled, ledState := 0, false, false, 0;
      modifierKeystate, controllingFeature, altFunctionEnabled := 0, false, false;
      rawKeys, notices, releases := [], [], [];
    }

    // -------------------------------------------------------------- keys

    method InterruptOccurred(scanCode: byte)
      modifies this`extendCount, this`extendedCode, this`rawKeys
      ensures Parsed(extendCount, rawKeys)
              == if !isKeyboardEnabled then Parsed(old(extendCount), old(rawKeys))
                 else var h := Hear(old(extendCount), scanCode); Parsed(h.extendCount, old(rawKeys) + h.keys)
    {
      if !isKeyboardEnabled {
        return;
      }
      if scanCode == ACKNOWLEDGE || scanCode == RESEND {
        return;  // only logged
      }
      DispatchKeyboardEventWithScancode(scanCode);
    }

    /** The part of the parser up to the raw key. */
    method DispatchKeyboardEventWithScancode(scanCode: byte)
      modifies this`extendCount, this`extendedCode, this`rawKeys
      ensures var p := Parse(old(extendCount), scanCode);
        extendCount == p.extendCount && rawKeys == old(rawKeys) + p.keys
    {
      if scanCode == EXTEND {
        extendCount := 1;
        return;
      } else if scanCode == PAUSE {
        extendCount := 2;
        return;
      }
      var keyCode := scanCode & 0x7F;
      if extendCount == 0 {
        extendedCode := false;
      } else {
        extendedCode := true;
        extendCount := extendCount - 1;
        if extendCount != 0 {
          return;
        }
      }
      rawKeys := rawKeys + [RawKey(keyCode, extendedCode, scanCode & UP_BIT == 0)];
    }

    /** A mapped key: the vector is updated and repeats are dropped. */
    method AcceptKey(keyCode: code, goingDown: bool, isNumPadKey: bool, displaySleep: bool) returns (accepted: bool)
      requires Valid() && keyCode < NUM_KEYCODES
      modifies keyBitVector.words
      ensures var e := Repeat.Key(keyCode, goingDown, isNumPadKey, displaySleep);
        && accepted == Repeat.Accepted(bindings, old(keyBitVector.Down()), e)
        && keyBitVector.Down() == Repeat.After(old(keyBitVector.Down()), e)
    {
      hide Bit, Unit;
      if keyCode == Repeat.NO_KEY {
        return false;
      }
      if goingDown {
        if keyBitVector.IsKeyDown(keyCode) {
          var mayRepeat := MayRepeatNow(keyCode, isNumPadKey, displaySleep);
          if !mayRepeat {
            assert keyBitVector.Down() == keyBitVector.Down() + iset{keyCode};
            return false;
          }
        }
        keyBitVector.KeyDown(keyCode);
      } else {
        keyBitVector.KeyUp(keyCode);
      }
      return true;
    }

    method MayRepeatNow(keyCode: code, isNumPadKey: bool, displaySleep: bool) returns (r: bool)
      requires Valid() && keyCode < NUM_KEYCODES
      ensures r == Repeat.MayRepeat(bindings, keyBitVector.Down(), Repeat.Key(keyCode, true, isNumPadKey, displaySleep))
    {
      hide Bit, Unit;
      var altOnly := keyBitVector.IsKeyDown(bindings.alt)
        && !keyBitVector.IsKeyDown(Repeat.LEFT_SHIFT) && !keyBitVector.IsKeyDown(Repeat.RIGHT_SHIFT);
      r := Repeat.Repeatable(bindings, keyCode) && !isNumPadKey && !displaySleep
        && !keyBitVector.IsKeyDown(bindings.control) && !keyBitVector.IsKeyDown(bindings.command) && !altOnly;
    }

    method DispatchPS2Notification(n: Mods.Notice)
      modifies this`notices
      ensures notices == old(notices) + [n]
    {
      notices := notices + [n];
    }

    /** The notices for one modifier key event. */
    method NotifyModifiers()
      requires Valid()
      modifies this`modifierKeystate, this`controllingFeature, this`altFunctionEnabled, this`notices
      ensures var s := Mods.Notify(old(ModifiersNow()), HeldNow());
        ModifiersNow() == s.after && notices == old(notices) + s.notices
    {
      hide Bit, Unit, Mods.HasBits, Mods.Keep, Mods.Set;
      var command, control := keyBitVector.IsKeyDown(bindings.command), keyBitVector.IsKeyDown(bindings.control);
      var alt := keyBitVector.IsKeyDown(bindings.alt);
      assert HeldNow() == Mods.Held(command, control, alt);
      if !Mods.HasBits(modifierKeystate, Mods.FEATURE) && command && control && alt {
        DispatchPS2Notification(Mods.FeatureOn);
        controllingFeature := true;
        modifierKeystate := Mods.Keep(modifierKeystate, 0xBF);
        modifierKeystate := Mods.Set(modifierKeystate, 0x80);
      } else if Mods.HasBits(modifierKeystate, Mods.FEATURE) && (!command || !control || !alt) {
        DispatchPS2Notification(Mods.FeatureOff);
        controllingFeature := false;
        modifierKeystate := Mods.Keep(modifierKeystate, 0x7F);
      } else if !Mods.HasBits(modifierKeystate, Mods.ALTERNATE) && command && alt {
        DispatchPS2Notification(Mods.AlternateOn);
        altFunctionEnabled := true;
        modifierKeystate := Mods.Set(modifierKeystate, 0x60);
      } else if Mods.HasBits(modifierKeystate, Mods.FEATURE) && !command && !alt {
        assert false;  // the branch for feature off has taken every such case
      } else if !Mods.HasBits(modifierKeystate, Mods.COMMAND) && command {
        DispatchPS2Notification(Mods.CommandDown);
        modifierKeystate := Mods.Set(modifierKeystate, 0x01);
      } else if Mods.HasBits(modifierKeystate, Mods.COMMAND) && !command {
        DispatchPS2Notification(Mods.CommandUp);
        modifierKeystate := Mods.Keep(modifierKeystate, 0xFE);
      } else if !Mods.HasBits(modifierKeystate, Mods.CONTROL) && control {
        DispatchPS2Notification(Mods.ControlDown);
        modifierKeystate := Mods.Set(modifierKeystate, 0x02);
      } else if Mods.HasBits(modifierKeystate, Mods.CONTROL) && !control {
        DispatchPS2Notification(Mods.ControlUp);
        modifierKeystate := Mods.Keep(modifierKeystate, 0xFD);
      }
    }

    // -------------------------------------------------------------- requests

    /** An asynchronous request: it is queued last, and freed when it has run. */
    method Submit(program: seq<Command>)
      requires device.QueueValid() && |program| <= MAX_COMMANDS
      modifies device`requestQueue, device`queueSignal
      ensures device.QueueValid() && device.queueSignal
      ensures var q := device.requestQueue;
        && q != [] && q[..|q| - 1] == old(device.requestQueue) && fresh(q[|q| - 1])
        && q[|q| - 1].Valid() && q[|q| - 1].Program() == program && !q[|q| - 1].hasCompletion
    {
      var request: PS2Request := new PS2Request();
      request.commands := program + request.commands[|program|..];
      request.commandsCount := |program|;
      assert request.Program() == program;
      device.SubmitRequest(request);
    }

    method SetLEDs(leds: byte)
      requires device.QueueValid()
      modifies device`requestQueue, device`queueSignal
      ensures device.QueueValid() && device.queueSignal
      ensures var q := device.requestQueue;
        && q != [] && q[..|q| - 1] == old(device.requestQueue) && fresh(q[|q| - 1])
        && q[|q| - 1].Valid() && q[|q| - 1].Program() == Acks.LedProgram(leds) && !q[|q| - 1].hasCompletion
    {
      Submit(Acks.LedProgram(leds));
    }

    method SetAlphaLockFeedback(locked: bool)
      requires device.QueueValid()
      modifies this`ledState, device`requestQueue, device`queueSignal
      ensures ledState == Leds.WithLock(old(ledState), Leds.CAPS_LOCK, locked)
      ensures device.QueueValid() && device.queueSignal
      ensures var q := device.requestQueue;
        && q != [] && q[..|q| - 1] == old(device.requestQueue) && fresh(q[|q| - 1])
        && q[|q| - 1].Valid() && q[|q| - 1].Program() == Acks.LedProgram(ledState) && !q[|q| - 1].hasCompletion
    {
      hide Leds.WithLock;
      ledState := Leds.WithLock(ledState, Leds.CAPS_LOCK, locked);
      SetLEDs(ledState);
    }

    method SetNumLockFeedback(locked: bool)
      requires device.QueueValid()
      modifies this`ledState, device`requestQueue, device`queueSignal
      ensures device.QueueValid()
      ensures noNumLockLED ==> ledState == old(ledState) && device.requestQueue == old(device.requestQueue)
      ensures !noNumLockLED ==>
        && ledState == Leds.WithLock(old(ledState), Leds.NUM_LOCK, locked) && device.queueSignal
        && var q := device.requestQueue;
           && q != [] && q[..|q| - 1] == old(device.requestQueue) && fresh(q[|q| - 1])
           && q[|q| - 1].Valid() && q[|q| - 1].Program() == Acks.LedProgram(ledState) && !q[|q| - 1].hasCompletion
    {
      if noNumLockLED {
        return;
      }
      hide Leds.WithLock;
      ledState := Leds.WithLock(ledState, Leds.NUM_LOCK, locked);
      SetLEDs(ledState);
    }

    // -------------------------------------------------------------- power

    /** Going to sleep: keys are ignored from now on, and the keyboard is to be disabled by a queued request. */
    method DisableDevice()
      requires device.QueueValid()
      modifies this`isKeyboardEnabled, device`requestQueue, device`queueSignal
      ensures !isKeyboardEnabled && device.QueueValid() && device.queueSignal
      ensures var q := device.requestQueue;
        && q != [] && q[..|q| - 1] == old(device.requestQueue) && fresh(q[|q| - 1])
        && q[|q| - 1].Valid() && q[|q| - 1].Program() == EnableProgram(false) && !q[|q| - 1].hasCompletion
    {
      isKeyboardEnabled := false;
      Submit(EnableProgram(false));
    }

    /** Releases every key that is down. */
    method ReleaseKeys()
      requires Valid()
      modifies this`releases
      ensures |releases| >= |old(releases)| && releases[..|old(releases)|] == old(releases)
      ensures forall c :: c in releases[|old(releases)|..] <==> c in keyBitVector.Down()
      ensures keyBitVector.Down() == iset{} ==> releases == old(releases)
    {
      hide Bit, Unit, Below;
      ghost var down, before, sent: seq<code> := keyBitVector.Down(), releases, [];
      var sCode: code := 0;
      BelowEnds();
      while sCode < NUM_KEYCODES
        invariant sCode <= NUM_KEYCODES && releases == before + sent
        invariant forall c :: c in sent <==> Below(c, sCode) && c in down
        decreases NUM_KEYCODES - sCode
      {
        NextCode(sCode);
        ghost var was := sent;
        assert keyBitVector.IsKeyDown(sCode) <==> sCode in down;
        if keyBitVector.IsKeyDown(sCode) {
          releases, sent := releases + [sCode], sent + [sCode];
        }
        forall c ensures c in sent <==> Below(c, sCode + 1) && c in down {
          assert c in sent <==> c in was || (c == sCode && c in down);
        }
        sCode := sCode + 1;
      }
      assert sCode == NUM_KEYCODES;
      assert releases[|before|..] == sent;
      assert sent != [] ==> sent[0] in sent;
    }

    /** The lights and the command byte: what was queued and the lights run before the byte is updated. */
    method RestoreHardware()
      requires device.Valid() && device.QueueValid() && !device.hardwareOffline
      modifies device`script, device`overrun, device`log, device`keyboardSignal, device`mouseSignal, device.keys,
               device.keys.elements, device`requestQueue, device`queueSignal, device.requestQueue
      ensures device.Valid() && device.requestQueue == []
      ensures device.EnvNow() == Restored(old(Programs(States(device.requestQueue))), ledState, device.RoutePrefix(),
                                          old(device.EnvNow()))
    {
      hide PS2Requests.Run, PS2Requests.BatchEnv, PS2Requests.BatchRun, PS2Controller.AllDisposed, Update,
        Acks.LedProgram;
      ghost var programs := Programs(States(device.requestQueue));
      SetLEDs(ledState);
      assert Programs(States(device.requestQueue)) == programs + [Acks.LedProgram(ledState)];
      SetCommandByte(device, KEYBOARD_IRQ | TRANSLATE, KEYBOARD_CLOCK_OFF);
    }

    /** Waking up. All keys are up before the loop that would release them looks, so it releases none, and only
        the request that enables the keyboard is left queued. */
    method EnableDevice()
      requires Valid() && device.Valid() && device.QueueValid() && !device.hardwareOffline
      modifies this`isKeyboardEnabled, this`releases, keyBitVector.words,
               device`script, device`overrun, device`log, device`keyboardSignal, device`mouseSignal, device.keys,
               device.keys.elements, device`requestQueue, device`queueSignal, device.requestQueue
      ensures isKeyboardEnabled && releases == old(releases) && keyBitVector.Down() == iset{}
      ensures forall reg :: Register(PortWrites(device.EnvNow().log), reg, false) & 0x51 == 0x41
      ensures device.Valid() && device.QueueValid() && |device.requestQueue| == 1
      ensures device.requestQueue[0].Program() == EnableProgram(true) && fresh(device.requestQueue[0])
      ensures device.EnvNow() == Restored(old(Programs(States(device.requestQueue))), ledState, device.RoutePrefix(),
                                          old(device.EnvNow()))
    {
      hide Bit, Unit, Restored, Register, PortWrites, PS2Requests.BatchEnv;
      ghost var queued, e := Programs(States(device.requestQueue)), device.EnvNow();
      keyBitVector.Clear();
      ReleaseKeys();
      RestoreHardware();
      forall reg ensures Register(PortWrites(device.EnvNow().log), reg, false) & 0x51 == 0x41 {
        RestoredRegister(queued, ledState, device.RoutePrefix(), e, reg);
      }
      Submit(EnableProgram(true));
      isKeyboardEnabled := true;
    }

    /** Both drivers are told to go to sleep, the keyboard first: it queues a request, the other one blocks on its
        own. */
    method TellDisable(others: seq<seq<Command>>)
      requires device.Valid() && device.QueueValid() && Short(others)
      modifies this`isKeyboardEnabled, device`script, device`overrun, device`log, device`keyboardSignal,
               device`mouseSignal, device.keys, device.keys.elements, device`requestQueue, device`queueSignal,
               device.requestQueue
      ensures !isKeyboardEnabled && device.Valid() && device.QueueValid()
      ensures var q, was := old(device.requestQueue), old(States(device.requestQueue));
        var all, offline := Programs(was) + [EnableProgram(false)] + others, device.hardwareOffline;
        if others == [] then
          var q' := device.requestQueue;
          && q' != [] && q'[..|q'| - 1] == q && fresh(q'[|q'| - 1]) && States(q) == was
          && device.EnvNow() == old(device.EnvNow())
        else
          && device.requestQueue == []
          && device.EnvNow() == BatchEnv(all, device.RoutePrefix(), offline, |all|, old(device.EnvNow()))
          && States(q) == AllDisposed(was, device.RoutePrefix(), offline, old(device.EnvNow()))
    {
      hide PS2Requests.BatchEnv, PS2Requests.BatchRun, RequestState.Disposed, EnableProgram;
      ghost var q, was, e := device.requestQueue, States(device.requestQueue), device.EnvNow();
      DisableDevice();
      ghost var q', was' := device.requestQueue, States(device.requestQueue);
      SameStates(q, was, q', was');
      assert Programs(was') == Programs(was) + [EnableProgram(false)];
      BlockOnAll(device, others);
      if others != [] {
        DisposedFirst(was, was', device.RoutePrefix(), device.hardwareOffline, e);
        assert States(q) == States(q')[..|q|];
      }
    }

    /** The system going to sleep. If no other driver blocks on a request, the controller is offline before the queue
        is run again, so neither the request that disables the keyboard nor anything queued before is ever sent.
        If one does, the queue runs first, while the hardware is online. */
    method FallAsleep(others: seq<seq<Command>>)
      requires device.Valid() && device.QueueValid() && device.currentPowerState != SLEEP && Short(others)
      modifies this`isKeyboardEnabled, device`script, device`overrun, device`log, device`keyboardSignal,
               device`mouseSignal, device.keys, device.keys.elements, device`requestQueue, device`queueSignal,
               device.requestQueue, device`hardwareOffline, device`currentPowerState, device`notices,
               device`controllerUsesMuxMode, device`muxModeRoutePrefix
      ensures !isKeyboardEnabled && device.PowerNow() == PowerStep(old(device.PowerNow()), SLEEP)
      ensures device.Valid() && device.requestQueue == []
      ensures var q, was := old(device.requestQueue), old(States(device.requestQueue));
        var all := Programs(was) + [EnableProgram(false)] + others;
        var prefix, offline := old(device.RoutePrefix()), old(device.hardwareOffline);
        if others == [] then
          device.EnvNow() == old(device.EnvNow()) && States(q) == Dismissed(was)
        else
          && device.EnvNow() == BatchEnv(all, prefix, offline, |all|, old(device.EnvNow()))
          && States(q) == AllDisposed(was, prefix, offline, old(device.EnvNow()))
    {
      hide Dismissed, PS2Requests.BatchEnv, AllDisposed, EnableProgram;
      ghost var q, was := device.requestQueue, States(device.requestQueue);
      TellDisable(others);
      ghost var told := States(q);
      ghost var q', was' := device.requestQueue, States(device.requestQueue);
      if others == [] { SameStates(q, was, q', was'); }
      SleepController(device);
      if others == [] {
        PrefixDismissed(was', |q|);
        assert States(q) == States(q')[..|q|];
      } else {
        assert States(q) == told;
      }
    }

    /** The keyboard is told once the controller is awake. */
    method TellEnable()
      requires Valid() && device.Valid() && device.QueueValid() && device.currentPowerState == SLEEP
      modifies this`isKeyboardEnabled, this`releases, keyBitVector.words,
               device`script, device`overrun, device`log, device`keyboardSignal, device`mouseSignal, device.keys,
               device.keys.elements, device`requestQueue, device`queueSignal, device.requestQueue,
               device`hardwareOffline, device`currentPowerState, device`notices,
               device`controllerUsesMuxMode, device`muxModeRoutePrefix
      ensures isKeyboardEnabled && releases == old(releases) && keyBitVector.Down() == iset{}
      ensures device.PowerNow() == PowerStep(old(device.PowerNow()), NORMAL) && !device.hardwareOffline
      ensures device.Valid() && device.QueueValid() && |device.requestQueue| == 1
      ensures device.requestQueue[0].Program() == EnableProgram(true) && fresh(device.requestQueue[0])
      ensures var m := Wake.WakeUp(old(device.controllerUsesMuxMode), old(device.muxModeRoutePrefix),
                                   old(device.EnvNow())).mux;
        && device.RoutePrefix() == (if m.on then m.prefix else TRANSMIT_TO_MOUSE)
        && device.EnvNow()
           == Restored(old(Programs(States(device.requestQueue))), ledState, device.RoutePrefix(), m.env)
    {
      hide Wake.WakeUp, PS2Requests.BatchEnv, Update, Acks.LedProgram, EnableProgram, Bit, Unit;
      ghost var q, was := device.requestQueue, States(device.requestQueue);
      device.SetPowerStateGated(NORMAL);
      assert States(q) == was;
      EnableDevice();
    }

    /** The system waking up: the keyboard is told online, so its command-byte loop ends. The queue, the lights and
        the command byte of the keyboard come behind everything that the wake-up writes. The request that enables
        the keyboard stays queued until another driver blocks on one of its own. */
    method WakeUp(others: seq<seq<Command>>)
      requires Valid() && device.Valid() && device.QueueValid() && device.currentPowerState == SLEEP && Short(others)
      modifies this`isKeyboardEnabled, this`releases, keyBitVector.words,
               device`script, device`overrun, device`log, device`keyboardSignal, device`mouseSignal, device.keys,
               device.keys.elements, device`requestQueue, device`queueSignal, device.requestQueue,
               device`hardwareOffline, device`currentPowerState, device`notices,
               device`controllerUsesMuxMode, device`muxModeRoutePrefix
      ensures isKeyboardEnabled && releases == old(releases) && keyBitVector.Down() == iset{}
      ensures device.PowerNow() == PowerStep(old(device.PowerNow()), NORMAL) && !device.hardwareOffline
      ensures device.Valid() && device.QueueValid()
      ensures var m := Wake.WakeUp(old(device.controllerUsesMuxMode), old(device.muxModeRoutePrefix),
                                   old(device.EnvNow())).mux;
        var prefix := if m.on then m.prefix else TRANSMIT_TO_MOUSE;
        var restored := Restored(old(Programs(States(device.requestQueue))), ledState, prefix, m.env);
        var more := [EnableProgram(true)] + others;
        if others == [] then
          && |device.requestQueue| == 1 && device.requestQueue[0].Program() == EnableProgram(true)
          && device.EnvNow() == restored
        else
          device.requestQueue == [] && device.EnvNow() == BatchEnv(more, prefix, false, |more|, restored)
    {
      hide Wake.WakeUp, PS2Requests.BatchEnv, Restored, AllDisposed, EnableProgram;
      TellEnable();
      assert Programs(States(device.requestQueue)) == [EnableProgram(true)];
      BlockOnAll(device, others);
    }
  }

  /** What the keyboard does when it is told that the hardware is online: the queue runs, then the request for the
      lights, then the update of the command byte. */
  ghost function Restored(queued: seq<seq<Command>>, leds: byte, prefix: byte, e: Env): Env {
    Update(Mask(KEYBOARD_IRQ | TRANSLATE, KEYBOARD_CLOCK_OFF), prefix,
           BatchEnv(queued + [Acks.LedProgram(leds)], prefix, false, |queued| + 1, e))
  }

  /** Whatever the register held, whatever is queued and whatever arrives: the keyboard ends with its interrupt and the
      translation on and its clock not switched off. */
  lemma RestoredRegister(queued: seq<seq<Command>>, leds: byte, prefix: byte, e: Env, reg: byte)
    ensures Register(PortWrites(Restored(queued, leds, prefix, e).log), reg, false) & 0x51 == 0x41
  {
    hide PortWrites, Update, LastSeen, Register, PS2Requests.BatchEnv, Acks.LedProgram;
    var before := BatchEnv(queued + [Acks.LedProgram(leds)], prefix, false, |queued| + 1, e);
    UpdateSets(Mask(KEYBOARD_IRQ | TRANSLATE, KEYBOARD_CLOCK_OFF), prefix, before, reg);
    KeyboardBits(Register(PortWrites(Restored(queued, leds, prefix, e).log), reg, false));
  }

  lemma KeyboardBits(b: byte)
    requires b & KEYBOARD_CLOCK_OFF == 0
    requires b & (KEYBOARD_IRQ | TRANSLATE) == (KEYBOARD_IRQ | TRANSLATE) & !KEYBOARD_CLOCK_OFF
    ensures b & 0x51 == 0x41
  {
  }

  /** The hardware goes offline, and what is queued is disposed of when the queue next runs. */
  method SleepController(device: Controller)
    requires device.Valid() && device.QueueValid() && device.currentPowerState != SLEEP
    modifies device`script, device`overrun, device`log, device`keyboardSignal, device`mouseSignal, device.keys,
             device.keys.elements, device`requestQueue, device.requestQueue, device`hardwareOffline,
             device`currentPowerState, device`notices, device`controllerUsesMuxMode, device`muxModeRoutePrefix
    ensures device.PowerNow() == PowerStep(old(device.PowerNow()), SLEEP)
    ensures device.Valid() && device.requestQueue == [] && device.EnvNow() == old(device.EnvNow())
    ensures States(old(device.requestQueue)) == Dismissed(old(States(device.requestQueue)))
  {
    hide Dismissed, Wake.WakeUp;
    ghost var q, was := device.requestQueue, States(device.requestQueue);
    device.SetPowerStateGated(SLEEP);
    assert States(q) == was;
    DrainOffline(device);
  }

  /** Each program fits a request. */
  predicate Short(programs: seq<seq<Command>>) { forall i :: 0 <= i < |programs| ==> |programs[i]| <= MAX_COMMANDS }

  /** A driver blocks on a request: what is queued runs first. */
  method BlockOn(device: Controller, program: seq<Command>)
    requires device.Valid() && device.QueueValid() && |program| <= MAX_COMMANDS
    modifies device`script, device`overrun, device`log, device`keyboardSignal, device`mouseSignal, device.keys,
             device.keys.elements, device`requestQueue, device.requestQueue
    ensures device.Valid() && device.requestQueue == []
    ensures var q, was := old(device.requestQueue), old(States(device.requestQueue));
      var prefix, offline, e := device.RoutePrefix(), device.hardwareOffline, old(device.EnvNow());
      && device.EnvNow() == Run(program, prefix, offline, BatchEnv(Programs(was), prefix, offline, |q|, e)).env
      && States(q) == AllDisposed(was, prefix, offline, e)
  {
    hide PS2Requests.Run, PS2Requests.BatchEnv, PS2Requests.BatchRun, PS2Controller.AllDisposed;
    ghost var q, was := device.requestQueue, States(device.requestQueue);
    var request: PS2Request := new PS2Request();
    request.commands := program + request.commands[|program|..];
    request.commandsCount := |program|;
    assert request.Program() == program;
    assert States(q) == was;
    device.SubmitRequestAndBlockGated(request);
  }

  /** A driver blocks on one request after the other. The first runs whatever is queued. */
  method BlockOnAll(device: Controller, programs: seq<seq<Command>>)
    requires device.Valid() && device.QueueValid() && Short(programs)
    modifies device`script, device`overrun, device`log, device`keyboardSignal, device`mouseSignal, device.keys,
             device.keys.elements, device`requestQueue, device.requestQueue
    ensures device.Valid() && device.QueueValid()
    ensures var q, was := old(device.requestQueue), old(States(device.requestQueue));
      var all, offline := Programs(was) + programs, device.hardwareOffline;
      if programs == [] then
        device.requestQueue == q && States(q) == was && device.EnvNow() == old(device.EnvNow())
      else
        && device.requestQueue == []
        && device.EnvNow() == BatchEnv(all, device.RoutePrefix(), offline, |all|, old(device.EnvNow()))
        && States(q) == AllDisposed(was, device.RoutePrefix(), offline, old(device.EnvNow()))
  {
    hide PS2Requests.Run, PS2Requests.BatchEnv, PS2Requests.BatchRun, PS2Controller.AllDisposed;
    ghost var q, was, e := device.requestQueue, States(device.requestQueue), device.EnvNow();
    ghost var all, prefix, offline := Programs(was) + programs, device.RoutePrefix(), device.hardwareOffline;
    if programs == [] { return; }
    assert |Programs(was)| == |q| && Programs([]) == [];
    hide Programs;
    BatchNext(Programs(was), programs, 0, prefix, offline, e);
    BlockOn(device, programs[0]);
    ghost var disposed := States(q);
    for i := 1 to |programs|
      invariant device.Valid() && device.requestQueue == [] && States(q) == disposed
      invariant device.EnvNow() == BatchEnv(all, prefix, offline, |q| + i, e)
    {
      BatchNext(Programs(was), programs, i, prefix, offline, e);
      BatchStep([], prefix, offline, device.EnvNow());
      BlockOn(device, programs[i]);
      assert States(q) == disposed;
    }
  }

  /** One more request behind the first `|a| + i`. */
  lemma BatchNext(a: seq<seq<Command>>, b: seq<seq<Command>>, i: nat, prefix: byte, offline: bool, e: Env)
    requires i < |b|
    ensures BatchEnv(a + b, prefix, offline, |a|, e) == BatchEnv(a, prefix, offline, |a|, e)
    ensures BatchEnv(a + b, prefix, offline, |a| + i + 1, e)
            == Run(b[i], prefix, offline, BatchEnv(a + b, prefix, offline, |a| + i, e)).env
  {
    hide PS2Requests.Run, PS2Requests.BatchEnv, PS2Requests.BatchRun;
    BatchFirst(a, b, |a|, prefix, offline, e);
    BatchStep(a + b, prefix, offline, e);
    assert (a + b)[|a| + i] == b[i];
  }

  /** The first programs of a list run as if they were alone. */
  lemma {:induction false} BatchFirst(a: seq<seq<Command>>, b: seq<seq<Command>>, i: nat, prefix: byte, offline: bool,
                                      e: Env)
    requires i <= |a|
    ensures BatchEnv(a + b, prefix, offline, i, e) == BatchEnv(a, prefix, offline, i, e)
    ensures i < |a| ==> BatchRun(a + b, prefix, offline, i, e) == BatchRun(a, prefix, offline, i, e)
  {
    hide PS2Requests.Run;
    if i > 0 { BatchFirst(a, b, i - 1, prefix, offline, e); }
  }

  /** So the first requests of a queue are disposed of as if it ended with them. */
  lemma DisposedFirst(was: seq<RequestState>, was': seq<RequestState>, prefix: byte, offline: bool, e: Env)
    requires forall i :: 0 <= i < |was'| ==> was'[i].Valid()
    requires |was| <= |was'| && was == was'[..|was|]
    ensures AllDisposed(was', prefix, offline, e)[..|was|] == AllDisposed(was, prefix, offline, e)
  {
    hide RequestState.Disposed, PS2Requests.BatchRun;
    var a, b := Programs(was), Programs(was')[|was|..];
    assert Programs(was') == a + b;
    forall i | 0 <= i < |was|
      ensures AllDisposed(was', prefix, offline, e)[i] == AllDisposed(was, prefix, offline, e)[i]
    {
      BatchFirst(a, b, i, prefix, offline, e);
    }
  }

  /** Online, the request that disables or enables the keyboard puts its byte on the port when the list it is in
      runs, and nothing else between the requests before it and those behind it. */
  lemma EnableIsSent(programs: seq<seq<Command>>, on: bool, others: seq<seq<Command>>, prefix: byte, e: Env)
    ensures var all := programs + [EnableProgram(on)] + others;
      PortWrites(BatchEnv(programs, prefix, false, |programs|, e).log)
      + [Data(if on then 0xF4 else 0xF5)]
      <= PortWrites(BatchEnv(all, prefix, false, |all|, e).log)
  {
    hide PortWrites, PS2Requests.Run, PS2Requests.BatchEnv, PS2Requests.BatchRun;
    var n, all, p := |programs|, programs + [EnableProgram(on)] + others, EnableProgram(on);
    Assoc(programs, [p], others);
    BatchFirst(programs, [p] + others, n, prefix, false, e);
    BatchStep(all, prefix, false, e);
    assert all[n] == p;
    EnableWrites(on, prefix, BatchEnv(all, prefix, false, n, e));
    BatchWrites(all, n + 1, |all|, prefix, e);
  }

  lemma EnableWrites(on: bool, prefix: byte, e: Env)
    ensures PortWrites(Run(EnableProgram(on), prefix, false, e).env.log)
            == PortWrites(e.log) + [Data(if on then ENABLE else SET_DEFAULTS_AND_DISABLE)]
  {
    hide PortWrites, PS2Requests.Run, ExpectRead, StreamAt, EffectAt, EnvAt, FirstFailure;
    var cmds, b := EnableProgram(on), Data(if on then ENABLE else SET_DEFAULTS_AND_DISABLE);
    RunWrites(cmds, prefix, e);
    EnableCount(on, prefix, e);
    assert cmds[..2] == cmds && cmds[..2][..1] == cmds[..1] && cmds[..1][..0] == [];
    assert ProgramWrites(cmds[..1], prefix) == [b];
    assert ProgramWrites(cmds, prefix) == [b];
  }

  lemma EnableCount(on: bool, prefix: byte, e: Env)
    ensures 1 <= Run(EnableProgram(on), prefix, false, e).count <= 2
  {
    hide ExpectRead, StreamAt, EnvAt;
    var cmds := EnableProgram(on);
    EnvStep(cmds, prefix, e);
    assert EffectAt(cmds, prefix, 0, e).ok;
  }

  lemma {:induction false} BatchWrites(programs: seq<seq<Command>>, i: nat, j: nat, prefix: byte, e: Env)
    requires i <= j <= |programs|
    ensures PortWrites(BatchEnv(programs, prefix, false, i, e).log)
            <= PortWrites(BatchEnv(programs, prefix, false, j, e).log)
  {
    hide PortWrites, PS2Requests.Run, ProgramWrites;
    if i < j {
      BatchWrites(programs, i, j - 1, prefix, e);
      BatchStep(programs, prefix, false, e);
      RunWrites(programs[j - 1], prefix, BatchEnv(programs, prefix, false, j - 1, e));
    }
  }

  /** A queue that has grown holds the requests it held, as they were. */
  lemma SameStates(q: seq<PS2Request>, was: seq<RequestState>, q': seq<PS2Request>, was': seq<RequestState>)
    requires was == States(q) && was' == States(q') && |q| <= |q'| && q == q'[..|q|]
    ensures was == was'[..|q|]
  {
  }

  /** A queue that is run while the hardware is offline is disposed of, and the port is not touched. */
  method DrainOffline(device: Controller)
    requires device.Valid() && device.QueueValid() && device.hardwareOffline
    modifies device`script, device`overrun, device`log, device`keyboardSignal, device`mouseSignal, device.keys,
             device.keys.elements, device`requestQueue, device.requestQueue
    ensures device.Valid() && device.requestQueue == [] && device.EnvNow() == old(device.EnvNow())
    ensures States(old(device.requestQueue)) == Dismissed(old(States(device.requestQueue)))
  {
    hide Dismissed, PS2Requests.BatchEnv, AllDisposed;
    AllDismissed(States(device.requestQueue), device.RoutePrefix(), device.EnvNow());
    BatchOffline(Programs(States(device.requestQueue)), device.RoutePrefix(), |device.requestQueue|, device.EnvNow());
    device.ProcessRequestQueue();
  }

  lemma PrefixDismissed(was: seq<RequestState>, n: nat)
    requires n <= |was|
    ensures |Dismissed(was)| == |was| && Dismissed(was)[..n] == Dismissed(was[..n])
  {
  }

  predicate Below(c: code, n: code) { c < n }

  lemma NextCode(n: code)
    requires n < NUM_KEYCODES
    ensures n < n + 1 <= NUM_KEYCODES && NUM_KEYCODES - (n + 1) < NUM_KEYCODES - n
    ensures forall c: code :: Below(c, n + 1) <==> Below(c, n) || c == n
  {
    forall c: code ensures Below(c, n + 1) <==> Below(c, n) || c == n { BelowNext(c, n); }
  }

  lemma BelowNext(c: code, n: code)
    requires n < NUM_KEYCODES
    ensures Below(c, n + 1) <==> Below(c, n) || c == n
  {
  }

  lemma BelowEnds()
    ensures forall c :: !Below(c, 0)
    ensures forall c :: Below(c, NUM_KEYCODES) <==> c < NUM_KEYCODES
  {
  }
}
