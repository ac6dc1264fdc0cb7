/** The notices about modifier keys that the keyboard driver sends to the touchpad driver. */
module PS2Modifiers {
  import opened PS2Port

  datatype Notice =
    | FeatureOn | FeatureOff
    | AlternateOn | AlternateOff
    | CommandDown | CommandUp
    | ControlDown | ControlUp

  /** The modifier keys that are down. */
  datatype Held = Held(command: bool, control: bool, alt: bool) {
    predicate All() { command && control && alt }
  }

  datatype Modifiers = Modifiers(bits: byte, controllingFeature: bool, alternateEnabled: bool)

  datatype Noticed = Noticed(after: Modifiers, notices: seq<Notice>)

  const AT_START: Modifiers := Modifiers(0, false, false)
  const FEATURE: byte := 0x80
  const ALTERNATE: byte := 0x60
  const COMMAND: byte := 0x01
  const CONTROL: byte := 0x02

  predicate HasBits(bits: byte, mask: byte) { bits & mask != 0 }

  function Keep(bits: byte, mask: byte): byte { bits & mask }

  function Set(bits: byte, mask: byte): byte { bits | mask }

  predicate Has(m: Modifiers, mask: byte) { HasBits(m.bits, mask) }

  /** What is done for one modifier key event, in the order the driver asks. */
  function Notify(m: Modifiers, h: Held): Noticed {
    if !Has(m, FEATURE) && h.All() then
      Noticed(Modifiers(Set(Keep(m.bits, 0xBF), 0x80), true, m.alternateEnabled), [FeatureOn])
    else if Has(m, FEATURE) && !h.All() then
      Noticed(Modifiers(Keep(m.bits, 0x7F), false, m.alternateEnabled), [FeatureOff])
    else if !Has(m, ALTERNATE) && h.command && h.alt then
      Noticed(Modifiers(Set(m.bits, 0x60), m.controllingFeature, true), [AlternateOn])
    else if Has(m, FEATURE) && !h.command && !h.alt then
      Noticed(Modifiers(Keep(m.bits, 0xBF), m.controllingFeature, false), [AlternateOff])
    else if !Has(m, COMMAND) && h.command then
      Noticed(m.(bits := Set(m.bits, 0x01)), [CommandDown])
    else if Has(m, COMMAND) && !h.command then
      Noticed(m.(bits := Keep(m.bits, 0xFE)), [CommandUp])
    else if !Has(m, CONTROL) && h.control then
      Noticed(m.(bits := Set(m.bits, 0x02)), [ControlDown])
    else if Has(m, CONTROL) && !h.control then
      Noticed(m.(bits := Keep(m.bits, 0xFD)), [ControlUp])
    else
      Noticed(m, [])
  }

  /** A run of modifier key events from the start of the driver. */
  function Run(events: seq<Held>): Noticed {
    if events == [] then Noticed(AT_START, [])
    else
      var before := Run(events[..|events| - 1]);
      var step := Notify(before.after, events[|events| - 1]);
      Noticed(step.after, before.notices + step.notices)
  }

  /** The flags repeat what the state byte says. Switching the feature on clears bit 6, but bit 5 stays. */
  predicate Consistent(m: Modifiers) {
    && m.controllingFeature == Has(m, FEATURE)
    && m.alternateEnabled == Has(m, ALTERNATE) == (m.bits & 0x20 != 0)
  }

  // ---------------------------------------------------------------- what the touchpad hears

  function Only(notices: seq<Notice>, on: Notice, off: Notice): seq<Notice> {
    if notices == [] then []
    else
      var last := notices[|notices| - 1];
      Only(notices[..|notices| - 1], on, off) + (if last == on || last == off then [last] else [])
  }

  /** Of the two notices, `on` comes first and they take turns; the last one was `on` just when `now` holds. */
  predicate TakeTurns(notices: seq<Notice>, on: Notice, off: Notice, now: bool) {
    var heard := Only(notices, on, off);
    && (heard != [] ==> heard[0] == on)
    && (forall i :: 0 < i < |heard| ==> heard[i] == if heard[i - 1] == on then off else on)
    && (now <==> heard != [] && heard[|heard| - 1] == on)
  }

  lemma OnlyOneMore(notices: seq<Notice>, n: Notice, on: Notice, off: Notice)
    ensures Only(notices + [n], on, off) == Only(notices, on, off) + (if n == on || n == off then [n] else [])
  {
    var more := notices + [n];
    assert more[..|more| - 1] == notices;
  }

  lemma OneMore(notices: seq<Notice>, n: Notice, on: Notice, off: Notice, now: bool)
    requires on != off && TakeTurns(notices, on, off, now)
    ensures n != on && n != off ==> TakeTurns(notices + [n], on, off, now)
    ensures n == (if now then off else on) ==> TakeTurns(notices + [n], on, off, !now)
  {
    hide Only;
    OnlyOneMore(notices, n, on, off);
    var heard, more := Only(notices, on, off), Only(notices + [n], on, off);
    if n != on && n != off {
      assert more == heard;
    } else {
      assert more == heard + [n];
      assert forall i :: 0 < i < |heard| ==> more[i] == heard[i];
    }
  }

  /** What holds of the state of the driver and of what it has sent so far. */
  predicate Told(r: Noticed) {
    && TakeTurns(r.notices, FeatureOn, FeatureOff, Has(r.after, FEATURE))
    && TakeTurns(r.notices, CommandDown, CommandUp, Has(r.after, COMMAND))
    && TakeTurns(r.notices, ControlDown, ControlUp, Has(r.after, CONTROL))
    && Only(r.notices, AlternateOn, AlternateOff) == (if Has(r.after, ALTERNATE) then [AlternateOn] else [])
    && Consistent(r.after)
  }

  /** One event changes at most one of the four marks, and sends the notice that says so. */
  lemma OneNotice(m: Modifiers, h: Held)
    requires Consistent(m)
    ensures var s := Notify(m, h);
      && |s.notices| <= 1
      && Consistent(s.after)
      && (if Has(s.after, FEATURE) != Has(m, FEATURE)
          then s.notices == [if Has(m, FEATURE) then FeatureOff else FeatureOn]
          else s.notices != [FeatureOn] && s.notices != [FeatureOff])
      && (Has(s.after, ALTERNATE) != Has(m, ALTERNATE) <==> s.notices == [AlternateOn])
      && (Has(m, ALTERNATE) ==> Has(s.after, ALTERNATE)) && s.notices != [AlternateOff]
      && (if Has(s.after, COMMAND) != Has(m, COMMAND)
          then s.notices == [if Has(m, COMMAND) then CommandUp else CommandDown]
          else s.notices != [CommandDown] && s.notices != [CommandUp])
      && (if Has(s.after, CONTROL) != Has(m, CONTROL)
          then s.notices == [if Has(m, CONTROL) then ControlUp else ControlDown]
          else s.notices != [ControlDown] && s.notices != [ControlUp])
      && (s.notices == [] ==> s.after == m)
  {
  }

  lemma Extend(before: Noticed, h: Held)
    requires Told(before)
    ensures var s := Notify(before.after, h); Told(Noticed(s.after, before.notices + s.notices))
  {
    hide Has, Notify, TakeTurns, Only, Consistent;
    var m := before.after;
    OneNotice(m, h);
    var s := Notify(m, h);
    if s.notices == [] {
      assert before.notices + s.notices == before.notices;
    } else {
      OneMore(before.notices, s.notices[0], FeatureOn, FeatureOff, Has(m, FEATURE));
      OneMore(before.notices, s.notices[0], CommandDown, CommandUp, Has(m, COMMAND));
      OneMore(before.notices, s.notices[0], ControlDown, ControlUp, Has(m, CONTROL));
      OnlyOneMore(before.notices, s.notices[0], AlternateOn, AlternateOff);
      assert [] + [AlternateOn] == [AlternateOn];
    }
  }

  /** Over any run, feature on and off, command down and up, and control down and up each take turns, on or down first;
      the alternate function is switched on at most once and never off; the flags follow the state byte. */
  lemma {:induction false} RunTells(events: seq<Held>)
    ensures Told(Run(events))
  {
    if events != [] {
      RunTells(events[..|events| - 1]);
      Extend(Run(events[..|events| - 1]), events[|events| - 1]);
    }
  }

  // ---------------------------------------------------------------- how long it takes

  /** What is right after `n` events with the same keys down: the feature first, then the alternate function, then the
      command key, then control. */
  predicate RightAfter(n: nat, m: Modifiers, h: Held) {
    && (n >= 1 ==> m.controllingFeature == (h.command && h.control && h.alt) == (m.bits & 0x80 != 0))
    && (n >= 2 && h.command && h.alt ==> m.alternateEnabled)
    && (n >= 3 ==> (m.bits & 0x01 != 0) == h.command)
    && (n >= 4 ==> (m.bits & 0x02 != 0) == h.control)
  }

  lemma OneMoreRight(n: nat, m: Modifiers, h: Held)
    requires Consistent(m) && RightAfter(n, m, h)
    ensures RightAfter(n + 1, Notify(m, h).after, h)
    ensures n >= 4 ==> Notify(m, h) == Noticed(m, [])
  {
    OneNotice(m, h);
  }

  function Again(events: seq<Held>, h: Held, n: nat): seq<Held> {
    if n == 0 then events else Again(events, h, n - 1) + [h]
  }

  lemma RunOneMore(events: seq<Held>, h: Held)
    ensures Run(events + [h]).after == Notify(Run(events).after, h).after
  {
    hide Notify;
    assert (events + [h])[..|events|] == events;
  }

  /** The touchpad's view is brought up one notice at a time, in a fixed order; with the same keys down it is right
      after four modifier key events, and nothing more is sent. */
  lemma {:induction false} Settles(events: seq<Held>, h: Held, n: nat)
    ensures RightAfter(n, Run(Again(events, h, n)).after, h)
    ensures n >= 4 ==> Notify(Run(Again(events, h, n)).after, h).notices == []
  {
    hide Run, Notify, TakeTurns, Only, RightAfter, Consistent;
    if n > 0 {
      Settles(events, h, n - 1);
      RunTells(Again(events, h, n - 1));
      RunOneMore(Again(events, h, n - 1), h);
      OneMoreRight(n - 1, Run(Again(events, h, n - 1)).after, h);
    } else {
      NothingRight(Run(events).after, h);
    }
    RunTells(Again(events, h, n));
    OneMoreRight(n, Run(Again(events, h, n)).after, h);
  }

  lemma NothingRight(m: Modifiers, h: Held)
    ensures RightAfter(0, m, h)
  {
  }

  /** The alternate function is on exactly if at some event the command and alternate keys were down and the feature
      needed no notice. */
  lemma {:induction false} AlternateSince(events: seq<Held>)
    ensures Run(events).after.alternateEnabled <==> exists i :: 0 <= i < |events| && Calls(events, i)
  {
    hide Notify, Run;
    if events == [] {
      AtStart();
    } else {
      var front, h := events[..|events| - 1], events[|events| - 1];
      assert events == front + [h];
      AlternateSince(front);
      RunOneMore(front, h);
      RunTells(front);
      AlternateStep(Run(front).after, h);
      forall i | 0 <= i < |front| ensures Calls(front, i) <==> Calls(events, i) {
        assert front[..i] == events[..i] && front[i] == events[i];
      }
      assert events[..|front|] == front;
      if Calls(events, |front|) { assert Run(events).after.alternateEnabled; }
    }
  }

  /** At event `i` the command and alternate keys are down and the feature is as all three keys say. */
  predicate Calls(events: seq<Held>, i: nat)
    requires i < |events|
  {
    var h := events[i];
    && h.command && h.alt
    && (Run(events[..i]).after.controllingFeature <==> h.command && h.control && h.alt)
  }

  lemma AlternateStep(m: Modifiers, h: Held)
    requires Consistent(m)
    ensures Notify(m, h).after.alternateEnabled <==>
            m.alternateEnabled
            || (h.command && h.alt && (m.controllingFeature <==> h.command && h.control && h.alt))
  {
  }

  lemma AtStart()
    ensures !Run([]).after.alternateEnabled
  {
  }
}
