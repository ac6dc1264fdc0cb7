/** The auto-repeat filter of `dispatchKeyboardEventWithScancode`: which key events go on to be dispatched. */
module PS2AutoRepeat {
  import opened PS2KeyVector

  /** Key codes the property list can change. */
  datatype Bindings = Bindings(command: code, control: code, alt: code,
                               brightnessDown: code, brightnessUp: code, volumeDown: code, volumeUp: code)

  /** A mapped key with the state of the driver that matters here, or the reset of the key vector at wake-up. */
  datatype KeyEvent = Key(code: code, down: bool, numPad: bool, displaySleep: bool) | Wake

  const NO_KEY: code := 0
  const LEFT_SHIFT: code := 0x2A
  const RIGHT_SHIFT: code := 0x36

  predicate Repeatable(b: Bindings, n: code) {
    n == b.brightnessDown || n == b.brightnessUp || n == b.volumeDown || n == b.volumeUp
  }

  /** The exception made for brightness and volume keys, on the keys that are down. */
  ghost predicate MayRepeat(b: Bindings, down: iset<code>, e: KeyEvent)
    requires e.Key?
  {
    && Repeatable(b, e.code) && !e.numPad && !e.displaySleep
    && b.control !in down && b.command !in down
    && (b.alt !in down || LEFT_SHIFT in down || RIGHT_SHIFT in down)
  }

  ghost predicate Accepted(b: Bindings, down: iset<code>, e: KeyEvent) {
    e.Key? && e.code != NO_KEY && (!e.down || e.code !in down || MayRepeat(b, down, e))
  }

  ghost function After(down: iset<code>, e: KeyEvent): iset<code> {
    if e.Wake? then iset{}
    else if e.code == NO_KEY then down
    else if e.down then down + iset{e.code}
    else down - iset{e.code}
  }

  /** The keys down before event `i` of a run that starts with all keys up. */
  ghost function DownAt(events: seq<KeyEvent>, i: nat): iset<code>
    requires i <= |events|
  {
    if i == 0 then iset{} else After(DownAt(events, i - 1), events[i - 1])
  }

  // ---------------------------------------------------------------- what the run itself shows

  predicate Presses(e: KeyEvent, n: code) { e.Key? && e.code == n != NO_KEY && e.down }

  predicate Releases(e: KeyEvent, n: code) { e.Wake? || (e.Key? && e.code == n && !e.down) }

  /** `n` went down at `k` and neither came up nor was reset before `i`. */
  predicate HeldSince(events: seq<KeyEvent>, n: code, k: nat, i: nat)
    requires k <= i <= |events|
  {
    k < i && Presses(events[k], n) && forall m :: k < m < i ==> !Releases(events[m], n)
  }

  predicate Held(events: seq<KeyEvent>, n: code, i: nat)
    requires i <= |events|
  {
    exists k :: 0 <= k < i && HeldSince(events, n, k, i)
  }

  /** The key vector says exactly which keys the run left down. */
  lemma {:induction false} DownIsHeld(events: seq<KeyEvent>, n: code, i: nat)
    requires i <= |events|
    ensures n in DownAt(events, i) <==> Held(events, n, i)
  {
    if i > 0 {
      DownIsHeld(events, n, i - 1);
      var e := events[i - 1];
      if Presses(e, n) {
        assert HeldSince(events, n, i - 1, i);
      } else if n in DownAt(events, i) {
        var k :| 0 <= k < i - 1 && HeldSince(events, n, k, i - 1);
        assert HeldSince(events, n, k, i);
      } else {
        assert forall k :: 0 <= k < i - 1 && HeldSince(events, n, k, i) ==> HeldSince(events, n, k, i - 1);
      }
    }
  }

  /** Which events of a run are accepted, said on the run alone. */
  lemma AcceptedExactly(b: Bindings, events: seq<KeyEvent>, j: nat)
    requires j < |events|
    ensures Accepted(b, DownAt(events, j), events[j]) <==>
      var e := events[j];
      && e.Key? && e.code != 0
      && (e.down && Held(events, e.code, j) ==>
            && e.code in {b.brightnessDown, b.brightnessUp, b.volumeDown, b.volumeUp} && !e.numPad && !e.displaySleep
            && !Held(events, b.control, j) && !Held(events, b.command, j)
            && (Held(events, b.alt, j) ==> Held(events, 0x2A, j) || Held(events, 0x36, j)))
  {
    hide DownAt, Held;
    DownIsHeld(events, b.control, j);
    DownIsHeld(events, b.command, j);
    DownIsHeld(events, b.alt, j);
    DownIsHeld(events, LEFT_SHIFT, j);
    DownIsHeld(events, RIGHT_SHIFT, j);
    if events[j].Key? { DownIsHeld(events, events[j].code, j); }
  }

  /** Two accepted presses of one code have a release or a reset between them, unless the code is one of the four. */
  lemma NoRepeats(b: Bindings, events: seq<KeyEvent>, n: code, i: nat, j: nat)
    requires i < j < |events| && Presses(events[i], n) && Presses(events[j], n)
    requires Accepted(b, DownAt(events, i), events[i]) && Accepted(b, DownAt(events, j), events[j])
    ensures n in {b.brightnessDown, b.brightnessUp, b.volumeDown, b.volumeUp}
            || exists m :: i < m < j && Releases(events[m], n)
  {
    if forall m :: i < m < j ==> !Releases(events[m], n) {
      assert HeldSince(events, n, i, j);
      DownIsHeld(events, n, j);
    }
  }
}
