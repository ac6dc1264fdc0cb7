/** What the keyboard and the controller are left with when the keyboard has been told that the hardware is online. */
module PS2Restored {
  import opened PS2Port
  import opened PS2Requests
  import opened PS2Writes
  import opened PS2AckTransparency
  import opened PS2CommandByte
  import opened PS2SetCommandByte
  import opened PS2CommandByteEcho
  import opened PS2Leds
  import opened PS2Keyboard

  /** The update of the command byte leaves the lights alone, even if the keyboard still waits for them. */
  lemma {:induction false} UpdateUnheard(k: Lights, n: nat, b: byte)
    ensures HearsAll(k, Asks(n) + [Cmd(0x60), Data(b)]) == k.(diverted := false)
    decreases n
  {
    var store := [Cmd(0x60), Data(b)];
    if n == 0 {
      assert Asks(0) + store == store;
      assert store[1..] == [Data(b)] && store[1..][1..] == [];
      assert HearsAll(k.(diverted := true), [Data(b)]) == k.(diverted := false);
    } else {
      var w := Asks(n) + store;
      assert w[1..] == [Cmd(0x20)] + (Asks(n - 1) + store);
      assert w[1..][1..] == Asks(n - 1) + store;
      UpdateUnheard(k.(diverted := false), n - 1, b);
      assert HearsAll(k.(diverted := false), w[1..]) == k.(diverted := false);
    }
  }

  lemma UpdateLeavesLights(m: Mask, prefix: byte, e: Env, k: Lights)
    ensures HearsAll(k, PortWrites(Update(m, prefix, e).log)) == HearsAll(k, PortWrites(e.log)).(diverted := false)
  {
    hide PortWrites, Update, LastSeen, Failures, HearsAll, Mask.Apply;
    UpdateWrites(m, prefix, e);
    var b := m.Apply(LastSeen(m, prefix, e));
    var asks := Asks(Failures(m, prefix, e) + 1);
    Assoc(PortWrites(e.log), asks, [Cmd(0x60), Data(b)]);
    HearsConcat(k, PortWrites(e.log), asks + [Cmd(0x60), Data(b)]);
    UpdateUnheard(HearsAll(k, PortWrites(e.log)), Failures(m, prefix, e) + 1, b);
  }

  /** The request for the lights is taken over exactly if its first acknowledgement is among the first four keyboard
      bytes that arrive. */
  lemma LedsTaken(leds: byte, prefix: byte, e: Env)
    ensures Run(LedProgram(leds), prefix, false, e).count != 1 <==> Finds(0xFA, e.port)
  {
    hide Run, ExpectRead, Seen;
    LedRun(leds, prefix, e);
    ExpectValue(0xFA, e.port);
  }

  /** The keyboard shows what the driver holds exactly if it acknowledges the request for the lights in time; else it
      shows what it did. */
  lemma LightsRestored(queued: seq<seq<Command>>, leds: byte, prefix: byte, e: Env, k: Lights, before: byte)
    requires HearsAll(k, PortWrites(BatchEnv(queued, prefix, false, |queued|, e).log)) == AtRest(before)
    ensures var asked := BatchEnv(queued, prefix, false, |queued|, e);
      var after := HearsAll(k, PortWrites(Restored(queued, leds, prefix, e).log));
      && (after == AtRest(leds) <==> Finds(0xFA, asked.port))
      && (!Finds(0xFA, asked.port) ==> after.leds == before)
  {
    hide PortWrites, Update, HearsAll, Run, LedProgram, Finds, PS2Requests.BatchEnv, PS2Requests.BatchRun;
    var p := LedProgram(leds);
    var asked := BatchEnv(queued, prefix, false, |queued|, e);
    BatchFirst(queued, [p], |queued|, prefix, false, e);
    BatchStep(queued + [p], prefix, false, e);
    assert (queued + [p])[|queued|] == p;
    var told := Run(p, prefix, false, asked).env;
    UpdateLeavesLights(Mask(KEYBOARD_IRQ | TRANSLATE, KEYBOARD_CLOCK_OFF), prefix, told, k);
    LedsTaken(leds, prefix, asked);
    if Finds(0xFA, asked.port) {
      TakenOverExactly(leds, before, prefix, k, asked);
    } else {
      LedWrites(leds, prefix, asked);
      HearsConcat(k, PortWrites(asked.log), [Data(0xED)]);
      OnlyAnnounced(before);
    }
  }

  lemma OnlyAnnounced(before: byte)
    ensures HearsAll(AtRest(before), [Data(0xED)]) == Lights(before, true, false)
  {
    assert [Data(0xED)][1..] == [];
  }
}
