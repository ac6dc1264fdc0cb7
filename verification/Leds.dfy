/** The lock lights: what the driver wants them to show, and what the keyboard was told. */
module PS2Leds {
  import opened PS2Port
  import opened PS2Requests
  import opened PS2Writes
  import opened PS2AckTransparency
  import opened PS2CommandByte

  const NUM_LOCK: byte := 0x02
  const CAPS_LOCK: byte := 0x04

  function WithLock(leds: byte, lock: byte, locked: bool): byte { if locked then leds | lock else leds & !lock }

  // ---------------------------------------------------------------- the keyboard at the other end

  /** The lights; `setting` after a set-LEDs byte, `diverted` while the next data byte is not for the keyboard. */
  datatype Lights = Lights(leds: byte, setting: bool, diverted: bool)

  function AtRest(leds: byte): Lights { Lights(leds, false, false) }

  /** Controller commands that take a byte from the data port, or send one on to the mouse. */
  predicate Diverts(c: byte) { 0x60 <= c < 0x80 || 0x90 <= c < 0x94 || 0xD1 <= c < 0xD5 }

  function Hears(k: Lights, w: Write): Lights {
    match w
    case Cmd(c) => k.(diverted := Diverts(c))
    case Data(b) =>
      if k.diverted then k.(diverted := false)
      else if k.setting then AtRest(b)
      else k.(setting := b == 0xED)
  }

  function HearsAll(k: Lights, writes: seq<Write>): Lights
    decreases |writes|
  {
    if writes == [] then k else HearsAll(Hears(k, writes[0]), writes[1..])
  }

  lemma {:induction false} HearsConcat(k: Lights, a: seq<Write>, b: seq<Write>)
    ensures HearsAll(k, a + b) == HearsAll(HearsAll(k, a), b)
    decreases |a|
  {
    if a == [] {
      assert a + b == b;
    } else {
      HearsConcat(Hears(k, a[0]), a[1..], b);
      assert (a + b)[1..] == a[1..] + b;
    }
  }

  // ---------------------------------------------------------------- requests of all drivers

  datatype Job = SetLeds(leds: byte) | Other(program: seq<Command>) {
    function Program(): seq<Command> { if SetLeds? then LedProgram(leds) else program }
  }

  predicate Compares(c: Command) { c.op.ReadDataPortAndCompare? || c.op.SendMouseCommandAndCompareAck? }

  /** Where a program can end: at its end, or behind a comparison that failed. */
  predicate MayStop(cmds: seq<Command>, n: nat)
    requires n <= |cmds|
  {
    n == |cmds| || (n > 0 && Compares(cmds[n - 1]))
  }

  /** The program leaves the lights alone wherever it ends. */
  ghost predicate Quiet(cmds: seq<Command>, prefix: byte) {
    forall n, leds :: 0 <= n <= |cmds| && MayStop(cmds, n) ==>
      HearsAll(AtRest(leds), ProgramWrites(cmds[..n], prefix)) == AtRest(leds)
  }

  lemma OnlyComparesFail(c: Command, d: Device, prefix: byte, e: Env)
    ensures !Perform(c, d, prefix, e).ok ==> Compares(c)
  {
    hide PlainRead, ExpectRead;
  }

  /** One request: the lights follow it if it sets them, the first acknowledgement being enough; else they stay. */
  lemma JobRun(j: Job, prefix: byte, k: Lights, e: Env, leds: byte)
    requires HearsAll(k, PortWrites(e.log)) == AtRest(leds)
    requires if j.SetLeds? then Run(j.Program(), prefix, false, e).count != 1 else Quiet(j.program, prefix)
    ensures HearsAll(k, PortWrites(Run(j.Program(), prefix, false, e).env.log))
            == AtRest(if j.SetLeds? then j.leds else leds)
  {
    hide PortWrites, HearsAll, Run;
    var r := Run(j.Program(), prefix, false, e);
    if j.SetLeds? {
      LedWrites(j.leds, prefix, e);
      LedCount(j.leds, prefix, e);
      HearsConcat(k, PortWrites(e.log), [Data(SET_LEDS), Data(j.leds)]);
      HearsLeds(leds, j.leds);
    } else {
      RunWrites(j.program, prefix, e);
      RunStops(j.program, prefix, e);
      var ran := if r.count < |j.program| then r.count + 1 else r.count;
      HearsConcat(k, PortWrites(e.log), ProgramWrites(j.program[..ran], prefix));
    }
  }

  /** A set-LEDs request is not taken over exactly when its first acknowledgement is missing. */
  lemma TakenOverExactly(leds: byte, before: byte, prefix: byte, k: Lights, e: Env)
    requires HearsAll(k, PortWrites(e.log)) == AtRest(before)
    ensures var r := Run(LedProgram(leds), prefix, false, e);
      HearsAll(k, PortWrites(r.env.log)) == AtRest(leds) <==> r.count != 1
  {
    hide PortWrites, Run;
    if Run(LedProgram(leds), prefix, false, e).count == 1 {
      LedWrites(leds, prefix, e);
      HearsConcat(k, PortWrites(e.log), [Data(SET_LEDS)]);
      assert [Data(SET_LEDS)][1..] == [];
    } else {
      JobRun(SetLeds(leds), prefix, k, e, before);
    }
  }

  lemma LedCount(leds: byte, prefix: byte, e: Env)
    ensures Run(LedProgram(leds), prefix, false, e).count in {1, 3, 4}
  {
    hide Run, ExpectRead;
    LedRun(leds, prefix, e);
  }

  lemma HearsLeds(before: byte, leds: byte)
    ensures HearsAll(AtRest(before), [Data(SET_LEDS), Data(leds)]) == AtRest(leds)
  {
    var w := [Data(SET_LEDS), Data(leds)];
    assert w[1..] == [Data(leds)] && w[1..][1..] == [];
    assert HearsAll(Lights(before, true, false), [Data(leds)]) == AtRest(leds);
  }

  lemma RunStops(cmds: seq<Command>, prefix: byte, e: Env)
    ensures var c := Run(cmds, prefix, false, e).count; MayStop(cmds, if c < |cmds| then c + 1 else c)
  {
    hide Perform, EnvAt, StreamAt;
    var f := FirstFailure(cmds, prefix, 0, e);
    if f < |cmds| { OnlyComparesFail(cmds[f], StreamAt(cmds, f), prefix, EnvAt(cmds, prefix, f, e)); }
  }

  /** What the lights will show once the queue has been run. */
  function Wanted(queue: seq<Job>, leds: byte): byte {
    if queue == [] then leds
    else
      var last := queue[|queue| - 1];
      if last.SetLeds? then last.leds else Wanted(queue[..|queue| - 1], leds)
  }

  /** The oldest request counts only if no later one sets the lights. */
  lemma {:induction false} WantedFirst(j: Job, rest: seq<Job>, leds: byte)
    ensures Wanted([j] + rest, leds) == Wanted(rest, if j.SetLeds? then j.leds else leds)
  {
    var all := [j] + rest;
    if rest == [] {
      assert all == [j] && all[..0] == [];
    } else {
      assert all[..|all| - 1] == [j] + rest[..|rest| - 1];
      WantedFirst(j, rest[..|rest| - 1], leds);
    }
  }

  // ---------------------------------------------------------------- a run of the driver

  /** `_ledState`, the request queue, the part of it that a drain has taken and not run yet, and the port with what was
      written to it. */
  datatype State = State(ledState: byte, queue: seq<Job>, local: seq<Job>, env: Env)

  datatype Action =
    | CapsLock(locked: bool)
    | NumLock(locked: bool)
    | Refresh
    | Submit(program: seq<Command>)  // another driver queues a request
    | Take                           // a drain takes the queue
    | RunNext                        // and runs one request of it
    | Block(program: seq<Command>)   // another driver's synchronous request, behind its drain
    | Interrupt

  datatype Setup = Setup(prefix: byte, noNumLockLED: bool)

  function Change(ledState: byte, a: Action, u: Setup): byte {
    if a.CapsLock? then WithLock(ledState, CAPS_LOCK, a.locked)
    else if a.NumLock? && !u.noNumLockLED then WithLock(ledState, NUM_LOCK, a.locked)
    else ledState
  }

  /** One drain at a time: the next begins when the local queue has been run. */
  ghost function Act(s: State, a: Action, u: Setup): State {
    match a
    case Interrupt => s.(env := Service(s.env))
    case Submit(program) => s.(queue := s.queue + [Other(program)])
    case Take => if s.local == [] then s.(local := s.queue, queue := []) else s
    case RunNext =>
      if s.local == [] then s
      else s.(local := s.local[1..], env := Run(s.local[0].Program(), u.prefix, false, s.env).env)
    case Block(program) => if s.local == [] then s.(env := Run(program, u.prefix, false, s.env).env) else s
    case _ =>
      if a.NumLock? && u.noNumLockLED then s
      else s.(ledState := Change(s.ledState, a, u), queue := s.queue + [SetLeds(Change(s.ledState, a, u))])
  }

  ghost function ActAll(s: State, actions: seq<Action>, u: Setup): State {
    if actions == [] then s else Act(ActAll(s, actions[..|actions| - 1], u), actions[|actions| - 1], u)
  }

  /** Other drivers' requests leave the lights alone, and the keyboard answers the set-LEDs byte of a lights request. */
  ghost predicate FairAct(s: State, a: Action, u: Setup) {
    match a
    case Submit(program) => Quiet(program, u.prefix)
    case Block(program) => Quiet(program, u.prefix)
    case RunNext =>
      s.local != [] && s.local[0].SetLeds? ==> Run(s.local[0].Program(), u.prefix, false, s.env).count != 1
    case _ => true
  }

  /** The assumptions on a run. */
  ghost predicate Fair(s: State, actions: seq<Action>, u: Setup) {
    actions == [] ||
    (Fair(s, actions[..|actions| - 1], u)
     && FairAct(ActAll(s, actions[..|actions| - 1], u), actions[|actions| - 1], u))
  }

  ghost predicate QuietJobs(queue: seq<Job>, prefix: byte) {
    forall j :: 0 <= j < |queue| ==> (queue[j].Other? ==> Quiet(queue[j].program, prefix))
  }

  /** Running what is left of the drain and then the queue would make the lights show `_ledState`. */
  ghost predicate Agrees(s: State, u: Setup, k: Lights) {
    && QuietJobs(s.local, u.prefix) && QuietJobs(s.queue, u.prefix)
    && var now := HearsAll(k, PortWrites(s.env.log));
       now == AtRest(now.leds) && Wanted(s.local + s.queue, now.leds) == s.ledState
  }

  lemma RunNextAgrees(s: State, u: Setup, k: Lights)
    requires Agrees(s, u, k) && FairAct(s, RunNext, u) && s.local != []
    ensures Agrees(Act(s, RunNext, u), u, k)
  {
    hide PortWrites, HearsAll, Quiet, Run;
    var now, j := HearsAll(k, PortWrites(s.env.log)).leds, s.local[0];
    JobRun(j, u.prefix, k, s.env, now);
    assert s.local + s.queue == [j] + (s.local[1..] + s.queue);
    WantedFirst(j, s.local[1..] + s.queue, now);
  }

  /** A request queued last. */
  lemma QueuedAgrees(s: State, t: State, j: Job, u: Setup, k: Lights)
    requires Agrees(s, u, k) && t == s.(ledState := t.ledState, queue := s.queue + [j])
    requires if j.SetLeds? then j.leds == t.ledState else t.ledState == s.ledState && Quiet(j.program, u.prefix)
    ensures Agrees(t, u, k)
  {
    hide PortWrites, HearsAll, Quiet;
    var all := t.local + t.queue;
    assert all[..|all| - 1] == s.local + s.queue && all[|all| - 1] == j;
  }

  lemma ActAgrees(s: State, a: Action, u: Setup, k: Lights)
    requires Agrees(s, u, k) && FairAct(s, a, u)
    ensures Agrees(Act(s, a, u), u, k)
  {
    hide PortWrites, HearsAll, Quiet, Service, Change, Run;
    var t := Act(s, a, u);
    match a
    case Interrupt => ServiceWrites(s.env);
    case Submit(program) => QueuedAgrees(s, t, Other(program), u, k);
    case Take => if s.local == [] { assert [] + s.queue == s.queue + [] == s.queue; }
    case RunNext => if s.local != [] { RunNextAgrees(s, u, k); }
    case Block(program) => JobRun(Other(program), u.prefix, k, s.env, HearsAll(k, PortWrites(s.env.log)).leds);
    case _ => if t != s { QueuedAgrees(s, t, SetLeds(t.ledState), u, k); }
  }

  lemma {:induction false} ServiceWrites(e: Env)
    ensures PortWrites(Service(e).log) == PortWrites(e.log)
    decreases e.port.Size()
  {
    hide Absorb;
    var p := Absorb(e.port);
    if p.queue != [] {
      WritesConcat(e.log, [Sent(Keyboard, p.queue[0])]);
      ServiceWrites(Env(p.(queue := p.queue[1..]), e.log + [Sent(Keyboard, p.queue[0])]));
      NoWrites([Sent(Keyboard, p.queue[0])]);
    } else if p.script != [] && p.script[0].Ready? && p.script[0].src.Mouse? {
      WritesConcat(e.log, [Sent(Mouse, p.script[0].data)]);
      ServiceWrites(Env(p.(script := p.script[1..]), e.log + [Sent(Mouse, p.script[0].data)]));
      NoWrites([Sent(Mouse, p.script[0].data)]);
    }
  }

  lemma {:induction false} RunAgrees(s: State, actions: seq<Action>, u: Setup, k: Lights)
    requires Agrees(s, u, k) && Fair(s, actions, u)
    ensures Agrees(ActAll(s, actions, u), u, k)
  {
    hide Agrees, Act, FairAct;
    if actions != [] {
      RunAgrees(s, actions[..|actions| - 1], u, k);
      ActAgrees(ActAll(s, actions[..|actions| - 1], u), actions[|actions| - 1], u, k);
    }
  }

  // ---------------------------------------------------------------- what the user sees

  /** What the last call for a lock said. */
  function Locked(actions: seq<Action>, caps: bool, before: bool): bool {
    if actions == [] then before
    else
      var a := actions[|actions| - 1];
      if (if caps then a.CapsLock? else a.NumLock?) then a.locked
      else Locked(actions[..|actions| - 1], caps, before)
  }

  predicate Shows(leds: byte, lock: byte) { leds & lock != 0 }

  /** A call changes its own light and no other. */
  lemma OwnBitOnly(leds: byte, caps: bool, locked: bool)
    ensures var after := WithLock(leds, if caps then CAPS_LOCK else NUM_LOCK, locked);
      && (Shows(after, 0x04) <==> if caps then locked else Shows(leds, 0x04))
      && (Shows(after, 0x02) <==> if caps then Shows(leds, 0x02) else locked)
      && after & 0xF9 == leds & 0xF9
  {
  }

  /** The two lock bits of `leds` are these, and every other bit is as in `before`. */
  predicate Lit(leds: byte, caps: bool, num: bool, before: byte) {
    && (Shows(leds, CAPS_LOCK) <==> caps) && (Shows(leds, NUM_LOCK) <==> num)
    && leds & !(CAPS_LOCK | NUM_LOCK) == before & !(CAPS_LOCK | NUM_LOCK)
  }

  lemma ActLights(s: State, a: Action, u: Setup, caps: bool, num: bool, before: byte)
    requires Lit(s.ledState, caps, num, before)
    ensures Lit(Act(s, a, u).ledState, if a.CapsLock? then a.locked else caps,
                if a.NumLock? && !u.noNumLockLED then a.locked else num, before)
  {
    hide WithLock, Shows, Run, Service;
    if a.CapsLock? { OwnBitOnly(s.ledState, true, a.locked); }
    if a.NumLock? { OwnBitOnly(s.ledState, false, a.locked); }
  }

  lemma {:induction false} StateFollowsLocks(s: State, actions: seq<Action>, u: Setup)
    ensures var caps, num := Shows(s.ledState, CAPS_LOCK), Shows(s.ledState, NUM_LOCK);
      Lit(ActAll(s, actions, u).ledState, Locked(actions, true, caps),
          if u.noNumLockLED then num else Locked(actions, false, num), s.ledState)
  {
    hide Lit, Act;
    if actions == [] {
      SameLights(s.ledState);
    } else {
      var before := actions[..|actions| - 1];
      StateFollowsLocks(s, before, u);
      var caps, num := Shows(s.ledState, CAPS_LOCK), Shows(s.ledState, NUM_LOCK);
      ActLights(ActAll(s, before, u), actions[|actions| - 1], u, Locked(before, true, caps),
                if u.noNumLockLED then num else Locked(before, false, num), s.ledState);
    }
  }

  lemma SameLights(leds: byte)
    ensures Lit(leds, Shows(leds, CAPS_LOCK), Shows(leds, NUM_LOCK), leds)
  {
  }

  /** Whenever no request is queued or about to run, the lights of the keyboard show `_ledState`, that is, what the last
      calls for caps lock and num lock said, whether or not a drain was under way, whatever other drivers asked for and
      whatever was typed in between. */
  lemma LightsAtRest(s: State, actions: seq<Action>, u: Setup, k: Lights)
    requires Agrees(s, u, k) && Fair(s, actions, u)
    requires var t := ActAll(s, actions, u); t.queue == t.local == []
    ensures var now := ActAll(s, actions, u);
      var leds := HearsAll(k, PortWrites(now.env.log)).leds;
      && leds == now.ledState
      && (Shows(leds, 0x04) <==> Locked(actions, true, Shows(s.ledState, 0x04)))
      && (!u.noNumLockLED ==> (Shows(leds, 0x02) <==> Locked(actions, false, Shows(s.ledState, 0x02))))
  {
    hide HearsAll, PortWrites, ActAll, Fair, Shows, Quiet;
    RunAgrees(s, actions, u, k);
    StateFollowsLocks(s, actions, u);
  }

  // ---------------------------------------------------------------- the other drivers' requests are quiet

  /** Commands and questions to the mouse, where the routing prefix diverts what follows it. */
  lemma {:induction false} MouseProgramQuiet(cmds: seq<Command>, prefix: byte, leds: byte)
    requires Diverts(prefix)
    requires forall i :: 0 <= i < |cmds| ==> !cmds[i].op.WriteDataPort? && !cmds[i].op.WriteCommandPort?
    ensures HearsAll(AtRest(leds), ProgramWrites(cmds, prefix)) == AtRest(leds)
  {
    if cmds != [] {
      var last := cmds[|cmds| - 1];
      MouseProgramQuiet(cmds[..|cmds| - 1], prefix, leds);
      HearsConcat(AtRest(leds), ProgramWrites(cmds[..|cmds| - 1], prefix), CommandWrites(last, prefix));
      MouseCommandQuiet(last, prefix, leds);
    }
  }

  lemma MouseCommandQuiet(c: Command, prefix: byte, leds: byte)
    requires Diverts(prefix) && !c.op.WriteDataPort? && !c.op.WriteCommandPort?
    ensures HearsAll(AtRest(leds), CommandWrites(c, prefix)) == AtRest(leds)
  {
    if c.op.SendMouseCommandAndCompareAck? {
      var w := CommandWrites(c, prefix);
      assert w[1..] == [Data(c.inOrOut)] && w[1..][1..] == [];
      assert HearsAll(Lights(leds, false, true), w[1..]) == AtRest(leds);
    }
  }

  lemma MouseProgramsAreQuiet(cmds: seq<Command>, prefix: byte)
    requires Diverts(prefix)
    requires forall i :: 0 <= i < |cmds| ==> !cmds[i].op.WriteDataPort? && !cmds[i].op.WriteCommandPort?
    ensures Quiet(cmds, prefix)
  {
    hide HearsAll, ProgramWrites, MayStop;
    forall n, leds | 0 <= n <= |cmds| ensures HearsAll(AtRest(leds), ProgramWrites(cmds[..n], prefix)) == AtRest(leds) {
      MouseProgramQuiet(cmds[..n], prefix, leds);
    }
  }

  /** Both requests of an update of the command byte: what they write is for the controller. */
  lemma CommandByteQuiet(old_: byte, new_: byte, prefix: byte)
    ensures Quiet(ReadProgram(), prefix) && Quiet(TestAndSetProgram(old_, new_), prefix)
  {
    ReadQuiet(prefix);
    TestAndSetQuiet(old_, new_, prefix);
  }

  lemma ReadQuiet(prefix: byte)
    ensures Quiet(ReadProgram(), prefix)
  {
    hide HearsAll, ProgramWrites;
    var cmds := ReadProgram();
    ReadProgramWrites(prefix);
    assert cmds[..2] == cmds;
    forall n, leds | 0 <= n <= |cmds| && MayStop(cmds, n)
      ensures HearsAll(AtRest(leds), ProgramWrites(cmds[..n], prefix)) == AtRest(leds)
    {
      assert n == 2;
      UpdateHeard(leds, 0);
    }
  }

  lemma TestAndSetQuiet(old_: byte, new_: byte, prefix: byte)
    ensures Quiet(TestAndSetProgram(old_, new_), prefix)
  {
    hide HearsAll, ProgramWrites;
    var cmds := TestAndSetProgram(old_, new_);
    TestAndSetWrites(old_, new_, prefix);
    assert cmds[..4] == cmds;
    forall n, leds | 0 <= n <= |cmds| && MayStop(cmds, n)
      ensures HearsAll(AtRest(leds), ProgramWrites(cmds[..n], prefix)) == AtRest(leds)
    {
      assert n == 2 || n == 4;
      UpdateHeard(leds, new_);
    }
  }

  lemma UpdateHeard(leds: byte, new_: byte)
    ensures HearsAll(AtRest(leds), [Cmd(GET_COMMAND_BYTE)]) == AtRest(leds)
    ensures HearsAll(AtRest(leds), [Cmd(GET_COMMAND_BYTE), Cmd(SET_COMMAND_BYTE), Data(new_)]) == AtRest(leds)
  {
    var w := [Cmd(GET_COMMAND_BYTE), Cmd(SET_COMMAND_BYTE), Data(new_)];
    assert w[1..] == [Cmd(SET_COMMAND_BYTE), Data(new_)] && w[1..][1..] == [Data(new_)] && w[1..][1..][1..] == [];
    assert HearsAll(Lights(leds, false, true), [Data(new_)]) == AtRest(leds);
    assert HearsAll(AtRest(leds), w[1..]) == AtRest(leds);
    assert [Cmd(GET_COMMAND_BYTE)][1..] == [];
  }
}
