/** Several drivers update the controller's command byte with the test-and-set loop of `setCommandByte`.
    Each request is atomic; between two requests of one driver anything can happen. */
module PS2CommandByte {
  import opened PS2Port
  import opened PS2Requests
  import opened PS2Writes

  const GET_COMMAND_BYTE: byte := 0x20
  const SET_COMMAND_BYTE: byte := 0x60

  function ReadProgram(): seq<Command> { [Command(WriteCommandPort, GET_COMMAND_BYTE), Command(ReadDataPort, 0)] }

  function TestAndSetProgram(old_: byte, new_: byte): seq<Command> {
    [Command(WriteCommandPort, GET_COMMAND_BYTE), Command(ReadDataPortAndCompare, old_),
     Command(WriteCommandPort, SET_COMMAND_BYTE), Command(WriteDataPort, new_)]
  }

  /** The controller's register after some writes: a data byte that follows the set command replaces it. */
  function Register(writes: seq<Write>, reg: byte, setting: bool): byte {
    if writes == [] then reg
    else match writes[0]
      case Cmd(c) => Register(writes[1..], reg, c == 0x60)
      case Data(b) => Register(writes[1..], if setting then b else reg, false)
  }

  /** The last byte stored is what the register holds. */
  lemma {:induction false} StoredLast(w: seq<Write>, b: byte, reg: byte, setting: bool)
    ensures Register(w + [Cmd(SET_COMMAND_BYTE), Data(b)], reg, setting) == b
    decreases |w|
  {
    var all := w + [Cmd(SET_COMMAND_BYTE), Data(b)];
    if w == [] {
      assert all[1..] == [Data(b)] && all[1..][1..] == [];
      assert Register(all[1..], reg, true) == b;
    } else {
      assert all[1..] == w[1..] + [Cmd(SET_COMMAND_BYTE), Data(b)];
      StoredLast(w[1..], b, if w[0].Data? && setting then w[0].data else reg,
                 w[0].Cmd? && w[0].data == SET_COMMAND_BYTE);
    }
  }

  /** The controller answers a read command with its register before anything typed arrives. */
  ghost predicate AnswersFirst(p: Port, reg: byte) {
    var own := Own(Arrivals(Keyboard, p, IDLE_BUDGET), Keyboard);
    own != [] && own[0] == reg
  }

  /** It answers within the first four keyboard bytes, and none of those typed meanwhile is the byte expected. */
  ghost predicate AnswersAmong(p: Port, reg: byte, expected: byte) {
    var own := Own(Arrivals(Keyboard, p, IDLE_BUDGET), Keyboard);
    exists n :: 0 <= n < |own| && n < 4 && own[n] == reg
                && forall i :: 0 <= i < |own| && i < 4 && own[i] == expected ==> i == n
  }

  lemma PlainAnswer(p: Port, reg: byte)
    requires AnswersFirst(p, reg)
    ensures PlainRead(Keyboard, p).value == reg
  {
    hide Arrivals, Exhausted, Preempted, Through;
  }

  lemma ExpectAnswer(p: Port, reg: byte, expected: byte)
    requires AnswersAmong(p, reg, expected)
    ensures ExpectRead(Keyboard, expected, p).value == expected <==> reg == expected
  {
    hide Arrivals, Exhausted, Own, Preempted, Through, SendAll, LoseAll;
    var own := Own(Arrivals(Keyboard, p, IDLE_BUDGET), Keyboard);
    var n :| 0 <= n < |own| && n < 4 && own[n] == reg
             && forall i :: 0 <= i < |own| && i < 4 && own[i] == expected ==> i == n;
    var j := IndexOf(own, expected);
    assert j < |own| && j < 4 ==> j == n;
  }

  /** What the first request of the loop brings back. */
  lemma ReadRun(prefix: byte, e: Env, reg: byte)
    requires AnswersFirst(e.port, reg)
    ensures var r := Run(ReadProgram(), prefix, false, e);
      && r.count == 2 && r.commands[1].inOrOut == reg
      && PortWrites(r.env.log) == PortWrites(e.log) + [Cmd(GET_COMMAND_BYTE)]
  {
    hide PlainRead, ExpectRead, StreamAt, Armed, EffectAt, EnvAt, FirstFailure, AnswersFirst, AnswersAmong,
      PortWrites, ProgramWrites;
    var cmds := ReadProgram();
    EmptyScan(cmds);
    StreamStep(cmds, 0);
    EnvStep(cmds, prefix, e);
    assert EnvAt(cmds, prefix, 1, e) == Writing(Cmd(GET_COMMAND_BYTE), e) && EffectAt(cmds, prefix, 0, e).ok;
    PlainAnswer(e.port, reg);
    assert EffectAt(cmds, prefix, 1, e).ok;
    FailsFrom(cmds, prefix, 0, 2, e);
    RunWrites(cmds, prefix, e);
    assert cmds[..2] == cmds;
    ReadProgramWrites(prefix);
  }

  lemma ReadProgramWrites(prefix: byte)
    ensures ProgramWrites(ReadProgram(), prefix) == [Cmd(GET_COMMAND_BYTE)]
  {
    var c := ReadProgram();
    assert c[..1][..0] == [];
    assert ProgramWrites(c[..1], prefix) == [Cmd(GET_COMMAND_BYTE)];
  }

  /** The second request stores the new value exactly when the register still holds the old one. */
  lemma TestAndSetRun(old_: byte, new_: byte, prefix: byte, e: Env, reg: byte)
    requires AnswersAmong(e.port, reg, old_)
    ensures var r := Run(TestAndSetProgram(old_, new_), prefix, false, e);
      && r.count == (if reg == old_ then 4 else 1)
      && PortWrites(r.env.log) == PortWrites(e.log) + (if reg == old_
           then [Cmd(GET_COMMAND_BYTE), Cmd(SET_COMMAND_BYTE), Data(new_)] else [Cmd(GET_COMMAND_BYTE)])
  {
    hide PlainRead, ExpectRead, StreamAt, Armed, EffectAt, EnvAt, FirstFailure, AnswersFirst, AnswersAmong,
      PortWrites, ProgramWrites;
    var cmds := TestAndSetProgram(old_, new_);
    EmptyScan(cmds);
    StreamStep(cmds, 0);
    EnvStep(cmds, prefix, e);
    assert EnvAt(cmds, prefix, 1, e) == Writing(Cmd(GET_COMMAND_BYTE), e) && EffectAt(cmds, prefix, 0, e).ok;
    ExpectAnswer(e.port, reg, old_);
    assert EffectAt(cmds, prefix, 1, e).ok <==> reg == old_;
    assert EffectAt(cmds, prefix, 2, e).ok && EffectAt(cmds, prefix, 3, e).ok;
    FailsFrom(cmds, prefix, 0, if reg == old_ then 4 else 1, e);
    RunWrites(cmds, prefix, e);
    assert cmds[..4] == cmds;
    TestAndSetWrites(old_, new_, prefix);
  }

  lemma TestAndSetWrites(old_: byte, new_: byte, prefix: byte)
    ensures var c := TestAndSetProgram(old_, new_);
      && ProgramWrites(c[..2], prefix) == [Cmd(GET_COMMAND_BYTE)]
      && ProgramWrites(c, prefix) == [Cmd(GET_COMMAND_BYTE), Cmd(SET_COMMAND_BYTE), Data(new_)]
  {
    var c := TestAndSetProgram(old_, new_);
    assert c[..4] == c && c[..4][..3] == c[..3] && c[..3][..2] == c[..2] && c[..2][..1] == c[..1] && c[..1][..0] == [];
    assert ProgramWrites(c[..1], prefix) == [Cmd(GET_COMMAND_BYTE)];
    assert ProgramWrites(c[..2], prefix) == [Cmd(GET_COMMAND_BYTE)];
    assert ProgramWrites(c[..3], prefix) == [Cmd(GET_COMMAND_BYTE), Cmd(SET_COMMAND_BYTE)];
  }

  // ---------------------------------------------------------------- the drivers

  datatype Mask = Mask(setBits: byte, clearBits: byte) {
    function Apply(b: byte): byte { (b | setBits) & !clearBits }
  }

  datatype Pc = Unread | Testing(seen: byte, base: nat) | Finished

  datatype Driver = Driver(pc: Pc, retries: nat)

  /** The register, the drivers, and which driver's update took effect, in order. */
  datatype System = System(reg: byte, drivers: seq<Driver>, commits: seq<nat>)

  /** What the register holds when the drivers in `commits` have updated it, one after the other. */
  function Value(reg: byte, masks: seq<Mask>, commits: seq<nat>): byte
    requires forall k :: 0 <= k < |commits| ==> commits[k] < |masks|
  {
    if commits == [] then reg
    else masks[commits[|commits| - 1]].Apply(Value(reg, masks, commits[..|commits| - 1]))
  }

  ghost predicate Init(masks: seq<Mask>, s: System) {
    |s.drivers| == |masks| && s.commits == [] && forall i :: 0 <= i < |masks| ==> s.drivers[i] == Driver(Unread, 0)
  }

  /** Driver `i` submits its next request, which meets environment `e`; a system step is the request's outcome. */
  ghost predicate Submits(masks: seq<Mask>, s: System, t: System, i: nat, prefix: byte, e: Env)
    requires |s.drivers| == |masks|
  {
    && i < |masks|
    && match s.drivers[i].pc
       case Finished => false
       case Unread =>
         var r := Run(ReadProgram(), prefix, false, e);
         && PortWrites(e.log) <= PortWrites(r.env.log)
         && var new_ := PortWrites(r.env.log)[|PortWrites(e.log)|..];
            t == System(Register(new_, s.reg, false),
                        s.drivers[i := s.drivers[i].(pc := Testing(r.commands[1].inOrOut, |s.commits|))], s.commits)
       case Testing(seen, _) =>
         var r := Run(TestAndSetProgram(seen, masks[i].Apply(seen)), prefix, false, e);
         && PortWrites(e.log) <= PortWrites(r.env.log)
         && var new_ := PortWrites(r.env.log)[|PortWrites(e.log)|..];
            t == System(Register(new_, s.reg, false),
                        s.drivers[i := if r.count != 4 then Driver(Unread, s.drivers[i].retries + 1)
                                       else s.drivers[i].(pc := Finished)],
                        if r.count != 4 then s.commits else s.commits + [i])
  }

  /** The controller's answer to that request is the byte taken for it. */
  ghost predicate Answered(s: System, i: nat, e: Env) {
    i < |s.drivers|
    && match s.drivers[i].pc
       case Finished => true
       case Unread => AnswersFirst(e.port, s.reg)
       case Testing(seen, _) => AnswersAmong(e.port, s.reg, seen)
  }

  ghost predicate Step(masks: seq<Mask>, s: System, t: System, i: nat, prefix: byte, e: Env)
    requires |s.drivers| == |masks|
  {
    Submits(masks, s, t, i, prefix, e) && Answered(s, i, e)
  }

  predicate ValidCommits(masks: seq<Mask>, commits: seq<nat>) {
    forall k :: 0 <= k < |commits| ==> commits[k] < |masks|
  }

  /** Driver `i` is finished just when it is among the commits, and has retried no more often than others committed;
      a value it read was current when `base` updates had taken effect. */
  ghost predicate DriverInv(masks: seq<Mask>, reg0: byte, commits: seq<nat>, d: Driver, i: nat)
    requires ValidCommits(masks, commits)
  {
    && (d.pc.Finished? <==> i in commits)
    && (d.pc.Unread? ==> d.retries <= |commits|)
    && (d.pc.Testing? ==> d.retries <= d.pc.base <= |commits| && d.pc.seen == Value(reg0, masks, commits[..d.pc.base]))
    && (d.pc.Finished? ==> d.retries < |commits|)
  }

  ghost predicate Inv(masks: seq<Mask>, reg0: byte, s: System) {
    && |s.drivers| == |masks| && ValidCommits(masks, s.commits)
    && (forall j, k :: 0 <= j < k < |s.commits| ==> s.commits[j] != s.commits[k])
    && s.reg == Value(reg0, masks, s.commits)
    && forall i :: 0 <= i < |masks| ==> DriverInv(masks, reg0, s.commits, s.drivers[i], i)
  }

  // ---------------------------------------------------------------- every interleaving

  /** What a step amounts to, once the two requests are understood. */
  lemma StepMeans(masks: seq<Mask>, s: System, t: System, i: nat, prefix: byte, e: Env)
    requires |s.drivers| == |masks| && Step(masks, s, t, i, prefix, e)
    ensures i < |masks| && !s.drivers[i].pc.Finished?
    ensures s.drivers[i].pc.Unread? ==>
              t == System(s.reg, s.drivers[i := s.drivers[i].(pc := Testing(s.reg, |s.commits|))], s.commits)
    ensures s.drivers[i].pc.Testing? && s.drivers[i].pc.seen != s.reg ==>
              t == System(s.reg, s.drivers[i := Driver(Unread, s.drivers[i].retries + 1)], s.commits)
    ensures s.drivers[i].pc.Testing? && s.drivers[i].pc.seen == s.reg ==>
              t == System(masks[i].Apply(s.reg), s.drivers[i := s.drivers[i].(pc := Finished)], s.commits + [i])
  {
    hide Run, AnswersFirst, AnswersAmong, PortWrites;
    match s.drivers[i].pc
    case Finished =>
    case Unread =>
      ReadRun(prefix, e, s.reg);
      AfterPrefix(PortWrites(e.log), [Cmd(GET_COMMAND_BYTE)]);
      RegisterSet(0, s.reg);
    case Testing(seen, _) =>
      var new_ := masks[i].Apply(seen);
      TestAndSetRun(seen, new_, prefix, e, s.reg);
      AfterPrefix(PortWrites(e.log), [Cmd(GET_COMMAND_BYTE)]);
      AfterPrefix(PortWrites(e.log), [Cmd(GET_COMMAND_BYTE), Cmd(SET_COMMAND_BYTE), Data(new_)]);
      RegisterSet(new_, s.reg);
  }

  lemma AfterPrefix<T>(a: seq<T>, b: seq<T>)
    ensures a <= a + b && (a + b)[|a|..] == b
  {
  }

  lemma RegisterSet(new_: byte, reg: byte)
    ensures Register([Cmd(GET_COMMAND_BYTE)], reg, false) == reg
    ensures Register([Cmd(GET_COMMAND_BYTE), Cmd(SET_COMMAND_BYTE), Data(new_)], reg, false) == new_
  {
    var w := [Cmd(GET_COMMAND_BYTE), Cmd(SET_COMMAND_BYTE), Data(new_)];
    assert w[1..] == [Cmd(SET_COMMAND_BYTE), Data(new_)] && w[1..][1..] == [Data(new_)];
    assert Register([Data(new_)], reg, true) == new_ by { assert [Data(new_)][1..] == []; }
    assert [Cmd(GET_COMMAND_BYTE)][1..] == [];
  }

  lemma KeepsWhenReading(masks: seq<Mask>, reg0: byte, s: System, t: System, i: nat)
    requires Inv(masks, reg0, s) && i < |masks| && s.drivers[i].pc.Unread?
    requires t == System(s.reg, s.drivers[i := s.drivers[i].(pc := Testing(s.reg, |s.commits|))], s.commits)
    ensures Inv(masks, reg0, t)
  {
    assert s.commits[..|s.commits|] == s.commits;
  }

  /** A failed test: the value read is no longer current, so an update took effect in between. */
  lemma KeepsWhenRetrying(masks: seq<Mask>, reg0: byte, s: System, t: System, i: nat)
    requires Inv(masks, reg0, s) && i < |masks| && s.drivers[i].pc.Testing? && s.drivers[i].pc.seen != s.reg
    requires t == System(s.reg, s.drivers[i := Driver(Unread, s.drivers[i].retries + 1)], s.commits)
    ensures Inv(masks, reg0, t) && |s.commits| > s.drivers[i].pc.base
  {
    assert s.commits[..|s.commits|] == s.commits;
  }

  lemma DriverKept(masks: seq<Mask>, reg0: byte, commits: seq<nat>, d: Driver, j: nat, i: nat)
    requires ValidCommits(masks, commits) && i < |masks| && j != i && DriverInv(masks, reg0, commits, d, j)
    ensures ValidCommits(masks, commits + [i]) && DriverInv(masks, reg0, commits + [i], d, j)
  {
    if d.pc.Testing? { assert (commits + [i])[..d.pc.base] == commits[..d.pc.base]; }
  }

  lemma KeepsWhenCommitting(masks: seq<Mask>, reg0: byte, s: System, t: System, i: nat)
    requires Inv(masks, reg0, s) && i < |masks| && s.drivers[i].pc.Testing? && s.drivers[i].pc.seen == s.reg
    requires t == System(masks[i].Apply(s.reg), s.drivers[i := s.drivers[i].(pc := Finished)], s.commits + [i])
    ensures Inv(masks, reg0, t)
  {
    hide Mask.Apply, DriverInv, Value;
    assert i !in s.commits && t.drivers[i].retries < |t.commits| by {
      Understood(masks, reg0, s.commits, s.drivers[i], i);
    }
    assert t.reg == Value(reg0, masks, t.commits) by { OneMoreCommit(reg0, masks, s.commits, i); }
    forall j | 0 <= j < |masks| && j != i ensures DriverInv(masks, reg0, t.commits, t.drivers[j], j) {
      DriverKept(masks, reg0, s.commits, s.drivers[j], j, i);
    }
    Committed(masks, reg0, t.commits, t.drivers[i], i);
  }

  lemma Understood(masks: seq<Mask>, reg0: byte, commits: seq<nat>, d: Driver, i: nat)
    requires ValidCommits(masks, commits) && DriverInv(masks, reg0, commits, d, i) && d.pc.Testing?
    ensures i !in commits && d.retries <= |commits|
  {
  }

  lemma Committed(masks: seq<Mask>, reg0: byte, commits: seq<nat>, d: Driver, i: nat)
    requires ValidCommits(masks, commits) && d.pc.Finished? && i in commits && d.retries < |commits|
    ensures DriverInv(masks, reg0, commits, d, i)
  {
  }

  lemma OneMoreCommit(reg: byte, masks: seq<Mask>, commits: seq<nat>, i: nat)
    requires ValidCommits(masks, commits) && i < |masks|
    ensures Value(reg, masks, commits + [i]) == masks[i].Apply(Value(reg, masks, commits))
  {
    hide Mask.Apply;
    assert (commits + [i])[..|commits|] == commits;
  }

  /** Any request of any driver keeps the invariant; a driver only retries when an update took effect since it read. */
  lemma StepKeepsInv(masks: seq<Mask>, reg0: byte, s: System, t: System, i: nat, prefix: byte, e: Env)
    requires Inv(masks, reg0, s) && Step(masks, s, t, i, prefix, e)
    ensures Inv(masks, reg0, t)
    ensures t.drivers[i].retries > s.drivers[i].retries ==>
              s.drivers[i].pc.Testing? && |s.commits| > s.drivers[i].pc.base
  {
    hide Step, Value, Mask.Apply;
    StepMeans(masks, s, t, i, prefix, e);
    if s.drivers[i].pc.Unread? {
      KeepsWhenReading(masks, reg0, s, t, i);
    } else if s.drivers[i].pc.seen != s.reg {
      KeepsWhenRetrying(masks, reg0, s, t, i);
    } else {
      KeepsWhenCommitting(masks, reg0, s, t, i);
    }
  }

  /** A run: consecutive systems are linked by a step of some driver. */
  ghost predicate IsRun(masks: seq<Mask>, run: seq<System>) {
    && run != [] && Init(masks, run[0])
    && forall k :: 0 <= k < |run| - 1 ==>
         CanStep(masks, run[k], run[k + 1])
  }

  ghost predicate CanStep(masks: seq<Mask>, s: System, t: System) {
    |s.drivers| == |masks| && exists i: nat, prefix: byte, e: Env :: Step(masks, s, t, i, prefix, e)
  }

  lemma {:induction false} RunKeepsInv(masks: seq<Mask>, run: seq<System>, n: nat)
    requires IsRun(masks, run) && n < |run|
    ensures Inv(masks, run[0].reg, run[n])
  {
    hide Step;
    if n > 0 {
      RunKeepsInv(masks, run, n - 1);
      assert CanStep(masks, run[n - 1], run[n - 1 + 1]);
      var i: nat, prefix: byte, e: Env :| Step(masks, run[n - 1], run[n], i, prefix, e);
      StepKeepsInv(masks, run[0].reg, run[n - 1], run[n], i, prefix, e);
    }
  }

  lemma {:induction false} ManyBelow(s: seq<nat>, n: nat)
    requires forall i :: 0 <= i < |s| ==> s[i] < n
    requires forall i, j :: 0 <= i < j < |s| ==> s[i] != s[j]
    ensures |s| <= n
  {
    if s != [] {
      assert s[0] < n;
      if n - 1 in s {
        var k :| 0 <= k < |s| && s[k] == n - 1;
        ManyBelow(s[..k] + s[k + 1..], n - 1);
      } else {
        ManyBelow(s, n - 1);
      }
    }
  }

  /** `b` has the bits of `on` and none of `off`. */
  predicate Has(b: byte, on: byte, off: byte) { b & on == on && b & off == 0 }

  /** The update leaves the bits of `on` set and those of `off` clear. */
  predicate Spares(m: Mask, on: byte, off: byte) {
    m.clearBits & on == 0 && m.setBits & !m.clearBits & off == 0
  }

  /** The bits an update asks for: it clears what it both sets and clears. */
  function On(m: Mask): byte { m.setBits & !m.clearBits }

  lemma KeepBits(b: byte, m: Mask, on: byte, off: byte)
    requires Has(b, on, off) && Spares(m, on, off)
    ensures Has(m.Apply(b), on, off)
  {
  }

  lemma OwnBits(b: byte, m: Mask)
    ensures Has(m.Apply(b), On(m), m.clearBits)
  {
  }

  /** Bits that no later update touches stay as they are. */
  lemma {:induction false} UntouchedBits(reg: byte, masks: seq<Mask>, commits: seq<nat>, n: nat, on: byte, off: byte)
    requires n <= |commits| && forall k :: 0 <= k < |commits| ==> commits[k] < |masks|
    requires forall k :: n <= k < |commits| ==> Spares(masks[commits[k]], on, off)
    requires Has(Value(reg, masks, commits[..n]), on, off)
    ensures Has(Value(reg, masks, commits), on, off)
  {
    hide Has, Spares, Mask.Apply;
    if n < |commits| {
      var before := commits[..|commits| - 1];
      assert before[..n] == commits[..n];
      UntouchedBits(reg, masks, before, n, on, off);
      KeepBits(Value(reg, masks, before), masks[commits[|commits| - 1]], on, off);
    } else {
      assert commits[..n] == commits;
    }
  }

  /** In every run and at every point of it: the register is the outcome of the finished updates, each applied once and
      whole, in the order they took effect, and no driver repeats its loop more often than there are other drivers. */
  lemma Linearizable(masks: seq<Mask>, run: seq<System>, n: nat, i: nat)
    requires IsRun(masks, run) && n < |run| && i < |masks|
    ensures var s := run[n];
      && |s.drivers| == |masks|
      && (forall k :: 0 <= k < |s.commits| ==> s.commits[k] < |masks|)
      && s.reg == Value(run[0].reg, masks, s.commits)
      && (forall j, k :: 0 <= j < k < |s.commits| ==> s.commits[j] != s.commits[k])
      && (s.drivers[i].pc.Finished? <==> i in s.commits)
      && s.drivers[i].retries <= |masks| - 1
  {
    hide Step, Value, IsRun;
    RunKeepsInv(masks, run, n);
    var s := run[n];
    ManyBelow(s.commits, |masks|);
    if i !in s.commits { ManyBelow(s.commits + [i], |masks|); }
  }

  /** A driver that has finished finds its bits as it asked for as long as no other driver touches them, however
      the requests of all of them interleave. */
  lemma BitsSurvive(masks: seq<Mask>, run: seq<System>, n: nat, i: nat)
    requires IsRun(masks, run) && n < |run| && i < |masks|
    requires |run[n].drivers| == |masks| && run[n].drivers[i].pc.Finished?
    requires forall j :: 0 <= j < |masks| && j != i ==> Spares(masks[j], On(masks[i]), masks[i].clearBits)
    ensures Has(run[n].reg, On(masks[i]), masks[i].clearBits)
  {
    hide Step, IsRun, Has, Spares, Mask.Apply;
    RunKeepsInv(masks, run, n);
    var commits, reg0 := run[n].commits, run[0].reg;
    var k :| 0 <= k < |commits| && commits[k] == i;
    OwnBits(Value(reg0, masks, commits[..k]), masks[i]);
    assert commits[..k + 1][..k] == commits[..k];
    UntouchedBits(reg0, masks, commits, k + 1, On(masks[i]), masks[i].clearBits);
  }
}
