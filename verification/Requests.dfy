/** What a request program means: each command acts on the port, on the stream that the commands before it
    select, until a comparison fails. */
module PS2Requests {
  import opened PS2Port

  datatype Primitive =
    | ReadDataPort
    | ReadMouseDataPort
    | ReadDataPortAndCompare
    | WriteDataPort
    | WriteCommandPort
    | SendMouseCommandAndCompareAck

  datatype Command = Command(op: Primitive, inOrOut: byte)

  const MAX_COMMANDS: nat := 20
  const TRANSMIT_TO_MOUSE: byte := 0xD4
  const ACKNOWLEDGE: byte := 0xFA
  const RESEND: byte := 0xFE

  /** The port and the record of what has been done to it. */
  datatype Env = Env(port: Port, log: seq<Event>)

  // ---------------------------------------------------------------- which stream a command reads

  predicate SelectsStream(c: Command) {
    c.op.ReadMouseDataPort? || c.op.WriteDataPort? || c.op.SendMouseCommandAndCompareAck?
  }

  /** The last of the first `i` commands that selects a stream, or -1. */
  function LastSelector(cmds: seq<Command>, i: nat): (j: int)
    requires i <= |cmds|
    ensures -1 <= j < i
    ensures j >= 0 ==> SelectsStream(cmds[j])
    ensures forall k :: j < k < i ==> !SelectsStream(cmds[k])
  {
    if i == 0 then -1 else if SelectsStream(cmds[i - 1]) then i - 1 else LastSelector(cmds, i - 1)
  }

  /** A transmit-to-mouse command was written before command `i`, and no data since. */
  ghost predicate Armed(cmds: seq<Command>, i: nat)
    requires i <= |cmds|
  {
    exists j :: 0 <= j < i && cmds[j] == Command(WriteCommandPort, TRANSMIT_TO_MOUSE)
                && forall k :: j < k < i ==> !cmds[k].op.WriteDataPort?
  }

  /** The stream that a read or comparison at position `i` takes its bytes from. */
  ghost function StreamAt(cmds: seq<Command>, i: nat): Device
    requires i <= |cmds|
  {
    var j := LastSelector(cmds, i);
    if j < 0 then Keyboard
    else if cmds[j].op.WriteDataPort? then (if Armed(cmds, j) then Mouse else Keyboard)
    else Mouse
  }

  lemma EmptyScan(cmds: seq<Command>)
    ensures StreamAt(cmds, 0) == Keyboard && !Armed(cmds, 0)
  {
  }

  /** The two as the state of a scanner. */
  lemma StreamStep(cmds: seq<Command>, i: nat)
    requires i < |cmds|
    ensures StreamAt(cmds, i + 1) ==
            if cmds[i].op.ReadMouseDataPort? || cmds[i].op.SendMouseCommandAndCompareAck? then Mouse
            else if cmds[i].op.WriteDataPort? then (if Armed(cmds, i) then Mouse else Keyboard)
            else StreamAt(cmds, i)
    ensures Armed(cmds, i + 1) <==>
            || cmds[i] == Command(WriteCommandPort, TRANSMIT_TO_MOUSE)
            || (Armed(cmds, i) && !cmds[i].op.WriteDataPort?)
  {
    if Armed(cmds, i) && !cmds[i].op.WriteDataPort? {
      var j :| 0 <= j < i && cmds[j] == Command(WriteCommandPort, TRANSMIT_TO_MOUSE)
               && forall k :: j < k < i ==> !cmds[k].op.WriteDataPort?;
      assert forall k :: j < k < i + 1 ==> !cmds[k].op.WriteDataPort?;
    }
    if Armed(cmds, i + 1) && cmds[i] != Command(WriteCommandPort, TRANSMIT_TO_MOUSE) {
      var j :| 0 <= j < i + 1 && cmds[j] == Command(WriteCommandPort, TRANSMIT_TO_MOUSE)
               && forall k :: j < k < i + 1 ==> !cmds[k].op.WriteDataPort?;
      assert j < i;
    }
  }

  // ---------------------------------------------------------------- effects

  /** Effect of one command on stream `d`; `ok` is false when a comparison fails. */
  datatype Effect = Effect(env: Env, command: Command, ok: bool)

  function Reading(r: Read, e: Env): Env { Env(r.port, e.log + r.events) }

  function Writing(w: Write, e: Env): Env { Env(e.port, e.log + [Wrote(w)]) }

  function Perform(c: Command, d: Device, prefix: byte, e: Env): Effect {
    match c.op
    case ReadDataPort =>
      var r := PlainRead(d, e.port);
      Effect(Reading(r, e), c.(inOrOut := r.value), true)
    case ReadMouseDataPort =>
      var r := PlainRead(Mouse, e.port);
      Effect(Reading(r, e), c.(inOrOut := r.value), true)
    case ReadDataPortAndCompare =>
      var r := ExpectRead(d, c.inOrOut, e.port);
      Effect(Reading(r, e), c, r.value == c.inOrOut)
    case WriteDataPort => Effect(Writing(Data(c.inOrOut), e), c, true)
    case WriteCommandPort => Effect(Writing(Cmd(c.inOrOut), e), c, true)
    case SendMouseCommandAndCompareAck =>
      var e' := Writing(Data(c.inOrOut), Writing(Cmd(prefix), e));
      var r := ExpectRead(Mouse, ACKNOWLEDGE, e'.port);
      Effect(Reading(r, e'), c, r.value == ACKNOWLEDGE)
  }

  /** The environment after the first `i` commands, none of which is stopped. */
  ghost function EnvAt(cmds: seq<Command>, prefix: byte, i: nat, e: Env): Env
    requires i <= |cmds|
    decreases i, 0
  {
    if i == 0 then e else EffectAt(cmds, prefix, i - 1, e).env
  }

  ghost function EffectAt(cmds: seq<Command>, prefix: byte, i: nat, e: Env): Effect
    requires i < |cmds|
    decreases i, 1
  {
    Perform(cmds[i], StreamAt(cmds, i), prefix, EnvAt(cmds, prefix, i, e))
  }

  /** Position of the first comparison that fails, or the number of commands. */
  ghost function FirstFailure(cmds: seq<Command>, prefix: byte, i: nat, e: Env): (f: nat)
    requires i <= |cmds|
    ensures i <= f <= |cmds|
    ensures f < |cmds| ==> !EffectAt(cmds, prefix, f, e).ok
    ensures forall k :: i <= k < f ==> EffectAt(cmds, prefix, k, e).ok
    decreases |cmds| - i
  {
    if i == |cmds| then i
    else if EffectAt(cmds, prefix, i, e).ok then FirstFailure(cmds, prefix, i + 1, e)
    else i
  }

  /** The request when it is done: the count the requester sees, the commands with what was read, the environment. */
  datatype Done = Done(count: nat, commands: seq<Command>, env: Env)

  ghost function Run(cmds: seq<Command>, prefix: byte, offline: bool, e: Env): (r: Done)
    ensures r.count <= |cmds| == |r.commands|
  {
    if offline then Done(0, cmds, e)
    else
      var f := FirstFailure(cmds, prefix, 0, e);
      var ran := if f < |cmds| then f + 1 else f;
      Done(f,
           seq(|cmds|, i requires 0 <= i < |cmds| => if i < ran then EffectAt(cmds, prefix, i, e).command else cmds[i]),
           EnvAt(cmds, prefix, ran, e))
  }

  /** What the work loop does when it is woken by an interrupt: it empties the keyboard queue and then
      takes mouse bytes off the port for as long as one is there. */
  function Service(e: Env): Env
    decreases e.port.Size()
  {
    var p := Absorb(e.port);
    if p.queue != [] then
      Service(Env(p.(queue := p.queue[1..]), e.log + [Sent(Keyboard, p.queue[0])]))
    else if p.script != [] && p.script[0].Ready? && p.script[0].src.Mouse? then
      Service(Env(p.(script := p.script[1..]), e.log + [Sent(Mouse, p.script[0].data)]))
    else Env(p, e.log)
  }

  /** The environment after the first `i` of a list of programs. */
  ghost function BatchEnv(programs: seq<seq<Command>>, prefix: byte, offline: bool, i: nat, e: Env): Env
    requires i <= |programs|
    decreases i, 0
  {
    if i == 0 then e else BatchRun(programs, prefix, offline, i - 1, e).env
  }

  ghost function BatchRun(programs: seq<seq<Command>>, prefix: byte, offline: bool, i: nat, e: Env): Done
    requires i < |programs|
    decreases i, 1
  {
    Run(programs[i], prefix, offline, BatchEnv(programs, prefix, offline, i, e))
  }

  lemma EnvStep(cmds: seq<Command>, prefix: byte, e: Env)
    ensures EnvAt(cmds, prefix, 0, e) == e
    ensures forall i: nat :: i < |cmds| ==>
              && EnvAt(cmds, prefix, i + 1, e) == EffectAt(cmds, prefix, i, e).env
              && EffectAt(cmds, prefix, i, e) == Perform(cmds[i], StreamAt(cmds, i), prefix, EnvAt(cmds, prefix, i, e))
  {
  }

  /** A loop that stopped at `f`, either before the end because a comparison failed or at the end, has done `Run`. */
  lemma RunEndsAt(cmds: seq<Command>, prefix: byte, e: Env, f: nat, now: seq<Command>, before: seq<Command>)
    requires f <= |cmds| <= |now| == |before| && cmds == before[..|cmds|]
    requires f < |cmds| ==> !EffectAt(cmds, prefix, f, e).ok
    requires forall k: nat :: k < f ==> EffectAt(cmds, prefix, k, e).ok
    requires forall i: nat :: i < |cmds| && i <= f ==> now[i] == EffectAt(cmds, prefix, i, e).command
    requires forall i :: f < i < |now| || |cmds| <= i < |now| ==> now[i] == before[i]
    ensures var r := Run(cmds, prefix, false, e);
      && r.count == f
      && r.env == EnvAt(cmds, prefix, if f < |cmds| then f + 1 else f, e)
      && now == r.commands + before[|cmds|..]
  {
    hide EffectAt, EnvAt;
    FailsFrom(cmds, prefix, 0, f, e);
  }

  lemma BatchStep(programs: seq<seq<Command>>, prefix: byte, offline: bool, e: Env)
    ensures BatchEnv(programs, prefix, offline, 0, e) == e
    ensures forall i: nat :: i < |programs| ==>
              && BatchEnv(programs, prefix, offline, i + 1, e) == BatchRun(programs, prefix, offline, i, e).env
              && BatchRun(programs, prefix, offline, i, e)
                 == Run(programs[i], prefix, offline, BatchEnv(programs, prefix, offline, i, e))
  {
    hide Run;
  }

  // ---------------------------------------------------------------- consequences

  /** Only the commands that read a byte without comparing it come back changed, and only in their byte. */
  lemma OnlyReadsAnswer(cmds: seq<Command>, prefix: byte, offline: bool, e: Env, i: nat)
    requires i < |cmds|
    ensures var c := Run(cmds, prefix, offline, e).commands[i];
      && c.op == cmds[i].op
      && (c != cmds[i] ==> !offline && i < Run(cmds, prefix, offline, e).count
                           && (c.op.ReadDataPort? || c.op.ReadMouseDataPort?))
  {
    hide Perform, EnvAt, StreamAt;
    PerformAnswers(cmds[i], StreamAt(cmds, i), prefix, EnvAt(cmds, prefix, i, e));
  }

  lemma PerformAnswers(c: Command, d: Device, prefix: byte, e: Env)
    ensures var r := Perform(c, d, prefix, e);
      && r.command.op == c.op
      && (r.command != c ==> r.ok && (c.op.ReadDataPort? || c.op.ReadMouseDataPort?))
  {
    hide PlainRead, ExpectRead;
  }

  /** A request met while the hardware is offline fails at its first command and touches nothing. */
  lemma RunOffline(cmds: seq<Command>, prefix: byte, e: Env)
    ensures Run(cmds, prefix, true, e) == Done(0, cmds, e)
  {
  }

  lemma {:induction false} BatchOffline(programs: seq<seq<Command>>, prefix: byte, i: nat, e: Env)
    requires i <= |programs|
    ensures BatchEnv(programs, prefix, true, i, e) == e
    ensures i < |programs| ==> BatchRun(programs, prefix, true, i, e) == Done(0, programs[i], e)
  {
    if i > 0 { BatchOffline(programs, prefix, i - 1, e); }
  }

  /** What follows a failed comparison has no effect: any other tail gives the same count and environment. */
  lemma NothingAfterFailure(cmds: seq<Command>, tail: seq<Command>, prefix: byte, e: Env)
    requires Run(cmds, prefix, false, e).count < |cmds|
    ensures var f := Run(cmds, prefix, false, e).count;
      && Run(cmds[..f + 1] + tail, prefix, false, e).count == f
      && Run(cmds[..f + 1] + tail, prefix, false, e).env == Run(cmds, prefix, false, e).env
  {
    var f := FirstFailure(cmds, prefix, 0, e);
    var other := cmds[..f + 1] + tail;
    forall i: nat | i <= f ensures EffectAt(cmds, prefix, i, e) == EffectAt(other, prefix, i, e) {
      assert cmds[..i] == other[..i] && cmds[i] == other[i];
      SamePrefix(cmds, other, prefix, i, e);
      SameStream(cmds, other, i);
    }
    FailsFrom(other, prefix, 0, f, e);
  }

  /** `FirstFailure` is the only position with these properties. */
  lemma {:induction false} FailsFrom(cmds: seq<Command>, prefix: byte, i: nat, f: nat, e: Env)
    requires i <= f <= |cmds| && (f < |cmds| ==> !EffectAt(cmds, prefix, f, e).ok)
    requires forall k: nat :: i <= k < f ==> EffectAt(cmds, prefix, k, e).ok
    ensures FirstFailure(cmds, prefix, i, e) == f
    decreases f - i
  {
    if i < f { FailsFrom(cmds, prefix, i + 1, f, e); }
  }

  lemma {:induction false} SameStream(a: seq<Command>, b: seq<Command>, i: nat)
    requires i <= |a| && i <= |b| && a[..i] == b[..i]
    ensures StreamAt(a, i) == StreamAt(b, i) && (Armed(a, i) <==> Armed(b, i))
  {
    if i > 0 {
      assert a[..i - 1] == a[..i][..i - 1] == b[..i][..i - 1] == b[..i - 1];
      assert a[i - 1] == a[..i][i - 1] == b[..i][i - 1] == b[i - 1];
      SameStream(a, b, i - 1);
      StreamStep(a, i - 1);
      StreamStep(b, i - 1);
    }
  }

  lemma {:induction false} SamePrefix(a: seq<Command>, b: seq<Command>, prefix: byte, i: nat, e: Env)
    requires i <= |a| && i <= |b| && a[..i] == b[..i]
    ensures EnvAt(a, prefix, i, e) == EnvAt(b, prefix, i, e)
  {
    hide Perform, StreamAt, Armed;
    if i > 0 {
      assert a[..i - 1] == a[..i][..i - 1] == b[..i][..i - 1] == b[..i - 1];
      assert a[i - 1] == a[..i][i - 1] == b[..i][i - 1] == b[i - 1];
      SamePrefix(a, b, prefix, i - 1, e);
      SameStream(a, b, i - 1);
    }
  }
}
