/** The bytes a request puts on the command and data ports. */
module PS2Writes {
  import opened PS2Port
  import opened PS2Requests
  import opened PS2Streams

  function PortWrites(log: seq<Event>): seq<Write> {
    if log == [] then [] else (if log[0].Wrote? then [log[0].w] else []) + PortWrites(log[1..])
  }

  lemma {:induction false} WritesConcat(a: seq<Event>, b: seq<Event>)
    ensures PortWrites(a + b) == PortWrites(a) + PortWrites(b)
  {
    if a == [] {
      assert a + b == b;
    } else {
      WritesConcat(a[1..], b);
      assert (a + b)[1..] == a[1..] + b;
      Assoc(if a[0].Wrote? then [a[0].w] else [], PortWrites(a[1..]), PortWrites(b));
    }
  }

  lemma {:induction false} NoWrites(a: seq<Event>)
    requires forall i :: 0 <= i < |a| ==> !a[i].Wrote?
    ensures PortWrites(a) == []
  {
    if a != [] { NoWrites(a[1..]); }
  }

  lemma PlainReadWritesNothing(d: Device, p: Port)
    ensures PortWrites(PlainRead(d, p).events) == []
  {
    hide Arrivals, Exhausted, Own, Through, Preempted;
    var a := Arrivals(d, p, IDLE_BUDGET);
    PreemptedSends(a, d);
    PreemptedSends(a[..Through(a, d, 1)], d);
    NoWrites(PlainRead(d, p).events);
  }

  lemma ExpectReadWritesNothing(d: Device, e: byte, p: Port)
    ensures PortWrites(ExpectRead(d, e, p).events) == []
  {
    hide Arrivals, Exhausted, Own, Through, Preempted, PortWrites;
    var a := Arrivals(d, p, IDLE_BUDGET);
    PreemptedSends(a, d);
    var own := Own(a, d);
    var j := IndexOf(own, e);
    PreemptedSends(a[..Through(a, d, if j < |own| && j < 4 then j + 1 else 4)], d);
    NoWrites(ExpectRead(d, e, p).events);
  }

  lemma ReadsWriteNothing(d: Device, e: byte, p: Port)
    ensures PortWrites(PlainRead(d, p).events) == [] && PortWrites(ExpectRead(d, e, p).events) == []
  {
    PlainReadWritesNothing(d, p);
    ExpectReadWritesNothing(d, e, p);
  }

  lemma ReadingWrites(r: Read, e: Env)
    requires PortWrites(r.events) == []
    ensures PortWrites(Reading(r, e).log) == PortWrites(e.log)
  {
    WritesConcat(e.log, r.events);
  }

  lemma WritingWrites(w: Write, e: Env)
    ensures PortWrites(Writing(w, e).log) == PortWrites(e.log) + [w]
  {
    WritesConcat(e.log, [Wrote(w)]);
    assert [Wrote(w)][1..] == [];
  }

  /** What one command adds to the writes: its own bytes, whatever it reads and whether or not it succeeds. */
  function CommandWrites(c: Command, prefix: byte): seq<Write> {
    match c.op
    case WriteDataPort => [Data(c.inOrOut)]
    case WriteCommandPort => [Cmd(c.inOrOut)]
    case SendMouseCommandAndCompareAck => [Cmd(prefix), Data(c.inOrOut)]
    case _ => []
  }

  lemma PerformWrites(c: Command, d: Device, prefix: byte, e: Env)
    ensures PortWrites(Perform(c, d, prefix, e).env.log) == PortWrites(e.log) + CommandWrites(c, prefix)
  {
    hide PortWrites, PlainRead, ExpectRead;
    ReadsWriteNothing(d, c.inOrOut, e.port);
    ReadsWriteNothing(Mouse, c.inOrOut, e.port);
    match c.op
    case ReadDataPort => ReadingWrites(PlainRead(d, e.port), e);
    case ReadMouseDataPort => ReadingWrites(PlainRead(Mouse, e.port), e);
    case ReadDataPortAndCompare => ReadingWrites(ExpectRead(d, c.inOrOut, e.port), e);
    case WriteDataPort => WritingWrites(Data(c.inOrOut), e);
    case WriteCommandPort => WritingWrites(Cmd(c.inOrOut), e);
    case SendMouseCommandAndCompareAck =>
      WritingWrites(Cmd(prefix), e);
      var e1 := Writing(Cmd(prefix), e);
      WritingWrites(Data(c.inOrOut), e1);
      var e2 := Writing(Data(c.inOrOut), e1);
      ReadsWriteNothing(Mouse, ACKNOWLEDGE, e2.port);
      ReadingWrites(ExpectRead(Mouse, ACKNOWLEDGE, e2.port), e2);
      Assoc(PortWrites(e.log), [Cmd(prefix)], [Data(c.inOrOut)]);
  }

  function ProgramWrites(cmds: seq<Command>, prefix: byte): seq<Write> {
    if cmds == [] then []
    else ProgramWrites(cmds[..|cmds| - 1], prefix) + CommandWrites(cmds[|cmds| - 1], prefix)
  }

  lemma {:induction false} EnvWrites(cmds: seq<Command>, prefix: byte, i: nat, e: Env)
    requires i <= |cmds|
    ensures PortWrites(EnvAt(cmds, prefix, i, e).log) == PortWrites(e.log) + ProgramWrites(cmds[..i], prefix)
  {
    hide Perform, StreamAt, PortWrites;
    if i > 0 {
      EnvStep(cmds, prefix, e);
      EnvWrites(cmds, prefix, i - 1, e);
      PerformWrites(cmds[i - 1], StreamAt(cmds, i - 1), prefix, EnvAt(cmds, prefix, i - 1, e));
      assert cmds[..i][..i - 1] == cmds[..i - 1];
      Assoc(PortWrites(e.log), ProgramWrites(cmds[..i - 1], prefix), CommandWrites(cmds[i - 1], prefix));
    }
  }

  /** What a request writes depends on its program and on where it stopped, on nothing the devices do besides. */
  lemma RunWrites(cmds: seq<Command>, prefix: byte, e: Env)
    ensures var r := Run(cmds, prefix, false, e);
      var ran := if r.count < |cmds| then r.count + 1 else r.count;
      PortWrites(r.env.log) == PortWrites(e.log) + ProgramWrites(cmds[..ran], prefix)
  {
    hide PortWrites, EnvAt, EffectAt, ProgramWrites;
    var f := FirstFailure(cmds, prefix, 0, e);
    EnvWrites(cmds, prefix, if f < |cmds| then f + 1 else f, e);
  }
}
