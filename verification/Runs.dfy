/** Conservation and order of the two byte streams over whole runs of requests and interrupts. */
module PS2Runs {
  import opened PS2MouseOrder
  import opened PS2Port
  import opened PS2Progress
  import opened PS2Requests
  import opened PS2Sequences
  import opened PS2Streams

  ghost function Balance(e: Env, d: Device): multiset<byte> { Pending(e.port, d) + multiset(Fates(e.log, d)) }

  /** Deliveries so far, followed by what may still be delivered. */
  function Timeline(e: Env, d: Device): seq<byte> { Delivered(e.log, d) + Stream(e.port, d) }

  /** From `e` to `f` no byte of stream `d` appeared or disappeared, and those delivered are in stream order if
      `ordered`. */
  ghost predicate Conserves(e: Env, f: Env, d: Device, ordered: bool) {
    && Balance(f, d) == Balance(e, d)
    && (ordered ==> IsSub(Timeline(f, d), Timeline(e, d)))
    && (Polled(e.port) ==> Polled(f.port))
  }

  lemma ReadingConserves(r: Read, e: Env, d: Device, ordered: bool)
    requires Accounts(e.port, r.events, r.port, d, ordered)
    ensures Conserves(e, Reading(r, e), d, ordered)
  {
    hide Pending, Fates, Delivered, Stream, Polled, IsSub;
    FatesConcat(e.log, r.events, d);
    DeliveredConcat(e.log, r.events, d);
    assert multiset(Fates(e.log, d) + Fates(r.events, d)) == multiset(Fates(e.log, d)) + multiset(Fates(r.events, d));
    if ordered {
      SubLeft(Delivered(e.log, d), Delivered(r.events, d) + Stream(r.port, d), Stream(e.port, d));
      Assoc(Delivered(e.log, d), Delivered(r.events, d), Stream(r.port, d));
    }
  }

  lemma ConservesTwice(e: Env, f: Env, g: Env, d: Device, ordered: bool)
    requires Conserves(e, f, d, ordered) && Conserves(f, g, d, ordered)
    ensures Conserves(e, g, d, ordered)
  {
    hide Balance, Timeline, Polled, IsSub;
    if ordered { SubTrans(Timeline(g, d), Timeline(f, d), Timeline(e, d)); }
  }

  lemma WritingConserves(w: Write, e: Env, d: Device, ordered: bool)
    ensures Conserves(e, Writing(w, e), d, ordered)
  {
    hide Pending, Stream, Polled, IsSub;
    FatesConcat(e.log, [Wrote(w)], d);
    DeliveredConcat(e.log, [Wrote(w)], d);
    OneFate(Wrote(w), d);
    assert Fates(e.log, d) + [] == Fates(e.log, d) && Delivered(e.log, d) + [] == Delivered(e.log, d);
    SubRefl(Timeline(e, d));
  }

  lemma ConservesWeaken(e: Env, f: Env, d: Device, strong: bool, weak: bool)
    requires Conserves(e, f, d, strong) && (weak ==> strong)
    ensures Conserves(e, f, d, weak)
  {
  }

  lemma PlainConserves(d0: Device, e: Env, d: Device)
    ensures Conserves(e, Reading(PlainRead(d0, e.port), e), d, Ordered(d0, e.port, d))
  {
    hide PlainRead, Conserves, Accounts, Ordered;
    PlainReadAccounts(d0, e.port, d);
    ReadingConserves(PlainRead(d0, e.port), e, d, Ordered(d0, e.port, d));
  }

  lemma ExpectConserves(d0: Device, b: byte, e: Env, d: Device)
    ensures Conserves(e, Reading(ExpectRead(d0, b, e.port), e), d, Ordered(d0, e.port, d))
  {
    hide ExpectRead, Conserves, Accounts, Ordered;
    ExpectReadAccounts(d0, b, e.port, d);
    ReadingConserves(ExpectRead(d0, b, e.port), e, d, Ordered(d0, e.port, d));
  }

  /** A command on stream `d0` reads no stream but `d`. */
  predicate Tame(c: Command, d0: Device, d: Device) {
    match c.op
    case WriteDataPort => true
    case WriteCommandPort => true
    case ReadMouseDataPort => d.Mouse?
    case SendMouseCommandAndCompareAck => d.Mouse?
    case _ => d0 == d
  }

  ghost predicate TameProgram(cmds: seq<Command>, d: Device) {
    forall i: nat :: i < |cmds| ==> Tame(cmds[i], StreamAt(cmds, i), d)
  }

  /** The read of a command that reads the mouse. */
  function ReadOf(c: Command, p: Port): Read {
    match c.op
    case ReadDataPortAndCompare => MouseRead(true, c.inOrOut, p)
    case SendMouseCommandAndCompareAck => MouseRead(true, ACKNOWLEDGE, p)
    case _ => MouseRead(false, 0, p)
  }

  /** A command on stream `d0` keeps the order of stream `d`: it reads no other stream, or the mouse in an
      orderly way. */
  ghost predicate InOrder(c: Command, d0: Device, p: Port, d: Device) {
    d.Mouse? || Tame(c, d0, d) || Orderly(p, ReadOf(c, p))
  }

  /** What a read of the mouse does to the keys, in the log. */
  lemma MouseReadTimeline(expecting: bool, b: byte, e: Env)
    ensures var r := MouseRead(expecting, b, e.port);
      IsSub(Timeline(Reading(r, e), Keyboard), Timeline(e, Keyboard)) <==> Orderly(e.port, r)
  {
    hide Delivered, Stream, IsSub, Orderly, MouseRead;
    var r := MouseRead(expecting, b, e.port);
    MouseReadKeepsOrder(expecting, b, e.port);
    DeliveredConcat(e.log, r.events, Keyboard);
    Assoc(Delivered(e.log, Keyboard), Delivered(r.events, Keyboard), Stream(r.port, Keyboard));
    SubCancelLeft(Delivered(e.log, Keyboard), Delivered(r.events, Keyboard) + Stream(r.port, Keyboard),
                  Stream(e.port, Keyboard));
  }

  lemma MouseReadConserves(expecting: bool, b: byte, e: Env, d: Device)
    ensures var r := MouseRead(expecting, b, e.port);
      Conserves(e, Reading(r, e), d, d.Mouse? || Orderly(e.port, r))
  {
    hide PlainRead, ExpectRead, Balance, Timeline, IsSub, Orderly, Polled;
    if expecting { ExpectConserves(Mouse, b, e, d); } else { PlainConserves(Mouse, e, d); }
    MouseReadTimeline(expecting, b, e);
  }

  lemma MouseSendConserves(c: Command, prefix: byte, e: Env, d: Device)
    requires c.op.SendMouseCommandAndCompareAck?
    ensures Conserves(e, Perform(c, Mouse, prefix, e).env, d, d.Mouse? || Orderly(e.port, ReadOf(c, e.port)))
  {
    hide PlainRead, ExpectRead, Conserves, Orderly;
    var e1 := Writing(Cmd(prefix), e);
    var e2 := Writing(Data(c.inOrOut), e1);
    var ordered := d.Mouse? || Orderly(e.port, ReadOf(c, e.port));
    WritingConserves(Cmd(prefix), e, d, ordered);
    WritingConserves(Data(c.inOrOut), e1, d, ordered);
    MouseReadConserves(true, ACKNOWLEDGE, e2, d);
    ConservesTwice(e, e1, e2, d, ordered);
    ConservesTwice(e, e2, Reading(ExpectRead(Mouse, ACKNOWLEDGE, e2.port), e2), d, ordered);
  }

  lemma PerformConserves(c: Command, d0: Device, prefix: byte, e: Env, d: Device)
    ensures Conserves(e, Perform(c, d0, prefix, e).env, d, InOrder(c, d0, e.port, d))
  {
    hide PlainRead, ExpectRead, Conserves, Polled, Orderly;
    var f, ordered := Perform(c, d0, prefix, e).env, InOrder(c, d0, e.port, d);
    match c.op
    case WriteDataPort => WritingConserves(Data(c.inOrOut), e, d, ordered);
    case WriteCommandPort => WritingConserves(Cmd(c.inOrOut), e, d, ordered);
    case SendMouseCommandAndCompareAck => MouseSendConserves(c, prefix, e, d);
    case ReadMouseDataPort => MouseReadConserves(false, 0, e, d);
    case ReadDataPort =>
      if d0.Mouse? {
        MouseReadConserves(false, 0, e, d);
      } else {
        PlainConserves(d0, e, d);
        ConservesWeaken(e, f, d, Ordered(d0, e.port, d), ordered);
      }
    case ReadDataPortAndCompare =>
      if d0.Mouse? {
        MouseReadConserves(true, c.inOrOut, e, d);
      } else {
        ExpectConserves(d0, c.inOrOut, e, d);
        ConservesWeaken(e, f, d, Ordered(d0, e.port, d), ordered);
      }
  }

  /** The first `n` commands of a program keep the order of stream `d`. */
  ghost predicate OrderlyProgram(cmds: seq<Command>, prefix: byte, n: nat, e: Env, d: Device)
    requires n <= |cmds|
  {
    forall i: nat :: i < n ==> InOrder(cmds[i], StreamAt(cmds, i), EnvAt(cmds, prefix, i, e).port, d)
  }

  lemma {:induction false} EnvAtConserves(cmds: seq<Command>, prefix: byte, i: nat, e: Env, d: Device)
    requires i <= |cmds|
    ensures Conserves(e, EnvAt(cmds, prefix, i, e), d, OrderlyProgram(cmds, prefix, i, e, d))
  {
    hide Conserves, Perform, StreamAt, InOrder;
    var ordered := OrderlyProgram(cmds, prefix, i, e, d);
    if i == 0 {
      Unchanged(e, d, ordered);
    } else {
      var c, d0 := cmds[i - 1], StreamAt(cmds, i - 1);
      var f := EnvAt(cmds, prefix, i - 1, e);
      var g := Perform(c, d0, prefix, f).env;
      EnvAtConserves(cmds, prefix, i - 1, e, d);
      PerformConserves(c, d0, prefix, f, d);
      EnvStep(cmds, prefix, e);
      assert EnvAt(cmds, prefix, i, e) == EffectAt(cmds, prefix, i - 1, e).env == g;
      ConservesWeaken(e, f, d, OrderlyProgram(cmds, prefix, i - 1, e, d), ordered);
      ConservesWeaken(f, g, d, InOrder(c, d0, f.port, d), ordered);
      ConservesTwice(e, f, g, d, ordered);
    }
  }

  lemma Unchanged(e: Env, d: Device, ordered: bool)
    ensures Conserves(e, e, d, ordered)
  {
    SubRefl(Timeline(e, d));
  }

  /** How many commands of a request are carried out. */
  ghost function Ran(cmds: seq<Command>, prefix: byte, e: Env): (n: nat)
    ensures n <= |cmds|
  {
    var f := FirstFailure(cmds, prefix, 0, e);
    if f < |cmds| then f + 1 else f
  }

  ghost predicate OrderlyRequest(cmds: seq<Command>, prefix: byte, offline: bool, e: Env, d: Device) {
    offline || OrderlyProgram(cmds, prefix, Ran(cmds, prefix, e), e, d)
  }

  lemma RunConserves(cmds: seq<Command>, prefix: byte, offline: bool, e: Env, d: Device)
    ensures Conserves(e, Run(cmds, prefix, offline, e).env, d, OrderlyRequest(cmds, prefix, offline, e, d))
  {
    hide Conserves, EnvAt, EffectAt, OrderlyProgram;
    if offline {
      Unchanged(e, d, true);
    } else {
      EnvAtConserves(cmds, prefix, Ran(cmds, prefix, e), e, d);
    }
  }

  lemma {:induction false} ServiceConserves(e: Env, d: Device)
    ensures Conserves(e, Service(e), d, true)
    decreases e.port.Size()
  {
    hide Conserves, Absorb;
    var p := Absorb(e.port);
    AbsorbConserves(e, d);
    var f := Env(p, e.log);
    if p.queue != [] {
      var g := Env(p.(queue := p.queue[1..]), e.log + [Sent(Keyboard, p.queue[0])]);
      Dequeued(p, d);
      HandOver(f, Keyboard, p.queue[0], g.port, d);
      ServiceConserves(g, d);
      ConservesTwice(e, f, g, d, true);
      ConservesTwice(e, g, Service(g), d, true);
    } else if p.script != [] && p.script[0].Ready? && p.script[0].src.Mouse? {
      var g := Env(p.(script := p.script[1..]), e.log + [Sent(Mouse, p.script[0].data)]);
      Taken(p, p.script, d);
      TakenInOrder(p, p.script, d);
      HandOver(f, Mouse, p.script[0].data, g.port, d);
      ServiceConserves(g, d);
      ConservesTwice(e, f, g, d, true);
      ConservesTwice(e, g, Service(g), d, true);
    }
  }

  lemma AbsorbConserves(e: Env, d: Device)
    ensures Conserves(e, Env(Absorb(e.port), e.log), d, true)
  {
    hide Absorb, Pending, Stream, IsSub, Polled;
    AbsorbKeeps(e.port, d);
    SubLeft(Delivered(e.log, d), Stream(Absorb(e.port), d), Stream(e.port, d));
  }

  lemma HandOver(e: Env, src: Device, b: byte, q: Port, d: Device)
    requires Pending(e.port, d) == multiset(if src == d then [b] else []) + Pending(q, d)
    requires (if src == d then [b] else []) + Stream(q, d) == Stream(e.port, d)
    requires Polled(e.port) ==> Polled(q)
    ensures Conserves(e, Env(q, e.log + [Sent(src, b)]), d, true)
  {
    hide Pending, Stream, IsSub, Polled;
    OneFate(Sent(src, b), d);
    SubRefl(Stream(e.port, d));
    ReadingConserves(Read(0, [Sent(src, b)], q), e, d, true);
  }

  /** What can happen at the controller, in any order: the work loop serves interrupts or runs a request, online
      or offline. */
  datatype Op = Interrupt(offline: bool) | Request(program: seq<Command>, prefix: byte, offline: bool)

  ghost function Happens(op: Op, e: Env): Env {
    match op
    case Interrupt(offline) => if offline then e else Service(e)
    case Request(program, prefix, offline) => Run(program, prefix, offline, e).env
  }

  ghost function Play(ops: seq<Op>, e: Env): Env {
    if ops == [] then e else Happens(ops[|ops| - 1], Play(ops[..|ops| - 1], e))
  }

  /** No request of the run reads a stream other than `d`. */
  ghost predicate TameRun(ops: seq<Op>, d: Device) {
    forall i :: 0 <= i < |ops| && ops[i].Request? ==> TameProgram(ops[i].program, d)
  }

  /** Every read of the mouse in the run leaves the keys in order. */
  ghost predicate OrderlyRun(ops: seq<Op>, e: Env, d: Device) {
    ops == [] ||
    (var f, last := Play(ops[..|ops| - 1], e), ops[|ops| - 1];
     && OrderlyRun(ops[..|ops| - 1], e, d)
     && (last.Request? ==> OrderlyRequest(last.program, last.prefix, last.offline, f, d)))
  }

  lemma {:induction false} PlayConserves(ops: seq<Op>, e: Env, d: Device)
    ensures Conserves(e, Play(ops, e), d, OrderlyRun(ops, e, d))
  {
    hide Conserves, Run, Service, OrderlyRequest;
    var ordered := OrderlyRun(ops, e, d);
    if ops == [] {
      Unchanged(e, d, ordered);
    } else {
      var front, last := ops[..|ops| - 1], ops[|ops| - 1];
      var f, g := Play(front, e), Play(ops, e);
      PlayConserves(front, e, d);
      ConservesWeaken(e, f, d, OrderlyRun(front, e, d), ordered);
      OpConserves(last, f, d);
      ConservesWeaken(f, g, d, last.Request? ==> OrderlyRequest(last.program, last.prefix, last.offline, f, d),
                      ordered);
      ConservesTwice(e, f, g, d, ordered);
    }
  }

  lemma OpConserves(op: Op, f: Env, d: Device)
    ensures Conserves(f, Happens(op, f), d, op.Request? ==> OrderlyRequest(op.program, op.prefix, op.offline, f, d))
  {
    hide Conserves, Run, Service, OrderlyRequest;
    match op
    case Interrupt(offline) => if offline { Unchanged(f, d, true); } else { ServiceConserves(f, d); }
    case Request(program, prefix, offline) => RunConserves(program, prefix, offline, f, d);
  }

  /** Over any run, every byte of a stream is still to come, was refused by the full queue, or has met exactly one of
      three fates: handed to its own driver, returned to a request, or put aside and lost. */
  lemma EveryByteOnce(ops: seq<Op>, p: Port, d: Device)
    requires p.overrun == []
    ensures var e := Play(ops, Env(p, []));
      multiset(Stream(p, d))
      == multiset(Stream(e.port, d)) + multiset(Overrun(e.port, d)) + multiset(Fates(e.log, d))
  {
    hide Play, Polled, IsSub;
    PlayConserves(ops, Env(p, []), d);
    PendingStream(p, d);
    PendingStream(Play(ops, Env(p, [])).port, d);
  }

  lemma PendingStream(p: Port, d: Device)
    ensures Pending(p, d) == multiset(Stream(p, d)) + multiset(Overrun(p, d))
  {
    var bytes := Bytes(p.script, d);
    assert multiset(p.queue + bytes) == multiset(p.queue) + multiset(bytes);
    assert [] + bytes == bytes;
  }

  /** Over any run, what the mouse driver is handed is a subsequence of what the mouse sent. The same holds for
      the keyboard if every read of the mouse in the run is orderly. */
  lemma DeliveredInOrder(ops: seq<Op>, p: Port, d: Device)
    requires OrderlyRun(ops, Env(p, []), d)
    ensures IsSub(Delivered(Play(ops, Env(p, [])).log, d), Stream(p, d))
  {
    hide Play, Polled, IsSub, Balance, OrderlyRun;
    var e := Play(ops, Env(p, []));
    PlayConserves(ops, Env(p, []), d);
    SubPrefix(Delivered(e.log, d), Stream(e.port, d));
    assert [] + Stream(p, d) == Stream(p, d);
    SubTrans(Delivered(e.log, d), Timeline(e, d), Stream(p, d));
  }

  // ---------------------------------------------------------------- which runs are orderly

  /** One command moves keys past each other exactly when it reads the mouse in a way that is not orderly. */
  lemma CommandKeepsOrder(c: Command, d0: Device, prefix: byte, e: Env)
    ensures IsSub(Timeline(Perform(c, d0, prefix, e).env, Keyboard), Timeline(e, Keyboard))
            <==> InOrder(c, d0, e.port, Keyboard)
  {
    hide PlainRead, ExpectRead, Timeline, IsSub, Orderly;
    var f := Perform(c, d0, prefix, e).env;
    PerformConserves(c, d0, prefix, e, Keyboard);
    if !Tame(c, d0, Keyboard) {
      var e' := if c.op.SendMouseCommandAndCompareAck? then Writing(Data(c.inOrOut), Writing(Cmd(prefix), e)) else e;
      MouseReadTimeline(c.op.ReadDataPortAndCompare? || c.op.SendMouseCommandAndCompareAck?,
                        if c.op.SendMouseCommandAndCompareAck? then ACKNOWLEDGE
                        else if c.op.ReadDataPortAndCompare? then c.inOrOut else 0, e');
      SameTimeline(c, prefix, e);
    }
  }

  lemma SameTimeline(c: Command, prefix: byte, e: Env)
    ensures Timeline(Writing(Data(c.inOrOut), Writing(Cmd(prefix), e)), Keyboard) == Timeline(e, Keyboard)
  {
    hide Delivered, Stream, Fates;
    DeliveredConcat(e.log, [Wrote(Cmd(prefix))], Keyboard);
    DeliveredConcat(e.log + [Wrote(Cmd(prefix))], [Wrote(Data(c.inOrOut))], Keyboard);
    OneFate(Wrote(Cmd(prefix)), Keyboard);
    OneFate(Wrote(Data(c.inOrOut)), Keyboard);
  }

  lemma TameIsOrderly(ops: seq<Op>, e: Env, d: Device)
    requires TameRun(ops, d) || d.Mouse?
    ensures OrderlyRun(ops, e, d)
  {
    hide Play, Run, Ran, EnvAt, StreamAt, Orderly, Tame;
    if ops != [] { TameIsOrderly(ops[..|ops| - 1], e, d); }
  }

  /** Without interrupts no key is overtaken. */
  lemma PolledCommand(c: Command, d0: Device, p: Port, d: Device)
    requires Polled(p)
    ensures InOrder(c, d0, p, d)
  {
    hide Orderly, MouseRead, Passes, Polled, Tame;
    var expecting := c.op.ReadDataPortAndCompare? || c.op.SendMouseCommandAndCompareAck?;
    var b := if c.op.SendMouseCommandAndCompareAck? then ACKNOWLEDGE
             else if c.op.ReadDataPortAndCompare? then c.inOrOut else 0;
    MouseReadPasses(expecting, b, p);
    StaysPolled(expecting, b, p);
    PolledIsOrderly(p, MouseRead(expecting, b, p));
  }

  lemma StaysPolled(expecting: bool, b: byte, p: Port)
    ensures Polled(p) ==> Polled(MouseRead(expecting, b, p).port)
  {
    hide PlainRead, ExpectRead, Polled, Pending, Stream;
    if expecting { ExpectReadAccounts(Mouse, b, p, Mouse); } else { PlainReadAccounts(Mouse, p, Mouse); }
  }

  lemma {:induction false} PolledIsOrderlyRun(ops: seq<Op>, e: Env, d: Device)
    requires Polled(e.port)
    ensures OrderlyRun(ops, e, d)
  {
    hide Play, Run, EnvAt, StreamAt, Polled, InOrder, Balance, Timeline;
    if ops != [] {
      var front, last := ops[..|ops| - 1], ops[|ops| - 1];
      PolledIsOrderlyRun(front, e, d);
      PlayConserves(front, e, d);
      if last.Request? {
        var f := Play(front, e);
        forall i: nat | i < Ran(last.program, last.prefix, f)
          ensures InOrder(last.program[i], StreamAt(last.program, i), EnvAt(last.program, last.prefix, i, f).port, d)
        {
          EnvAtConserves(last.program, last.prefix, i, f, d);
          PolledCommand(last.program[i], StreamAt(last.program, i), EnvAt(last.program, last.prefix, i, f).port, d);
        }
      }
    }
  }

  lemma KeyThenMouse(p: Port)
    requires p.script == [Ready(Keyboard, 2, false), Ready(Mouse, 9, false)]
    ensures PlainRead(Mouse, p) == Read(9, [Sent(Keyboard, 2), Returned(Mouse, 9)], p.(script := []))
  {
    var q, r := p.(script := p.script[1..]), p.(script := []);
    var x, y := Arrival(Keyboard, 2, q, IDLE_BUDGET), Arrival(Mouse, 9, r, IDLE_BUDGET);
    assert Fetch(Mouse, p, IDLE_BUDGET) == Got(x);
    assert q.script == [Ready(Mouse, 9, false)] && q.script[1..] == [];
    assert Fetch(Mouse, q, IDLE_BUDGET) == Got(y);
    var a, rest := Arrivals(Mouse, p, IDLE_BUDGET), Arrivals(Mouse, r, IDLE_BUDGET);
    assert Arrivals(Mouse, q, IDLE_BUDGET) == [y] + rest;
    assert a == [x] + ([y] + rest) == [x] + [y] + rest;
    Advance([], x, Mouse);
    assert [] + [x] == [x];
    PlainReturns(Mouse, a, Exhausted(Mouse, p, IDLE_BUDGET), [x], y, rest);
  }

  lemma OneRead(prefix: byte, e: Env)
    ensures Run([Command(ReadMouseDataPort, 0)], prefix, false, e).env == Reading(PlainRead(Mouse, e.port), e)
  {
    hide PlainRead, StreamAt;
    var cmds := [Command(ReadMouseDataPort, 0)];
    EnvStep(cmds, prefix, e);
    assert EffectAt(cmds, prefix, 0, e).ok;
    FailsFrom(cmds, prefix, 0, 1, e);
  }

  lemma ServeOne(log: seq<Event>)
    ensures Service(Env(Port([], [1], []), log)) == Env(Port([], [], []), log + [Sent(Keyboard, 1)])
  {
    assert Port([], [1], []).queue[1..] == [];
    var g := Env(Port([], [], []), log + [Sent(Keyboard, 1)]);
    assert Service(g) == g;
  }

  lemma DeliveredTwo()
    ensures Delivered([Sent(Keyboard, 2), Returned(Mouse, 9), Sent(Keyboard, 1)], Keyboard) == [2, 1]
  {
    var a, b, c := Sent(Keyboard, 2), Returned(Mouse, 9), Sent(Keyboard, 1);
    assert [a, b, c][1..] == [b, c] && [b, c][1..] == [c] && [c][1..] == [];
    assert Delivered([c], Keyboard) == [1] && Delivered([b, c], Keyboard) == [] + [1];
  }

  lemma NotInOrder(a: seq<byte>, b: seq<byte>)
    requires a == [2, 1] && b == [1, 2]
    ensures !IsSub(a, b)
  {
    assert b[1..] == [2] && b[1..][1..] == [];
    assert !IsSub(a[1..], b[1..][1..]) && !IsSub(a, b[1..][1..]);
    assert !IsSub(a, b[1..]);
  }

  /** A run that is not: a key is queued, another shows behind it on the port, and a request reads the mouse. The
      driver is handed the second key first. */
  lemma KeyOvertaken(prefix: byte)
    ensures var p := Port([Ready(Keyboard, 2, false), Ready(Mouse, 9, false)], [1], []);
      var ops := [Request([Command(ReadMouseDataPort, 0)], prefix, false), Interrupt(false)];
      && Stream(p, Keyboard) == [1, 2]
      && Delivered(Play(ops, Env(p, [])).log, Keyboard) == [2, 1]
      && !OrderlyRun(ops, Env(p, []), Keyboard)
  {
    hide PlainRead, Service, Run, Delivered, IsSub, OrderlyRun, Bytes;
    var p := Port([Ready(Keyboard, 2, false), Ready(Mouse, 9, false)], [1], []);
    var request, e := Request([Command(ReadMouseDataPort, 0)], prefix, false), Env(p, []);
    var ops := [request, Interrupt(false)];
    KeyThenMouse(p);
    OneRead(prefix, e);
    ServeOne([] + [Sent(Keyboard, 2), Returned(Mouse, 9)]);
    assert ops[..1] == [request] && [request][..0] == [];
    assert Play([request], e) == Happens(request, e);
    assert Play(ops, e).log == [Sent(Keyboard, 2), Returned(Mouse, 9), Sent(Keyboard, 1)];
    DeliveredTwo();
    TwoKeys(p.script);
    NotInOrder([2, 1], [1, 2]);
    if OrderlyRun(ops, e, Keyboard) { DeliveredInOrder(ops, p, Keyboard); }
  }

  lemma TwoKeys(script: seq<Poll>)
    requires script == [Ready(Keyboard, 2, false), Ready(Mouse, 9, false)]
    ensures [1] + Bytes(script, Keyboard) == [1, 2]
  {
    assert script[1..] == [Ready(Mouse, 9, false)] && script[1..][1..] == [];
    assert Bytes(script[1..], Keyboard) == [];
  }

  // ---------------------------------------------------------------- what a run leaves behind

  lemma PerformLater(c: Command, d0: Device, prefix: byte, e: Env)
    ensures Later(e.port, Perform(c, d0, prefix, e).env.port)
  {
    hide PlainRead, ExpectRead, Later;
    NoLater(e.port);
    match c.op
    case WriteDataPort =>
    case WriteCommandPort =>
    case ReadMouseDataPort => ReadsLater(Mouse, 0, e.port);
    case SendMouseCommandAndCompareAck => ReadsLater(Mouse, ACKNOWLEDGE, e.port);
    case ReadDataPort => ReadsLater(d0, 0, e.port);
    case ReadDataPortAndCompare => ReadsLater(d0, c.inOrOut, e.port);
  }

  lemma {:induction false} EnvAtLater(cmds: seq<Command>, prefix: byte, i: nat, e: Env)
    requires i <= |cmds|
    ensures Later(e.port, EnvAt(cmds, prefix, i, e).port)
  {
    hide Perform, StreamAt, Later;
    if i == 0 {
      NoLater(e.port);
    } else {
      var f := EnvAt(cmds, prefix, i - 1, e);
      EnvStep(cmds, prefix, e);
      EnvAtLater(cmds, prefix, i - 1, e);
      PerformLater(cmds[i - 1], StreamAt(cmds, i - 1), prefix, f);
      LaterTwice(e.port, f.port, EnvAt(cmds, prefix, i, e).port);
    }
  }

  lemma RunLater(cmds: seq<Command>, prefix: byte, offline: bool, e: Env)
    ensures Later(e.port, Run(cmds, prefix, offline, e).env.port)
  {
    hide Later, EnvAt, EffectAt;
    NoLater(e.port);
    if !offline { EnvAtLater(cmds, prefix, Ran(cmds, prefix, e), e); }
  }

  lemma {:induction false} ServiceLater(e: Env)
    ensures Later(e.port, Service(e).port)
    decreases e.port.Size()
  {
    hide Absorb, Later;
    var p, f := Absorb(e.port), Service(e);
    AbsorbLater(e.port);
    if p.queue != [] {
      var g := Env(p.(queue := p.queue[1..]), e.log + [Sent(Keyboard, p.queue[0])]);
      DequeuedLater(p);
      ServiceLater(g);
      LaterTwice(e.port, p, g.port);
      LaterTwice(e.port, g.port, f.port);
    } else if p.script != [] && p.script[0].Ready? && p.script[0].src.Mouse? {
      var g := Env(p.(script := p.script[1..]), e.log + [Sent(Mouse, p.script[0].data)]);
      PolledLater(p);
      ServiceLater(g);
      LaterTwice(e.port, p, g.port);
      LaterTwice(e.port, g.port, f.port);
    }
  }

  lemma OpLater(op: Op, e: Env)
    ensures Later(e.port, Happens(op, e).port)
  {
    hide Later, Run, Service;
    match op
    case Interrupt(offline) => if offline { NoLater(e.port); } else { ServiceLater(e); }
    case Request(program, prefix, offline) => RunLater(program, prefix, offline, e);
  }

  lemma {:induction false} PlayLater(ops: seq<Op>, e: Env)
    ensures Later(e.port, Play(ops, e).port)
  {
    hide Later, Happens;
    if ops == [] {
      NoLater(e.port);
    } else {
      var f := Play(ops[..|ops| - 1], e);
      PlayLater(ops[..|ops| - 1], e);
      OpLater(ops[|ops| - 1], f);
      LaterTwice(e.port, f.port, Play(ops, e).port);
    }
  }

  // ---------------------------------------------------------------- losses over a run

  predicate Comparing(c: Command) { c.op.ReadDataPortAndCompare? || c.op.SendMouseCommandAndCompareAck? }

  function Comparisons(cmds: seq<Command>): nat {
    if cmds == [] then 0
    else Comparisons(cmds[..|cmds| - 1]) + if Comparing(cmds[|cmds| - 1]) then 1 else 0
  }

  lemma PerformLoses(c: Command, d0: Device, prefix: byte, e: Env)
    ensures Losses(Perform(c, d0, prefix, e).env.log) <= Losses(e.log) + if Comparing(c) then 2 else 0
  {
    hide PlainRead, ExpectRead, Losses, Arrivals, Own, LostOf;
    match c.op
    case ReadDataPort =>
      PlainReadLoses(d0, e.port);
      LossesConcat(e.log, PlainRead(d0, e.port).events);
    case ReadMouseDataPort =>
      PlainReadLoses(Mouse, e.port);
      LossesConcat(e.log, PlainRead(Mouse, e.port).events);
    case ReadDataPortAndCompare =>
      ExpectReadLoses(d0, c.inOrOut, e.port);
      LossesConcat(e.log, ExpectRead(d0, c.inOrOut, e.port).events);
    case WriteDataPort => WriteLoses(Data(c.inOrOut), e);
    case WriteCommandPort => WriteLoses(Cmd(c.inOrOut), e);
    case SendMouseCommandAndCompareAck =>
      WriteLoses(Cmd(prefix), e);
      WriteLoses(Data(c.inOrOut), Writing(Cmd(prefix), e));
      ExpectReadLoses(Mouse, ACKNOWLEDGE, e.port);
      LossesConcat(Writing(Data(c.inOrOut), Writing(Cmd(prefix), e)).log,
                   ExpectRead(Mouse, ACKNOWLEDGE, e.port).events);
  }

  lemma WriteLoses(w: Write, e: Env)
    ensures Losses(Writing(w, e).log) == Losses(e.log)
  {
    LossesConcat(e.log, [Wrote(w)]);
    LosesOne(Wrote(w));
  }

  lemma {:induction false} EnvAtLoses(cmds: seq<Command>, prefix: byte, i: nat, e: Env)
    requires i <= |cmds|
    ensures Losses(EnvAt(cmds, prefix, i, e).log) <= Losses(e.log) + 2 * Comparisons(cmds[..i])
  {
    hide Perform, StreamAt, Losses;
    if i > 0 {
      EnvStep(cmds, prefix, e);
      EnvAtLoses(cmds, prefix, i - 1, e);
      PerformLoses(cmds[i - 1], StreamAt(cmds, i - 1), prefix, EnvAt(cmds, prefix, i - 1, e));
      assert cmds[..i][..i - 1] == cmds[..i - 1];
    }
  }

  lemma {:induction false} ServiceLoses(e: Env)
    ensures Losses(Service(e).log) == Losses(e.log)
    decreases e.port.Size()
  {
    hide Absorb, Losses;
    var p := Absorb(e.port);
    if p.queue != [] {
      LossesConcat(e.log, [Sent(Keyboard, p.queue[0])]);
      LosesOne(Sent(Keyboard, p.queue[0]));
      ServiceLoses(Env(p.(queue := p.queue[1..]), e.log + [Sent(Keyboard, p.queue[0])]));
    } else if p.script != [] && p.script[0].Ready? && p.script[0].src.Mouse? {
      LossesConcat(e.log, [Sent(Mouse, p.script[0].data)]);
      LosesOne(Sent(Mouse, p.script[0].data));
      ServiceLoses(Env(p.(script := p.script[1..]), e.log + [Sent(Mouse, p.script[0].data)]));
    }
  }

  /** The comparisons that a run carries out. */
  ghost function Compared(ops: seq<Op>, e: Env): nat {
    if ops == [] then 0
    else
      var last, f := ops[|ops| - 1], Play(ops[..|ops| - 1], e);
      Compared(ops[..|ops| - 1], e)
      + if last.Request? && !last.offline then Comparisons(last.program[..Ran(last.program, last.prefix, f)]) else 0
  }

  /** Over a whole run no more than two bytes are lost for each comparison that was carried out. */
  lemma {:induction false} RunLoses(ops: seq<Op>, e: Env)
    ensures Losses(Play(ops, e).log) <= Losses(e.log) + 2 * Compared(ops, e)
  {
    hide Losses, Service, EnvAt, EffectAt, Comparisons;
    if ops != [] {
      var last, f := ops[|ops| - 1], Play(ops[..|ops| - 1], e);
      RunLoses(ops[..|ops| - 1], e);
      match last {
        case Interrupt(offline) => ServiceLoses(f);
        case Request(program, prefix, offline) =>
          if !offline { EnvAtLoses(program, prefix, Ran(program, prefix, f), f); }
      }
    }
  }
}
