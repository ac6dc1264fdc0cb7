/** `setCommandByte`, the same loop in the keyboard and the touchpad driver, run against the controller: what one call
    does whatever the devices answer. */
module PS2SetCommandByte {
  import opened PS2Port
  import opened PS2Requests
  import opened PS2Sequences
  import opened PS2Streams
  import opened PS2Writes
  import opened PS2CommandByte
  import opened PS2Controller

  // ---------------------------------------------------------------- the two requests on any port

  function AfterAsking(e: Env): Env { Writing(Cmd(GET_COMMAND_BYTE), e) }

  lemma ReadRunAny(prefix: byte, e: Env)
    ensures var r := Run(ReadProgram(), prefix, false, e);
      var answer := PlainRead(Keyboard, e.port);
      && r.count == 2 && r.commands[1].inOrOut == answer.value && r.env == Reading(answer, AfterAsking(e))
      && |r.commands| == 2
  {
    hide PlainRead, ExpectRead, StreamAt, Armed, EffectAt, EnvAt, FirstFailure;
    var cmds := ReadProgram();
    EmptyScan(cmds);
    StreamStep(cmds, 0);
    EnvStep(cmds, prefix, e);
    assert EnvAt(cmds, prefix, 1, e) == AfterAsking(e) && EffectAt(cmds, prefix, 0, e).ok;
    assert EffectAt(cmds, prefix, 1, e).ok;
    FailsFrom(cmds, prefix, 0, 2, e);
  }

  lemma TestAndSetRunAny(old_: byte, new_: byte, prefix: byte, e: Env)
    ensures var r := Run(TestAndSetProgram(old_, new_), prefix, false, e);
      var answer := ExpectRead(Keyboard, old_, e.port);
      var compared := Reading(answer, AfterAsking(e));
      if answer.value == old_
      then r.count == 4 && r.env == Writing(Data(new_), Writing(Cmd(SET_COMMAND_BYTE), compared))
      else r.count == 1 && r.env == compared
  {
    hide PlainRead, ExpectRead, StreamAt, Armed, EffectAt, EnvAt, FirstFailure;
    var cmds := TestAndSetProgram(old_, new_);
    EmptyScan(cmds);
    StreamStep(cmds, 0);
    EnvStep(cmds, prefix, e);
    assert EnvAt(cmds, prefix, 1, e) == AfterAsking(e) && EffectAt(cmds, prefix, 0, e).ok;
    assert EffectAt(cmds, prefix, 1, e).ok <==> ExpectRead(Keyboard, old_, e.port).value == old_;
    assert EffectAt(cmds, prefix, 2, e).ok && EffectAt(cmds, prefix, 3, e).ok;
    FailsFrom(cmds, prefix, 0, if EffectAt(cmds, prefix, 1, e).ok then 4 else 1, e);
  }

  // ---------------------------------------------------------------- a read that gets a byte shortens the port

  lemma {:induction false} ArrivalsShrink(d: Device, p: Port, idle: nat)
    ensures var a := Arrivals(d, p, idle);
      && Exhausted(d, p, idle).Size() + |a| <= p.Size()
      && forall i :: 0 <= i < |a| ==> a[i].after.Size() < p.Size()
    decreases p.Size()
  {
    var f := Fetch(d, p, idle);
    if f.Got? { ArrivalsShrink(d, f.arrival.after, f.arrival.idle); }
  }

  lemma PlainShrinks(d: Device, p: Port)
    ensures var r := PlainRead(d, p);
      r.port.Size() <= p.Size() && (r.value != 0 ==> r.port.Size() < p.Size())
  {
    hide Arrivals, Exhausted, Preempted;
    ArrivalsShrink(d, p, IDLE_BUDGET);
    NonEmpty(Arrivals(d, p, IDLE_BUDGET), d);
  }

  lemma ExpectShrinks(d: Device, e: byte, p: Port)
    ensures var r := ExpectRead(d, e, p);
      r.port.Size() <= p.Size() && (r.value != 0 ==> r.port.Size() < p.Size())
  {
    hide Arrivals, Exhausted, Preempted, SendAll, LoseAll;
    ArrivalsShrink(d, p, IDLE_BUDGET);
    NonEmpty(Arrivals(d, p, IDLE_BUDGET), d);
  }

  // ---------------------------------------------------------------- the loop

  datatype Attempt = Attempt(seen: byte, done: bool, env: Env)

  /** One turn: read the byte, then store the new value if it is still the same. */
  ghost function Try(m: Mask, prefix: byte, e: Env): (t: Attempt) {
    var read := Run(ReadProgram(), prefix, false, e);
    ReadRunAny(prefix, e);
    var b := read.commands[1].inOrOut;
    var compared := Run(TestAndSetProgram(b, m.Apply(b)), prefix, false, read.env);
    Attempt(b, compared.count == 4, compared.env)
  }

  /** A turn that does not succeed has used up a byte that arrived. */
  lemma FailureShrinks(m: Mask, prefix: byte, e: Env)
    ensures !Try(m, prefix, e).done ==> Try(m, prefix, e).env.port.Size() < e.port.Size()
  {
    hide Run, PlainRead, ExpectRead;
    ReadRunAny(prefix, e);
    var read := Run(ReadProgram(), prefix, false, e);
    var b := read.commands[1].inOrOut;
    TestAndSetRunAny(b, m.Apply(b), prefix, read.env);
    PlainShrinks(Keyboard, e.port);
    ExpectShrinks(Keyboard, b, read.env.port);
  }

  ghost function Update(m: Mask, prefix: byte, e: Env): Env
    decreases e.port.Size()
  {
    var t := Try(m, prefix, e);
    FailureShrinks(m, prefix, e);
    if t.done then t.env else Update(m, prefix, t.env)
  }

  /** The byte the last turn saw, and how many turns came before it. */
  ghost function LastSeen(m: Mask, prefix: byte, e: Env): byte
    decreases e.port.Size()
  {
    var t := Try(m, prefix, e);
    FailureShrinks(m, prefix, e);
    if t.done then t.seen else LastSeen(m, prefix, t.env)
  }

  ghost function Failures(m: Mask, prefix: byte, e: Env): nat
    decreases e.port.Size()
  {
    var t := Try(m, prefix, e);
    FailureShrinks(m, prefix, e);
    if t.done then 0 else 1 + Failures(m, prefix, t.env)
  }

  function Asks(n: nat): seq<Write> {
    if n == 0 then [] else [Cmd(0x20), Cmd(0x20)] + Asks(n - 1)
  }

  lemma TryWrites(m: Mask, prefix: byte, e: Env)
    ensures var t := Try(m, prefix, e);
      PortWrites(t.env.log) == PortWrites(e.log) + Asks(1)
                               + (if t.done then [Cmd(SET_COMMAND_BYTE), Data(m.Apply(t.seen))] else [])
  {
    hide PortWrites, Run, PlainRead, ExpectRead;
    ReadRunAny(prefix, e);
    var read := Run(ReadProgram(), prefix, false, e);
    var b := read.commands[1].inOrOut;
    TestAndSetRunAny(b, m.Apply(b), prefix, read.env);
    WritingWrites(Cmd(GET_COMMAND_BYTE), e);
    ReadsWriteNothing(Keyboard, b, e.port);
    ReadingWrites(PlainRead(Keyboard, e.port), AfterAsking(e));
    WritingWrites(Cmd(GET_COMMAND_BYTE), read.env);
    ReadsWriteNothing(Keyboard, b, read.env.port);
    var answer := ExpectRead(Keyboard, b, read.env.port);
    ReadingWrites(answer, AfterAsking(read.env));
    var compared := Reading(answer, AfterAsking(read.env));
    WritingWrites(Cmd(SET_COMMAND_BYTE), compared);
    WritingWrites(Data(m.Apply(b)), Writing(Cmd(SET_COMMAND_BYTE), compared));
    assert Asks(1) == [Cmd(GET_COMMAND_BYTE)] + [Cmd(GET_COMMAND_BYTE)];
  }

  /** A call asks twice a turn and stores once, at its end, the byte it saw last with the bits set and cleared. */
  lemma {:induction false} UpdateWrites(m: Mask, prefix: byte, e: Env)
    ensures PortWrites(Update(m, prefix, e).log)
            == PortWrites(e.log) + Asks(Failures(m, prefix, e) + 1)
              + [Cmd(0x60), Data(m.Apply(LastSeen(m, prefix, e)))]
    decreases e.port.Size()
  {
    hide PortWrites, Try;
    var t := Try(m, prefix, e);
    TryWrites(m, prefix, e);
    FailureShrinks(m, prefix, e);
    if !t.done {
      UpdateWrites(m, prefix, t.env);
      var n := Failures(m, prefix, t.env) + 1;
      var store := [Cmd(SET_COMMAND_BYTE), Data(m.Apply(LastSeen(m, prefix, t.env)))];
      assert Asks(n + 1) == Asks(1) + Asks(n);
      assert PortWrites(e.log) + Asks(1) + [] == PortWrites(e.log) + Asks(1);
      Assoc(PortWrites(e.log), Asks(1), Asks(n));
    }
  }

  /** So the register of the controller ends with every bit as asked for. */
  lemma UpdateSets(m: Mask, prefix: byte, e: Env, reg: byte)
    ensures var now := Register(PortWrites(Update(m, prefix, e).log), reg, false);
      now == m.Apply(LastSeen(m, prefix, e)) && now & m.clearBits == 0 && now & m.setBits == m.setBits & !m.clearBits
  {
    hide PortWrites, Update, LastSeen, Failures;
    UpdateWrites(m, prefix, e);
    StoredLast(PortWrites(e.log) + Asks(Failures(m, prefix, e) + 1), m.Apply(LastSeen(m, prefix, e)), reg, false);
    Applied(m, LastSeen(m, prefix, e));
  }

  lemma Applied(m: Mask, b: byte)
    ensures m.Apply(b) & m.clearBits == 0
    ensures m.Apply(b) & m.setBits == m.setBits & !m.clearBits
  {
  }

  // ---------------------------------------------------------------- a controller that does not answer

  lemma SilentReads(p: Port)
    requires Stream(p, Keyboard) == []
    ensures PlainRead(Keyboard, p).value == 0 && Stream(PlainRead(Keyboard, p).port, Keyboard) == []
    ensures ExpectRead(Keyboard, 0, p).value == 0
  {
    hide Arrivals, Exhausted, IsSub, Pending, Bytes, Stream;
    ExhaustedConsumes(Keyboard, p, IDLE_BUDGET, Keyboard);
    var a, q := Arrivals(Keyboard, p, IDLE_BUDGET), Exhausted(Keyboard, p, IDLE_BUDGET);
    SubOfNothing(Own(a, Keyboard) + Stream(q, Keyboard));
  }

  /** With no keyboard byte in sight both reads make up a zero and agree on it: the first turn succeeds, and every bit
      that was not asked for is cleared. */
  lemma SilenceClears(m: Mask, prefix: byte, e: Env)
    requires Stream(e.port, Keyboard) == []
    ensures Failures(m, prefix, e) == 0 && LastSeen(m, prefix, e) == 0 && m.Apply(0) == m.setBits & !m.clearBits
  {
    hide Run, PlainRead, ExpectRead, Stream;
    SilentReads(e.port);
    ReadRunAny(prefix, e);
    var read := Run(ReadProgram(), prefix, false, e);
    SilentReads(read.env.port);
    TestAndSetRunAny(0, m.Apply(0), prefix, read.env);
  }

  // ---------------------------------------------------------------- the client

  /** The first request of a turn, with a request object that is used again and again. */
  method ReadCommandByte(device: Controller, request: PS2Request) returns (commandByte: byte)
    requires device.Valid() && device.QueueValid() && !device.hardwareOffline
    requires request.Valid() && request !in device.requestQueue
    modifies device`script, device`overrun, device`log, device`keyboardSignal, device`mouseSignal, device.keys,
             device.keys.elements, device`requestQueue, device.requestQueue, request
    ensures device.Valid() && device.requestQueue == [] && request.Valid()
    ensures var q, was := old(device.requestQueue), old(States(device.requestQueue));
      var r := Run(ReadProgram(), device.RoutePrefix(), false,
                   BatchEnv(Programs(was), device.RoutePrefix(), false, |q|, old(device.EnvNow())));
      && device.EnvNow() == r.env && |r.commands| == 2 && commandByte == r.commands[1].inOrOut
      && States(q) == AllDisposed(was, device.RoutePrefix(), false, old(device.EnvNow()))
  {
    hide PS2Requests.Run, PS2Requests.BatchEnv, PS2Requests.BatchRun, PS2Controller.AllDisposed;
    ghost var q, was := device.requestQueue, States(device.requestQueue);
    ReadRunAny(device.RoutePrefix(), BatchEnv(Programs(was), device.RoutePrefix(), false, |q|, device.EnvNow()));
    request.commands := ReadProgram() + request.commands[2..];
    request.commandsCount := 2;
    assert request.Program() == ReadProgram();
    assert States(q) == was;
    device.SubmitRequestAndBlockGated(request);
    commandByte := request.commands[1].inOrOut;
  }

  /** The second request of a turn. */
  method TestAndSetCommandByte(device: Controller, request: PS2Request, commandByte: byte, commandByteNew: byte)
    returns (done: bool)
    requires device.Valid() && device.requestQueue == [] && !device.hardwareOffline && request.Valid()
    modifies device`script, device`overrun, device`log, device`keyboardSignal, device`mouseSignal, device.keys,
             device.keys.elements, device`requestQueue, request
    ensures device.Valid() && device.requestQueue == [] && request.Valid()
    ensures var r := Run(TestAndSetProgram(commandByte, commandByteNew), device.RoutePrefix(), false,
                       old(device.EnvNow()));
      device.EnvNow() == r.env && done == (r.count == 4)
  {
    hide PS2Requests.Run, PS2Requests.BatchRun;
    request.commands := TestAndSetProgram(commandByte, commandByteNew) + request.commands[4..];
    request.commandsCount := 4;
    assert request.Program() == TestAndSetProgram(commandByte, commandByteNew);
    device.SubmitRequestAndBlockGated(request);
    done := request.commandsCount == 4;
  }

  /** One turn. */
  method TryCommandByte(device: Controller, request: PS2Request, setBits: byte, clearBits: byte) returns (done: bool)
    requires device.Valid() && device.QueueValid() && !device.hardwareOffline
    requires request.Valid() && request !in device.requestQueue
    modifies device`script, device`overrun, device`log, device`keyboardSignal, device`mouseSignal, device.keys,
             device.keys.elements, device`requestQueue, device.requestQueue, request
    ensures device.Valid() && device.requestQueue == [] && request.Valid()
    ensures var q, was := old(device.requestQueue), old(States(device.requestQueue));
      var t := Try(Mask(setBits, clearBits), device.RoutePrefix(),
                   BatchEnv(Programs(was), device.RoutePrefix(), false, |q|, old(device.EnvNow())));
      && device.EnvNow() == t.env && done == t.done
      && States(q) == AllDisposed(was, device.RoutePrefix(), false, old(device.EnvNow()))
  {
    hide PS2Requests.Run, PS2Requests.BatchEnv, PS2Controller.AllDisposed, Programs, ReadProgram, TestAndSetProgram;
    ghost var q := device.requestQueue;
    var commandByte := ReadCommandByte(device, request);
    ghost var drained := States(q);
    var commandByteNew := (commandByte | setBits) & !clearBits;
    assert commandByteNew == Mask(setBits, clearBits).Apply(commandByte);
    hide Mask.Apply;
    done := TestAndSetCommandByte(device, request, commandByte, commandByteNew);
    assert States(q) == drained;
  }

  /** The loop itself. Offline every request fails with count 0 and it would never end. */
  method SetCommandByte(device: Controller, setBits: byte, clearBits: byte)
    requires device.Valid() && device.QueueValid() && !device.hardwareOffline
    modifies device`script, device`overrun, device`log, device`keyboardSignal, device`mouseSignal, device.keys,
             device.keys.elements, device`requestQueue, device.requestQueue
    ensures device.Valid() && device.requestQueue == []
    ensures var q, was := old(device.requestQueue), old(States(device.requestQueue));
      && device.EnvNow() == Update(Mask(setBits, clearBits), device.RoutePrefix(),
                                   BatchEnv(Programs(was), device.RoutePrefix(), false, |q|, old(device.EnvNow())))
      && States(q) == AllDisposed(was, device.RoutePrefix(), false, old(device.EnvNow()))
  {
    hide PS2Requests.Run, PS2Requests.BatchEnv, PS2Requests.BatchRun, PS2Controller.AllDisposed, Programs, Try;
    ghost var q, m, prefix := device.requestQueue, Mask(setBits, clearBits), device.RoutePrefix();
    ghost var start := BatchEnv(Programs(States(q)), prefix, false, |q|, device.EnvNow());
    var request: PS2Request := new PS2Request();
    var done := TryCommandByte(device, request, setBits, clearBits);
    ghost var drained := States(q);
    while !done
      invariant device.Valid() && request.Valid() && device.requestQueue == [] && States(q) == drained
      invariant (if done then device.EnvNow() else Update(m, prefix, device.EnvNow())) == Update(m, prefix, start)
      decreases !done, device.PortNow().Size()
    {
      ghost var before := device.EnvNow();
      BatchStep([], prefix, false, before);
      FailureShrinks(m, prefix, before);
      done := TryCommandByte(device, request, setBits, clearBits);
      assert States(q) == drained;
    }
  }
}
