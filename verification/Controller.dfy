/** `ApplePS2Controller`: its fields, and its methods proved against the meaning of reads and requests. */
module PS2Controller {
  import opened PS2Port
  import opened PS2KeyboardQueue
  import opened PS2Power
  import opened PS2Requests
  import Wake = PS2WakeUp

  /** The fields of a request, with how often its completion routine ran and how often the controller freed it. */
  datatype RequestState = RequestState(count: nat, commands: seq<Command>, hasCompletion: bool,
                                       completed: nat, freed: nat) {
    predicate Valid() { count <= |commands| == MAX_COMMANDS }

    function Program(): seq<Command>
      requires Valid()
    {
      commands[..count]
    }

    /** What the requester finds: the outcome of the run in the request, which was either completed or freed, once. */
    function Disposed(done: Done): RequestState
      requires Valid()
    {
      RequestState(done.count, done.commands + commands[count..], hasCompletion,
                   completed + (if hasCompletion then 1 else 0), freed + (if hasCompletion then 0 else 1))
    }
  }

  class PS2Request {
    var commandsCount: nat
    var commands: seq<Command>
    var hasCompletion: bool
    ghost var completed: nat
    ghost var freed: nat

    ghost function State(): RequestState
      reads this
    {
      RequestState(commandsCount, commands, hasCompletion, completed, freed)
    }

    ghost predicate Valid()
      reads this
    {
      State().Valid()
    }

    ghost function Program(): seq<Command>
      requires Valid()
      reads this
    {
      State().Program()
    }

    /** A zeroed request, as `allocateRequest` returns it. */
    constructor ()
      ensures Valid() && commandsCount == 0 && !hasCompletion && completed == freed == 0
      ensures |commands| == 20 && forall i :: 0 <= i < 20 ==> commands[i] == Command(ReadDataPort, 0)
    {
      commandsCount, hasCompletion := 0, false;
      commands := seq(MAX_COMMANDS, i => Command(ReadDataPort, 0));
      completed, freed := 0, 0;
    }
  }

  class Controller {
    var script: seq<Poll>
    ghost var overrun: seq<byte>
    ghost var log: seq<Event>
    const keys: KeyboardQueue

    var keyboardSignal: bool
    var mouseSignal: bool
    var queueSignal: bool

    var requestQueue: seq<PS2Request>
    var hardwareOffline: bool
    var currentPowerState: nat
    ghost var notices: seq<Notice>
    var controllerUsesMuxMode: bool
    var muxModeRoutePrefix: byte

    ghost predicate Valid()
      reads keys, keys.elements
    {
      keys.Valid()
    }

    ghost function PortNow(): Port
      reads this`script, this`overrun, keys`contents
    {
      Port(script, keys.contents, overrun)
    }

    ghost function EnvNow(): Env
      reads this`script, this`overrun, this`log, keys`contents
    {
      Env(PortNow(), log)
    }

    ghost function PowerNow(): Power
      reads this`currentPowerState, this`hardwareOffline, this`notices
    {
      Power(currentPowerState, hardwareOffline, notices)
    }

    function RoutePrefix(): byte
      reads this`controllerUsesMuxMode, this`muxModeRoutePrefix
    {
      if controllerUsesMuxMode then muxModeRoutePrefix else TRANSMIT_TO_MOUSE
    }

    constructor (script: seq<Poll>)
      ensures Valid() && fresh(keys) && fresh(keys.elements)
      ensures EnvNow() == Env(Port(script, [], []), [])
      ensures requestQueue == [] && PowerNow() == POWERED && !controllerUsesMuxMode
    {
      this.script := script;
      overrun, log := [], [];
      keys := new KeyboardQueue();
      keyboardSignal, mouseSignal, queueSignal := false, false, false;
      requestQueue, controllerUsesMuxMode, muxModeRoutePrefix := [], false, 0x90;
      hardwareOffline, currentPowerState, notices := false, NORMAL, [];
    }

    // -------------------------------------------------------------- interrupts

    /** Moves a waiting keyboard byte to the queue; for a mouse byte it only wakes the work loop. */
    method InterruptHandlerKeyboard()
      requires Valid()
      modifies this`script, this`overrun, this`keyboardSignal, this`mouseSignal, keys, keys.elements
      ensures Valid()
      ensures old(script) != [] && old(script)[0].Ready? && old(script)[0].src.Keyboard? ==>
                PortNow() == HandleInterrupt(old(PortNow())) && keyboardSignal && mouseSignal == old(mouseSignal)
      ensures old(script) != [] && old(script)[0].Ready? && old(script)[0].src.Mouse? ==>
                PortNow() == old(PortNow()) && mouseSignal && keyboardSignal == old(keyboardSignal)
      ensures old(script) == [] || old(script)[0].NotReady? ==>
                PortNow() == old(PortNow()) && mouseSignal == old(mouseSignal) && keyboardSignal == old(keyboardSignal)
    {
      if script != [] && script[0].Ready? {
        if script[0].src.Mouse? {
          mouseSignal := true;
        } else {
          var key := script[0].data;
          script := script[1..];
          if |keys.contents| == QUEUE_SIZE { overrun := overrun + [key]; }
          keys.Enqueue(key);
          keyboardSignal := true;
        }
      }
    }

    /** Taking the lock; the interrupts that came while it was free have been handled. */
    method LockController()
      requires Valid()
      modifies this`script, this`overrun, this`keyboardSignal, this`mouseSignal, keys, keys.elements
      ensures Valid() && PortNow() == Absorb(old(PortNow()))
    {
      while script != [] && script[0].Ready? && script[0].src.Keyboard? && script[0].irq
        invariant Valid() && Absorb(PortNow()) == Absorb(old(PortNow()))
        decreases |script|
      {
        InterruptHandlerKeyboard();
      }
    }

    method DispatchDriverInterrupt(device: Device, data: byte)
      modifies this`log
      ensures log == old(log) + [Sent(device, data)]
    {
      log := log + [Sent(device, data)];
    }

    // -------------------------------------------------------------- reading

    /** One turn of the loop that both blocking reads share. */
    method FetchByte(device: Device, counter: nat) returns (timedOut: bool, src: Device, data: byte, left: nat)
      requires Valid()
      modifies this`script, this`overrun, this`keyboardSignal, this`mouseSignal, keys, keys.elements
      ensures Valid()
      ensures Fetch(device, old(PortNow()), counter) ==
              if timedOut then TimedOut(PortNow()) else Got(Arrival(src, data, PortNow(), left))
    {
      hide PS2Port.Absorb;
      LockController();
      timedOut, src, data, left := false, device, 0, counter;
      if device == Keyboard {
        var found;
        found, data := keys.Dequeue();
        if found { return; }
      }
      ghost var locked := script;
      while left > 0 && (script == [] || script[0].NotReady?)
        invariant left <= counter && Wait(script, left) == Wait(locked, counter)
        decreases left
        modifies this`script
      {
        if script != [] {
          script := script[1..];
          left := left - 1;
        } else {
          left := 0;  // an exhausted script never shows data again: the polls that remain all fail
        }
      }
      if left == 0 {
        timedOut := true;
        return;
      }
      src, data := script[0].src, script[0].data;
      script := script[1..];
    }

    /** A turn in terms of all arrivals: `seen` before it, `x` in it, `rest` still to come. */
    method NextArrival(device: Device, counter: nat, ghost all: seq<Arrival>, ghost end: Port, ghost seen: seq<Arrival>)
      returns (timedOut: bool, src: Device, data: byte, left: nat, ghost x: Arrival, ghost rest: seq<Arrival>)
      requires Valid()
      requires all == seen + Arrivals(device, PortNow(), counter) && end == Exhausted(device, PortNow(), counter)
      modifies this`script, this`overrun, this`keyboardSignal, this`mouseSignal, keys, keys.elements
      ensures Valid()
      ensures timedOut ==> all == seen && end == PortNow()
      ensures !timedOut ==>
        && x == Arrival(src, data, PortNow(), left) && PortNow().Size() < old(PortNow().Size())
        && rest == Arrivals(device, PortNow(), left) && end == Exhausted(device, PortNow(), left)
        && all == seen + [x] + rest
        && Own(seen + [x], device) == (if src == device then Own(seen, device) + [data] else Own(seen, device))
        && Preempted(seen + [x], device)
           == if src == device then Preempted(seen, device) else Preempted(seen, device) + [Sent(src, data)]
    {
      hide PS2Port.Fetch, PS2Port.Arrivals, PS2Port.Exhausted, PS2Port.Own, PS2Port.Preempted;
      Turn(device, PortNow(), counter);
      timedOut, src, data, left := FetchByte(device, counter);
      x, rest := Arrival(src, data, PortNow(), left), [];
      if !timedOut {
        rest := Arrivals(device, PortNow(), left);
        Assoc(seen, [x], rest);
        Advance(seen, x, device);
      }
    }

    method ReadDataPort(device: Device) returns (readByte: byte)
      requires Valid()
      modifies this`script, this`overrun, this`log, this`keyboardSignal, this`mouseSignal, keys, keys.elements
      ensures Valid()
      ensures Read(readByte, PlainRead(device, old(PortNow())).events, PortNow()) == PlainRead(device, old(PortNow()))
      ensures log == old(log) + PlainRead(device, old(PortNow())).events
    {
      hide PS2Port.Arrivals, PS2Port.Exhausted, PS2Port.Own, PS2Port.Preempted, PS2Port.PlainFrom;
      NothingSeen(device);
      ghost var all, end := Arrivals(device, PortNow(), IDLE_BUDGET), Exhausted(device, PortNow(), IDLE_BUDGET);
      ghost var seen: seq<Arrival>, last: seq<Event> := [], [];
      var timeoutCounter := IDLE_BUDGET;
      while true
        invariant Valid()
        invariant all == seen + Arrivals(device, PortNow(), timeoutCounter)
        invariant end == Exhausted(device, PortNow(), timeoutCounter)
        invariant Own(seen, device) == []
        invariant log == old(log) + Preempted(seen, device)
        decreases PortNow().Size()
      {
        var timedOut, src, data;
        ghost var x, rest;
        timedOut, src, data, timeoutCounter, x, rest := NextArrival(device, timeoutCounter, all, end, seen);
        if timedOut {
          PlainRunsOut(device, all, end);
          readByte, last := 0, [Faked(device)];
          break;
        }
        if src == device {
          PlainReturns(device, all, end, seen, x, rest);
          readByte, last := data, [Returned(device, data)];
          break;
        }
        DispatchDriverInterrupt(device.Other(), data);
        Assoc(old(log), Preempted(seen, device), [Sent(src, data)]);
        seen := seen + [x];
      }
      Assoc(old(log), Preempted(seen, device), last);
      log := log + last;
    }

    /** The bytes put aside go to their driver in the order they came. */
    method DispatchHeld(device: Device, held: seq<byte>)
      modifies this`log
      ensures log == old(log) + SendAll(device, held)
    {
      for i := 0 to |held|
        invariant log == old(log) + SendAll(device, held[..i])
      {
        DispatchDriverInterrupt(device, held[i]);
        assert SendAll(device, held[..i + 1]) == SendAll(device, held[..i]) + [Sent(device, held[i])];
      }
      assert held[..|held|] == held;
    }

    /** A byte of the stream that is read: it is the expected one, it is put aside, or the read gives up. `held`
        are the bytes put aside so far, the first, second and third of the stream that did not match. */
    method TakeByte(device: Device, expectedByte: byte, held: seq<byte>, data: byte,
                    ghost all: seq<Arrival>, ghost end: Port, ghost seen: seq<Arrival>, ghost x: Arrival,
                    ghost rest: seq<Arrival>)
      returns (done: bool, readByte: byte, held': seq<byte>, ghost sent: seq<Event>, ghost last: seq<Event>)
      requires all == seen + [x] + rest && x.src == device && x.data == data
      requires held == Own(seen, device) && |held| <= 3 && expectedByte !in held
      modifies this`log
      ensures done ==> log == old(log) + sent
                       && ExpectFrom(device, expectedByte, all, end)
                          == Read(readByte, Preempted(seen, device) + sent + last, x.after)
      ensures !done ==> log == old(log) && held' == held + [data] && |held'| <= 3 && expectedByte !in held'
    {
      hide PS2Port.Own, PS2Port.Preempted, PS2Port.ExpectFrom, PS2Port.LoseAll, PS2Port.SendAll;
      done, readByte, held', sent, last := true, data, held, [], [];
      if data == expectedByte {
        ExpectHit(device, expectedByte, all, end, seen, x, rest);
        DispatchHeld(device, held);
        sent, last := SendAll(device, held), [Returned(device, data)];
      } else if |held| < 3 {
        done, held' := false, held + [data];
      } else {
        ExpectGivesUp(device, expectedByte, all, end, seen, x, rest);
        DispatchDriverInterrupt(device, data);
        readByte, sent := held[0], [Sent(device, data)];
        last := LoseAll(device, held[1..]) + [Returned(device, held[0])];
      }
    }

    /** The read that gives the expected byte a second, third and fourth chance. */
    method ReadDataPortExpecting(device: Device, expectedByte: byte) returns (readByte: byte)
      requires Valid()
      modifies this`script, this`overrun, this`log, this`keyboardSignal, this`mouseSignal, keys, keys.elements
      ensures Valid()
      ensures var r := ExpectRead(device, expectedByte, old(PortNow())); Read(readByte, r.events, PortNow()) == r
      ensures log == old(log) + ExpectRead(device, expectedByte, old(PortNow())).events
    {
      hide PS2Port.Arrivals, PS2Port.Exhausted, PS2Port.Own, PS2Port.Preempted, PS2Port.ExpectFrom, PS2Port.LoseAll,
           PS2Port.SendAll;
      NothingSeen(device);
      ghost var all, end := Arrivals(device, PortNow(), IDLE_BUDGET), Exhausted(device, PortNow(), IDLE_BUDGET);
      ghost var seen: seq<Arrival>, sent: seq<Event>, last: seq<Event> := [], [], [];
      var held: seq<byte> := [];
      var timeoutCounter := IDLE_BUDGET;
      while true
        invariant Valid()
        invariant all == seen + Arrivals(device, PortNow(), timeoutCounter)
        invariant end == Exhausted(device, PortNow(), timeoutCounter)
        invariant held == Own(seen, device) && |held| <= 3 && expectedByte !in held
        invariant log == old(log) + Preempted(seen, device)
        decreases PortNow().Size()
      {
        var timedOut, src, data;
        ghost var x, rest;
        timedOut, src, data, timeoutCounter, x, rest := NextArrival(device, timeoutCounter, all, end, seen);
        if timedOut {
          ExpectRunsOut(device, expectedByte, all, end);
          readByte := if held != [] then held[0] else 0;
          sent := [];
          last := if held != [] then LoseAll(device, held[1..]) + [Returned(device, held[0])] else [Faked(device)];
          break;
        }
        if src == device {
          var done;
          done, readByte, held, sent, last := TakeByte(device, expectedByte, held, data, all, end, seen, x, rest);
          if done { break; }
        } else {
          DispatchDriverInterrupt(device.Other(), data);
          Assoc(old(log), Preempted(seen, device), [Sent(src, data)]);
        }
        seen := seen + [x];
      }
      Assoc3(old(log), Preempted(seen, device), sent, last);
      log := log + last;
    }

    /** Asynchronous data: keyboard bytes from the queue, mouse bytes from the port. While offline nothing is touched,
        so what the interrupt handler queued stays queued. */
    method InterruptOccurred()
      requires Valid()
      modifies this`script, this`overrun, this`log, this`keyboardSignal, this`mouseSignal, keys, keys.elements
      ensures Valid()
      ensures EnvNow() == if hardwareOffline then old(EnvNow()) else Service(old(EnvNow()))
    {
      hide PS2Port.Absorb;
      if hardwareOffline {
        return;
      }
      while true
        invariant Valid() && Service(EnvNow()) == Service(old(EnvNow()))
        decreases PortNow().Size()
      {
        LockController();
        var found, status := keys.Dequeue();
        if found {
          DispatchDriverInterrupt(Keyboard, status);
        } else if script != [] && script[0].Ready? && script[0].src.Mouse? {
          var data := script[0].data;
          script := script[1..];
          DispatchDriverInterrupt(Mouse, data);
        } else {
          break;
        }
      }
    }

    // -------------------------------------------------------------- writing

    method WriteDataPort(data: byte)
      modifies this`log
      ensures log == old(log) + [Wrote(Data(data))]
    {
      log := log + [Wrote(Data(data))];
    }

    method WriteCommandPort(data: byte)
      modifies this`log
      ensures log == old(log) + [Wrote(Cmd(data))]
    {
      log := log + [Wrote(Cmd(data))];
    }

    // -------------------------------------------------------------- requests

    /** One arm of the command switch, with the two variables that decide which stream is read. */
    method ExecuteCommand(c: Command, deviceMode: Device, transmitToMouse: bool)
      returns (c': Command, deviceMode': Device, transmitToMouse': bool, failed: bool)
      requires Valid()
      modifies this`script, this`overrun, this`log, this`keyboardSignal, this`mouseSignal, keys, keys.elements
      ensures Valid()
      ensures Effect(EnvNow(), c', !failed) == Perform(c, deviceMode, RoutePrefix(), old(EnvNow()))
      ensures deviceMode' == if c.op.ReadMouseDataPort? || c.op.SendMouseCommandAndCompareAck? then Mouse
                             else if c.op.WriteDataPort? then (if transmitToMouse then Mouse else Keyboard)
                             else deviceMode
      ensures transmitToMouse' <==> c == Command(Primitive.WriteCommandPort, TRANSMIT_TO_MOUSE)
                                    || (transmitToMouse && !c.op.WriteDataPort?)
    {
      hide PS2Port.PlainRead, PS2Port.ExpectRead;
      c', deviceMode', transmitToMouse', failed := c, deviceMode, transmitToMouse, false;
      match c.op
      case ReadDataPort =>
        var data := ReadDataPort(deviceMode);
        c' := c.(inOrOut := data);
      case ReadMouseDataPort =>
        deviceMode' := Mouse;
        var data := ReadDataPort(Mouse);
        c' := c.(inOrOut := data);
      case ReadDataPortAndCompare =>
        var data := ReadDataPortExpecting(deviceMode, c.inOrOut);
        failed := data != c.inOrOut;
      case WriteDataPort =>
        WriteDataPort(c.inOrOut);
        if transmitToMouse {
          deviceMode', transmitToMouse' := Mouse, false;
        } else {
          deviceMode' := Keyboard;
        }
      case WriteCommandPort =>
        WriteCommandPort(c.inOrOut);
        if c.inOrOut == TRANSMIT_TO_MOUSE { transmitToMouse' := true; }
      case SendMouseCommandAndCompareAck =>
        WriteCommandPort(RoutePrefix());
        WriteDataPort(c.inOrOut);
        deviceMode' := Mouse;
        var data := ReadDataPortExpecting(Mouse, ACKNOWLEDGE);
        failed := data != ACKNOWLEDGE;
    }

    /** The command loop: stops at the first command that fails. */
    method RunCommands(request: PS2Request) returns (index: nat, failed: bool)
      requires Valid() && request.Valid() && !hardwareOffline
      modifies this`script, this`overrun, this`log, this`keyboardSignal, this`mouseSignal, keys, keys.elements,
               request`commands
      ensures Valid() && request.Valid()
      ensures var r := Run(old(request.Program()), RoutePrefix(), false, old(EnvNow()));
        && index == r.count && (failed <==> index < request.commandsCount)
        && EnvNow() == r.env
        && request.commands == r.commands + old(request.commands[request.commandsCount..])
    {
      hide PS2Requests.Perform, PS2Requests.StreamAt, PS2Requests.Armed, PS2Requests.EffectAt, PS2Requests.EnvAt,
        PS2Requests.Run;
      ghost var cmds, prefix, e := request.Program(), RoutePrefix(), EnvNow();
      var deviceMode, transmitToMouse;
      deviceMode, transmitToMouse, failed, index := Keyboard, false, false, 0;
      EmptyScan(cmds);
      EnvStep(cmds, prefix, e);
      while index < request.commandsCount
        invariant Valid() && index <= request.commandsCount && |request.commands| == MAX_COMMANDS
        invariant !failed
        invariant forall i :: 0 <= i < index ==> request.commands[i] == EffectAt(cmds, prefix, i, e).command
        invariant forall i :: index <= i < MAX_COMMANDS ==> request.commands[i] == old(request.commands[i])
        invariant forall i: nat :: i < index ==> EffectAt(cmds, prefix, i, e).ok
        invariant EnvNow() == EnvAt(cmds, prefix, index, e)
        invariant deviceMode == StreamAt(cmds, index) && (transmitToMouse <==> Armed(cmds, index))
      {
        StreamStep(cmds, index);
        var c;
        c, deviceMode, transmitToMouse, failed := ExecuteCommand(request.commands[index], deviceMode, transmitToMouse);
        request.commands := request.commands[index := c];
        if failed { break; }
        index := index + 1;
      }
      RunEndsAt(cmds, prefix, e, index, request.commands, old(request.commands));
    }

    /** Runs a request and disposes of it: its completion routine is called if it has one, else it is freed. */
    method ProcessRequest(request: PS2Request)
      requires Valid() && request.Valid()
      modifies this`script, this`overrun, this`log, this`keyboardSignal, this`mouseSignal, keys, keys.elements, request
      ensures Valid() && request.Valid()
      ensures var r := Run(old(request.Program()), RoutePrefix(), hardwareOffline, old(EnvNow()));
        EnvNow() == r.env && request.State() == old(request.State()).Disposed(r)
    {
      hide PS2Requests.Run;
      var failed, index := false, 0;
      if hardwareOffline {
        failed := true;
        RunOffline(request.Program(), RoutePrefix(), EnvNow());
        assert request.commands == request.Program() + request.commands[request.commandsCount..];
      } else {
        index, failed := RunCommands(request);
      }
      if failed {
        request.commandsCount := index;
      }
      if request.hasCompletion {
        request.completed := request.completed + 1;
      } else {
        request.freed := request.freed + 1;
      }
    }

    ghost predicate QueueValid()
      reads this`requestQueue, requestQueue
    {
      && (forall i :: 0 <= i < |requestQueue| ==> requestQueue[i].Valid())
      && (forall i, j :: 0 <= i < j < |requestQueue| ==> requestQueue[i] != requestQueue[j])
    }

    method SubmitRequest(request: PS2Request)
      requires QueueValid() && request.Valid() && request !in requestQueue
      modifies this`requestQueue, this`queueSignal
      ensures QueueValid() && requestQueue == old(requestQueue) + [request] && queueSignal
    {
      requestQueue := requestQueue + [request];
      queueSignal := true;
    }

    /** The first `k` requests of a queue have run, the others are as they `were`. */
    ghost predicate Drained(q: seq<PS2Request>, were: seq<RequestState>, k: nat, e: Env)
      requires |q| == |were| && forall i :: 0 <= i < |were| ==> were[i].Valid()
      reads this`script, this`overrun, this`log, keys`contents, this`hardwareOffline, this`controllerUsesMuxMode,
            this`muxModeRoutePrefix, q
    {
      && k <= |q| && EnvNow() == BatchEnv(Programs(were), RoutePrefix(), hardwareOffline, k, e)
      && (forall i :: 0 <= i < k ==>
            q[i].State() == were[i].Disposed(BatchRun(Programs(were), RoutePrefix(), hardwareOffline, i, e)))
      && (forall i :: k <= i < |q| ==> q[i].State() == were[i])
    }

    method ProcessNext(q: seq<PS2Request>, k: nat, ghost were: seq<RequestState>, ghost e: Env)
      requires Valid() && |q| == |were| && k < |q|
      requires forall i :: 0 <= i < |were| ==> were[i].Valid()
      requires forall i, j :: 0 <= i < j < |q| ==> q[i] != q[j]
      requires Drained(q, were, k, e)
      modifies this`script, this`overrun, this`log, this`keyboardSignal, this`mouseSignal, keys, keys.elements, q[k]
      ensures Valid() && Drained(q, were, k + 1, e)
    {
      hide PS2Requests.Run, PS2Requests.BatchEnv, PS2Requests.BatchRun, RequestState.Disposed;
      BatchStep(Programs(were), RoutePrefix(), hardwareOffline, e);
      assert q[k].State() == were[k];
      ProcessRequest(q[k]);
    }

    /** Runs the requests of a queue that nobody else can see any more, oldest first. */
    method ProcessLocalQueue(q: seq<PS2Request>)
      requires Valid()
      requires forall i :: 0 <= i < |q| ==> States(q)[i].Valid()
      requires forall i, j :: 0 <= i < j < |q| ==> q[i] != q[j]
      modifies this`script, this`overrun, this`log, this`keyboardSignal, this`mouseSignal, keys, keys.elements, q
      ensures Valid()
      ensures EnvNow() == BatchEnv(old(Programs(States(q))), RoutePrefix(), hardwareOffline, |q|, old(EnvNow()))
      ensures forall i :: 0 <= i < |q| ==> q[i].State() == old(q[i].State()).Disposed(
                BatchRun(old(Programs(States(q))), RoutePrefix(), hardwareOffline, i, old(EnvNow())))
    {
      hide PS2Requests.BatchEnv, PS2Requests.BatchRun, RequestState.Disposed, Programs;
      ghost var were, e := States(q), EnvNow();
      BatchStep(Programs(were), RoutePrefix(), hardwareOffline, e);
      for k := 0 to |q|
        invariant Valid() && Drained(q, were, k, e)
      {
        ProcessNext(q, k, were, e);
      }
    }

    /** Takes the whole queue and runs it. */
    method ProcessRequestQueue()
      requires Valid() && QueueValid()
      modifies this`script, this`overrun, this`log, this`keyboardSignal, this`mouseSignal, keys, keys.elements,
               this`requestQueue, requestQueue
      ensures Valid() && requestQueue == []
      ensures var q, was := old(requestQueue), old(States(requestQueue));
        && EnvNow() == BatchEnv(Programs(was), RoutePrefix(), hardwareOffline, |q|, old(EnvNow()))
        && States(q) == AllDisposed(was, RoutePrefix(), hardwareOffline, old(EnvNow()))
    {
      hide PS2Requests.BatchEnv, PS2Requests.BatchRun, RequestState.Disposed;
      var localQueue := requestQueue;
      requestQueue := [];
      ProcessLocalQueue(localQueue);
    }

    /** A synchronous request: everything queued runs first, then the request itself. */
    method SubmitRequestAndBlockGated(request: PS2Request)
      requires Valid() && QueueValid() && request.Valid() && request !in requestQueue
      modifies this`script, this`overrun, this`log, this`keyboardSignal, this`mouseSignal, keys, keys.elements,
               this`requestQueue, requestQueue, request
      ensures Valid() && request.Valid() && requestQueue == []
      ensures var q, was := old(requestQueue), old(States(requestQueue));
        var between := BatchEnv(Programs(was), RoutePrefix(), hardwareOffline, |q|, old(EnvNow()));
        var r := Run(old(request.Program()), RoutePrefix(), hardwareOffline, between);
        && EnvNow() == r.env
        && request.State() == old(request.State()).(hasCompletion := true).Disposed(r)
        && States(q) == AllDisposed(was, RoutePrefix(), hardwareOffline, old(EnvNow()))
    {
      hide PS2Requests.Run, PS2Requests.BatchEnv, PS2Requests.BatchRun, AllDisposed;
      ghost var q := requestQueue;
      assert forall i :: 0 <= i < |q| ==> q[i] != request;
      request.hasCompletion := true;
      assert States(q) == old(States(requestQueue));
      ProcessRequestQueue();
      ghost var drained := States(q);
      ProcessRequest(request);
      assert States(q) == drained;
    }

    // -------------------------------------------------------------- power and shutdown

    method DispatchDriverPowerControl(enable: bool)
      modifies this`notices
      ensures notices == old(notices) + [Notice(enable, hardwareOffline)]
    {
      notices := notices + [Notice(enable, hardwareOffline)];
    }

    /** Throws away what the port shows, and no more; a key whose interrupt can be served is queued instead. */
    method FlushInput()
      requires Valid()
      modifies this`script, this`overrun, this`keyboardSignal, this`mouseSignal, keys, keys.elements
      ensures Valid() && PortNow() == Wake.Flushed(old(PortNow()))
    {
      while script != [] && script[0].Ready?
        invariant Valid() && Wake.Flushed(PortNow()) == Wake.Flushed(old(PortNow()))
        decreases |script|
      {
        if script[0].src.Keyboard? && script[0].irq {
          InterruptHandlerKeyboard();
        } else {
          script := script[1..];
        }
      }
    }

    method AskCommandByte() returns (commandByte: byte)
      requires Valid()
      modifies this`script, this`overrun, this`log, this`keyboardSignal, this`mouseSignal, keys, keys.elements
      ensures Valid() && Wake.Ask(old(EnvNow())) == Wake.Answer(commandByte, EnvNow())
    {
      hide PS2Port.PlainRead;
      WriteCommandPort(0x20);
      commandByte := ReadDataPort(Keyboard);
    }

    method StoreCommandByte(commandByte: byte)
      modifies this`log
      ensures EnvNow() == Wake.Store(commandByte, old(EnvNow()))
    {
      WriteCommandPort(0x60);
      WriteDataPort(commandByte);
    }

    method QuietMouse()
      requires Valid()
      modifies this`script, this`overrun, this`log, this`keyboardSignal, this`mouseSignal, keys, keys.elements
      ensures Valid() && EnvNow() == Wake.QuietMouse(old(EnvNow()))
    {
      hide Wake.Ask;
      var commandByte := AskCommandByte();
      commandByte := commandByte & !(0x02 | 0x20);
      StoreCommandByte(commandByte);
    }

    method DisableDevices()
      requires Valid()
      modifies this`script, this`overrun, this`log, this`keyboardSignal, this`mouseSignal, keys, keys.elements
      ensures Valid() && EnvNow() == Wake.DisableDevices(old(EnvNow()))
    {
      hide PS2Port.PlainRead, Wake.Ask;
      var _ := AskCommandByte();
      WriteDataPort(0xF5);
      var _ := ReadDataPort(Keyboard);
      WriteCommandPort(TRANSMIT_TO_MOUSE);
      WriteDataPort(0xF5);
      var _ := ReadDataPort(Mouse);
    }

    method ResetController()
      requires Valid()
      modifies this`script, this`overrun, this`log, this`keyboardSignal, this`mouseSignal, keys, keys.elements
      ensures Valid() && EnvNow() == Wake.Reset(old(EnvNow())) && (script == [] || script[0].NotReady?)
    {
      hide Wake.QuietMouse, Wake.DisableDevices;
      QuietMouse();
      DisableDevices();
      FlushInput();
    }

    /** A byte sent through a mouse port, and what comes back. */
    method ProbePort(command: byte, val: byte) returns (res: byte)
      requires Valid()
      modifies this`script, this`overrun, this`log, this`keyboardSignal, this`mouseSignal, keys, keys.elements
      ensures Valid() && Wake.Probe(command, val, old(EnvNow())) == Wake.Answer(res, EnvNow())
    {
      hide PS2Port.PlainRead;
      WriteCommandPort(command);
      WriteDataPort(val);
      res := ReadDataPort(Mouse);
    }

    /** The activation sequence, then the ports in turn until one acknowledges. */
    method SetMuxMode(enable: bool) returns (on: bool, ghost probes: nat)
      requires Valid()
      modifies this`script, this`overrun, this`log, this`keyboardSignal, this`mouseSignal, keys, keys.elements,
               this`muxModeRoutePrefix
      ensures Valid()
      ensures Wake.SetMuxMode(enable, old(muxModeRoutePrefix), old(EnvNow()))
              == Wake.Mux(on, muxModeRoutePrefix, probes, EnvNow())
    {
      hide Wake.Probe;
      var res := ProbePort(0xD3, 0xF0);
      if res != 0xF0 { return false, 1; }
      var val := if enable then 0x56 else 0xF6;
      res := ProbePort(0xD3, val);
      if res != val { return false, 2; }
      val := if enable then 0xA4 else 0xA5;
      res := ProbePort(0xD3, val);
      if res == val { return false, 3; }
      on, probes := FindMousePort();
    }

    method FindMousePort() returns (foundPort: bool, ghost probes: nat)
      requires Valid()
      modifies this`script, this`overrun, this`log, this`keyboardSignal, this`mouseSignal, keys, keys.elements,
               this`muxModeRoutePrefix
      ensures Valid()
      ensures Wake.FindPort(0, old(muxModeRoutePrefix), old(EnvNow()))
              == Wake.Mux(foundPort, muxModeRoutePrefix, probes, EnvNow())
    {
      hide Wake.Probe;
      ghost var prefix := muxModeRoutePrefix;
      foundPort, probes := false, 7;
      for i := 0 to 4
        invariant Valid() && !foundPort && probes == 7 && muxModeRoutePrefix == prefix
        invariant Wake.FindPort(i, prefix, EnvNow()) == Wake.FindPort(0, prefix, old(EnvNow()))
      {
        var res := ProbePort(Wake.PREFIXES[i], 0xF8);
        if res == 0xFA {
          foundPort, probes, muxModeRoutePrefix := true, 4 + i, Wake.PREFIXES[i];
          break;
        }
      }
    }

    method DetectMuxModeSupport() returns (ghost probes: nat)
      requires Valid()
      modifies this`script, this`overrun, this`log, this`keyboardSignal, this`mouseSignal, keys, keys.elements,
               this`controllerUsesMuxMode, this`muxModeRoutePrefix
      ensures Valid()
      ensures Wake.DetectMuxMode(old(muxModeRoutePrefix), old(EnvNow()))
              == Wake.Mux(controllerUsesMuxMode, muxModeRoutePrefix, probes, EnvNow())
      ensures script == [] || script[0].NotReady?
    {
      hide Wake.SetMuxMode;
      controllerUsesMuxMode := false;
      var on;
      on, probes := SetMuxMode(true);
      if on {
        StoreCommandByte(0x20);
        controllerUsesMuxMode := true;
      }
      FlushInput();
    }

    method EnablePort()
      requires Valid()
      modifies this`script, this`overrun, this`log, this`keyboardSignal, this`mouseSignal, keys, keys.elements
      ensures Valid()
      ensures var a := Wake.Ask(old(EnvNow())); EnvNow() == Wake.Store(Wake.Enabled(a.value), a.env)
    {
      hide Wake.Ask;
      var commandByte := AskCommandByte();
      commandByte := commandByte & !(0x10 | 0x20);
      commandByte := commandByte | (0x01 | 0x02);
      StoreCommandByte(commandByte);
    }

    /** Waking up: the controller is reset, tested again for multiplexing if it was multiplexing, and both ports
        enabled. */
    method WakeController()
      requires Valid()
      modifies this`script, this`overrun, this`log, this`keyboardSignal, this`mouseSignal, keys, keys.elements,
               this`controllerUsesMuxMode, this`muxModeRoutePrefix
      ensures Valid()
      ensures var m := Wake.WakeUp(old(controllerUsesMuxMode), old(muxModeRoutePrefix), old(EnvNow())).mux;
        EnvNow() == m.env && controllerUsesMuxMode == m.on && muxModeRoutePrefix == m.prefix
    {
      hide Wake.Reset, Wake.DetectMuxMode, Wake.Ask;
      FlushInput();
      ResetController();
      if controllerUsesMuxMode {
        ghost var _ := DetectMuxModeSupport();
      }
      EnablePort();
    }

    /** One power transition. The hardware is offline from the notice to go to sleep until it has been woken up. */
    method SetPowerStateGated(powerState: nat)
      requires Valid()
      modifies this`script, this`overrun, this`log, this`keyboardSignal, this`mouseSignal, keys, keys.elements,
               this`currentPowerState, this`hardwareOffline, this`notices, this`controllerUsesMuxMode,
               this`muxModeRoutePrefix
      ensures Valid()
      ensures PowerNow() == PowerStep(old(PowerNow()), powerState)
      ensures old(currentPowerState) == SLEEP && powerState in {DOZE, NORMAL} ==>
                var m := Wake.WakeUp(old(controllerUsesMuxMode), old(muxModeRoutePrefix), old(EnvNow())).mux;
                EnvNow() == m.env && controllerUsesMuxMode == m.on && muxModeRoutePrefix == m.prefix
      ensures !(old(currentPowerState) == SLEEP && powerState in {DOZE, NORMAL}) ==>
                EnvNow() == old(EnvNow()) && RoutePrefix() == old(RoutePrefix())
    {
      hide Wake.WakeUp;
      if currentPowerState != powerState {
        if powerState == SLEEP {
          DispatchDriverPowerControl(false);
          hardwareOffline := true;
        } else if powerState == DOZE || powerState == NORMAL {
          if currentPowerState == SLEEP {
            WakeController();
            hardwareOffline := false;
            DispatchDriverPowerControl(true);
          }
        }
        currentPowerState := powerState;
      }
    }

    /** What is still queued when the driver stops is disposed of without touching the port. */
    method Stop()
      requires Valid() && QueueValid()
      modifies this`script, this`overrun, this`log, this`keyboardSignal, this`mouseSignal, keys, keys.elements,
               this`requestQueue, requestQueue, this`hardwareOffline
      ensures Valid() && hardwareOffline && requestQueue == []
      ensures EnvNow() == old(EnvNow())
      ensures States(old(requestQueue)) == Dismissed(old(States(requestQueue)))
    {
      hide PS2Requests.BatchEnv, PS2Requests.BatchRun, PS2Requests.Run, AllDisposed, Dismissed;
      hardwareOffline := true;
      AllDismissed(States(requestQueue), RoutePrefix(), EnvNow());
      BatchOffline(Programs(States(requestQueue)), RoutePrefix(), |requestQueue|, EnvNow());
      ProcessRequestQueue();
    }
  }

  ghost function States(q: seq<PS2Request>): (r: seq<RequestState>)
    reads q
    ensures |r| == |q| && forall i :: 0 <= i < |q| ==> r[i] == q[i].State()
  {
    seq(|q|, i requires 0 <= i < |q| reads q => q[i].State())
  }

  ghost function Programs(was: seq<RequestState>): (r: seq<seq<Command>>)
    requires forall i :: 0 <= i < |was| ==> was[i].Valid()
    ensures |r| == |was|
  {
    seq(|was|, i requires 0 <= i < |was| => was[i].Program())
  }

  ghost function AllDisposed(was: seq<RequestState>, prefix: byte, offline: bool, e: Env): seq<RequestState>
    requires forall i :: 0 <= i < |was| ==> was[i].Valid()
  {
    seq(|was|, i requires 0 <= i < |was| => was[i].Disposed(BatchRun(Programs(was), prefix, offline, i, e)))
  }

  /** Every request failed at command 0 and is disposed of once. */
  ghost function Dismissed(was: seq<RequestState>): seq<RequestState> {
    seq(|was|, i requires 0 <= i < |was| =>
      was[i].(count := 0,
              completed := was[i].completed + (if was[i].hasCompletion then 1 else 0),
              freed := was[i].freed + (if was[i].hasCompletion then 0 else 1)))
  }

  lemma AllDismissed(was: seq<RequestState>, prefix: byte, e: Env)
    requires forall i :: 0 <= i < |was| ==> was[i].Valid()
    ensures AllDisposed(was, prefix, true, e) == Dismissed(was)
  {
    forall i | 0 <= i < |was| ensures AllDisposed(was, prefix, true, e)[i] == Dismissed(was)[i] {
      BatchOffline(Programs(was), prefix, i, e);
      assert was[i].Program() + was[i].commands[was[i].count..] == was[i].commands;
    }
  }
}
