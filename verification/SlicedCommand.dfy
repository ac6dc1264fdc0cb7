/** Client programs of `PS2Interface`: commands sent to a touchpad in slices of two bits, and the question for
    its answer. */
module PS2SlicedCommand {
  import opened PS2Port
  import opened PS2Requests
  import opened PS2Writes
  import opened PS2Controller

  const SET_SCALING: byte := 0xE6
  const SET_RESOLUTION: byte := 0xE8
  const GET_INFORMATION: byte := 0xE9

  function ToMouse(b: byte): Command { Command(SendMouseCommandAndCompareAck, b) }

  function AllToMouse(bytes: seq<byte>): (cmds: seq<Command>)
    ensures |cmds| == |bytes|
  {
    seq(|bytes|, i requires 0 <= i < |bytes| => ToMouse(bytes[i]))
  }

  /** Two bits of the command, counted from the low end. */
  function Slice(cmd: byte, i: nat): byte
    requires i <= 8
  {
    (cmd >> i) & 3
  }

  function SlicedBytes(cmd: byte): (s: seq<byte>)
    ensures |s| == 9
  {
    [SET_SCALING, SET_RESOLUTION, Slice(cmd, 6), SET_RESOLUTION, Slice(cmd, 4),
     SET_RESOLUTION, Slice(cmd, 2), SET_RESOLUTION, Slice(cmd, 0)]
  }

  // ---------------------------------------------------------------- what reaches the data port

  /** Each byte behind its own routing prefix. */
  function Routed(bytes: seq<byte>, prefix: byte): seq<Write> {
    if bytes == [] then [] else Routed(bytes[..|bytes| - 1], prefix) + [Cmd(prefix), Data(bytes[|bytes| - 1])]
  }

  lemma {:induction false} ToMouseWrites(bytes: seq<byte>, prefix: byte)
    ensures ProgramWrites(AllToMouse(bytes), prefix) == Routed(bytes, prefix)
  {
    if bytes != [] {
      ToMouseWrites(bytes[..|bytes| - 1], prefix);
      assert AllToMouse(bytes)[..|bytes| - 1] == AllToMouse(bytes[..|bytes| - 1]);
    }
  }

  /** Bytes sent with acknowledgement: all are written if all are acknowledged; if number `j` is not, the first
      `j + 1`. */
  lemma SendWrites(bytes: seq<byte>, prefix: byte, e: Env)
    ensures var r := Run(AllToMouse(bytes), prefix, false, e);
      PortWrites(r.env.log) == PortWrites(e.log)
        + Routed(if r.count < |bytes| then bytes[..r.count + 1] else bytes, prefix)
  {
    hide Run, PortWrites, ProgramWrites, Routed;
    var cmds := AllToMouse(bytes);
    var r := Run(cmds, prefix, false, e);
    RunWrites(cmds, prefix, e);
    if r.count < |bytes| {
      assert cmds[..r.count + 1] == AllToMouse(bytes[..r.count + 1]);
      ToMouseWrites(bytes[..r.count + 1], prefix);
    } else {
      assert cmds[..r.count] == cmds;
      ToMouseWrites(bytes, prefix);
    }
  }

  // ---------------------------------------------------------------- the touchpad at the other end

  /** The touchpad: a byte behind a set-resolution byte is a digit to base four, a set-scaling byte starts anew,
      four digits make a command. */
  datatype Touchpad = Touchpad(argument: bool, digits: nat, value: int, commands: seq<int>)

  const LISTENING: Touchpad := Touchpad(false, 0, 0, [])

  function Num(b: byte): nat { b as nat }

  function Takes(t: Touchpad, b: byte): Touchpad {
    if t.argument then
      var value := 4 * t.value + Num(b);
      if t.digits == 3 then Touchpad(false, 0, 0, t.commands + [value])
      else Touchpad(false, t.digits + 1, value, t.commands)
    else if b == 0xE6 then Touchpad(false, 0, 0, t.commands)
    else if b == 0xE8 then t.(argument := true)
    else t
  }

  function TakesAll(t: Touchpad, bytes: seq<byte>): Touchpad {
    if bytes == [] then t else Takes(TakesAll(t, bytes[..|bytes| - 1]), bytes[|bytes| - 1])
  }

  /** The bytes that are routed to the touchpad. */
  function RoutedTo(writes: seq<Write>, prefix: byte): seq<byte> {
    if |writes| < 2 then []
    else
      var last := writes[|writes| - 1];
      RoutedTo(writes[..|writes| - 1], prefix)
      + (if writes[|writes| - 2] == Cmd(prefix) && last.Data? then [last.data] else [])
  }

  lemma {:induction false} TakesConcat(t: Touchpad, a: seq<byte>, b: seq<byte>)
    ensures TakesAll(t, a + b) == TakesAll(TakesAll(t, a), b)
  {
    if b == [] {
      assert a + b == a;
    } else {
      TakesConcat(t, a, b[..|b| - 1]);
      assert (a + b)[..|a + b| - 1] == a + b[..|b| - 1];
    }
  }

  lemma {:induction false} RoutedConcat(w: seq<Write>, bytes: seq<byte>, prefix: byte)
    ensures RoutedTo(w + Routed(bytes, prefix), prefix) == RoutedTo(w, prefix) + bytes
  {
    hide RoutedTo;
    if bytes == [] {
      assert w + Routed(bytes, prefix) == w;
    } else {
      var b, front := bytes[|bytes| - 1], bytes[..|bytes| - 1];
      RoutedConcat(w, front, prefix);
      var before := w + Routed(front, prefix);
      Assoc(w, Routed(front, prefix), [Cmd(prefix), Data(b)]);
      assert [Cmd(prefix), Data(b)] == [Cmd(prefix)] + [Data(b)];
      Assoc(before, [Cmd(prefix)], [Data(b)]);
      OneRouted(before, b, prefix);
      Assoc(RoutedTo(w, prefix), front, [b]);
    }
  }

  lemma OneRouted(before: seq<Write>, b: byte, prefix: byte)
    ensures RoutedTo(before + [Cmd(prefix)] + [Data(b)], prefix) == RoutedTo(before, prefix) + [b]
  {
    var one := before + [Cmd(prefix)];
    assert one[..|one| - 1] == before;
    assert RoutedTo(one, prefix) == RoutedTo(before, prefix);
    assert (one + [Data(b)])[..|one|] == one;
  }

  // ---------------------------------------------------------------- the slices make up the command

  lemma SlicesAddUp(cmd: byte)
    ensures 4 * (4 * (4 * Num(Slice(cmd, 6)) + Num(Slice(cmd, 4))) + Num(Slice(cmd, 2))) + Num(Slice(cmd, 0))
            == Num(cmd)
  {
  }

  lemma SlicesAreDigits(cmd: byte)
    ensures forall i: nat :: i <= 8 ==> Slice(cmd, i) < 4
  {
    forall i: nat | i <= 8 ensures Slice(cmd, i) < 4 { LowBits(cmd >> i); }
  }

  lemma LowBits(b: byte)
    ensures b & 3 < 4
  {
  }

  lemma DigitsOf(cmd: byte, i: nat)
    requires i in {6, 4, 2, 0}
    ensures var s := SlicedBytes(cmd); s[0] == SET_SCALING && s[7 - i] == SET_RESOLUTION && s[8 - i] == Slice(cmd, i)
  {
    hide Slice;
  }

  /** The touchpad after the first `n` bytes of a command. */
  function Heard(t: Touchpad, cmd: byte, n: nat): Touchpad
    requires n <= 9
  {
    TakesAll(t, SlicedBytes(cmd)[..n])
  }

  lemma HeardMore(t: Touchpad, cmd: byte, n: nat)
    requires n < 9
    ensures Heard(t, cmd, n + 1) == Takes(Heard(t, cmd, n), SlicedBytes(cmd)[n])
  {
    hide Takes, SlicedBytes;
    assert SlicedBytes(cmd)[..n + 1][..n] == SlicedBytes(cmd)[..n];
  }

  lemma Walk(t: Touchpad, cmd: byte)
    ensures Heard(t, cmd, 1) == Takes(t, SET_SCALING)
    ensures Heard(t, cmd, 2) == Takes(Heard(t, cmd, 1), SET_RESOLUTION)
    ensures Heard(t, cmd, 3) == Takes(Heard(t, cmd, 2), Slice(cmd, 6))
    ensures Heard(t, cmd, 4) == Takes(Heard(t, cmd, 3), SET_RESOLUTION)
    ensures Heard(t, cmd, 5) == Takes(Heard(t, cmd, 4), Slice(cmd, 4))
    ensures Heard(t, cmd, 6) == Takes(Heard(t, cmd, 5), SET_RESOLUTION)
    ensures Heard(t, cmd, 7) == Takes(Heard(t, cmd, 6), Slice(cmd, 2))
    ensures Heard(t, cmd, 8) == Takes(Heard(t, cmd, 7), SET_RESOLUTION)
    ensures Heard(t, cmd, 9) == Takes(Heard(t, cmd, 8), Slice(cmd, 0))
    ensures Heard(t, cmd, 9) == TakesAll(t, SlicedBytes(cmd))
  {
    hide Takes, Slice, Heard, TakesAll;
    HeardEnds(t, cmd);
    forall n: nat | n < 9 ensures Heard(t, cmd, n + 1) == Takes(Heard(t, cmd, n), SlicedBytes(cmd)[n]) {
      HeardMore(t, cmd, n);
    }
    assert Heard(t, cmd, 0 + 1) == Takes(Heard(t, cmd, 0), SlicedBytes(cmd)[0]);
    assert Heard(t, cmd, 1 + 1) == Takes(Heard(t, cmd, 1), SlicedBytes(cmd)[1]);
    assert Heard(t, cmd, 2 + 1) == Takes(Heard(t, cmd, 2), SlicedBytes(cmd)[2]);
    assert Heard(t, cmd, 3 + 1) == Takes(Heard(t, cmd, 3), SlicedBytes(cmd)[3]);
    assert Heard(t, cmd, 4 + 1) == Takes(Heard(t, cmd, 4), SlicedBytes(cmd)[4]);
    assert Heard(t, cmd, 5 + 1) == Takes(Heard(t, cmd, 5), SlicedBytes(cmd)[5]);
    assert Heard(t, cmd, 6 + 1) == Takes(Heard(t, cmd, 6), SlicedBytes(cmd)[6]);
    assert Heard(t, cmd, 7 + 1) == Takes(Heard(t, cmd, 7), SlicedBytes(cmd)[7]);
    assert Heard(t, cmd, 8 + 1) == Takes(Heard(t, cmd, 8), SlicedBytes(cmd)[8]);
  }

  lemma HeardEnds(t: Touchpad, cmd: byte)
    ensures Heard(t, cmd, 0) == t && Heard(t, cmd, 9) == TakesAll(t, SlicedBytes(cmd))
  {
    hide SlicedBytes, Takes;
    assert SlicedBytes(cmd)[..9] == SlicedBytes(cmd);
  }

  /** A touchpad that hears the first `n` bytes of a command: every other byte it waits for a digit. */
  lemma Hears(t: Touchpad, cmd: byte)
    requires !t.argument
    ensures var c := t.commands;
      var v1 := Num(Slice(cmd, 6));
      var v2 := 4 * v1 + Num(Slice(cmd, 4));
      var v3 := 4 * v2 + Num(Slice(cmd, 2));
      && Heard(t, cmd, 1) == Touchpad(false, 0, 0, c) && Heard(t, cmd, 2) == Touchpad(true, 0, 0, c)
      && Heard(t, cmd, 3) == Touchpad(false, 1, v1, c) && Heard(t, cmd, 4) == Touchpad(true, 1, v1, c)
      && Heard(t, cmd, 5) == Touchpad(false, 2, v2, c) && Heard(t, cmd, 6) == Touchpad(true, 2, v2, c)
      && Heard(t, cmd, 7) == Touchpad(false, 3, v3, c) && Heard(t, cmd, 8) == Touchpad(true, 3, v3, c)
  {
    hide Slice, TakesAll, SlicedBytes, Takes, Num, Heard;
    Begins(t, cmd);
    var v1 := Num(Slice(cmd, 6));
    var v2 := 4 * v1 + Num(Slice(cmd, 4));
    TwoMore(t, cmd, 1, Touchpad(false, 0, 0, t.commands));
    TwoMore(t, cmd, 3, Touchpad(false, 1, v1, t.commands));
    TwoMore(t, cmd, 5, Touchpad(false, 2, v2, t.commands));
    TwoMore(t, cmd, 7, Touchpad(false, 3, 4 * v2 + Num(Slice(cmd, 2)), t.commands));
  }

  lemma Understands(t: Touchpad, cmd: byte)
    requires !t.argument
    ensures TakesAll(t, SlicedBytes(cmd)) == Touchpad(false, 0, 0, t.commands + [Num(cmd)])
  {
    hide Slice, TakesAll, SlicedBytes, Takes, Num, Heard;
    Hears(t, cmd);
    TwoMore(t, cmd, 7, Heard(t, cmd, 7));
    SlicesAddUp(cmd);
    HeardEnds(t, cmd);
  }

  lemma Begins(t: Touchpad, cmd: byte)
    requires !t.argument
    ensures Heard(t, cmd, 1) == Touchpad(false, 0, 0, t.commands)
  {
    hide Heard, Slice;
    Walk(t, cmd);
  }

  /** A digit: the set-resolution byte and two bits behind it. */
  lemma TwoMore(t: Touchpad, cmd: byte, n: nat, now: Touchpad)
    requires n in {1, 3, 5, 7} && Heard(t, cmd, n) == now && !now.argument
    ensures Heard(t, cmd, n + 1) == now.(argument := true)
    ensures var value := 4 * now.value + Num(Slice(cmd, 7 - n));
      Heard(t, cmd, n + 2) == if now.digits == 3 then Touchpad(false, 0, 0, now.commands + [value])
                              else Touchpad(false, now.digits + 1, value, now.commands)
  {
    hide Heard, Slice, Num;
    HeardMore(t, cmd, n);
    HeardMore(t, cmd, n + 1);
    DigitsOf(cmd, 7 - n);
  }

  /** A touchpad that was left waiting for a digit takes the first byte of the next command for it. */
  lemma Misreads(t: Touchpad, cmd: byte)
    requires t.argument && t.digits <= 3 && t.value >= 0
    ensures TakesAll(t, SlicedBytes(cmd)).commands != t.commands + [Num(cmd)]
  {
    hide Slice, TakesAll, SlicedBytes, Heard;
    Walk(t, cmd);
    var after := TakesAll(t, SlicedBytes(cmd)).commands;
    if t.digits == 3 {
      assert |after| == |t.commands| + 2;
    } else {
      assert after[|t.commands|] >= 4 * Num(SET_SCALING) > Num(cmd);
    }
  }

  /** After a command that broke off at byte `j`, the next one is understood, and alone, exactly when `j` is not
      behind a set-resolution byte and the broken one was not complete. */
  lemma AfterFailure(broken: byte, j: nat, cmd: byte)
    requires j < 9
    ensures TakesAll(LISTENING, SlicedBytes(broken)[..j + 1] + SlicedBytes(cmd)).commands == [Num(cmd)]
            <==> j in {0, 2, 4, 6}
  {
    hide Slice, TakesAll, SlicedBytes;
    var t := Heard(LISTENING, broken, j + 1);
    TakesConcat(LISTENING, SlicedBytes(broken)[..j + 1], SlicedBytes(cmd));
    Hears(LISTENING, broken);
    SlicesAreDigits(broken);
    Understands(LISTENING, broken);
    HeardEnds(LISTENING, broken);
    if t.argument { Misreads(t, cmd); } else { Understands(t, cmd); }
  }

  // ---------------------------------------------------------------- a sequence of commands

  function SlicedPrograms(cmds: seq<byte>): (r: seq<seq<Command>>)
    ensures |r| == |cmds|
  {
    seq(|cmds|, i requires 0 <= i < |cmds| => AllToMouse(SlicedBytes(cmds[i])))
  }

  function AsInts(cmds: seq<byte>): seq<int> { seq(|cmds|, i requires 0 <= i < |cmds| => Num(cmds[i])) }

  ghost function TouchpadAfter(e: Env, prefix: byte): Touchpad {
    TakesAll(LISTENING, RoutedTo(PortWrites(e.log), prefix))
  }

  /** One sliced command that is acknowledged throughout, on a touchpad that is not waiting for a digit. */
  lemma SlicedRun(cmd: byte, prefix: byte, e: Env)
    requires !TouchpadAfter(e, prefix).argument
    ensures var r := Run(AllToMouse(SlicedBytes(cmd)), prefix, false, e);
      r.count == 9 ==>
        TouchpadAfter(r.env, prefix) == Touchpad(false, 0, 0, TouchpadAfter(e, prefix).commands + [Num(cmd)])
  {
    hide Run, PortWrites, Routed, RoutedTo, TakesAll;
    SendWrites(SlicedBytes(cmd), prefix, e);
    RoutedConcat(PortWrites(e.log), SlicedBytes(cmd), prefix);
    TakesConcat(LISTENING, RoutedTo(PortWrites(e.log), prefix), SlicedBytes(cmd));
    Understands(TouchpadAfter(e, prefix), cmd);
  }

  /** In mux and in plain mode, whatever else is written before, a touchpad that acknowledges every byte gets exactly
      the commands of a sequence. */
  lemma {:induction false} CommandsArrive(cmds: seq<byte>, prefix: byte, e: Env, n: nat)
    requires n <= |cmds| && !TouchpadAfter(e, prefix).argument
    requires forall i :: 0 <= i < n ==> BatchRun(SlicedPrograms(cmds), prefix, false, i, e).count == 9
    ensures var t := TouchpadAfter(BatchEnv(SlicedPrograms(cmds), prefix, false, n, e), prefix);
      !t.argument && t.commands == TouchpadAfter(e, prefix).commands + AsInts(cmds[..n])
  {
    hide Run, TouchpadAfter;
    if n > 0 {
      CommandsArrive(cmds, prefix, e, n - 1);
      SlicedRun(cmds[n - 1], prefix, BatchEnv(SlicedPrograms(cmds), prefix, false, n - 1, e));
      assert AsInts(cmds[..n]) == AsInts(cmds[..n - 1]) + [Num(cmds[n - 1])];
      Assoc(TouchpadAfter(e, prefix).commands, AsInts(cmds[..n - 1]), [Num(cmds[n - 1])]);
    }
  }

  // ---------------------------------------------------------------- the answer

  function InformationProgram(): seq<Command> {
    [ToMouse(GET_INFORMATION), Command(ReadDataPort, 0), Command(ReadDataPort, 0), Command(ReadDataPort, 0)]
  }

  function AfterRead(e: Env): Env { Reading(PlainRead(Mouse, e.port), e) }

  /** The plain reads behind an acknowledged question take the answer from the mouse stream, in order. */
  lemma InformationRun(prefix: byte, e: Env)
    ensures var r := Run(InformationProgram(), prefix, false, e);
      var asked := Writing(Data(0xE9), Writing(Cmd(prefix), e));
      var told := ExpectRead(Mouse, 0xFA, asked.port);
      var e1 := Reading(told, asked);
      && (r.count == if told.value == 0xFA then 4 else 0)
      && (r.count == 4 ==>
            && r.commands[1].inOrOut == PlainRead(Mouse, e1.port).value
            && r.commands[2].inOrOut == PlainRead(Mouse, AfterRead(e1).port).value
            && r.commands[3].inOrOut == PlainRead(Mouse, AfterRead(AfterRead(e1)).port).value
            && r.env == AfterRead(AfterRead(AfterRead(e1))))
      && (r.count == 0 ==> r.env == e1)
  {
    hide ExpectRead, PlainRead, StreamAt, Armed, EffectAt, EnvAt, FirstFailure;
    var cmds := InformationProgram();
    EmptyScan(cmds);
    StreamStep(cmds, 0);
    StreamStep(cmds, 1);
    StreamStep(cmds, 2);
    EnvStep(cmds, prefix, e);
    var asked := Writing(Data(GET_INFORMATION), Writing(Cmd(prefix), e));
    var e1 := Reading(ExpectRead(Mouse, ACKNOWLEDGE, asked.port), asked);
    assert EnvAt(cmds, prefix, 1, e) == e1;
    assert EnvAt(cmds, prefix, 2, e) == AfterRead(e1) && EffectAt(cmds, prefix, 1, e).ok;
    assert EnvAt(cmds, prefix, 3, e) == AfterRead(AfterRead(e1)) && EffectAt(cmds, prefix, 2, e).ok;
    assert EffectAt(cmds, prefix, 3, e).ok;
    FailsFrom(cmds, prefix, 0, if EffectAt(cmds, prefix, 0, e).ok then 4 else 0, e);
  }

  // ---------------------------------------------------------------- the client

  /** The digits of the command, highest first, each behind its set-resolution byte. */
  method FillSliced(request: PS2Request, cmd: byte)
    requires request.Valid()
    modifies request`commands, request`commandsCount
    ensures request.Valid() && request.commandsCount == 9 && request.Program() == AllToMouse(SlicedBytes(cmd))
  {
    hide SlicedBytes, Slice;
    var cmdIndex := 0;
    DigitsOf(cmd, 0);
    request.commands := request.commands[cmdIndex := ToMouse(SET_SCALING)];
    cmdIndex := cmdIndex + 1;
    var i := 6;
    while i >= 0
      invariant -2 <= i <= 6 && i % 2 == 0 && cmdIndex == 7 - i
      invariant |request.commands| == MAX_COMMANDS
      invariant forall k :: 0 <= k < cmdIndex ==> request.commands[k] == ToMouse(SlicedBytes(cmd)[k])
      modifies request`commands
    {
      var d := Slice(cmd, i);
      DigitsOf(cmd, i);
      request.commands := request.commands[cmdIndex := ToMouse(SET_RESOLUTION)];
      cmdIndex := cmdIndex + 1;
      request.commands := request.commands[cmdIndex := ToMouse(d)];
      cmdIndex := cmdIndex + 1;
      i := i - 2;
    }
    request.commandsCount := cmdIndex;
    assert request.Program() == AllToMouse(SlicedBytes(cmd));
  }

  /** Builds the request digit by digit and blocks on it. */
  method SendSlicedPS2Cmd(device: Controller, cmd: byte) returns (ok: bool)
    requires device.Valid() && device.QueueValid()
    modifies device`script, device`overrun, device`log, device`keyboardSignal, device`mouseSignal, device.keys,
             device.keys.elements, device`requestQueue, device.requestQueue
    ensures device.Valid() && device.requestQueue == []
    ensures var q, was := old(device.requestQueue), old(States(device.requestQueue));
      var between := BatchEnv(Programs(was), device.RoutePrefix(), device.hardwareOffline, |q|, old(device.EnvNow()));
      var r := Run(AllToMouse(SlicedBytes(cmd)), device.RoutePrefix(), device.hardwareOffline, between);
      && device.EnvNow() == r.env && ok == (r.count == 9)
      && States(q) == AllDisposed(was, device.RoutePrefix(), device.hardwareOffline, old(device.EnvNow()))
  {
    hide PS2Requests.Run, PS2Requests.BatchEnv, PS2Controller.AllDisposed, SlicedBytes, AllToMouse;
    var request: PS2Request := new PS2Request();
    FillSliced(request, cmd);
    device.SubmitRequestAndBlockGated(request);
    ok := request.commandsCount == 9;
  }

  /** Asks the mouse for its status; the answer is only handed on if the question was acknowledged. */
  method GetMouseInformation(device: Controller) returns (ok: bool, param: seq<byte>)
    requires device.Valid() && device.QueueValid()
    modifies device`script, device`overrun, device`log, device`keyboardSignal, device`mouseSignal, device.keys,
             device.keys.elements, device`requestQueue, device.requestQueue
    ensures device.Valid() && device.requestQueue == []
    ensures var q, was := old(device.requestQueue), old(States(device.requestQueue));
      var between := BatchEnv(Programs(was), device.RoutePrefix(), device.hardwareOffline, |q|, old(device.EnvNow()));
      var r := Run(InformationProgram(), device.RoutePrefix(), device.hardwareOffline, between);
      && device.EnvNow() == r.env && ok == (r.count == 4)
      && param == if ok then [r.commands[1].inOrOut, r.commands[2].inOrOut, r.commands[3].inOrOut] else []
  {
    hide PS2Requests.Run, PS2Requests.BatchEnv, PS2Controller.AllDisposed;
    var request: PS2Request := new PS2Request();
    request.commands := InformationProgram() + request.commands[4..];
    request.commandsCount := 4;
    assert request.Program() == InformationProgram();
    device.SubmitRequestAndBlockGated(request);
    ok, param := request.commandsCount == 4, [];
    if ok {
      param := [request.commands[1].inOrOut, request.commands[2].inOrOut, request.commands[3].inOrOut];
    }
  }
}
