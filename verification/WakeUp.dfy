/** Waking the controller up: the reset, the search for a multiplexing controller, and the two command bytes that
    are stored. What the interrupt handler queued while the hardware was offline is still on the keyboard queue,
    and the reads of the wake-up take it for answers. */
module PS2WakeUp {
  import opened PS2Port
  import opened PS2MouseOrder
  import opened PS2Progress
  import opened PS2Requests
  import opened PS2Streams
  import opened PS2Writes
  import opened PS2CommandByte

  const DISABLE: byte := 0xF5
  const WRITE_MOUSE_OUTPUT: byte := 0xD3
  const MAKE_RELEASE: byte := 0xF8
  const PREFIXES: seq<byte> := [0x90, 0x91, 0x92, 0x93]

  // ---------------------------------------------------------------- the steps

  /** What the port shows without a pause is thrown away. Nobody holds the controller lock meanwhile, so a key whose
      interrupt can be served is queued instead. */
  function Flushed(p: Port): (r: Port)
    ensures r.script == [] || r.script[0].NotReady?
    ensures p.queue <= r.queue
    decreases |p.script|
  {
    if p.script == [] || p.script[0].NotReady? then p
    else if Interrupts(p) then Flushed(HandleInterrupt(p))
    else Flushed(p.(script := p.script[1..]))
  }

  function Flush(e: Env): Env { Env(Flushed(e.port), e.log) }

  datatype Answer = Answer(value: byte, env: Env)

  function ReadAway(d: Device, e: Env): Answer {
    var r := PlainRead(d, e.port);
    Answer(r.value, Reading(r, e))
  }

  /** What the controller or the keyboard says its command byte is. */
  function Ask(e: Env): Answer { ReadAway(Keyboard, Writing(Cmd(GET_COMMAND_BYTE), e)) }

  function Store(b: byte, e: Env): Env { Writing(Data(b), Writing(Cmd(SET_COMMAND_BYTE), e)) }

  /** Mouse interrupt off, mouse clock on. */
  function Quieted(b: byte): byte { b & !(0x02 | 0x20) }

  /** Both clocks and both interrupts on. */
  function Enabled(b: byte): byte { (b & !(0x10 | 0x20)) | (0x01 | 0x02) }

  function QuietMouse(e: Env): Env { Store(Quieted(Ask(e).value), Ask(e).env) }

  /** Both devices back to defaults and disabled; what they answer is discarded. */
  function DisableDevices(e: Env): Env {
    var f := ReadAway(Keyboard, Writing(Data(DISABLE), Ask(e).env)).env;
    ReadAway(Mouse, Writing(Data(DISABLE), Writing(Cmd(TRANSMIT_TO_MOUSE), f))).env
  }

  function Reset(e: Env): Env { Flush(DisableDevices(QuietMouse(e))) }

  // ---------------------------------------------------------------- looking for a multiplexing controller

  /** Whether the controller multiplexes, the routing prefix, and how many probes were sent. */
  datatype Mux = Mux(on: bool, prefix: byte, probes: nat, env: Env)

  /** A byte sent through a mouse port, and what comes back. */
  function Probe(c: byte, b: byte, e: Env): Answer { ReadAway(Mouse, Writing(Data(b), Writing(Cmd(c), e))) }

  /** The ports from number `i` on, until one acknowledges. */
  function FindPort(i: nat, prefix: byte, e: Env): Mux
    requires i <= 4
    decreases 4 - i
  {
    if i == 4 then Mux(false, prefix, 3 + i, e)
    else
      var a := Probe(PREFIXES[i], MAKE_RELEASE, e);
      if a.value == ACKNOWLEDGE then Mux(true, PREFIXES[i], 3 + (i + 1), a.env)
      else FindPort(i + 1, prefix, a.env)
  }

  /** The activation sequence: two bytes must come back as they are, the third must not. */
  function SetMuxMode(enable: bool, prefix: byte, e: Env): Mux {
    var a := Probe(WRITE_MOUSE_OUTPUT, 0xF0, e);
    if a.value != 0xF0 then Mux(false, prefix, 1, a.env)
    else
      var second, third := if enable then 0x56 else 0xF6, if enable then 0xA4 else 0xA5;
      var b := Probe(WRITE_MOUSE_OUTPUT, second, a.env);
      if b.value != second then Mux(false, prefix, 2, b.env)
      else
        var c := Probe(WRITE_MOUSE_OUTPUT, third, b.env);
        if c.value == third then Mux(false, prefix, 3, c.env) else FindPort(0, prefix, c.env)
  }

  /** With a multiplexing controller the mouse clock is switched off for all its ports. */
  function DetectMuxMode(prefix: byte, e: Env): Mux {
    var m := SetMuxMode(true, prefix, e);
    m.(env := Flush(if m.on then Store(0x20, m.env) else m.env))
  }

  /** All that may be sent, each byte behind its command. */
  const PROBES: seq<(byte, byte)> :=
    [(0xD3, 0xF0), (0xD3, 0x56), (0xD3, 0xA4), (0x90, 0xF8), (0x91, 0xF8), (0x92, 0xF8), (0x93, 0xF8)]

  /** Behind the first `i` of them, each with the mouse read that follows it. */
  function AfterProbes(i: nat, e: Env): Env
    requires i <= 7
  {
    if i == 0 then e else Probe(PROBES[i - 1].0, PROBES[i - 1].1, AfterProbes(i - 1, e)).env
  }

  /** What that read brings back for the next. */
  function AnswerTo(i: nat, e: Env): byte
    requires i < 7
  {
    Probe(PROBES[i].0, PROBES[i].1, AfterProbes(i, e)).value
  }

  /** Of the ports, asked from probe 3 on, none before probe `k` acknowledges. */
  predicate NoneBefore(k: nat, e: Env)
    requires k <= 7
  {
    forall j :: 3 <= j < k ==> AnswerTo(j, e) != 0xFA
  }

  lemma {:induction false} FindPortExactly(i: nat, prefix: byte, e: Env)
    requires i <= 4 && NoneBefore(3 + i, e)
    ensures var m := FindPort(i, prefix, AfterProbes(3 + i, e));
      && (m.on <==> !NoneBefore(7, e))
      && (m.on ==> 4 <= m.probes <= 7 && NoneBefore(m.probes - 1, e) && AnswerTo(m.probes - 1, e) == 0xFA
                   && m.prefix as int == 0x90 + (m.probes - 4))
      && (!m.on ==> m.prefix == prefix && m.probes == 7)
      && m.env == AfterProbes(m.probes, e)
    decreases 4 - i
  {
    hide Probe;
    if i < 4 {
      assert PROBES[3 + i] == (PREFIXES[i], MAKE_RELEASE);
      assert AnswerTo(3 + i, e) == Probe(PREFIXES[i], MAKE_RELEASE, AfterProbes(3 + i, e)).value;
      if AnswerTo(3 + i, e) != 0xFA { FindPortExactly(i + 1, prefix, e); }
    }
  }

  /** On what the mouse reads bring back: a multiplexing controller is found exactly if the first two bytes come back
      as they are, the third does not, and one of the four ports acknowledges. The routing prefix is then that of the
      first such port. No more is sent than it takes to know. */
  lemma MuxFoundExactly(prefix: byte, e: Env)
    ensures var m := SetMuxMode(true, prefix, e);
      && (m.on <==> AnswerTo(0, e) == 0xF0 && AnswerTo(1, e) == 0x56 && AnswerTo(2, e) != 0xA4
                    && exists k :: 3 <= k < 7 && AnswerTo(k, e) == 0xFA)
      && (forall k :: 3 <= k < 7 && m.on && AnswerTo(k, e) == 0xFA && NoneBefore(k, e) ==>
            m.prefix as int == 0x90 + (k - 3) && m.probes == k + 1)
      && (!m.on ==>
            && m.prefix == prefix
            && m.probes == if AnswerTo(0, e) != 0xF0 then 1 else if AnswerTo(1, e) != 0x56 then 2
                           else if AnswerTo(2, e) == 0xA4 then 3 else 7)
      && 1 <= m.probes <= 7 && m.env == AfterProbes(m.probes, e)
  {
    hide Probe, FindPort;
    assert AfterProbes(1, e) == Probe(0xD3, 0xF0, e).env && AnswerTo(0, e) == Probe(0xD3, 0xF0, e).value;
    assert AfterProbes(2, e) == Probe(0xD3, 0x56, AfterProbes(1, e)).env;
    assert AnswerTo(1, e) == Probe(0xD3, 0x56, AfterProbes(1, e)).value;
    assert AfterProbes(3, e) == Probe(0xD3, 0xA4, AfterProbes(2, e)).env;
    assert AnswerTo(2, e) == Probe(0xD3, 0xA4, AfterProbes(2, e)).value;
    FindPortExactly(0, prefix, e);
  }

  // ---------------------------------------------------------------- the whole wake-up

  /** The byte read for each of the two command bytes, where the second question met the port, and the outcome. */
  datatype Woken = Woken(first: byte, asked: Env, second: byte, mux: Mux)

  function WakeUp(usesMux: bool, prefix: byte, e: Env): Woken {
    var f := Flush(e);
    var g := Reset(f);
    var m := if usesMux then DetectMuxMode(prefix, g) else Mux(false, prefix, 0, g);
    var a := Ask(m.env);
    Woken(Ask(f).value, m.env, a.value, m.(env := Store(Enabled(a.value), a.env)))
  }

  // ---------------------------------------------------------------- what is written

  function ResetWrites(commandByte: byte): seq<Write> {
    [Cmd(0x20), Cmd(0x60), Data(commandByte), Cmd(0x20), Data(0xF5), Cmd(0xD4), Data(0xF5)]
  }

  /** The first `n` probes. */
  function ProbeWrites(n: nat): seq<Write>
    requires n <= |PROBES|
  {
    if n == 0 then [] else ProbeWrites(n - 1) + [Cmd(PROBES[n - 1].0), Data(PROBES[n - 1].1)]
  }

  /** What the detection adds: the probes that were sent, and the command byte if the controller multiplexes. */
  function MuxWrites(m: Mux): seq<Write>
    requires m.probes <= |PROBES|
  {
    ProbeWrites(m.probes) + if m.on then [Cmd(0x60), Data(0x20)] else []
  }

  lemma AwayWrites(d: Device, e: Env)
    ensures PortWrites(ReadAway(d, e).env.log) == PortWrites(e.log)
  {
    hide PlainRead, PortWrites;
    PlainReadWritesNothing(d, e.port);
    ReadingWrites(PlainRead(d, e.port), e);
  }

  lemma TwoWrites(a: Write, b: Write, e: Env)
    ensures PortWrites(Writing(b, Writing(a, e)).log) == PortWrites(e.log) + [a, b]
  {
    hide PortWrites;
    WritingWrites(a, e);
    WritingWrites(b, Writing(a, e));
    Assoc(PortWrites(e.log), [a], [b]);
  }

  lemma AskWrites(e: Env)
    ensures PortWrites(Ask(e).env.log) == PortWrites(e.log) + [Cmd(GET_COMMAND_BYTE)]
  {
    hide PortWrites, ReadAway;
    WritingWrites(Cmd(GET_COMMAND_BYTE), e);
    AwayWrites(Keyboard, Writing(Cmd(GET_COMMAND_BYTE), e));
  }

  lemma ProbeAdds(c: byte, b: byte, e: Env)
    ensures PortWrites(Probe(c, b, e).env.log) == PortWrites(e.log) + [Cmd(c), Data(b)]
  {
    hide PortWrites, ReadAway;
    TwoWrites(Cmd(c), Data(b), e);
    AwayWrites(Mouse, Writing(Data(b), Writing(Cmd(c), e)));
  }

  lemma ResetAdds(e: Env)
    ensures PortWrites(Reset(e).log) == PortWrites(e.log) + ResetWrites(Quieted(Ask(e).value))
  {
    hide PortWrites, Ask, ReadAway, Flushed, Quieted;
    var b := Quieted(Ask(e).value);
    AskWrites(e);
    TwoWrites(Cmd(SET_COMMAND_BYTE), Data(b), Ask(e).env);
    var f := QuietMouse(e);
    AskWrites(f);
    WritingWrites(Data(DISABLE), Ask(f).env);
    AwayWrites(Keyboard, Writing(Data(DISABLE), Ask(f).env));
    var g := ReadAway(Keyboard, Writing(Data(DISABLE), Ask(f).env)).env;
    TwoWrites(Cmd(TRANSMIT_TO_MOUSE), Data(DISABLE), g);
    AwayWrites(Mouse, Writing(Data(DISABLE), Writing(Cmd(TRANSMIT_TO_MOUSE), g)));
    assert PortWrites(Reset(e).log)
        == PortWrites(e.log) + [Cmd(GET_COMMAND_BYTE)] + [Cmd(SET_COMMAND_BYTE), Data(b)] + [Cmd(GET_COMMAND_BYTE)]
           + [Data(DISABLE)] + [Cmd(TRANSMIT_TO_MOUSE), Data(DISABLE)];
  }

  /** The probes sent so far, behind what was written before. */
  predicate Probed(before: seq<Write>, n: nat, e: Env) {
    n <= |PROBES| && PortWrites(e.log) == before + ProbeWrites(n)
  }

  lemma ProbeNext(before: seq<Write>, n: nat, e: Env)
    requires n < |PROBES| && Probed(before, n, e)
    ensures Probed(before, n + 1, Probe(PROBES[n].0, PROBES[n].1, e).env)
  {
    hide PortWrites, Probe;
    ProbeAdds(PROBES[n].0, PROBES[n].1, e);
    Assoc(before, ProbeWrites(n), [Cmd(PROBES[n].0), Data(PROBES[n].1)]);
  }

  /** If the controller multiplexes, the prefix is that of the port probed last; if not, it is left alone. */
  predicate Routed(m: Mux, prefix: byte) {
    if m.on then 4 <= m.probes <= 7 && m.prefix == PREFIXES[m.probes - 4] else m.prefix == prefix
  }

  lemma {:induction false} FindPortProbes(i: nat, prefix: byte, before: seq<Write>, e: Env)
    requires i <= 4 && Probed(before, 3 + i, e)
    ensures var m := FindPort(i, prefix, e); Probed(before, m.probes, m.env) && Routed(m, prefix)
    decreases 4 - i
  {
    hide Probe, Probed;
    if i < 4 {
      assert PROBES[3 + i] == (PREFIXES[i], MAKE_RELEASE);
      ProbeNext(before, 3 + i, e);
      FindPortProbes(i + 1, prefix, before, Probe(PREFIXES[i], MAKE_RELEASE, e).env);
    }
  }

  lemma SetMuxModeProbes(prefix: byte, e: Env)
    ensures var m := SetMuxMode(true, prefix, e); Probed(PortWrites(e.log), m.probes, m.env) && Routed(m, prefix)
  {
    hide Probe, Probed, PortWrites, FindPort;
    var before := PortWrites(e.log);
    NoProbe(e);
    ProbeNext(before, 0, e);
    var a := Probe(WRITE_MOUSE_OUTPUT, 0xF0, e).env;
    ProbeNext(before, 1, a);
    var b := Probe(WRITE_MOUSE_OUTPUT, 0x56, a).env;
    ProbeNext(before, 2, b);
    FindPortProbes(0, prefix, before, Probe(WRITE_MOUSE_OUTPUT, 0xA4, b).env);
  }

  lemma NoProbe(e: Env)
    ensures Probed(PortWrites(e.log), 0, e)
  {
    assert PortWrites(e.log) + [] == PortWrites(e.log);
  }

  lemma DetectMuxModeAdds(prefix: byte, e: Env)
    ensures var m := DetectMuxMode(prefix, e);
      && Routed(m, prefix) && m.probes <= |PROBES| && PortWrites(m.env.log) == PortWrites(e.log) + MuxWrites(m)
  {
    hide Probe, PortWrites, SetMuxMode, ProbeWrites;
    var m := SetMuxMode(true, prefix, e);
    SetMuxModeProbes(prefix, e);
    TwoWrites(Cmd(SET_COMMAND_BYTE), Data(0x20), m.env);
    assert PortWrites(e.log) + (ProbeWrites(m.probes) + []) == PortWrites(e.log) + ProbeWrites(m.probes);
    Assoc(PortWrites(e.log), ProbeWrites(m.probes), [Cmd(SET_COMMAND_BYTE), Data(0x20)]);
  }

  /** A wake-up writes the reset, then the detection if the controller was multiplexing, then the command byte. */
  lemma WakeUpWrites(usesMux: bool, prefix: byte, e: Env)
    ensures var w := WakeUp(usesMux, prefix, e);
      && w.mux.probes <= |PROBES| && Routed(w.mux, prefix) && (!usesMux ==> !w.mux.on && w.mux.probes == 0)
      && PortWrites(w.mux.env.log)
         == PortWrites(e.log) + ResetWrites(Quieted(w.first)) + MuxWrites(w.mux)
            + [Cmd(0x20), Cmd(0x60), Data(Enabled(w.second))]
  {
    hide PortWrites, Ask, Reset, DetectMuxMode, Quieted, Enabled, ResetWrites;
    var w, f := WakeUp(usesMux, prefix, e), Flush(e);
    ResetAdds(f);
    var g := Reset(f);
    if usesMux { DetectMuxModeAdds(prefix, g); }
    AskWrites(w.asked);
    TwoWrites(Cmd(SET_COMMAND_BYTE), Data(Enabled(w.second)), Ask(w.asked).env);
    var before := PortWrites(e.log) + ResetWrites(Quieted(w.first));
    assert !usesMux ==> before + MuxWrites(w.mux) == before;
    Assoc(before + MuxWrites(w.mux), [Cmd(GET_COMMAND_BYTE)], [Cmd(SET_COMMAND_BYTE), Data(Enabled(w.second))]);
  }

  lemma EnabledBits(b: byte)
    ensures Enabled(b) & 0x33 == 0x03 && Enabled(b) & 0xCC == b & 0xCC
  {
  }

  /** The register of the controller ends with both interrupts and both clocks on, every other bit as in the byte
      read. */
  lemma WakeUpStores(usesMux: bool, prefix: byte, e: Env, reg: byte)
    ensures var w := WakeUp(usesMux, prefix, e);
      var now := Register(PortWrites(w.mux.env.log), reg, false);
      now == Enabled(w.second) && now & 0x33 == 0x03 && now & 0xCC == w.second & 0xCC
  {
    hide PortWrites, WakeUp, ResetWrites, MuxWrites, Quieted, Enabled, Register;
    var w := WakeUp(usesMux, prefix, e);
    WakeUpWrites(usesMux, prefix, e);
    var before := PortWrites(e.log) + ResetWrites(Quieted(w.first)) + MuxWrites(w.mux);
    var store := [Cmd(SET_COMMAND_BYTE), Data(Enabled(w.second))];
    assert [Cmd(GET_COMMAND_BYTE)] + store == [Cmd(GET_COMMAND_BYTE), Cmd(SET_COMMAND_BYTE), Data(Enabled(w.second))];
    Assoc(before, [Cmd(GET_COMMAND_BYTE)], store);
    StoredLast(before + [Cmd(GET_COMMAND_BYTE)], Enabled(w.second), reg, false);
    EnabledBits(w.second);
  }

  // ---------------------------------------------------------------- what was queued while asleep

  /** What a keyboard reader gets if the queue is empty: the next byte that the port itself shows. */
  function Shown(p: Port): byte { PlainRead(Keyboard, p.(queue := [])).value }

  /** A reader that gets a byte of its stream at once. */
  lemma PlainAtOnce(d: Device, p: Port)
    requires var f := Fetch(d, p, IDLE_BUDGET); f.Got? && f.arrival.src == d
    ensures var x := Fetch(d, p, IDLE_BUDGET).arrival;
      PlainRead(d, p).value == x.data && PlainRead(d, p).port == x.after
  {
    hide Fetch;
    var x := Fetch(d, p, IDLE_BUDGET).arrival;
    var rest := Arrivals(d, x.after, x.idle);
    assert [] + [x] + rest == [x] + rest;
    PlainReturns(d, Arrivals(d, p, IDLE_BUDGET), Exhausted(d, p, IDLE_BUDGET), [], x, rest);
  }

  /** A keyboard read takes the head of the queue if there is one. */
  lemma ReadsQueue(p: Port)
    requires p.queue != []
    ensures var r := PlainRead(Keyboard, p);
      && r.value == p.queue[0] && p.queue[1..] <= r.port.queue
      && (Interrupting(p.script) == 0 ==> Interrupting(r.port.script) == 0 && r.port.queue == p.queue[1..])
  {
    hide PlainRead, Absorb;
    var a := Absorb(p);
    AbsorbPasses(p);
    if Interrupting(p.script) == 0 { NoInterrupt(p); }
    PlainAtOnce(Keyboard, p);
    assert p.queue[1..] <= a.queue[1..];
  }

  lemma NoInterrupt(p: Port)
    requires Interrupting(p.script) == 0
    ensures Absorb(p) == p
  {
  }

  /** Of the bytes `q` that were queued `n` have been taken. If no key comes by interrupt, the queue holds just
      the rest. */
  predicate Left(p: Port, q: seq<byte>, n: nat, calm: bool) {
    && (n <= |q| ==> q[n..] <= p.queue)
    && (calm ==> Interrupting(p.script) == 0 && p.queue == if n <= |q| then q[n..] else [])
  }

  lemma KeyboardTakes(p: Port, q: seq<byte>, n: nat, calm: bool)
    requires Left(p, q, n, calm)
    ensures Left(PlainRead(Keyboard, p).port, q, n + 1, calm)
    ensures n < |q| ==> p.queue != [] && PlainRead(Keyboard, p).value == q[n]
  {
    hide PlainRead, Interrupting;
    if p.queue != [] {
      ReadsQueue(p);
      if n < |q| { assert q[n..][1..] == q[n + 1..]; }
    } else if calm {
      ReadsLater(Keyboard, 0, p);
    }
  }

  lemma MouseTakes(p: Port, q: seq<byte>, n: nat, calm: bool)
    requires Left(p, q, n, calm)
    ensures Left(PlainRead(Mouse, p).port, q, n, calm)
  {
    hide PlainRead, Interrupting, Delivered;
    MouseReadPasses(false, 0, p);
    var r := PlainRead(Mouse, p).port;
    assert p.queue <= r.queue;
    if calm { assert |r.queue| == |p.queue|; }
  }

  lemma {:induction false} FlushTakes(p: Port, q: seq<byte>, n: nat, calm: bool)
    requires Left(p, q, n, calm)
    ensures Left(Flushed(p), q, n, calm)
    decreases |p.script|
  {
    if Interrupts(p) {
      assert p.queue <= HandleInterrupt(p).queue;
      FlushTakes(HandleInterrupt(p), q, n, calm);
    } else if p.script != [] && p.script[0].Ready? {
      FlushTakes(p.(script := p.script[1..]), q, n, calm);
    }
  }

  lemma ResetTakes(e: Env, q: seq<byte>, calm: bool)
    requires Left(e.port, q, 0, calm)
    ensures Left(Reset(e).port, q, 3, calm)
  {
    hide PlainRead, Flushed, Left;
    KeyboardTakes(e.port, q, 0, calm);
    KeyboardTakes(QuietMouse(e).port, q, 1, calm);
    var f := Ask(QuietMouse(e)).env;
    KeyboardTakes(f.port, q, 2, calm);
    var g := ReadAway(Keyboard, Writing(Data(DISABLE), f)).env;
    MouseTakes(g.port, q, 3, calm);
    FlushTakes(DisableDevices(QuietMouse(e)).port, q, 3, calm);
  }

  lemma ProbeTakes(c: byte, b: byte, e: Env, q: seq<byte>, n: nat, calm: bool)
    requires Left(e.port, q, n, calm)
    ensures Left(Probe(c, b, e).env.port, q, n, calm)
  {
    hide PlainRead, Left;
    MouseTakes(e.port, q, n, calm);
  }

  lemma {:induction false} FindPortTakes(i: nat, prefix: byte, e: Env, q: seq<byte>, n: nat, calm: bool)
    requires i <= 4 && Left(e.port, q, n, calm)
    ensures Left(FindPort(i, prefix, e).env.port, q, n, calm)
    decreases 4 - i
  {
    hide Probe, Left;
    if i < 4 {
      ProbeTakes(PREFIXES[i], MAKE_RELEASE, e, q, n, calm);
      FindPortTakes(i + 1, prefix, Probe(PREFIXES[i], MAKE_RELEASE, e).env, q, n, calm);
    }
  }

  lemma DetectMuxModeTakes(prefix: byte, e: Env, q: seq<byte>, n: nat, calm: bool)
    requires Left(e.port, q, n, calm)
    ensures Left(DetectMuxMode(prefix, e).env.port, q, n, calm)
  {
    hide Probe, Left, FindPort, Flushed;
    ProbeTakes(WRITE_MOUSE_OUTPUT, 0xF0, e, q, n, calm);
    var a := Probe(WRITE_MOUSE_OUTPUT, 0xF0, e).env;
    ProbeTakes(WRITE_MOUSE_OUTPUT, 0x56, a, q, n, calm);
    var b := Probe(WRITE_MOUSE_OUTPUT, 0x56, a).env;
    ProbeTakes(WRITE_MOUSE_OUTPUT, 0xA4, b, q, n, calm);
    var c := Probe(WRITE_MOUSE_OUTPUT, 0xA4, b).env;
    FindPortTakes(0, prefix, c, q, n, calm);
    FlushTakes(SetMuxMode(true, prefix, e).env.port, q, n, calm);
  }

  /** The wake-up takes four bytes off the queue that its first flush leaves. */
  lemma WakeUpTakes(usesMux: bool, prefix: byte, e: Env, calm: bool)
    requires calm ==> Interrupting(Flush(e).port.script) == 0
    ensures var w, q := WakeUp(usesMux, prefix, e), Flush(e).port.queue;
      && Left(w.asked.port, q, 3, calm) && Left(w.mux.env.port, q, 4, calm)
      && (|q| > 0 ==> w.first == q[0])
      && (|q| > 3 ==> w.second == q[3])
  {
    hide PlainRead, Left, Reset, DetectMuxMode, Flushed;
    var w, f := WakeUp(usesMux, prefix, e), Flush(e);
    var q := f.port.queue;
    NothingTaken(f.port, calm);
    KeyboardTakes(f.port, q, 0, calm);
    ResetTakes(f, q, calm);
    if usesMux { DetectMuxModeTakes(prefix, Reset(f), q, 3, calm); }
    KeyboardTakes(w.asked.port, q, 3, calm);
  }

  lemma NothingTaken(p: Port, calm: bool)
    requires calm ==> Interrupting(p.script) == 0
    ensures Left(p, p.queue, 0, calm)
  {
  }

  /** Where the two stored bytes come from, in terms of the queue that the first flush leaves: what was queued while
      asleep, and behind it the keys whose interrupts were served since. The first is the head of that queue, and
      only if there is none what the port shows. The second comes off the queue exactly if something is on it at the
      second question; four queued bytes always are enough, the fourth is then the one, and if no later key comes
      by interrupt no fewer are. */
  lemma StaleAnswers(usesMux: bool, prefix: byte, e: Env)
    ensures var w, f := WakeUp(usesMux, prefix, e), Flush(e);
      var q, left := f.port.queue, w.asked.port.queue;
      && e.port.queue <= q
      && w.first == (if q != [] then q[0] else Shown(f.port))
      && w.second == (if left != [] then left[0] else Shown(w.asked.port))
      && (|q| >= 4 ==> left != [] && w.second == q[3])
      && (Interrupting(f.port.script) == 0 ==> (left != [] <==> |q| >= 4))
  {
    hide PlainRead, Reset, DetectMuxMode, Flushed, Interrupting;
    var w, f := WakeUp(usesMux, prefix, e), Flush(e);
    WakeUpTakes(usesMux, prefix, e, false);
    if Interrupting(f.port.script) == 0 { WakeUpTakes(usesMux, prefix, e, true); }
    if f.port.queue == [] { assert f.port.(queue := []) == f.port; }
    var p := w.asked.port;
    if p.queue != [] { ReadsQueue(p); } else { assert p.(queue := []) == p; }
  }

  // ---------------------------------------------------------------- what the register keeps

  /** The register after everything written so far, if it held `reg` at the start of the log. */
  function Now(e: Env, reg: byte): byte { Register(PortWrites(e.log), reg, false) }

  lemma {:induction false} RegisterThen(a: seq<Write>, b: seq<Write>, reg: byte, setting: bool)
    requires b == [] || b[0].Cmd?
    ensures Register(a + b, reg, setting) == Register(b, Register(a, reg, setting), false)
    decreases |a|
  {
    if a == [] {
      assert a + b == b;
    } else {
      assert (a + b)[1..] == a[1..] + b;
      RegisterThen(a[1..], b, if a[0].Data? && setting then a[0].data else reg,
                   a[0].Cmd? && a[0].data == SET_COMMAND_BYTE);
    }
  }

  lemma ResetSets(b: byte, reg: byte)
    ensures Register(ResetWrites(b), reg, false) == b
  {
    var front := [Cmd(GET_COMMAND_BYTE)] + [Cmd(SET_COMMAND_BYTE), Data(b)];
    var back := [Cmd(GET_COMMAND_BYTE), Data(DISABLE)] + [Cmd(TRANSMIT_TO_MOUSE), Data(DISABLE)];
    assert ResetWrites(b) == front + back;
    RegisterThen(front, back, reg, false);
    StoredLast([Cmd(GET_COMMAND_BYTE)], b, reg, false);
    RegisterThen([Cmd(GET_COMMAND_BYTE), Data(DISABLE)], [Cmd(TRANSMIT_TO_MOUSE), Data(DISABLE)], b, false);
    PairKeeps(GET_COMMAND_BYTE, DISABLE, b);
    PairKeeps(TRANSMIT_TO_MOUSE, DISABLE, b);
  }

  /** A byte that follows any other command leaves the register alone. */
  lemma PairKeeps(c: byte, b: byte, reg: byte)
    requires c != SET_COMMAND_BYTE
    ensures Register([Cmd(c), Data(b)], reg, false) == reg
  {
    assert [Cmd(c), Data(b)][1..] == [Data(b)] && [Data(b)][1..] == [];
    assert Register([Data(b)], reg, false) == reg;
  }

  lemma {:induction false} ProbesKeep(n: nat, reg: byte)
    requires n <= |PROBES|
    ensures Register(ProbeWrites(n), reg, false) == reg
  {
    if n > 0 {
      var c, b := PROBES[n - 1].0, PROBES[n - 1].1;
      ProbesKeep(n - 1, reg);
      RegisterThen(ProbeWrites(n - 1), [Cmd(c), Data(b)], reg, false);
      PairKeeps(c, b, reg);
    }
  }

  lemma MuxSets(m: Mux, reg: byte)
    requires m.probes <= |PROBES|
    ensures MuxWrites(m) == [] || MuxWrites(m)[0].Cmd?
    ensures Register(MuxWrites(m), reg, false) == if m.on then 0x20 else reg
  {
    ProbesKeep(m.probes, reg);
    if m.on {
      StoredLast(ProbeWrites(m.probes), 0x20, reg, false);
    } else {
      assert ProbeWrites(m.probes) + [] == ProbeWrites(m.probes);
    }
    ProbesStart(m.probes);
  }

  lemma {:induction false} ProbesStart(n: nat)
    requires n <= |PROBES|
    ensures ProbeWrites(n) == [] || ProbeWrites(n)[0].Cmd?
  {
    if n > 0 { ProbesStart(n - 1); }
  }

  /** The register at the second question: what the reset stored, or the command byte for multiplexing. */
  lemma AskedRegister(usesMux: bool, prefix: byte, e: Env, reg: byte)
    ensures var w := WakeUp(usesMux, prefix, e);
      Now(w.asked, reg) == if w.mux.on then 0x20 else Quieted(w.first)
  {
    hide PortWrites, Ask, Reset, DetectMuxMode, Quieted, ResetWrites, MuxWrites, Register;
    var w, f := WakeUp(usesMux, prefix, e), Flush(e);
    var b, before := Quieted(w.first), PortWrites(e.log);
    ResetAdds(f);
    ResetStarts(b);
    RegisterThen(before, ResetWrites(b), reg, false);
    ResetSets(b, Register(before, reg, false));
    if usesMux {
      var m := DetectMuxMode(prefix, Reset(f));
      DetectMuxModeAdds(prefix, Reset(f));
      MuxSets(m, b);
      RegisterThen(before + ResetWrites(b), MuxWrites(m), reg, false);
    }
  }

  lemma ResetStarts(b: byte)
    ensures ResetWrites(b)[0].Cmd?
  {
  }

  /** The store of the reset, and the store at the end: each leaves the bits it is not meant to change as they are in
      the register of the controller exactly if the byte it took for the register, off the queue or from the port,
      agrees with the register on them. */
  lemma KeepsTheRegisterExactly(usesMux: bool, prefix: byte, e: Env, reg: byte)
    ensures var w, f := WakeUp(usesMux, prefix, e), Flush(e);
      var q, left := f.port.queue, w.asked.port.queue;
      var first := if q != [] then q[0] else Shown(f.port);
      var second := if |q| >= 4 then q[3] else if left != [] then left[0] else Shown(w.asked.port);
      var before, asked, after := Now(e, reg), Now(w.asked, reg), Now(w.mux.env, reg);
      && (Now(QuietMouse(f), reg) == Quieted(before) <==> first & 0xDD == before & 0xDD)
      && asked == (if w.mux.on then 0x20 else Now(QuietMouse(f), reg))
      && (after == Enabled(asked) <==> second & 0xCC == asked & 0xCC)
      && (after & 0xCC == before & 0xCC <==> second & 0xCC == before & 0xCC)
  {
    hide WakeUp, Shown, Flushed, Quieted, Enabled, QuietMouse, Register, PortWrites;
    var w, f := WakeUp(usesMux, prefix, e), Flush(e);
    StaleAnswers(usesMux, prefix, e);
    QuietMouseStores(usesMux, prefix, e, reg);
    AskedRegister(usesMux, prefix, e, reg);
    WakeUpStores(usesMux, prefix, e, reg);
    KeptBits(w.first, Now(e, reg));
    KeptBits(w.second, Now(w.asked, reg));
  }

  lemma QuietMouseStores(usesMux: bool, prefix: byte, e: Env, reg: byte)
    ensures Now(QuietMouse(Flush(e)), reg) == Quieted(WakeUp(usesMux, prefix, e).first)
  {
    hide PortWrites, Ask, Reset, DetectMuxMode, Quieted, Register;
    var f := Flush(e);
    var a := Ask(f);
    TwoWrites(Cmd(SET_COMMAND_BYTE), Data(Quieted(a.value)), a.env);
    StoredLast(PortWrites(a.env.log), Quieted(a.value), reg, false);
  }

  lemma KeptBits(a: byte, b: byte)
    ensures Quieted(a) == Quieted(b) <==> a & 0xDD == b & 0xDD
    ensures Enabled(a) == Enabled(b) <==> a & 0xCC == b & 0xCC
  {
  }

  /** If the controller answers both questions with its register before any key, all is well: the register ends as
      it was, or as set for multiplexing, with both interrupts and both clocks on. */
  lemma AnsweredWakeUp(usesMux: bool, prefix: byte, e: Env, reg: byte)
    requires AnswersFirst(Flush(e).port, Now(e, reg))
    requires var w := WakeUp(usesMux, prefix, e); AnswersFirst(w.asked.port, Now(w.asked, reg))
    ensures var w := WakeUp(usesMux, prefix, e);
      Now(w.mux.env, reg) == Enabled(if w.mux.on then 0x20 else Now(e, reg))
  {
    hide Reset, DetectMuxMode, Quieted, Enabled, Register, PortWrites, PlainRead, AnswersFirst, Flushed;
    var w := WakeUp(usesMux, prefix, e);
    PlainAnswer(Flush(e).port, Now(e, reg));
    PlainAnswer(w.asked.port, Now(w.asked, reg));
    AskedRegister(usesMux, prefix, e, reg);
    WakeUpStores(usesMux, prefix, e, reg);
    EnabledQuieted(Now(e, reg));
  }

  lemma EnabledQuieted(b: byte)
    ensures Enabled(Quieted(b)) == Enabled(b)
  {
  }

  /** A key pressed and released twice while asleep, or with its interrupts served before the first question: whatever
      the controller answers, the scan code of the second release becomes the command byte. */
  lemma KeysStored(usesMux: bool, prefix: byte, e: Env, reg: byte)
    requires [0x1C, 0x9C, 0x1C, 0x9C] <= Flush(e).port.queue
    ensures var w := WakeUp(usesMux, prefix, e);
      Now(w.mux.env, reg) == 0x8F && Quieted(w.first) == 0x1C
  {
    hide WakeUp, PortWrites, Register, Shown, Flushed;
    StaleAnswers(usesMux, prefix, e);
    WakeUpStores(usesMux, prefix, e, reg);
  }

  /** One key whose interrupt is served in the pause before the first question, with nothing queued while asleep: its
      scan code is stored, though the port shows the register as the answer. */
  lemma KeyInPause(usesMux: bool, prefix: byte, log: seq<Event>)
    ensures var e := Env(Port([Ready(Keyboard, 0x1C, true), NotReady, Ready(Keyboard, 0x47, false)], [], []), log);
      && WakeUp(usesMux, prefix, e).first == 0x1C
      && Now(QuietMouse(Flush(e)), 0x47) == 0x1C && Quieted(0x47) == 0x45
  {
    hide WakeUp, Shown, QuietMouse, Register, PortWrites;
    var e := Env(Port([Ready(Keyboard, 0x1C, true), NotReady, Ready(Keyboard, 0x47, false)], [], []), log);
    var p := HandleInterrupt(e.port);
    assert p.queue == [0x1C] && p.script[0].NotReady?;
    assert Flushed(e.port) == p;
    StaleAnswers(usesMux, prefix, e);
    QuietMouseStores(usesMux, prefix, e, 0x47);
  }

  // ---------------------------------------------------------------- a conversation without keys

  lemma Asking(d: Device, e: Env, b: byte, rest: seq<Poll>)
    requires e.port.queue == [] && e.port.script == [Ready(d, b, false)] + rest
    ensures ReadAway(d, e) == Answer(b, Env(e.port.(script := rest), e.log + [Returned(d, b)]))
  {
    hide Arrivals, Exhausted;
    var p := e.port;
    var x := Arrival(d, b, p.(script := rest), IDLE_BUDGET);
    assert p.script[0] == Ready(d, b, false) && p.script[1..] == rest;
    assert Absorb(p) == p && Fetch(d, p, IDLE_BUDGET) == Got(x);
    var more := Arrivals(d, x.after, x.idle);
    Turn(d, p, IDLE_BUDGET);
    assert [] + [x] + more == [x] + more;
    PlainReturns(d, [x] + more, Exhausted(d, p, IDLE_BUDGET), [], x, more);
    assert Preempted([], d) + [Returned(d, b)] == [Returned(d, b)];
  }

  /** The first half of the reset of a controller that answers at once. */
  lemma QuietConverses(e: Env, a: byte, rest: seq<Poll>)
    requires e.port.queue == [] && e.port.script == [Ready(Keyboard, a, false)] + rest
    ensures QuietMouse(e) == Env(e.port.(script := rest), e.log +
      [Wrote(Cmd(0x20)), Returned(Keyboard, a), Wrote(Cmd(0x60)), Wrote(Data(a & 0xDD))])
  {
    hide ReadAway, Quieted;
    QuietedBits(a);
    Asking(Keyboard, Writing(Cmd(0x20), e), a, rest);
  }

  lemma DisableConverses(e: Env, b: byte, k: byte, m: byte)
    requires e.port.queue == []
    requires e.port.script
             == [Ready(Keyboard, b, false)] + ([Ready(Keyboard, k, false)] + ([Ready(Mouse, m, false)] + []))
    ensures DisableDevices(e) == Env(e.port.(script := []), e.log +
      [Wrote(Cmd(0x20)), Returned(Keyboard, b), Wrote(Data(0xF5)), Returned(Keyboard, k),
       Wrote(Cmd(0xD4)), Wrote(Data(0xF5)), Returned(Mouse, m)])
  {
    hide ReadAway;
    var e2 := Writing(Cmd(0x20), e);
    Asking(Keyboard, e2, b, [Ready(Keyboard, k, false)] + ([Ready(Mouse, m, false)] + []));
    var e3 := Writing(Data(0xF5), ReadAway(Keyboard, e2).env);
    Asking(Keyboard, e3, k, [Ready(Mouse, m, false)] + []);
    var e4 := Writing(Data(0xF5), Writing(Cmd(0xD4), ReadAway(Keyboard, e3).env));
    Asking(Mouse, e4, m, []);
  }

  /** The reset of a controller that answers each question at once: two bytes for the command byte, and one
      acknowledgement from each device, taken in this order between the writes. Nothing is left over. */
  lemma ResetConverses(e: Env, a: byte, b: byte, k: byte, m: byte)
    requires e.port.queue == []
    requires e.port.script == [Ready(Keyboard, a, false), Ready(Keyboard, b, false), Ready(Keyboard, k, false),
                               Ready(Mouse, m, false)]
    ensures DisableDevices(QuietMouse(e)) == Env(e.port.(script := []), e.log +
      [Wrote(Cmd(0x20)), Returned(Keyboard, a), Wrote(Cmd(0x60)), Wrote(Data(a & 0xDD))] +
      [Wrote(Cmd(0x20)), Returned(Keyboard, b), Wrote(Data(0xF5)), Returned(Keyboard, k),
       Wrote(Cmd(0xD4)), Wrote(Data(0xF5)), Returned(Mouse, m)])
  {
    hide QuietMouse, DisableDevices;
    var rest := [Ready(Keyboard, b, false)] + ([Ready(Keyboard, k, false)] + ([Ready(Mouse, m, false)] + []));
    assert e.port.script == [Ready(Keyboard, a, false)] + rest;
    QuietConverses(e, a, rest);
    DisableConverses(QuietMouse(e), b, k, m);
  }

  lemma QuietedBits(b: byte)
    ensures Quieted(b) == b & 0xDD
  {
  }

  /** Serving interrupts hands over what is queued, first of all. */
  lemma {:induction false} ServiceDelivers(e: Env)
    ensures Delivered(e.log, Keyboard) + e.port.queue <= Delivered(Service(e).log, Keyboard)
    decreases e.port.Size()
  {
    hide Absorb, Delivered, Fates, Spent;
    var p, before := Absorb(e.port), Delivered(e.log, Keyboard);
    AbsorbPasses(e.port);
    if p.queue != [] {
      var log := e.log + [Sent(Keyboard, p.queue[0])];
      DeliveredConcat(e.log, [Sent(Keyboard, p.queue[0])], Keyboard);
      OneFate(Sent(Keyboard, p.queue[0]), Keyboard);
      ServiceDelivers(Env(p.(queue := p.queue[1..]), log));
      Assoc(before, [p.queue[0]], p.queue[1..]);
      assert p.queue == [p.queue[0]] + p.queue[1..];
      assert before + e.port.queue <= before + p.queue;
    } else if p.script != [] && p.script[0].Ready? && p.script[0].src.Mouse? {
      var log := e.log + [Sent(Mouse, p.script[0].data)];
      DeliveredConcat(e.log, [Sent(Mouse, p.script[0].data)], Keyboard);
      OneFate(Sent(Mouse, p.script[0].data), Keyboard);
      ServiceDelivers(Env(p.(script := p.script[1..]), log));
      assert before + [] + [] == before;
    }
  }

  /** No queued key is tossed: behind the four bytes that the wake-up takes for answers, what was queued while asleep
      or in the pause is handed to the driver at the next interrupt. */
  lemma SleepersDelivered(usesMux: bool, prefix: byte, e: Env)
    requires |Flush(e).port.queue| >= 4
    ensures var f, q := WakeUp(usesMux, prefix, e).mux.env, Flush(e).port.queue;
      && e.port.queue <= q
      && Delivered(f.log, Keyboard) + q[4..] <= Delivered(Service(f).log, Keyboard)
  {
    hide WakeUp, Delivered, Service, Flushed;
    var f, q := WakeUp(usesMux, prefix, e).mux.env, Flush(e).port.queue;
    WakeUpTakes(usesMux, prefix, e, false);
    ServiceDelivers(f);
    var before := Delivered(f.log, Keyboard);
    assert before + q[4..] <= before + f.port.queue;
  }
}
