/** A request that waits for acknowledgements in the middle of typing: what the keyboard driver gets to see. */
module PS2AckTransparency {
  import opened PS2Port
  import opened PS2Progress
  import opened PS2Requests
  import opened PS2Runs
  import opened PS2Sequences
  import opened PS2Streams
  import opened PS2Writes

  const SET_LEDS: byte := 0xED

  /** The request of `setLEDs`. */
  function LedProgram(leds: byte): seq<Command> {
    [Command(WriteDataPort, SET_LEDS), Command(ReadDataPortAndCompare, ACKNOWLEDGE),
     Command(WriteDataPort, leds), Command(ReadDataPortAndCompare, ACKNOWLEDGE)]
  }

  // ---------------------------------------------------------------- how far a keyboard reader gets on its budget

  /** Polls of the script that show nothing before its n-th keyboard byte. */
  function IdleTo(script: seq<Poll>, n: nat): nat {
    if n == 0 || script == [] then 0
    else if script[0].NotReady? then 1 + IdleTo(script[1..], n)
    else if script[0].src.Keyboard? then IdleTo(script[1..], n - 1)
    else IdleTo(script[1..], n)
  }

  /** Idle polls that a keyboard reader of `n` bytes has to sit through; bytes on the queue cost none. */
  function Patience(p: Port, n: nat): nat { IdleTo(p.script, if n <= |p.queue| then 0 else n - |p.queue|) }

  lemma {:induction false} WaitAhead(script: seq<Poll>, n: nat, idle: nat)
    requires 0 < n <= |Bytes(script, Keyboard)| && IdleTo(script, n) < idle
    ensures var (s, left) := Wait(script, idle);
      && left > 0 && Bytes(s, Keyboard) == Bytes(script, Keyboard)
      && forall m: nat :: m > 0 ==> IdleTo(script, m) == IdleTo(s, m) + (idle - left)
    decreases |script|
  {
    if script[0].NotReady? {
      assert Bytes(script, Keyboard) == [] + Bytes(script[1..], Keyboard) == Bytes(script[1..], Keyboard);
      WaitAhead(script[1..], n, idle - 1);
    }
  }

  lemma {:induction false} AbsorbAhead(p: Port, z: seq<byte>)
    requires z <= Stream(p, Keyboard) && |z| <= QUEUE_SIZE && |p.queue| <= QUEUE_SIZE
    ensures z <= Stream(Absorb(p), Keyboard)
    ensures forall n: nat :: n <= QUEUE_SIZE || Absorb(p).overrun == p.overrun ==>
              Patience(Absorb(p), n) == Patience(p, n)
    decreases |p.script|
  {
    if Interrupts(p) {
      var q, b, rest := HandleInterrupt(p), p.script[0].data, Bytes(p.script[1..], Keyboard);
      assert Stream(p, Keyboard) == p.queue + ([b] + rest);
      if |p.queue| < QUEUE_SIZE {
        Assoc(p.queue, [b], rest);
      } else {
        assert z == Stream(p, Keyboard)[..|z|] == p.queue[..|z|] == Stream(q, Keyboard)[..|z|];
      }
      AbsorbLater(q);
      AbsorbAhead(q, z);
    }
  }

  /** A keyboard reader that expects `z` next, and can afford the first byte, gets it or a mouse byte. */
  lemma FetchAhead(p: Port, z: seq<byte>, idle: nat)
    requires 0 < |z| <= QUEUE_SIZE && z <= Stream(p, Keyboard) && |p.queue| <= QUEUE_SIZE && Patience(p, 1) < idle
    ensures var f := Fetch(Keyboard, p, idle);
      && f.Got? && |f.arrival.after.queue| <= QUEUE_SIZE
      && var (x, spent) := (f.arrival, idle - f.arrival.idle);
         if x.src.Keyboard? then
           && x.data == z[0] && z[1..] <= Stream(x.after, Keyboard)
           && forall n: nat :: n < QUEUE_SIZE || x.after.overrun == p.overrun ==>
                Patience(p, n + 1) == Patience(x.after, n) + spent
         else
           && z <= Stream(x.after, Keyboard)
           && forall n: nat :: 0 < n && (n <= QUEUE_SIZE || x.after.overrun == p.overrun) ==>
                Patience(p, n) == Patience(x.after, n) + spent
  {
    hide Absorb, Wait;
    var a := Absorb(p);
    AbsorbAhead(p, z);
    if a.queue != [] {
      assert a.queue == [a.queue[0]] + a.queue[1..];
      Assoc([a.queue[0]], a.queue[1..], Bytes(a.script, Keyboard));
      assert z[1..] <= Stream(a, Keyboard)[1..];
    } else {
      assert Stream(a, Keyboard) == Bytes(a.script, Keyboard);
      WaitAhead(a.script, 1, idle);
      var (s, left) := Wait(a.script, idle);
      var after := Fetch(Keyboard, p, idle).arrival.after;
      assert Stream(after, Keyboard) == Bytes(s[1..], Keyboard);
      assert Bytes(s, Keyboard) == (if s[0].src.Keyboard? then [s[0].data] else []) + Bytes(s[1..], Keyboard);
      if s[0].src.Keyboard? {
        assert z[1..] <= Bytes(s, Keyboard)[1..];
      }
    }
  }

  lemma {:induction false} IdleToGrows(script: seq<Poll>, m: nat, n: nat)
    requires m <= n
    ensures IdleTo(script, m) <= IdleTo(script, n)
    decreases |script|
  {
    if m > 0 && script != [] {
      IdleToGrows(script[1..], if script[0].Ready? && script[0].src.Keyboard? then m - 1 else m,
                  if script[0].Ready? && script[0].src.Keyboard? then n - 1 else n);
    }
  }

  /** If the keyboard stream starts with `z` and a reader can afford its first `k` bytes, these are the first it sees,
      and behind them the rest of `z` waits, no later than before. */
  lemma {:induction false} SeesAhead(p: Port, z: seq<byte>, k: nat, idle: nat)
    requires 0 < k <= |z| <= QUEUE_SIZE && z <= Stream(p, Keyboard) && |p.queue| <= QUEUE_SIZE && Patience(p, k) < idle
    ensures var a := Arrivals(Keyboard, p, idle);
      && k <= |Own(a, Keyboard)| && Own(a, Keyboard)[..k] == z[..k]
      && Through(a, Keyboard, k) > 0
      && var q := a[Through(a, Keyboard, k) - 1].after;
         && |q.queue| <= QUEUE_SIZE && z[k..] <= Stream(q, Keyboard)
         && Patience(q, |z| - k) == Patience(p, |z|) - Patience(p, k)
    decreases p.Size()
  {
    hide Fetch, Patience, Stream, Arrivals, Own, Through;
    PatienceGrows(p, 1, k);
    FetchAhead(p, z, idle);
    Turn(Keyboard, p, idle);
    var x := Fetch(Keyboard, p, idle).arrival;
    var rest := Arrivals(Keyboard, x.after, x.idle);
    Unfold(x, rest, k);
    if x.src.Mouse? {
      SeesAhead(x.after, z, k, x.idle);
    } else {
      assert Patience(p, k - 1 + 1) == Patience(x.after, k - 1) + (idle - x.idle);
      assert Patience(p, |z| - 1 + 1) == Patience(x.after, |z| - 1) + (idle - x.idle);
      if k > 1 {
        SeesAhead(x.after, z[1..], k - 1, x.idle);
        assert z[..k] == [z[0]] + z[1..][..k - 1] && z[k..] == z[1..][k - 1..];
      } else {
        NoPatience(x.after);
      }
    }
  }

  /** Behind the first `k` bytes, those that follow come no later at `q` than they would at `p`. */
  ghost predicate Delayed(p: Port, k: nat, q: Port) {
    forall m: nat :: Patience(q, m) == Patience(p, k + m) - Patience(p, k)
  }

  lemma DelayedTwice(p: Port, k: nat, q: Port, l: nat, r: Port)
    requires Delayed(p, k, q) && Delayed(q, l, r)
    ensures Delayed(p, k + l, r)
  {
    hide Patience;
    forall m: nat ensures Patience(r, m) == Patience(p, k + l + m) - Patience(p, k + l) {
      assert Patience(q, l + m) == Patience(p, k + (l + m)) - Patience(p, k);
    }
  }

  lemma FirstAt(own: seq<byte>, before: seq<byte>, b: byte)
    requires b !in before && before + [b] <= own
    ensures IndexOf(own, b) == |before| && own[..|before|] == before
  {
    assert own[|before|] == (before + [b])[|before|] == b;
    assert forall i :: 0 <= i < |before| ==> own[i] == (before + [b])[i] == before[i];
  }

  /** If nothing was refused meanwhile, the rest of the stream, however long, waits no later than before. */
  lemma {:induction false} WaitsAhead(p: Port, z: seq<byte>, k: nat, idle: nat)
    requires 0 < k <= |z| <= QUEUE_SIZE && z <= Stream(p, Keyboard) && |p.queue| <= QUEUE_SIZE && Patience(p, k) < idle
    requires var a := Arrivals(Keyboard, p, idle);
      Through(a, Keyboard, k) > 0 && a[Through(a, Keyboard, k) - 1].after.overrun == p.overrun
    ensures var a := Arrivals(Keyboard, p, idle); Delayed(p, k, a[Through(a, Keyboard, k) - 1].after)
    decreases p.Size()
  {
    hide Fetch, Patience, Stream, Arrivals, Own, Through, Later;
    PatienceGrows(p, 1, k);
    FetchAhead(p, z, idle);
    Turn(Keyboard, p, idle);
    var x := Fetch(Keyboard, p, idle).arrival;
    var rest := Arrivals(Keyboard, x.after, x.idle);
    var a := Arrivals(Keyboard, p, idle);
    var q := a[Through(a, Keyboard, k) - 1].after;
    Unfold(x, rest, k);
    SpareTurn(p, idle, k);
    if x.src.Mouse? {
      assert Patience(p, k) == Patience(x.after, k) + (idle - x.idle);
      SeesAhead(x.after, z, k, x.idle);
      WaitsAhead(x.after, z, k, x.idle);
      forall m: nat ensures Patience(q, m) == Patience(p, k + m) - Patience(p, k) {
        assert Patience(p, k + m) == Patience(x.after, k + m) + (idle - x.idle);
      }
    } else {
      NoPatience(x.after);
      assert Patience(p, 0 + 1) == Patience(x.after, 0) + (idle - x.idle);
      forall m: nat ensures Patience(x.after, m) == Patience(p, 1 + m) - Patience(p, 1) {
        assert Patience(p, m + 1) == Patience(x.after, m) + (idle - x.idle);
      }
      if k > 1 {
        assert Patience(p, k - 1 + 1) == Patience(x.after, k - 1) + (idle - x.idle);
        SeesAhead(x.after, z[1..], k - 1, x.idle);
        WaitsAhead(x.after, z[1..], k - 1, x.idle);
        DelayedTwice(p, 1, x.after, k - 1, q);
      }
    }
  }

  /** Nothing was refused in the first turn, nor in the others. */
  lemma SpareTurn(p: Port, idle: nat, k: nat)
    requires var a := Arrivals(Keyboard, p, idle);
      0 < Through(a, Keyboard, k) && a[Through(a, Keyboard, k) - 1].after.overrun == p.overrun
    ensures var f, a := Fetch(Keyboard, p, idle), Arrivals(Keyboard, p, idle);
      f.Got? && f.arrival.after.overrun == p.overrun
  {
    hide Fetch, Later, Through;
    var f, a := Fetch(Keyboard, p, idle), Arrivals(Keyboard, p, idle);
    var t := Through(a, Keyboard, k);
    var x := f.arrival;
    var rest := Arrivals(Keyboard, x.after, x.idle);
    assert a == [x] + rest;
    FetchLater(Keyboard, p, idle);
    if t > 1 {
      ArrivalsLater(Keyboard, x.after, x.idle, t - 1);
      SameOverrun(p, x.after, a[t - 1].after);
    }
  }

  lemma Unfold(x: Arrival, rest: seq<Arrival>, k: nat)
    requires k > 0
    ensures var a, more := [x] + rest, Own(rest, Keyboard);
      if x.src.Mouse? then
        && Own(a, Keyboard) == more
        && Through(a, Keyboard, k) == 1 + Through(rest, Keyboard, k)
      else
        && Own(a, Keyboard) == [x.data] + more
        && (|more| >= k - 1 ==> Own(a, Keyboard)[..k] == [x.data] + more[..k - 1])
        && Through(a, Keyboard, k) == 1 + Through(rest, Keyboard, k - 1)
        && (k == 1 ==> Through(a, Keyboard, k) == 1)
  {
    assert ([x] + rest)[1..] == rest;
    assert [] + Own(rest, Keyboard) == Own(rest, Keyboard);
  }

  lemma PatienceGrows(p: Port, m: nat, n: nat)
    requires m <= n
    ensures Patience(p, m) <= Patience(p, n)
  {
    IdleToGrows(p.script, if m <= |p.queue| then 0 else m - |p.queue|, if n <= |p.queue| then 0 else n - |p.queue|);
  }

  lemma NoPatience(p: Port)
    ensures Patience(p, 0) == 0
  {
  }

  // ---------------------------------------------------------------- the LED request

  function Awaiting(e: Env): Read { ExpectRead(Keyboard, ACKNOWLEDGE, e.port) }

  function AfterReading(e: Env): Env { Reading(Awaiting(e), e) }

  /** The request writes, waits for the keyboard, writes and waits again. */
  lemma LedRun(leds: byte, prefix: byte, e: Env)
    ensures var sent1 := Writing(Data(SET_LEDS), e);
      var sent2 := Writing(Data(leds), AfterReading(sent1));
      var r := Run(LedProgram(leds), prefix, false, e);
      if Awaiting(sent1).value != ACKNOWLEDGE then r.count == 1 && r.env == AfterReading(sent1)
      else if Awaiting(sent2).value != ACKNOWLEDGE then r.count == 3 && r.env == AfterReading(sent2)
      else r.count == 4 && r.env == AfterReading(sent2)
  {
    hide ExpectRead, PlainRead, StreamAt, Armed, EffectAt, EnvAt, FirstFailure;
    var cmds := LedProgram(leds);
    EmptyScan(cmds);
    StreamStep(cmds, 0);
    StreamStep(cmds, 1);
    StreamStep(cmds, 2);
    EnvStep(cmds, prefix, e);
    assert EnvAt(cmds, prefix, 1, e) == Writing(Data(SET_LEDS), e) && EffectAt(cmds, prefix, 0, e).ok;
    assert EnvAt(cmds, prefix, 2, e) == AfterReading(Writing(Data(SET_LEDS), e));
    assert EnvAt(cmds, prefix, 3, e) == Writing(Data(leds), AfterReading(Writing(Data(SET_LEDS), e)));
    assert EffectAt(cmds, prefix, 2, e).ok;
    var f := if !EffectAt(cmds, prefix, 1, e).ok then 1 else if !EffectAt(cmds, prefix, 3, e).ok then 3 else 4;
    FailsFrom(cmds, prefix, 0, f, e);
  }

  /** The request reads the keyboard only, so it never upsets the order of the keys. */
  lemma LedsAreTame(leds: byte)
    ensures TameProgram(LedProgram(leds), Keyboard)
  {
    hide StreamAt, Armed;
    var cmds := LedProgram(leds);
    EmptyScan(cmds);
    StreamStep(cmds, 0);
    StreamStep(cmds, 1);
    StreamStep(cmds, 2);
  }

  // ---------------------------------------------------------------- the acknowledgement in the middle of typing

  /** An acknowledgement behind at most three bytes of typing is found; the typing goes to the driver, and these
      bytes and no others are gone from the stream. */
  lemma AckFound(p: Port, typed: seq<byte>, later: seq<byte>)
    requires |typed| <= 3 && ACKNOWLEDGE !in typed && |typed| + 1 + |later| <= QUEUE_SIZE && |p.queue| <= QUEUE_SIZE
    requires typed + [ACKNOWLEDGE] + later <= Stream(p, Keyboard) && Patience(p, |typed| + 1) < IDLE_BUDGET
    ensures var r := ExpectRead(Keyboard, ACKNOWLEDGE, p);
      && r.value == ACKNOWLEDGE && Delivered(r.events, Keyboard) == typed
      && later <= Stream(r.port, Keyboard) && |r.port.queue| <= QUEUE_SIZE
      && Patience(r.port, |later|) == Patience(p, |typed| + 1 + |later|) - Patience(p, |typed| + 1)
      && Consumes(p, typed + [ACKNOWLEDGE], r.port, Keyboard, true)
      && (r.port.overrun == p.overrun ==> Delayed(p, |typed| + 1, r.port))
  {
    hide Arrivals, Exhausted, Own, Through, Preempted, Patience, Stream, Delivered, Fates, SendAll, Consumes;
    var z, k := typed + [ACKNOWLEDGE] + later, |typed| + 1;
    SeesAhead(p, z, k, IDLE_BUDGET);
    var a := Arrivals(Keyboard, p, IDLE_BUDGET);
    var own, t := Own(a, Keyboard), Through(a, Keyboard, k);
    assert z[..k] == typed + [ACKNOWLEDGE] && z[k..] == later;
    FirstAt(own, typed, ACKNOWLEDGE);
    ThroughOwn(a, Keyboard, k);
    ArrivalsConsume(Keyboard, p, IDLE_BUDGET, t, Keyboard);
    ReadFates(a[..t], Keyboard, SendAll(Keyboard, typed), [Returned(Keyboard, ACKNOWLEDGE)], Keyboard);
    AllSent(Keyboard, typed, Keyboard);
    OneFate(Returned(Keyboard, ACKNOWLEDGE), Keyboard);
    assert [] + typed + [] == typed;
    if a[t - 1].after.overrun == p.overrun { WaitsAhead(p, z, k, IDLE_BUDGET); }
  }

  /** Behind four or more it is not: the request is abandoned, the second and third byte are gone. */
  lemma AckTooLate(p: Port, typed: seq<byte>)
    requires |typed| == 4 && ACKNOWLEDGE !in typed && |p.queue| <= QUEUE_SIZE
    requires typed <= Stream(p, Keyboard) && Patience(p, 4) < IDLE_BUDGET
    ensures var r := ExpectRead(Keyboard, ACKNOWLEDGE, p);
      && r.value == typed[0] && Delivered(r.events, Keyboard) == [typed[3]]
      && Lost(Keyboard, typed[1]) in r.events && Lost(Keyboard, typed[2]) in r.events
  {
    hide Arrivals, Exhausted, Own, Through, Preempted, Patience, Stream, Delivered, Fates, LoseAll;
    SeesAhead(p, typed, 4, IDLE_BUDGET);
    var a, r := Arrivals(Keyboard, p, IDLE_BUDGET), ExpectRead(Keyboard, ACKNOWLEDGE, p);
    var own := Own(a, Keyboard);
    assert forall i :: 0 <= i < 4 ==> own[i] == own[..4][i] == typed[i];
    assert IndexOf(own, ACKNOWLEDGE) >= 4 && own[1..3] == typed[1..3];
    var before, last := Preempted(a[..Through(a, Keyboard, 4)], Keyboard),
      LoseAll(Keyboard, typed[1..3]) + [Returned(Keyboard, typed[0])];
    Assoc(before + [Sent(Keyboard, typed[3])], LoseAll(Keyboard, typed[1..3]), [Returned(Keyboard, typed[0])]);
    ReadFates(a[..Through(a, Keyboard, 4)], Keyboard, [Sent(Keyboard, typed[3])], last, Keyboard);
    LostThenReturned(Keyboard, typed[1..3], typed[0], Keyboard);
    OneFate(Sent(Keyboard, typed[3]), Keyboard);
    assert [] + [typed[3]] + [] == [typed[3]];
    LosesBoth(typed);
    assert last[0] in r.events && last[1] in r.events;
  }

  lemma LosesBoth(typed: seq<byte>)
    requires |typed| == 4
    ensures LoseAll(Keyboard, typed[1..3]) == [Lost(Keyboard, typed[1]), Lost(Keyboard, typed[2])]
  {
  }

  lemma DeliveredBy(r: Read, e: Env, d: Device)
    ensures Delivered(Reading(r, e).log, d) == Delivered(e.log, d) + Delivered(r.events, d)
  {
    DeliveredConcat(e.log, r.events, d);
  }

  lemma WritingDelivers(w: Write, e: Env, d: Device)
    ensures Delivered(Writing(w, e).log, d) == Delivered(e.log, d)
  {
    DeliveredConcat(e.log, [Wrote(w)], d);
    OneFate(Wrote(w), d);
  }

  /** Typing goes on while the LEDs are set. If each acknowledgement is behind at most three typed bytes, queued
      or fresh, whatever the mouse sends meanwhile and however much is typed behind them, then the request
      succeeds and the driver is handed exactly the typed bytes, in order. What was typed after the second
      acknowledgement is still to come, all of it exactly if the full queue refused no byte. */
  lemma TypingThroughLeds(leds: byte, prefix: byte, e: Env, k1: seq<byte>, k2: seq<byte>, k3: seq<byte>)
    requires |k1| <= 3 && |k2| <= 3 && ACKNOWLEDGE !in k1 && ACKNOWLEDGE !in k2 && |e.port.queue| <= QUEUE_SIZE
    requires Stream(e.port, Keyboard) == k1 + [ACKNOWLEDGE] + (k2 + [ACKNOWLEDGE]) + k3
    requires Patience(e.port, |k1| + 1) < IDLE_BUDGET
    requires Patience(e.port, |k1| + 1 + (|k2| + 1)) - Patience(e.port, |k1| + 1) < IDLE_BUDGET
    ensures var r := Run(LedProgram(leds), prefix, false, e);
      && r.count == 4
      && Delivered(r.env.log, Keyboard) == Delivered(e.log, Keyboard) + k1 + k2
      && PortWrites(r.env.log) == PortWrites(e.log) + [Data(0xED), Data(leds)]
      && Later(e.port, r.env.port)
      && (r.env.port.overrun == e.port.overrun <==> Stream(r.env.port, Keyboard) == k3)
      && (Roomy(e.port) ==> r.env.port.overrun == e.port.overrun)
      && (r.env.port.overrun == e.port.overrun ==> Delayed(e.port, |k1| + 1 + (|k2| + 1), r.env.port))
  {
    hide ExpectRead, PortWrites, Delivered, Stream, Patience, Run, Consumes, Later, Roomy, Delayed;
    var sent1 := Writing(Data(SET_LEDS), e);
    var z2 := k2 + [ACKNOWLEDGE];
    assert k1 + [ACKNOWLEDGE] + z2 <= Stream(e.port, Keyboard);
    AckFound(sent1.port, k1, z2);
    var read1 := AfterReading(sent1);
    var sent2 := Writing(Data(leds), read1);
    assert z2 + [] == z2;
    AckFound(sent2.port, k2, []);
    LedRun(leds, prefix, e);
    WritingDelivers(Data(SET_LEDS), e, Keyboard);
    DeliveredBy(Awaiting(sent1), sent1, Keyboard);
    WritingDelivers(Data(leds), read1, Keyboard);
    DeliveredBy(Awaiting(sent2), sent2, Keyboard);
    LedWrites(leds, prefix, e);
    BothTaken(e.port, k1 + [ACKNOWLEDGE], read1.port, z2, AfterReading(sent2).port, k3);
    if AfterReading(sent2).port.overrun == e.port.overrun {
      DelayedTwice(e.port, |k1| + 1, read1.port, |k2| + 1, AfterReading(sent2).port);
    }
  }

  lemma BothTaken(p: Port, a: seq<byte>, q: Port, b: seq<byte>, r: Port, rest: seq<byte>)
    requires Consumes(p, a, q, Keyboard, true) && Consumes(q, b, r, Keyboard, true)
    requires q == ExpectRead(Keyboard, ACKNOWLEDGE, p).port && r == ExpectRead(Keyboard, ACKNOWLEDGE, q).port
    requires Stream(p, Keyboard) == a + b + rest
    ensures Later(p, r) && (r.overrun == p.overrun <==> Stream(r, Keyboard) == rest)
    ensures r.overrun == p.overrun ==> q.overrun == p.overrun
    ensures Roomy(p) ==> r.overrun == p.overrun
  {
    hide ExpectRead, PlainRead, Stream, Consumes, Later;
    ReadsLater(Keyboard, ACKNOWLEDGE, p);
    ReadsLater(Keyboard, ACKNOWLEDGE, q);
    LaterTwice(p, q, r);
    RoomyKeeps(p, r);
    ConsumesTwice(p, a, q, b, r, Keyboard, true);
    TakenExactly(p, a + b, r);
    SameFront(a + b, Stream(r, Keyboard), rest);
    if r.overrun == p.overrun { SameOverrun(p, q, r); }
  }

  lemma RoomyKeeps(p: Port, q: Port)
    requires Later(p, q)
    ensures Roomy(p) ==> q.overrun == p.overrun
  {
  }

  lemma SameFront<T>(x: seq<T>, a: seq<T>, b: seq<T>)
    ensures x + a == x + b <==> a == b
  {
    if x + a == x + b { assert a == (x + a)[|x|..] == (x + b)[|x|..] == b; }
  }

  /** Any number of lights requests and interrupts, whatever is acknowledged: no key overtakes another. */
  lemma LedsKeepOrder(ops: seq<Op>, p: Port)
    requires forall i :: 0 <= i < |ops| && ops[i].Request? ==> exists leds :: ops[i].program == LedProgram(leds)
    ensures IsSub(Delivered(Play(ops, Env(p, [])).log, Keyboard), Stream(p, Keyboard))
  {
    hide Play, IsSub, Delivered, Stream, TameProgram, OrderlyRun;
    forall i | 0 <= i < |ops| && ops[i].Request? ensures TameProgram(ops[i].program, Keyboard) {
      var leds :| ops[i].program == LedProgram(leds);
      LedsAreTame(leds);
    }
    TameIsOrderly(ops, Env(p, []), Keyboard);
    DeliveredInOrder(ops, p, Keyboard);
  }

  lemma LedWrites(leds: byte, prefix: byte, e: Env)
    ensures var r := Run(LedProgram(leds), prefix, false, e);
      PortWrites(r.env.log) == PortWrites(e.log)
        + (if r.count < 2 then [Data(SET_LEDS)] else [Data(SET_LEDS), Data(leds)])
  {
    hide Run, PortWrites, ExpectRead;
    var cmds := LedProgram(leds);
    var r := Run(cmds, prefix, false, e);
    RunWrites(cmds, prefix, e);
    LedRun(leds, prefix, e);
    assert cmds[..4] == cmds;
    assert cmds[..2] == [cmds[0], cmds[1]];
    LedProgramWrites(leds, prefix);
  }

  lemma LedProgramWrites(leds: byte, prefix: byte)
    ensures ProgramWrites(LedProgram(leds)[..2], prefix) == [Data(SET_LEDS)]
    ensures ProgramWrites(LedProgram(leds), prefix) == [Data(SET_LEDS), Data(leds)]
  {
    var c := LedProgram(leds);
    assert c[..4] == c && c[..4][..3] == c[..3] && c[..3][..2] == c[..2] && c[..2][..1] == c[..1] && c[..1][..0] == [];
    assert ProgramWrites(c[..1], prefix) == [Data(SET_LEDS)];
    assert ProgramWrites(c[..2], prefix) == [Data(SET_LEDS)];
    assert ProgramWrites(c[..3], prefix) == [Data(SET_LEDS), Data(leds)];
  }
}
