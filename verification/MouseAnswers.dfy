/** What a reader of the mouse gets, in terms of the script: keys in between cost it nothing but their turn. With it,
    when the commands sent to a touchpad are acknowledged. */
module PS2MouseAnswers {
  import opened PS2Port
  import opened PS2Requests
  import opened PS2Streams
  import opened PS2SlicedCommand

  /** Polls of the script that show nothing before its n-th mouse byte. */
  function IdleTo(script: seq<Poll>, n: nat): nat {
    if n == 0 || script == [] then 0
    else if script[0].NotReady? then 1 + IdleTo(script[1..], n)
    else if script[0].src.Mouse? then IdleTo(script[1..], n - 1)
    else IdleTo(script[1..], n)
  }

  /** The bytes of the mouse that nobody has taken yet. */
  function Mice(p: Port): seq<byte> { Bytes(p.script, Mouse) }

  /** Behind the first `k` bytes, those that follow come no later at `q` than they would at `p`. */
  ghost predicate Delayed(p: Port, k: nat, q: Port) {
    forall m: nat :: IdleTo(q.script, m) == IdleTo(p.script, k + m) - IdleTo(p.script, k)
  }

  // ---------------------------------------------------------------- one turn

  lemma {:induction false} AbsorbSpares(p: Port)
    ensures Mice(Absorb(p)) == Mice(p) && forall m: nat :: IdleTo(Absorb(p).script, m) == IdleTo(p.script, m)
    decreases |p.script|
  {
    if Interrupts(p) {
      AbsorbSpares(HandleInterrupt(p));
      assert [] + Bytes(p.script[1..], Mouse) == Bytes(p.script[1..], Mouse);
    }
  }

  lemma {:induction false} WaitSpares(script: seq<Poll>, idle: nat)
    ensures var (s, left) := Wait(script, idle);
      && Bytes(s, Mouse) == Bytes(script, Mouse)
      && (left > 0 ==> forall m: nat :: m > 0 ==> IdleTo(script, m) == IdleTo(s, m) + (idle - left))
      && (Bytes(script, Mouse) != [] && IdleTo(script, 1) < idle ==> left > 0)
    decreases |script|
  {
    if idle > 0 && script != [] && script[0].NotReady? {
      assert [] + Bytes(script[1..], Mouse) == Bytes(script[1..], Mouse);
      WaitSpares(script[1..], idle - 1);
    }
  }

  /** A turn brings a key, or the next mouse byte with the budget that it leaves. */
  lemma FetchMouse(p: Port, idle: nat)
    ensures var f := Fetch(Mouse, p, idle);
      && (Mice(p) != [] && IdleTo(p.script, 1) < idle ==> f.Got?)
      && (f.Got? ==>
            var (x, spent) := (f.arrival, idle - f.arrival.idle);
            if x.src.Mouse? then
              && Mice(p) == [x.data] + Mice(x.after) && IdleTo(p.script, 1) < idle
              && forall m: nat :: IdleTo(p.script, m + 1) == IdleTo(x.after.script, m) + spent
            else
              && Mice(p) == Mice(x.after)
              && forall m: nat :: m > 0 ==> IdleTo(p.script, m) == IdleTo(x.after.script, m) + spent)
  {
    hide Absorb, Wait;
    var a := Absorb(p);
    AbsorbSpares(p);
    WaitSpares(a.script, idle);
    var (s, left) := Wait(a.script, idle);
    if left > 0 {
      BytesStep(s, Mouse);
      assert IdleTo(a.script, 1) == IdleTo(s, 1) + (idle - left);
    }
  }

  lemma Unfold(x: Arrival, rest: seq<Arrival>, k: nat)
    requires k > 0
    ensures var a := [x] + rest;
      && Own(a, Mouse) == (if x.src.Mouse? then [x.data] else []) + Own(rest, Mouse)
      && Through(a, Mouse, k) == 1 + Through(rest, Mouse, if x.src.Mouse? then k - 1 else k)
  {
    assert ([x] + rest)[1..] == rest;
  }

  lemma DelayedTwice(p: Port, k: nat, q: Port, l: nat, r: Port)
    requires Delayed(p, k, q) && Delayed(q, l, r)
    ensures Delayed(p, k + l, r)
  {
    hide IdleTo;
    forall m: nat ensures IdleTo(r.script, m) == IdleTo(p.script, k + l + m) - IdleTo(p.script, k + l) {
      assert IdleTo(q.script, l + m) == IdleTo(p.script, k + (l + m)) - IdleTo(p.script, k);
    }
  }

  lemma {:induction false} IdleToGrows(script: seq<Poll>, m: nat, n: nat)
    requires m <= n
    ensures IdleTo(script, m) <= IdleTo(script, n)
    decreases |script|
  {
    if m > 0 && script != [] {
      IdleToGrows(script[1..], if script[0].Ready? && script[0].src.Mouse? then m - 1 else m,
                  if script[0].Ready? && script[0].src.Mouse? then n - 1 else n);
    }
  }

  lemma NoIdling(script: seq<Poll>)
    ensures IdleTo(script, 0) == 0
  {
  }

  // ---------------------------------------------------------------- all turns

  /** A reader that can afford the first `k` mouse bytes sees them first, and leaves the others as they were. */
  lemma {:induction false} SeesMouse(p: Port, k: nat, idle: nat)
    requires 0 < k <= |Mice(p)| && IdleTo(p.script, k) < idle
    ensures var a := Arrivals(Mouse, p, idle);
      && k <= |Own(a, Mouse)| && Own(a, Mouse)[..k] == Mice(p)[..k] && Through(a, Mouse, k) > 0
      && var q := a[Through(a, Mouse, k) - 1].after;
         Mice(q) == Mice(p)[k..] && Delayed(p, k, q)
    decreases p.Size()
  {
    hide Fetch, IdleTo, Mice, Arrivals, Own, Through;
    IdleToGrows(p.script, 1, k);
    FetchMouse(p, idle);
    Turn(Mouse, p, idle);
    var x := Fetch(Mouse, p, idle).arrival;
    var rest := Arrivals(Mouse, x.after, x.idle);
    Unfold(x, rest, k);
    if x.src.Keyboard? {
      assert IdleTo(p.script, k) == IdleTo(x.after.script, k) + (idle - x.idle);
      SeesMouse(x.after, k, x.idle);
      assert [] + Own(rest, Mouse) == Own(rest, Mouse);
      var q := rest[Through(rest, Mouse, k) - 1].after;
      forall m: nat ensures IdleTo(q.script, m) == IdleTo(p.script, k + m) - IdleTo(p.script, k) {
        assert IdleTo(p.script, k + m) == IdleTo(x.after.script, k + m) + (idle - x.idle);
      }
    } else {
      FirstTaken(p, x.after, idle - x.idle);
      if k > 1 {
        assert IdleTo(p.script, k - 1 + 1) == IdleTo(x.after.script, k - 1) + (idle - x.idle);
        SeesMouse(x.after, k - 1, x.idle);
        DelayedTwice(p, 1, x.after, k - 1, rest[Through(rest, Mouse, k - 1) - 1].after);
        assert Mice(p)[..k] == [x.data] + Mice(x.after)[..k - 1] && Mice(p)[k..] == Mice(x.after)[k - 1..];
        assert Own([x] + rest, Mouse)[..k] == [x.data] + Own(rest, Mouse)[..k - 1];
      } else {
        ThroughNothing(rest);
        assert Mice(p)[1..] == Mice(x.after) && Own([x] + rest, Mouse)[..1] == [x.data] == Mice(p)[..1];
      }
    }
  }

  lemma ThroughNothing(a: seq<Arrival>)
    ensures Through(a, Mouse, 0) == 0
  {
  }

  lemma FirstTaken(p: Port, q: Port, spent: nat)
    requires forall m: nat :: IdleTo(p.script, m + 1) == IdleTo(q.script, m) + spent
    ensures Delayed(p, 1, q)
  {
    hide IdleTo;
    NoIdling(q.script);
    assert IdleTo(p.script, 0 + 1) == IdleTo(q.script, 0) + spent;
    forall m: nat ensures IdleTo(q.script, m) == IdleTo(p.script, 1 + m) - IdleTo(p.script, 1) {
      assert IdleTo(p.script, m + 1) == IdleTo(q.script, m) + spent;
    }
  }

  /** One that cannot afford the first sees none. */
  lemma {:induction false} SeesNone(p: Port, idle: nat)
    requires Mice(p) == [] || IdleTo(p.script, 1) >= idle
    ensures Own(Arrivals(Mouse, p, idle), Mouse) == []
    decreases p.Size()
  {
    hide Fetch, IdleTo, Mice;
    FetchMouse(p, idle);
    Turn(Mouse, p, idle);
    var f := Fetch(Mouse, p, idle);
    if f.Got? {
      var x := f.arrival;
      if Mice(p) != [] { assert IdleTo(p.script, 1) == IdleTo(x.after.script, 1) + (idle - x.idle); }
      SeesNone(x.after, x.idle);
      Unfold(x, Arrivals(Mouse, x.after, x.idle), 1);
    }
  }

  // ---------------------------------------------------------------- the two reads

  /** A plain read of the mouse returns its next byte exactly if fewer than 10000 polls show nothing before it, whatever
      the keyboard sends meanwhile; if not, it makes up a zero. */
  lemma PlainMouseRead(p: Port)
    ensures var r := PlainRead(Mouse, p);
      if Mice(p) != [] && IdleTo(p.script, 1) < 10000 then
        && r.value == Mice(p)[0] && Returned(Mouse, r.value) in r.events
        && Mice(r.port) == Mice(p)[1..] && Delayed(p, 1, r.port)
      else
        r.value == 0 && Faked(Mouse) in r.events
  {
    hide Arrivals, Exhausted, Own, Through, Preempted, Mice, IdleTo, Delayed;
    var a := Arrivals(Mouse, p, IDLE_BUDGET);
    if Mice(p) != [] && IdleTo(p.script, 1) < 10000 {
      SeesMouse(p, 1, IDLE_BUDGET);
      assert Own(a, Mouse)[0] == Own(a, Mouse)[..1][0] == Mice(p)[..1][0];
    } else {
      SeesNone(p, IDLE_BUDGET);
    }
  }

  /** The bytes it looks at are the first of the mouse stream. */
  lemma MouseAckRead(p: Port, before: seq<byte>, rest: seq<byte>) returns (a: seq<Arrival>)
    requires |before| <= 3 && 0xFA !in before && Mice(p) == before + [0xFA] + rest
    requires IdleTo(p.script, |before| + 1) < 10000
    ensures var r := ExpectRead(Mouse, 0xFA, p);
      && r.value == 0xFA
      && r.events == Preempted(a, Mouse) + SendAll(Mouse, before) + [Returned(Mouse, 0xFA)]
      && Mice(r.port) == rest && Delayed(p, |before| + 1, r.port)
  {
    hide Arrivals, Exhausted, Own, Through, Preempted, IdleTo, Mice, SendAll, Delayed;
    var k := |before| + 1;
    SeesMouse(p, k, IDLE_BUDGET);
    var all := Arrivals(Mouse, p, IDLE_BUDGET);
    assert Mice(p)[..k] == before + [0xFA] && Mice(p)[k..] == rest;
    FirstAt(Own(all, Mouse), before);
    a := all[..Through(all, Mouse, k)];
  }

  /** An acknowledgement behind at most three mouse bytes, within the budget, is found; those bytes go to the mouse
      driver, in order, and nothing else of the stream is taken. */
  lemma MouseAckFound(p: Port, before: seq<byte>, rest: seq<byte>)
    requires |before| <= 3 && 0xFA !in before && Mice(p) == before + [0xFA] + rest
    requires IdleTo(p.script, |before| + 1) < 10000
    ensures var r := ExpectRead(Mouse, 0xFA, p);
      && r.value == 0xFA && Delivered(r.events, Mouse) == before
      && Mice(r.port) == rest && Delayed(p, |before| + 1, r.port)
  {
    hide ExpectRead, Preempted, IdleTo, Mice, Delivered, Fates, SendAll, Delayed;
    var a := MouseAckRead(p, before, rest);
    ReadFates(a, Mouse, SendAll(Mouse, before), [Returned(Mouse, 0xFA)], Mouse);
    AllSent(Mouse, before, Mouse);
    OneFate(Returned(Mouse, 0xFA), Mouse);
    assert [] + before + [] == before;
  }

  lemma FirstAt(own: seq<byte>, before: seq<byte>)
    requires 0xFA !in before && before + [0xFA] <= own
    ensures IndexOf(own, 0xFA) == |before| && own[..|before|] == before
  {
    assert own[|before|] == (before + [0xFA])[|before|] == 0xFA;
    assert forall i :: 0 <= i < |before| ==> own[i] == (before + [0xFA])[i] == before[i];
  }

  /** A command of a request that reads the mouse, reached by the run, comes back with the next mouse byte if that is in
      time, and with zero if not. */
  lemma MouseCommandAnswers(cmds: seq<Command>, prefix: byte, e: Env, i: nat)
    requires i < Run(cmds, prefix, false, e).count
    requires cmds[i].op.ReadMouseDataPort? || (cmds[i].op.ReadDataPort? && StreamAt(cmds, i).Mouse?)
    ensures var p := EnvAt(cmds, prefix, i, e).port;
      Run(cmds, prefix, false, e).commands[i].inOrOut
      == if Mice(p) != [] && IdleTo(p.script, 1) < 10000 then Mice(p)[0] else 0
  {
    hide PlainRead, ExpectRead, StreamAt, EnvAt, FirstFailure, Mice, IdleTo;
    PlainMouseRead(EnvAt(cmds, prefix, i, e).port);
    assert Run(cmds, prefix, false, e).commands[i] == EffectAt(cmds, prefix, i, e).command;
  }

  // ---------------------------------------------------------------- a touchpad that answers

  /** What the touchpad sends: packets on their way, then the acknowledgement, for each byte. */
  function Acks(packets: seq<seq<byte>>): seq<byte> {
    if packets == [] then [] else Acks(packets[..|packets| - 1]) + (packets[|packets| - 1] + [0xFA])
  }

  function Flat(packets: seq<seq<byte>>): seq<byte> {
    if packets == [] then [] else Flat(packets[..|packets| - 1]) + packets[|packets| - 1]
  }

  /** Each acknowledgement is behind at most three bytes and comes within one budget. */
  ghost predicate InTime(packets: seq<seq<byte>>, p: Port) {
    forall i :: 0 <= i < |packets| ==>
      && |packets[i]| <= 3 && 0xFA !in packets[i]
      && IdleTo(p.script, |Acks(packets[..i])| + (|packets[i]| + 1)) - IdleTo(p.script, |Acks(packets[..i])|) < 10000
  }

  /** After `n` acknowledged bytes. */
  ghost predicate Answered(packets: seq<seq<byte>>, n: nat, e: Env, f: Env, rest: seq<byte>)
    requires n <= |packets|
  {
    && Acks(packets[..n]) + Mice(f.port) == Acks(packets) + rest
    && Delivered(f.log, Mouse) == Delivered(e.log, Mouse) + Flat(packets[..n])
    && Delayed(e.port, |Acks(packets[..n])|, f.port)
  }

  lemma AcksNext(packets: seq<seq<byte>>, n: nat)
    requires n < |packets|
    ensures Acks(packets[..n + 1]) == Acks(packets[..n]) + (packets[n] + [0xFA])
    ensures Flat(packets[..n + 1]) == Flat(packets[..n]) + packets[n]
  {
    assert packets[..n + 1][..n] == packets[..n];
  }

  lemma {:induction false} AcksSplit(packets: seq<seq<byte>>, n: nat)
    requires n <= |packets|
    ensures Acks(packets[..n]) <= Acks(packets)
  {
    if n == |packets| {
      assert packets[..n] == packets;
    } else {
      AcksSplit(packets[..|packets| - 1], n);
      assert packets[..|packets| - 1][..n] == packets[..n];
    }
  }

  /** One byte sent and acknowledged. */
  lemma OneAnswered(b: byte, d: Device, prefix: byte, f: Env, before: seq<byte>, more: seq<byte>)
    requires |before| <= 3 && 0xFA !in before && Mice(f.port) == before + [0xFA] + more
    requires IdleTo(f.port.script, |before| + 1) < 10000
    ensures var g := Perform(ToMouse(b), d, prefix, f);
      && g.ok && Mice(g.env.port) == more && Delayed(f.port, |before| + 1, g.env.port)
      && Delivered(g.env.log, Mouse) == Delivered(f.log, Mouse) + before
  {
    hide ExpectRead, IdleTo, Mice, Delivered, Delayed;
    var asked := Writing(Data(b), Writing(Cmd(prefix), f));
    var r := ExpectRead(Mouse, 0xFA, asked.port);
    MouseAckFound(asked.port, before, more);
    DeliveredConcat(f.log, [Wrote(Cmd(prefix))], Mouse);
    DeliveredConcat(f.log + [Wrote(Cmd(prefix))], [Wrote(Data(b))], Mouse);
    DeliveredConcat(asked.log, r.events, Mouse);
    OneFate(Wrote(Cmd(prefix)), Mouse);
    OneFate(Wrote(Data(b)), Mouse);
    assert Delivered(asked.log, Mouse) == Delivered(f.log, Mouse);
  }

  /** What is still to come when `n` acknowledgements have been taken. */
  lemma StillToCome(packets: seq<seq<byte>>, n: nat, mice: seq<byte>, rest: seq<byte>) returns (more: seq<byte>)
    requires n < |packets| && Acks(packets[..n]) + mice == Acks(packets) + rest
    ensures mice == packets[n] + [0xFA] + more && Acks(packets[..n + 1]) + more == Acks(packets) + rest
  {
    hide Acks, Flat;
    var done, front, all := Acks(packets[..n]), packets[n] + [0xFA], Acks(packets) + rest;
    AcksNext(packets, n);
    AcksSplit(packets, n + 1);
    assert done + front <= all;
    more := all[|done| + |front|..];
    assert all == done + front + more == done + (front + more);
    assert mice == all[|done|..] == front + more;
  }

  lemma SendAnswered(packets: seq<seq<byte>>, n: nat, b: byte, d: Device, prefix: byte, e: Env, f: Env,
                     rest: seq<byte>)
    requires n < |packets| && InTime(packets, e.port) && Answered(packets, n, e, f, rest)
    ensures var g := Perform(ToMouse(b), d, prefix, f);
      g.ok && Answered(packets, n + 1, e, g.env, rest)
  {
    hide Perform, IdleTo, Mice, Delivered, Acks, Flat, Delayed, InTime;
    var g := Perform(ToMouse(b), d, prefix, f);
    var done := Acks(packets[..n]);
    var more := StillToCome(packets, n, Mice(f.port), rest);
    AcksNext(packets, n);
    Affords(packets, n, e.port, f.port);
    OneAnswered(b, d, prefix, f, packets[n], more);
    DelayedTwice(e.port, |done|, f.port, |packets[n]| + 1, g.env.port);
    assert |Acks(packets[..n + 1])| == |done| + (|packets[n]| + 1);
    Assoc(Delivered(e.log, Mouse), Flat(packets[..n]), packets[n]);
  }

  lemma Affords(packets: seq<seq<byte>>, n: nat, p: Port, q: Port)
    requires n < |packets| && InTime(packets, p) && Delayed(p, |Acks(packets[..n])|, q)
    ensures |packets[n]| <= 3 && 0xFA !in packets[n] && IdleTo(q.script, |packets[n]| + 1) < 10000
  {
    hide IdleTo, Acks;
  }

  lemma {:induction false} AllAnswered(bytes: seq<byte>, packets: seq<seq<byte>>, n: nat, prefix: byte, e: Env,
                                       rest: seq<byte>)
    requires n <= |bytes| == |packets| && InTime(packets, e.port) && Mice(e.port) == Acks(packets) + rest
    ensures Answered(packets, n, e, EnvAt(AllToMouse(bytes), prefix, n, e), rest)
    ensures forall i: nat :: i < n ==> EffectAt(AllToMouse(bytes), prefix, i, e).ok
  {
    hide Perform, StreamAt, InTime, Answered, IdleTo, Mice, Acks;
    var cmds := AllToMouse(bytes);
    if n == 0 {
      NoneAnswered(packets, e, rest);
    } else {
      AllAnswered(bytes, packets, n - 1, prefix, e, rest);
      SendAnswered(packets, n - 1, bytes[n - 1], StreamAt(cmds, n - 1), prefix, e, EnvAt(cmds, prefix, n - 1, e), rest);
      EnvStep(cmds, prefix, e);
      assert cmds[n - 1] == ToMouse(bytes[n - 1]);
      assert EffectAt(cmds, prefix, n - 1, e).ok;
    }
  }

  lemma NoneAnswered(packets: seq<seq<byte>>, e: Env, rest: seq<byte>)
    requires Mice(e.port) == Acks(packets) + rest
    ensures Answered(packets, 0, e, e, rest)
  {
    assert packets[..0] == [];
    assert Delivered(e.log, Mouse) + [] == Delivered(e.log, Mouse);
    assert [] + Mice(e.port) == Mice(e.port);
    NoIdling(e.port.script);
  }

  /** A request that sends bytes to a touchpad which acknowledges each in time, in the middle of its packets and of any
      typing: it runs to its end, every packet byte reaches the mouse driver in order, and the rest of the mouse
      stream is untouched. */
  lemma Acknowledged(bytes: seq<byte>, packets: seq<seq<byte>>, prefix: byte, e: Env, rest: seq<byte>)
    requires |packets| == |bytes| && InTime(packets, e.port) && Mice(e.port) == Acks(packets) + rest
    ensures var r := Run(AllToMouse(bytes), prefix, false, e);
      && r.count == |bytes| && Mice(r.env.port) == rest
      && Delivered(r.env.log, Mouse) == Delivered(e.log, Mouse) + Flat(packets)
  {
    hide EnvAt, EffectAt, InTime, IdleTo, Mice, Acks, Flat, Delayed, AllToMouse;
    var cmds, n := AllToMouse(bytes), |bytes|;
    AllAnswered(bytes, packets, n, prefix, e, rest);
    FailsFrom(cmds, prefix, 0, n, e);
    assert packets[..n] == packets;
    var f := EnvAt(cmds, prefix, n, e);
    assert Mice(f.port) == (Acks(packets) + Mice(f.port))[|Acks(packets)|..]
        == (Acks(packets) + rest)[|Acks(packets)|..];
  }

  /** So a sliced command is understood by a touchpad that is not waiting for a digit. */
  lemma AcknowledgedCommand(cmd: byte, packets: seq<seq<byte>>, prefix: byte, e: Env, rest: seq<byte>)
    requires |packets| == 9 && InTime(packets, e.port) && Mice(e.port) == Acks(packets) + rest
    requires !TouchpadAfter(e, prefix).argument
    ensures var r := Run(AllToMouse(SlicedBytes(cmd)), prefix, false, e);
      && r.count == 9 && Mice(r.env.port) == rest
      && TouchpadAfter(r.env, prefix).commands == TouchpadAfter(e, prefix).commands + [Num(cmd)]
  {
    hide Run, Acks, InTime, Mice, TouchpadAfter, SlicedBytes;
    Acknowledged(SlicedBytes(cmd), packets, prefix, e, rest);
    SlicedRun(cmd, prefix, e);
  }

  /** The next byte, where the first `k` of the mouse bytes at `p` are gone. */
  lemma NextByte(p: Port, k: nat, q: Port, b: byte, rest: seq<byte>)
    requires Delayed(p, k, q) && Mice(q) == [b] + rest && IdleTo(p.script, k + 1) - IdleTo(p.script, k) < 10000
    ensures var r := PlainRead(Mouse, q); r.value == b && Mice(r.port) == rest && Delayed(p, k + 1, r.port)
  {
    hide IdleTo, PlainRead, Mice;
    assert IdleTo(q.script, 1) == IdleTo(p.script, k + 1) - IdleTo(p.script, k);
    PlainMouseRead(q);
    DelayedTwice(p, k, q, 1, PlainRead(Mouse, q).port);
  }

  lemma NextThree(p: Port, k: nat, f: Env, x: byte, y: byte, z: byte, rest: seq<byte>)
    requires Delayed(p, k, f.port) && Mice(f.port) == [x, y, z] + rest
    requires forall m: nat :: k <= m < k + 3 ==> IdleTo(p.script, m + 1) - IdleTo(p.script, m) < 10000
    ensures PlainRead(Mouse, f.port).value == x && PlainRead(Mouse, AfterRead(f).port).value == y
    ensures PlainRead(Mouse, AfterRead(AfterRead(f)).port).value == z
    ensures Mice(AfterRead(AfterRead(AfterRead(f))).port) == rest
  {
    hide IdleTo, PlainRead, Mice, Delayed;
    assert [x, y, z] + rest == [x] + ([y] + ([z] + rest));
    assert IdleTo(p.script, k + 0 + 1) - IdleTo(p.script, k + 0) < 10000;
    NextByte(p, k, f.port, x, [y] + ([z] + rest));
    NextByte(p, k + 1, AfterRead(f).port, y, [z] + rest);
    NextByte(p, k + 2, AfterRead(AfterRead(f)).port, z, rest);
  }

  /** The question for the status: acknowledged and answered in time, it brings back the three bytes behind the
      acknowledgement. */
  lemma InformationAnswered(prefix: byte, e: Env, before: seq<byte>, x: byte, y: byte, z: byte, rest: seq<byte>)
    requires |before| <= 3 && 0xFA !in before && Mice(e.port) == before + [0xFA] + ([x, y, z] + rest)
    requires IdleTo(e.port.script, |before| + 1) < 10000
    requires forall k: nat :: |before| + 1 <= k < |before| + 4 ==>
      IdleTo(e.port.script, k + 1) - IdleTo(e.port.script, k) < 10000
    ensures var r := Run(InformationProgram(), prefix, false, e);
      && r.count == 4 && Mice(r.env.port) == rest
      && r.commands[1].inOrOut == x && r.commands[2].inOrOut == y && r.commands[3].inOrOut == z
  {
    hide Run, ExpectRead, PlainRead, Mice, IdleTo, Delayed, InformationProgram;
    InformationRun(prefix, e);
    MouseAckFound(e.port, before, [x, y, z] + rest);
    var e1 := Reading(ExpectRead(Mouse, 0xFA, e.port), Writing(Data(0xE9), Writing(Cmd(prefix), e)));
    NextThree(e.port, |before| + 1, e1, x, y, z, rest);
  }
}
