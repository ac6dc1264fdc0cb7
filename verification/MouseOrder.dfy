/** What a reader of the mouse does to the order of the keys. A keyboard byte that it polls goes to the driver at once,
    ahead of those on the keyboard queue; one that the interrupt handler takes off the port meanwhile is queued. */
module PS2MouseOrder {
  import opened PS2Port
  import opened PS2Progress
  import opened PS2Sequences
  import opened PS2Streams

  /** The keyboard bytes that came off the port from `p` to `q`, polled, queued or refused. */
  function Spent(p: Port, q: Port): seq<byte>
    requires Later(p, q)
  {
    Bytes(p.script[..|p.script| - |q.script|], Keyboard)
  }

  /** From `p` to `q` the bytes `polled` were handed on, and every other one was queued or refused. */
  predicate Passes(p: Port, polled: seq<byte>, q: Port) {
    && Later(p, q) && p.queue <= q.queue
    && IsSub(polled, Spent(p, q))
    && |Spent(p, q)| == |polled| + (|q.queue| - |p.queue|) + (|q.overrun| - |p.overrun|)
  }

  lemma SpentTwice(p: Port, q: Port, r: Port)
    requires Later(p, q) && Later(q, r)
    ensures Later(p, r) && Spent(p, r) == Spent(p, q) + Spent(q, r)
  {
    var a, b := p.script[..|p.script| - |q.script|], q.script[..|q.script| - |r.script|];
    assert p.script[..|p.script| - |r.script|] == a + b;
    BytesConcat(a, b, Keyboard);
  }

  lemma PassesTwice(p: Port, a: seq<byte>, q: Port, b: seq<byte>, r: Port)
    requires Passes(p, a, q) && Passes(q, b, r)
    ensures Passes(p, a + b, r)
  {
    hide Spent, IsSub;
    SpentTwice(p, q, r);
    SubBoth(a, b, Spent(p, q), Spent(q, r));
  }

  lemma PassesNothing(p: Port)
    ensures Passes(p, [], p)
  {
  }

  lemma SpentOne(p: Port, q: Port)
    requires Later(p, q) && p.script != [] && q.script == p.script[1..]
    ensures Spent(p, q) == if p.script[0].Ready? && p.script[0].src.Keyboard? then [p.script[0].data] else []
  {
    hide Later;
    var one := p.script[..1];
    assert one == [p.script[0]] && one[1..] == [];
    assert Bytes(one[1..], Keyboard) == [];
    assert p.script[..|p.script| - |q.script|] == one;
    assert Spent(p, q) == Bytes(one, Keyboard);
  }

  lemma HandlePasses(p: Port)
    requires Interrupts(p)
    ensures Passes(p, [], HandleInterrupt(p))
  {
    SpentOne(p, HandleInterrupt(p));
  }

  lemma {:induction false} AbsorbPasses(p: Port)
    ensures Passes(p, [], Absorb(p))
    decreases |p.script|
  {
    hide Passes;
    if Interrupts(p) {
      var q := HandleInterrupt(p);
      HandlePasses(p);
      AbsorbPasses(q);
      PassesTwice(p, [], q, [], Absorb(p));
      var none: seq<byte> := [];
      assert none + none == none;
    } else {
      PassesNothing(p);
    }
  }

  /** One poll: nothing, a mouse byte, or a keyboard byte that is handed on. */
  lemma PollPasses(p: Port)
    requires p.script != []
    ensures var s := p.script[0];
      Passes(p, if s.Ready? && s.src.Keyboard? then [s.data] else [], p.(script := p.script[1..]))
  {
    var q := p.(script := p.script[1..]);
    SpentOne(p, q);
    SubRefl(Spent(p, q));
  }

  lemma {:induction false} WaitPasses(p: Port, idle: nat)
    ensures Passes(p, [], p.(script := Wait(p.script, idle).0))
    decreases |p.script|
  {
    hide Passes;
    if idle > 0 && p.script != [] && p.script[0].NotReady? {
      var q := p.(script := p.script[1..]);
      PollPasses(p);
      WaitPasses(q, idle - 1);
      PassesTwice(p, [], q, [], q.(script := Wait(q.script, idle - 1).0));
      var none: seq<byte> := [];
      assert none + none == none;
    } else {
      PassesNothing(p);
    }
  }

  lemma FetchPasses(p: Port, idle: nat)
    ensures var f := Fetch(Mouse, p, idle); Passes(p, GotByte(f, Keyboard), After(f))
  {
    hide Passes, Absorb, Wait;
    var a := Absorb(p);
    var (s, left) := Wait(a.script, idle);
    var w := a.(script := s);
    AbsorbPasses(p);
    WaitPasses(a, idle);
    PassesTwice(p, [], a, [], w);
    var none: seq<byte> := [];
    assert none + none == none;
    if left > 0 {
      var got := GotByte(Fetch(Mouse, p, idle), Keyboard);
      PollPasses(w);
      PassesTwice(p, [], w, got, w.(script := s[1..]));
      assert [] + got == got;
    }
  }

  lemma {:induction false} ArrivalsPass(p: Port, idle: nat, t: nat)
    requires 0 < t <= |Arrivals(Mouse, p, idle)|
    ensures var a := Arrivals(Mouse, p, idle); Passes(p, Own(a[..t], Keyboard), a[t - 1].after)
    decreases p.Size()
  {
    hide Fetch, Passes;
    var f, a := Fetch(Mouse, p, idle), Arrivals(Mouse, p, idle);
    FetchPasses(p, idle);
    var x, rest := f.arrival, Arrivals(Mouse, f.arrival.after, f.arrival.idle);
    assert a == [x] + rest && a[..t][1..] == rest[..t - 1];
    if t > 1 {
      ArrivalsPass(x.after, x.idle, t - 1);
      PassesTwice(p, GotByte(f, Keyboard), x.after, Own(rest[..t - 1], Keyboard), a[t - 1].after);
    } else {
      assert GotByte(f, Keyboard) + [] == GotByte(f, Keyboard);
    }
  }

  lemma {:induction false} ExhaustedPasses(p: Port, idle: nat)
    ensures Passes(p, Own(Arrivals(Mouse, p, idle), Keyboard), Exhausted(Mouse, p, idle))
    decreases p.Size()
  {
    hide Fetch, Passes;
    var f := Fetch(Mouse, p, idle);
    FetchPasses(p, idle);
    if f.Got? {
      var x := f.arrival;
      var rest := Arrivals(Mouse, x.after, x.idle);
      ExhaustedPasses(x.after, x.idle);
      PassesTwice(p, GotByte(f, Keyboard), x.after, Own(rest, Keyboard), Exhausted(Mouse, p, idle));
      assert ([x] + rest)[1..] == rest;
    }
  }

  // ---------------------------------------------------------------- a whole read of the mouse

  function MouseRead(expecting: bool, e: byte, p: Port): Read {
    if expecting then ExpectRead(Mouse, e, p) else PlainRead(Mouse, p)
  }

  /** The arrivals that a read of the mouse looks at. */
  function LookedAt(expecting: bool, e: byte, p: Port): seq<Arrival> {
    var a := Arrivals(Mouse, p, IDLE_BUDGET);
    if expecting then Looked(Mouse, e, a) else if Own(a, Mouse) == [] then a else a[..Through(a, Mouse, 1)]
  }

  /** Those are the first ones, up to the answer, or all until the budget runs out; the port is left behind them. */
  predicate Leaves(p: Port, b: seq<Arrival>, q: Port) {
    var a := Arrivals(Mouse, p, IDLE_BUDGET);
    || (b == a && q == Exhausted(Mouse, p, IDLE_BUDGET))
    || (0 < |b| <= |a| && b == a[..|b|] && q == a[|b| - 1].after)
  }

  /** The keys among them are what the read hands to the keyboard driver. */
  lemma PlainLooks(p: Port)
    ensures var b, r := LookedAt(false, 0, p), PlainRead(Mouse, p);
      Leaves(p, b, r.port) && Delivered(r.events, Keyboard) == Own(b, Keyboard)
  {
    hide Arrivals, Exhausted, Own, Through, Preempted, Delivered, Fates;
    var a := Arrivals(Mouse, p, IDLE_BUDGET);
    NonEmpty(a, Mouse);
    var b := LookedAt(false, 0, p);
    var last := if Own(a, Mouse) == [] then Faked(Mouse) else Returned(Mouse, Own(a, Mouse)[0]);
    PreemptedFates(b, Mouse, Keyboard);
    DeliveredConcat(Preempted(b, Mouse), [last], Keyboard);
    OneFate(last, Keyboard);
    assert Own(b, Keyboard) + [] == Own(b, Keyboard);
  }

  lemma OutcomeSpares(e: byte, own: seq<byte>)
    ensures Delivered(Outcome(Mouse, e, own), Keyboard) == []
  {
    hide SendAll, LoseAll, Delivered, Fates;
    var j := IndexOf(own, e);
    var none: seq<byte> := [];
    assert none + none == none;
    if j < |own| && j < 4 {
      DeliveredConcat(SendAll(Mouse, own[..j]), [Returned(Mouse, e)], Keyboard);
      AllSent(Mouse, own[..j], Keyboard);
      OneFate(Returned(Mouse, e), Keyboard);
    } else if own != [] {
      LostThenReturned(Mouse, if |own| >= 4 then own[1..3] else own[1..], own[0], Keyboard);
      if |own| >= 4 {
        DeliveredConcat([Sent(Mouse, own[3])], LoseAll(Mouse, own[1..3]) + [Returned(Mouse, own[0])], Keyboard);
        OneFate(Sent(Mouse, own[3]), Keyboard);
      }
    } else {
      OneFate(Faked(Mouse), Keyboard);
    }
  }

  lemma ExpectLooks(e: byte, p: Port)
    ensures var b, r := LookedAt(true, e, p), ExpectRead(Mouse, e, p);
      Leaves(p, b, r.port) && Delivered(r.events, Keyboard) == Own(b, Keyboard)
  {
    hide Arrivals, Exhausted, Own, Through, Preempted, Delivered, Fates, Outcome, LoseAll, SendAll;
    var a := Arrivals(Mouse, p, IDLE_BUDGET);
    NonEmpty(a, Mouse);
    var b := Looked(Mouse, e, a);
    ExpectEvents(Mouse, e, p);
    PreemptedFates(b, Mouse, Keyboard);
    DeliveredConcat(Preempted(b, Mouse), Outcome(Mouse, e, Own(a, Mouse)), Keyboard);
    OutcomeSpares(e, Own(a, Mouse));
    assert Own(b, Keyboard) + [] == Own(b, Keyboard);
  }

  lemma MouseReadLooks(expecting: bool, e: byte, p: Port)
    ensures var b, r := LookedAt(expecting, e, p), MouseRead(expecting, e, p);
      Leaves(p, b, r.port) && Delivered(r.events, Keyboard) == Own(b, Keyboard)
  {
    hide Arrivals, PlainRead, ExpectRead, Leaves, Delivered, Own;
    if expecting { ExpectLooks(e, p); } else { PlainLooks(p); }
  }

  lemma MouseReadPasses(expecting: bool, e: byte, p: Port)
    ensures var r := MouseRead(expecting, e, p); Passes(p, Delivered(r.events, Keyboard), r.port)
  {
    hide Arrivals, Exhausted, MouseRead, LookedAt, Passes, Delivered, Own;
    var b, r := LookedAt(expecting, e, p), MouseRead(expecting, e, p);
    MouseReadLooks(expecting, e, p);
    if b == Arrivals(Mouse, p, IDLE_BUDGET) && r.port == Exhausted(Mouse, p, IDLE_BUDGET) {
      ExhaustedPasses(p, IDLE_BUDGET);
    } else {
      ArrivalsPass(p, IDLE_BUDGET, |b|);
    }
  }

  /** The read `r` of the mouse at `p` leaves the keys in order: what it handed on, followed by the queue it left, is a
      subsequence of the queue it found, followed by what came off the port meanwhile. */
  ghost predicate Orderly(p: Port, r: Read) {
    Later(p, r.port) && IsSub(Delivered(r.events, Keyboard) + r.port.queue, p.queue + Spent(p, r.port))
  }

  /** The order of the whole stream is kept exactly by an orderly read. */
  lemma OrderlyExactly(p: Port, r: Read)
    requires Passes(p, Delivered(r.events, Keyboard), r.port)
    ensures IsSub(Delivered(r.events, Keyboard) + Stream(r.port, Keyboard), Stream(p, Keyboard)) <==> Orderly(p, r)
  {
    hide IsSub, Delivered;
    var polled, rest := Delivered(r.events, Keyboard), Bytes(r.port.script, Keyboard);
    var n := |p.script| - |r.port.script|;
    assert p.script == p.script[..n] + r.port.script;
    BytesConcat(p.script[..n], r.port.script, Keyboard);
    assert polled + (r.port.queue + rest) == polled + r.port.queue + rest;
    assert p.queue + (Spent(p, r.port) + rest) == p.queue + Spent(p, r.port) + rest;
    SubCancelRight(polled + r.port.queue, p.queue + Spent(p, r.port), rest);
  }

  /** If no byte was queued or refused during the read, the bytes polled are those that came off the port, and the order
      is kept exactly if they commute with the queue. */
  lemma WithoutInterrupts(p: Port, r: Read)
    requires Passes(p, Delivered(r.events, Keyboard), r.port)
    requires r.port.queue == p.queue && r.port.overrun == p.overrun
    ensures Spent(p, r.port) == Delivered(r.events, Keyboard)
    ensures Orderly(p, r) <==> Delivered(r.events, Keyboard) + p.queue == p.queue + Delivered(r.events, Keyboard)
  {
    hide IsSub, Delivered, Spent;
    var polled := Delivered(r.events, Keyboard);
    SubWhole(polled, Spent(p, r.port));
    if Orderly(p, r) { SubWhole(polled + p.queue, p.queue + polled); }
    SubRefl(p.queue + polled);
  }

  /** With nothing refused, an orderly read keeps every key in its place. */
  lemma OrderlyInPlace(p: Port, r: Read)
    requires Passes(p, Delivered(r.events, Keyboard), r.port) && r.port.overrun == p.overrun
    ensures Orderly(p, r) <==> Delivered(r.events, Keyboard) + r.port.queue == p.queue + Spent(p, r.port)
  {
    hide IsSub, Delivered, Spent;
    var now, before := Delivered(r.events, Keyboard) + r.port.queue, p.queue + Spent(p, r.port);
    if Orderly(p, r) { SubWhole(now, before); }
    SubRefl(before);
  }

  /** Either read of the mouse, whatever arrives: the keys stay in order exactly if the read is orderly. */
  lemma MouseReadKeepsOrder(expecting: bool, e: byte, p: Port)
    ensures var r := MouseRead(expecting, e, p);
      var polled := Delivered(r.events, Keyboard);
      IsSub(polled + Stream(r.port, Keyboard), Stream(p, Keyboard)) <==> Orderly(p, r)
  {
    hide Passes, MouseRead, Orderly, Delivered, Stream, IsSub;
    MouseReadPasses(expecting, e, p);
    OrderlyExactly(p, MouseRead(expecting, e, p));
  }

  /** A read during which nothing was queued after the lock was first taken, and nothing refused: the keys stay in order
      exactly if those polled before the answer commute with those on the queue. */
  lemma CommutesWithQueue(expecting: bool, e: byte, p: Port)
    requires var a, r := Absorb(p), MouseRead(expecting, e, p);
      r.port.queue == a.queue && r.port.overrun == a.overrun
    ensures var a, r := Absorb(p), MouseRead(expecting, e, p);
      var polled := Delivered(r.events, Keyboard);
      IsSub(polled + Stream(r.port, Keyboard), Stream(a, Keyboard)) <==> polled + a.queue == a.queue + polled
  {
    hide Absorb, Passes, MouseRead, Orderly, Delivered, Stream, IsSub;
    SameAtLock(expecting, e, p);
    MouseReadPasses(expecting, e, Absorb(p));
    MouseReadKeepsOrder(expecting, e, Absorb(p));
    WithoutInterrupts(Absorb(p), MouseRead(expecting, e, p));
  }

  lemma SameAtLock(expecting: bool, e: byte, p: Port)
    ensures MouseRead(expecting, e, p) == MouseRead(expecting, e, Absorb(p))
  {
    hide Own, Through, Preempted, Wait;
    assert Absorb(Absorb(p)) == Absorb(p);
    assert Fetch(Mouse, p, IDLE_BUDGET) == Fetch(Mouse, Absorb(p), IDLE_BUDGET);
    assert Arrivals(Mouse, p, IDLE_BUDGET) == Arrivals(Mouse, Absorb(p), IDLE_BUDGET);
    assert Exhausted(Mouse, p, IDLE_BUDGET) == Exhausted(Mouse, Absorb(p), IDLE_BUDGET);
  }

  /** An empty queue and no interrupts: every read is orderly. */
  lemma PolledIsOrderly(p: Port, r: Read)
    requires Passes(p, Delivered(r.events, Keyboard), r.port) && Polled(p)
    requires Polled(r.port)
    ensures Orderly(p, r)
  {
    hide IsSub, Delivered, Spent;
    var polled := Delivered(r.events, Keyboard);
    assert polled + [] == polled && [] + Spent(p, r.port) == Spent(p, r.port);
  }
}
