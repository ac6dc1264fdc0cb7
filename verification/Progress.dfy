/** What a blocked reader leaves behind: a later part of the same script, and no refused byte forgotten. */
module PS2Progress {
  import opened PS2Port
  import opened PS2Sequences
  import opened PS2Streams

  /** Keyboard bytes that the interrupt handler may queue. */
  function Interrupting(script: seq<Poll>): nat {
    if script == [] then 0
    else (if script[0].Ready? && script[0].src.Keyboard? && script[0].irq then 1 else 0) + Interrupting(script[1..])
  }

  /** The queue has room for all of them. */
  predicate Roomy(p: Port) { |p.queue| + Interrupting(p.script) <= QUEUE_SIZE }

  predicate Later(p: Port, q: Port) {
    && |q.script| <= |p.script| && q.script == p.script[|p.script| - |q.script|..]
    && p.overrun <= q.overrun
    && |q.queue| + Interrupting(q.script) <= |p.queue| + Interrupting(p.script)
    && |q.overrun| + Interrupting(q.script) <= |p.overrun| + Interrupting(p.script)
    && (|p.queue| <= QUEUE_SIZE ==> |q.queue| <= QUEUE_SIZE)
    && (Roomy(p) ==> Roomy(q) && q.overrun == p.overrun)
  }

  lemma LaterTwice(p: Port, q: Port, r: Port)
    requires Later(p, q) && Later(q, r)
    ensures Later(p, r)
  {
  }

  lemma NoLater(p: Port)
    ensures Later(p, p)
  {
  }

  /** A poll taken off the script. */
  lemma PolledLater(p: Port)
    requires p.script != []
    ensures Later(p, p.(script := p.script[1..]))
  {
    var q := p.(script := p.script[1..]);
    assert Interrupting(q.script) <= Interrupting(p.script);
  }

  /** A byte taken off the queue. */
  lemma DequeuedLater(p: Port)
    requires p.queue != []
    ensures Later(p, p.(queue := p.queue[1..]))
  {
    hide Interrupting;
  }

  lemma HandleLater(p: Port)
    requires Interrupts(p)
    ensures Later(p, HandleInterrupt(p))
  {
  }

  /** If nothing was refused from `p` to `r`, nothing was refused in between. */
  lemma SameOverrun(p: Port, q: Port, r: Port)
    requires Later(p, q) && Later(q, r) && r.overrun == p.overrun
    ensures q.overrun == p.overrun
  {
  }

  lemma {:induction false} AbsorbLater(p: Port)
    ensures Later(p, Absorb(p))
    decreases |p.script|
  {
    hide Later;
    if Interrupts(p) {
      HandleLater(p);
      AbsorbLater(HandleInterrupt(p));
      LaterTwice(p, HandleInterrupt(p), Absorb(p));
    } else {
      NoLater(p);
    }
  }

  lemma {:induction false} WaitLater(p: Port, idle: nat)
    ensures Later(p, p.(script := Wait(p.script, idle).0))
    decreases |p.script|
  {
    hide Later;
    if idle > 0 && p.script != [] && p.script[0].NotReady? {
      var q := p.(script := p.script[1..]);
      PolledLater(p);
      WaitLater(q, idle - 1);
      LaterTwice(p, q, q.(script := Wait(q.script, idle - 1).0));
    } else {
      NoLater(p);
    }
  }

  lemma FetchLater(d: Device, p: Port, idle: nat)
    ensures Later(p, After(Fetch(d, p, idle)))
  {
    hide Absorb, Wait, Later;
    var a, q := Absorb(p), After(Fetch(d, p, idle));
    AbsorbLater(p);
    if d.Keyboard? && a.queue != [] {
      DequeuedLater(a);
      LaterTwice(p, a, q);
    } else {
      var w := a.(script := Wait(a.script, idle).0);
      WaitLater(a, idle);
      LaterTwice(p, a, w);
      if Wait(a.script, idle).1 > 0 {
        PolledLater(w);
        LaterTwice(p, w, q);
      }
    }
  }

  lemma {:induction false} ArrivalsLater(d: Device, p: Port, idle: nat, t: nat)
    requires 0 < t <= |Arrivals(d, p, idle)|
    ensures Later(p, Arrivals(d, p, idle)[t - 1].after)
    decreases p.Size()
  {
    hide Fetch, Later;
    var x := Fetch(d, p, idle).arrival;
    FetchLater(d, p, idle);
    if t > 1 {
      ArrivalsLater(d, x.after, x.idle, t - 1);
      LaterTwice(p, x.after, Arrivals(d, p, idle)[t - 1].after);
    }
  }

  lemma {:induction false} ExhaustedLater(d: Device, p: Port, idle: nat)
    ensures Later(p, Exhausted(d, p, idle))
    decreases p.Size()
  {
    hide Fetch, Later;
    FetchLater(d, p, idle);
    var f := Fetch(d, p, idle);
    if f.Got? {
      ExhaustedLater(d, f.arrival.after, f.arrival.idle);
      LaterTwice(p, f.arrival.after, Exhausted(d, p, idle));
    }
  }

  lemma ReadsLater(d: Device, e: byte, p: Port)
    ensures Later(p, PlainRead(d, p).port) && Later(p, ExpectRead(d, e, p).port)
  {
    hide Arrivals, Exhausted, Own, Through, Preempted, Later, LoseAll, SendAll;
    var a := Arrivals(d, p, IDLE_BUDGET);
    ExhaustedLater(d, p, IDLE_BUDGET);
    forall i | 0 <= i < |a| ensures Later(p, a[i].after) { ArrivalsLater(d, p, IDLE_BUDGET, i + 1); }
    NonEmpty(a, d);
  }

  lemma PendingSize(p: Port)
    ensures |Pending(p, Keyboard)| == |Stream(p, Keyboard)| + |p.overrun|
  {
  }

  /** Keyboard bytes taken in stream order are those the stream starts with, unless the full queue refused one. */
  lemma TakenExactly(p: Port, own: seq<byte>, q: Port)
    requires Consumes(p, own, q, Keyboard, true) && Later(p, q)
    ensures q.overrun == p.overrun <==> own + Stream(q, Keyboard) == Stream(p, Keyboard)
  {
    hide Pending, Stream, IsSub, Polled;
    PendingSize(p);
    PendingSize(q);
    assert |multiset(own)| == |own|;
    if q.overrun == p.overrun { SubWhole(own + Stream(q, Keyboard), Stream(p, Keyboard)); }
  }
}
