/** The two byte streams, and what becomes of them in one read. */
module PS2Streams {
  import opened PS2Port
  import opened PS2Sequences

  // ---------------------------------------------------------- what is still to come, and what has become of the rest

  function Bytes(script: seq<Poll>, d: Device): seq<byte> {
    if script == [] then []
    else (if script[0].Ready? && script[0].src == d then [script[0].data] else []) + Bytes(script[1..], d)
  }

  /** The bytes of stream `d` that nobody has taken yet, oldest first. */
  function Stream(p: Port, d: Device): seq<byte> {
    (if d.Keyboard? then p.queue else []) + Bytes(p.script, d)
  }

  function Overrun(p: Port, d: Device): seq<byte> { if d.Keyboard? then p.overrun else [] }

  /** Every byte of stream `d` in a log, each with exactly one fate. */
  function Fates(log: seq<Event>, d: Device): seq<byte> {
    if log == [] then []
    else
      (if (log[0].Sent? || log[0].Returned? || log[0].Lost?) && log[0].dev == d then [log[0].data] else [])
      + Fates(log[1..], d)
  }

  /** What the driver of `d` was handed. */
  function Delivered(log: seq<Event>, d: Device): seq<byte> {
    if log == [] then []
    else (if log[0].Sent? && log[0].dev == d then [log[0].data] else []) + Delivered(log[1..], d)
  }

  function Losses(log: seq<Event>): nat {
    if log == [] then 0 else (if log[0].Lost? then 1 else 0) + Losses(log[1..])
  }

  function Idles(script: seq<Poll>): nat {
    if script == [] then 0 else (if script[0].NotReady? then 1 else 0) + Idles(script[1..])
  }

  /** The bytes of stream `d` that are on the port, on the queue or were refused by the queue. */
  ghost function Pending(p: Port, d: Device): multiset<byte> {
    (if d.Keyboard? then multiset(p.queue) + multiset(p.overrun) else multiset{}) + multiset(Bytes(p.script, d))
  }

  /** No keyboard byte ever goes through the keyboard queue. */
  predicate Polled(p: Port) {
    p.queue == [] && forall i :: 0 <= i < |p.script| && p.script[i].Ready? ==> !p.script[i].irq
  }

  // ---------------------------------------------------------------- concatenation

  lemma {:induction false} BytesConcat(a: seq<Poll>, b: seq<Poll>, d: Device)
    ensures Bytes(a + b, d) == Bytes(a, d) + Bytes(b, d)
  {
    if a == [] {
      assert a + b == b;
    } else {
      BytesConcat(a[1..], b, d);
      assert (a + b)[1..] == a[1..] + b;
      Assoc(if a[0].Ready? && a[0].src == d then [a[0].data] else [], Bytes(a[1..], d), Bytes(b, d));
    }
  }

  lemma {:induction false} FatesConcat(a: seq<Event>, b: seq<Event>, d: Device)
    ensures Fates(a + b, d) == Fates(a, d) + Fates(b, d)
  {
    if a == [] {
      assert a + b == b;
    } else {
      FatesConcat(a[1..], b, d);
      assert (a + b)[1..] == a[1..] + b;
      var h := if (a[0].Sent? || a[0].Returned? || a[0].Lost?) && a[0].dev == d then [a[0].data] else [];
      Assoc(h, Fates(a[1..], d), Fates(b, d));
    }
  }

  lemma {:induction false} DeliveredConcat(a: seq<Event>, b: seq<Event>, d: Device)
    ensures Delivered(a + b, d) == Delivered(a, d) + Delivered(b, d)
  {
    if a == [] {
      assert a + b == b;
    } else {
      DeliveredConcat(a[1..], b, d);
      assert (a + b)[1..] == a[1..] + b;
      Assoc(if a[0].Sent? && a[0].dev == d then [a[0].data] else [], Delivered(a[1..], d), Delivered(b, d));
    }
  }

  // ---------------------------------------------------------------- one turn

  lemma HandleKeeps(p: Port, d: Device)
    requires Interrupts(p)
    ensures Pending(HandleInterrupt(p), d) == Pending(p, d)
  {
    var b, rest := p.script[0].data, Bytes(p.script[1..], d);
    if d.Keyboard? {
      assert Bytes(p.script, d) == [b] + rest;
      assert multiset([b] + rest) == multiset{b} + multiset(rest);
      assert multiset(p.queue + [b]) == multiset(p.queue) + multiset{b};
      assert multiset(p.overrun + [b]) == multiset(p.overrun) + multiset{b};
    }
  }

  lemma HandleOrder(p: Port, d: Device)
    requires Interrupts(p)
    ensures IsSub(Stream(HandleInterrupt(p), d), Stream(p, d))
    ensures d.Mouse? ==> Stream(HandleInterrupt(p), d) == Stream(p, d)
  {
    hide IsSub;
    var q, b, rest := HandleInterrupt(p), p.script[0].data, Bytes(p.script[1..], d);
    SubRefl(Stream(p, d));
    if d.Mouse? {
      assert Bytes(p.script, d) == [] + rest == rest;
      assert Stream(q, d) == Stream(p, d);
    } else {
      assert Bytes(p.script, d) == [b] + rest;
      if |p.queue| < QUEUE_SIZE {
        Assoc(p.queue, [b], rest);
        assert Stream(q, d) == Stream(p, d);
      } else {
        SubDrop([b], rest);
        SubLeft(p.queue, rest, [b] + rest);
        assert Stream(q, d) == p.queue + rest && Stream(p, d) == p.queue + ([b] + rest);
      }
    }
  }

  lemma {:induction false} AbsorbKeeps(p: Port, d: Device)
    ensures Pending(Absorb(p), d) == Pending(p, d)
    ensures IsSub(Stream(Absorb(p), d), Stream(p, d))
    ensures d.Mouse? ==> Stream(Absorb(p), d) == Stream(p, d)
    ensures Polled(p) ==> Absorb(p) == p
    ensures Idles(Absorb(p).script) == Idles(p.script)
    decreases |p.script|
  {
    hide Pending, Stream, IsSub;
    if Interrupts(p) {
      var q := HandleInterrupt(p);
      HandleKeeps(p, d);
      HandleOrder(p, d);
      AbsorbKeeps(q, d);
      SubTrans(Stream(Absorb(p), d), Stream(q, d), Stream(p, d));
    } else {
      SubRefl(Stream(p, d));
    }
  }

  lemma {:induction false} WaitKeeps(script: seq<Poll>, idle: nat, d: Device)
    ensures var (s, left) := Wait(script, idle);
      && Bytes(s, d) == Bytes(script, d)
      && Idles(script) - Idles(s) <= idle
      && (left > 0 ==> Idles(script) - Idles(s) == idle - left)
      && (Polled(Port(script, [], [])) ==> Polled(Port(s, [], [])))
    decreases |script|
  {
    if idle > 0 && script != [] && script[0].NotReady? {
      WaitKeeps(script[1..], idle - 1, d);
    }
  }

  function GotByte(f: Fetched, d: Device): seq<byte> {
    if f.Got? && f.arrival.src == d then [f.arrival.data] else []
  }

  function After(f: Fetched): Port { if f.Got? then f.arrival.after else f.port }

  /** A byte from the queue. */
  lemma Dequeued(a: Port, d: Device)
    requires a.queue != []
    ensures var got, q := if d.Keyboard? then [a.queue[0]] else [], a.(queue := a.queue[1..]);
      && Pending(a, d) == multiset(got) + Pending(q, d)
      && got + Stream(q, d) == Stream(a, d)
  {
    hide Bytes;
    assert a.queue == [a.queue[0]] + a.queue[1..];
    assert multiset(a.queue) == multiset{a.queue[0]} + multiset(a.queue[1..]);
    Assoc([a.queue[0]], a.queue[1..], Bytes(a.script, d));
  }

  lemma BytesStep(s: seq<Poll>, d: Device)
    requires s != [] && s[0].Ready?
    ensures Bytes(s, d) == if s[0].src == d then [s[0].data] + Bytes(s[1..], d) else Bytes(s[1..], d)
  {
    assert [] + Bytes(s[1..], d) == Bytes(s[1..], d);
  }

  lemma AddOne<T>(k: multiset<T>, b: T, rest: seq<T>)
    ensures k + multiset([b] + rest) == multiset([b]) + (k + multiset(rest))
  {
    assert multiset([b] + rest) == multiset([b]) + multiset(rest);
  }

  /** A byte from the port. */
  lemma Taken(a: Port, s: seq<Poll>, d: Device)
    requires s != [] && s[0].Ready? && Bytes(s, d) == Bytes(a.script, d)
    ensures var got := if s[0].src == d then [s[0].data] else [];
      Pending(a, d) == multiset(got) + Pending(a.(script := s[1..]), d)
  {
    hide Bytes;
    BytesStep(s, d);
    if s[0].src == d {
      var k := if d.Keyboard? then multiset(a.queue) + multiset(a.overrun) else multiset{};
      AddOne(k, s[0].data, Bytes(s[1..], d));
    }
  }

  /** It is next in its stream unless it overtakes queued keyboard bytes. */
  lemma TakenInOrder(a: Port, s: seq<Poll>, d: Device)
    requires s != [] && s[0].Ready? && Bytes(s, d) == Bytes(a.script, d)
    requires a.queue == [] || d.Mouse? || s[0].src.Mouse?
    ensures var got := if s[0].src == d then [s[0].data] else [];
      got + Stream(a.(script := s[1..]), d) == Stream(a, d)
  {
    hide Bytes;
    BytesStep(s, d);
    var rest := Bytes(s[1..], d);
    if s[0].src != d {
      assert [] + Stream(a.(script := s[1..]), d) == Stream(a.(script := s[1..]), d);
    } else {
      assert [] + rest == rest && [] + ([s[0].data] + rest) == [s[0].data] + rest;
    }
  }

  lemma Waited(a: Port, s: seq<Poll>, d: Device)
    requires Bytes(s, d) == Bytes(a.script, d)
    ensures Pending(a.(script := s), d) == Pending(a, d) && [] + Stream(a.(script := s), d) == Stream(a, d)
  {
  }

  /** A turn takes one byte and leaves the rest. */
  lemma FetchKeeps(d0: Device, p: Port, idle: nat, d: Device)
    ensures var f := Fetch(d0, p, idle); Pending(p, d) == multiset(GotByte(f, d)) + Pending(After(f), d)
  {
    hide Absorb, Wait, Bytes, Pending;
    var a := Absorb(p);
    AbsorbKeeps(p, d);
    if d0.Keyboard? && a.queue != [] {
      Dequeued(a, d);
    } else {
      var f := Fetch(d0, p, idle);
      var (s, left) := Wait(a.script, idle);
      WaitKeeps(a.script, idle, d);
      if left > 0 {
        assert After(f) == a.(script := s[1..]);
        Taken(a, s, d);
      } else {
        assert GotByte(f, d) == [];
        Waited(a, s, d);
      }
    }
  }

  lemma FetchIdles(d0: Device, p: Port, idle: nat)
    ensures var f := Fetch(d0, p, idle);
      && Idles(p.script) - Idles(After(f).script) <= idle
      && (f.Got? ==> Idles(p.script) - Idles(After(f).script) == idle - f.arrival.idle)
      && (Polled(p) ==> Polled(After(f)))
  {
    hide Absorb, Wait;
    AbsorbKeeps(p, d0);
    WaitKeeps(Absorb(p).script, idle, d0);
  }

  /** Reading `d0` keeps the order of stream `d`, whatever the interrupt handler does. */
  predicate Ordered(d0: Device, p: Port, d: Device) { d0 == d || d.Mouse? || Polled(p) }

  /** What a turn takes of stream `d` comes before what it leaves. */
  lemma {:induction false} FetchOrder(d0: Device, p: Port, idle: nat, d: Device)
    requires Ordered(d0, p, d)
    ensures var f := Fetch(d0, p, idle);
      && IsSub(GotByte(f, d) + Stream(After(f), d), Stream(p, d))
      && (d.Mouse? ==> GotByte(f, d) + Stream(After(f), d) == Stream(p, d))
  {
    hide Absorb, Wait, IsSub;
    hide Bytes, Stream;
    var a := Absorb(p);
    AbsorbKeeps(p, d);
    if d0.Keyboard? && a.queue != [] {
      Dequeued(a, d);
    } else {
      var (s, left) := Wait(a.script, idle);
      WaitKeeps(a.script, idle, d);
      if left > 0 {
        assert d.Keyboard? && s[0].src.Keyboard? ==> a.queue == [];
        TakenInOrder(a, s, d);
      } else {
        Waited(a, s, d);
      }
    }
  }

  // ---------------------------------------------------------------- one read

  /** From `p` to `q` the bytes `own` of stream `d` were taken, in stream order if `ordered`. */
  ghost predicate Consumes(p: Port, own: seq<byte>, q: Port, d: Device, ordered: bool) {
    && Pending(p, d) == multiset(own) + Pending(q, d)
    && (ordered ==> IsSub(own + Stream(q, d), Stream(p, d)))
    && (Polled(p) ==> Polled(q))
  }

  lemma ConsumesTwice(p: Port, a: seq<byte>, q: Port, b: seq<byte>, r: Port, d: Device, ordered: bool)
    requires Consumes(p, a, q, d, ordered) && Consumes(q, b, r, d, ordered)
    ensures Consumes(p, a + b, r, d, ordered)
  {
    hide Pending, IsSub, Polled, Stream;
    assert multiset(a + b) == multiset(a) + multiset(b);
    if ordered {
      SubLeft(a, b + Stream(r, d), Stream(q, d));
      Assoc(a, b, Stream(r, d));
      SubTrans(a + b + Stream(r, d), a + Stream(q, d), Stream(p, d));
    }
  }

  lemma FetchConsumes(d0: Device, p: Port, idle: nat, d: Device)
    ensures var f := Fetch(d0, p, idle); Consumes(p, GotByte(f, d), After(f), d, Ordered(d0, p, d))
  {
    hide Fetch, Pending, Stream, IsSub, Polled, Ordered, GotByte, After;
    FetchKeeps(d0, p, idle, d);
    FetchIdles(d0, p, idle);
    if Ordered(d0, p, d) { FetchOrder(d0, p, idle, d); }
  }

  lemma OrderedStays(d0: Device, p: Port, idle: nat, d: Device)
    ensures Ordered(d0, p, d) ==> Ordered(d0, After(Fetch(d0, p, idle)), d)
  {
    hide Fetch, Polled;
    FetchIdles(d0, p, idle);
  }

  /** The first `t` arrivals at a reader are taken, the rest is still to come. */
  lemma {:induction false} ArrivalsConsume(d0: Device, p: Port, idle: nat, t: nat, d: Device)
    requires 0 < t <= |Arrivals(d0, p, idle)|
    ensures var a := Arrivals(d0, p, idle); Consumes(p, Own(a[..t], d), a[t - 1].after, d, Ordered(d0, p, d))
    ensures Idles(p.script) - Idles(Arrivals(d0, p, idle)[t - 1].after.script) <= idle
    decreases p.Size()
  {
    hide Fetch, Consumes, Ordered;
    var f, a := Fetch(d0, p, idle), Arrivals(d0, p, idle);
    FetchConsumes(d0, p, idle, d);
    FetchIdles(d0, p, idle);
    OrderedStays(d0, p, idle, d);
    var x, rest := f.arrival, Arrivals(d0, f.arrival.after, f.arrival.idle);
    assert a == [x] + rest && a[..t][1..] == rest[..t - 1];
    if t > 1 {
      ArrivalsConsume(d0, x.after, x.idle, t - 1, d);
      Weaken(x.after, Own(rest[..t - 1], d), a[t - 1].after, d, Ordered(d0, x.after, d), Ordered(d0, p, d));
      ConsumesTwice(p, GotByte(f, d), x.after, Own(rest[..t - 1], d), a[t - 1].after, d, Ordered(d0, p, d));
    } else {
      assert GotByte(f, d) + [] == GotByte(f, d);
    }
  }

  lemma Weaken(p: Port, own: seq<byte>, q: Port, d: Device, strong: bool, weak: bool)
    requires Consumes(p, own, q, d, strong) && (weak ==> strong)
    ensures Consumes(p, own, q, d, weak)
  {
  }

  lemma {:induction false} ExhaustedConsumes(d0: Device, p: Port, idle: nat, d: Device)
    ensures Consumes(p, Own(Arrivals(d0, p, idle), d), Exhausted(d0, p, idle), d, Ordered(d0, p, d))
    ensures Idles(p.script) - Idles(Exhausted(d0, p, idle).script) <= idle
    decreases p.Size()
  {
    hide Fetch, Consumes, Ordered;
    var f := Fetch(d0, p, idle);
    FetchConsumes(d0, p, idle, d);
    FetchIdles(d0, p, idle);
    OrderedStays(d0, p, idle, d);
    if f.Got? {
      var x := f.arrival;
      var rest := Arrivals(d0, x.after, x.idle);
      ExhaustedConsumes(d0, x.after, x.idle, d);
      Weaken(x.after, Own(rest, d), Exhausted(d0, p, idle), d, Ordered(d0, x.after, d), Ordered(d0, p, d));
      ConsumesTwice(p, GotByte(f, d), x.after, Own(rest, d), Exhausted(d0, p, idle), d, Ordered(d0, p, d));
      assert ([x] + rest)[1..] == rest;
    }
  }

  lemma {:induction false} PreemptedFates(a: seq<Arrival>, d0: Device, d: Device)
    ensures Fates(Preempted(a, d0), d) == Delivered(Preempted(a, d0), d) == if d == d0 then [] else Own(a, d)
  {
    if a != [] {
      PreemptedFates(a[1..], d0, d);
      var h: seq<Event> := if a[0].src == d0 then [] else [Sent(a[0].src, a[0].data)];
      FatesConcat(h, Preempted(a[1..], d0), d);
      DeliveredConcat(h, Preempted(a[1..], d0), d);
      if h != [] { assert h[1..] == []; }
    }
  }

  lemma {:induction false} AllSent(d0: Device, s: seq<byte>, d: Device)
    ensures Fates(SendAll(d0, s), d) == Delivered(SendAll(d0, s), d) == if d == d0 then s else []
  {
    if s != [] {
      AllSent(d0, s[1..], d);
      assert SendAll(d0, s)[1..] == SendAll(d0, s[1..]);
    }
  }

  lemma {:induction false} AllLost(d0: Device, s: seq<byte>, d: Device)
    ensures Fates(LoseAll(d0, s), d) == (if d == d0 then s else []) && Delivered(LoseAll(d0, s), d) == []
  {
    if s != [] {
      AllLost(d0, s[1..], d);
      assert LoseAll(d0, s)[1..] == LoseAll(d0, s[1..]);
    }
  }

  lemma OneFate(e: Event, d: Device)
    ensures Fates([e], d) == if (e.Sent? || e.Returned? || e.Lost?) && e.dev == d then [e.data] else []
    ensures Delivered([e], d) == if e.Sent? && e.dev == d then [e.data] else []
  {
    assert [e][1..] == [];
  }

  /** The events give every byte of `own` exactly one fate, and deliver in order. */
  ghost predicate Explains(events: seq<Event>, own: seq<byte>, d: Device) {
    multiset(Fates(events, d)) == multiset(own) && IsSub(Delivered(events, d), own)
  }

  /** The events of a read are those of the other stream's bytes and those of its own, which end in `x + y + z`. */
  lemma ReadFates(a: seq<Arrival>, d0: Device, x: seq<Event>, y: seq<Event>, d: Device)
    ensures Fates(Preempted(a, d0) + x + y, d) == (if d == d0 then [] else Own(a, d)) + Fates(x, d) + Fates(y, d)
    ensures Delivered(Preempted(a, d0) + x + y, d)
            == (if d == d0 then [] else Own(a, d)) + Delivered(x, d) + Delivered(y, d)
  {
    PreemptedFates(a, d0, d);
    FatesConcat(Preempted(a, d0) + x, y, d);
    FatesConcat(Preempted(a, d0), x, d);
    DeliveredConcat(Preempted(a, d0) + x, y, d);
    DeliveredConcat(Preempted(a, d0), x, d);
  }

  /** The reading stream itself: expected byte after `held`. */
  lemma HitExplains(a: seq<Arrival>, d0: Device, held: seq<byte>, e: byte, d: Device)
    requires Own(a, d0) == held + [e]
    ensures Explains(Preempted(a, d0) + SendAll(d0, held) + [Returned(d0, e)], Own(a, d), d)
  {
    hide Own, Preempted, SendAll, Fates, Delivered, IsSub;
    ReadFates(a, d0, SendAll(d0, held), [Returned(d0, e)], d);
    AllSent(d0, held, d);
    OneFate(Returned(d0, e), d);
    if d == d0 {
      assert [] + held + [e] == held + [e] && [] + held + [] == held;
      SubPrefix(held, [e]);
    } else {
      assert Own(a, d) + [] + [] == Own(a, d);
      SubRefl(Own(a, d));
    }
  }

  /** Bytes put aside and forgotten, and the one returned after them. */
  lemma LostThenReturned(d0: Device, lost: seq<byte>, b: byte, d: Device)
    ensures var last := LoseAll(d0, lost) + [Returned(d0, b)];
      Delivered(last, d) == [] && Fates(last, d) == if d == d0 then lost + [b] else []
  {
    hide LoseAll, Fates, Delivered;
    FatesConcat(LoseAll(d0, lost), [Returned(d0, b)], d);
    DeliveredConcat(LoseAll(d0, lost), [Returned(d0, b)], d);
    AllLost(d0, lost, d);
    OneFate(Returned(d0, b), d);
    var none: seq<byte> := [];
    assert none + none == none;
  }

  lemma OtherExplains(a: seq<Arrival>, d0: Device, x: seq<Event>, y: seq<Event>, d: Device)
    requires d != d0 && Fates(x, d) == Fates(y, d) == Delivered(x, d) == Delivered(y, d) == []
    ensures Explains(Preempted(a, d0) + x + y, Own(a, d), d)
  {
    hide Own, Preempted, Fates, Delivered, IsSub;
    ReadFates(a, d0, x, y, d);
    assert Own(a, d) + [] + [] == Own(a, d);
    SubRefl(Own(a, d));
  }

  lemma OwnExplains(a: seq<Arrival>, d: Device, x: seq<Event>, y: seq<Event>, fates: seq<byte>, delivered: seq<byte>)
    requires fates == Fates(x, d) + Fates(y, d) && delivered == Delivered(x, d) + Delivered(y, d)
    requires multiset(fates) == multiset(Own(a, d)) && IsSub(delivered, Own(a, d))
    ensures Explains(Preempted(a, d) + x + y, Own(a, d), d)
  {
    hide Own, Preempted, Fates, Delivered, IsSub;
    ReadFates(a, d, x, y, d);
    assert [] + Fates(x, d) + Fates(y, d) == fates && [] + Delivered(x, d) + Delivered(y, d) == delivered;
  }

  /** The four bytes of a read that gave up: one delivered, two lost, one returned. */
  lemma GiveUpExplainsOwn(a: seq<Arrival>, d: Device)
    requires |Own(a, d)| == 4
    ensures var own := Own(a, d);
      Explains(Preempted(a, d) + [Sent(d, own[3])] + (LoseAll(d, own[1..3]) + [Returned(d, own[0])]), own, d)
  {
    hide Own, Preempted, LoseAll, Fates, Delivered, IsSub, Explains;
    var own := Own(a, d);
    LostThenReturned(d, own[1..3], own[0], d);
    OneFate(Sent(d, own[3]), d);
    FourBytes(own);
    OwnExplains(a, d, [Sent(d, own[3])], LoseAll(d, own[1..3]) + [Returned(d, own[0])],
                [own[3]] + (own[1..3] + [own[0]]), [own[3]]);
  }

  lemma FourBytes(own: seq<byte>)
    requires |own| == 4
    ensures multiset([own[3]] + (own[1..3] + [own[0]])) == multiset(own)
    ensures IsSub([own[3]], own) && [own[3]] + [] == [own[3]]
  {
    hide IsSub;
    assert own == [own[0]] + own[1..3] + [own[3]];
    assert multiset(own) == multiset([own[0]]) + multiset(own[1..3]) + multiset([own[3]]);
    SubDrop(own[..3], [own[3]]);
    assert own[..3] + [own[3]] == own;
  }

  lemma GiveUpExplains(a: seq<Arrival>, d0: Device, d: Device)
    requires |Own(a, d0)| == 4
    ensures var own := Own(a, d0);
      Explains(Preempted(a, d0) + [Sent(d0, own[3])] + (LoseAll(d0, own[1..3]) + [Returned(d0, own[0])]), Own(a, d), d)
  {
    hide Own, Preempted, LoseAll, Fates, Delivered, IsSub, Explains;
    if d == d0 {
      GiveUpExplainsOwn(a, d);
    } else {
      var own := Own(a, d0);
      LostThenReturned(d0, own[1..3], own[0], d);
      OneFate(Sent(d0, own[3]), d);
      OtherExplains(a, d0, [Sent(d0, own[3])], LoseAll(d0, own[1..3]) + [Returned(d0, own[0])], d);
    }
  }

  lemma FirstLast(own: seq<byte>)
    requires own != []
    ensures multiset(own[1..] + [own[0]]) == multiset(own)
  {
    assert own == [own[0]] + own[1..];
  }

  /** Nothing is delivered of the reading stream itself; the first byte is returned, if there is one. */
  lemma QuietExplainsOwn(a: seq<Arrival>, d: Device, last: seq<Event>)
    requires var own := Own(a, d);
      last == if own == [] then [Faked(d)] else LoseAll(d, own[1..]) + [Returned(d, own[0])]
    ensures Explains(Preempted(a, d) + [] + last, Own(a, d), d)
  {
    hide Own, Preempted, LoseAll, Fates, Delivered, IsSub, Explains;
    var own := Own(a, d);
    var fates := if own == [] then [] else own[1..] + [own[0]];
    NothingFated(d);
    SubPrefix([], own);
    assert [] + own == own && [] + fates == fates;
    if own == [] {
      OneFate(Faked(d), d);
    } else {
      LostThenReturned(d, own[1..], own[0], d);
      FirstLast(own);
    }
    OwnExplains(a, d, [], last, fates, []);
  }

  lemma NothingFated(d: Device)
    ensures Fates([], d) == Delivered([], d) == []
  {
  }

  lemma QuietExplains(a: seq<Arrival>, d0: Device, last: seq<Event>, d: Device)
    requires var own := Own(a, d0);
      last == if own == [] then [Faked(d0)] else LoseAll(d0, own[1..]) + [Returned(d0, own[0])]
    ensures Explains(Preempted(a, d0) + [] + last, Own(a, d), d)
  {
    hide Own, Preempted, LoseAll, IsSub, Explains;
    if d == d0 {
      QuietExplainsOwn(a, d, last);
    } else {
      var own := Own(a, d0);
      if own == [] { OneFate(Faked(d0), d); } else { LostThenReturned(d0, own[1..], own[0], d); }
      OtherExplains(a, d0, [], last, d);
    }
  }

  /** Every byte that left the port for good is in the events, once; deliveries keep stream order if `ordered`. */
  ghost predicate Accounts(p: Port, events: seq<Event>, q: Port, d: Device, ordered: bool) {
    && Pending(p, d) == multiset(Fates(events, d)) + Pending(q, d)
    && (ordered ==> IsSub(Delivered(events, d) + Stream(q, d), Stream(p, d)))
    && (Polled(p) ==> Polled(q))
  }

  lemma Accounted(p: Port, own: seq<byte>, events: seq<Event>, q: Port, d: Device, ordered: bool)
    requires Consumes(p, own, q, d, ordered) && Explains(events, own, d)
    ensures Accounts(p, events, q, d, ordered)
  {
    hide Pending, Fates, Delivered, Stream, Polled, IsSub;
    if ordered {
      SubRight(Delivered(events, d), own, Stream(q, d));
      SubTrans(Delivered(events, d) + Stream(q, d), own + Stream(q, d), Stream(p, d));
    }
  }

  /** A plain read, answered or timed out, accounts for every byte it took of either stream. */
  lemma PlainReadAccounts(d0: Device, p: Port, d: Device)
    ensures var r := PlainRead(d0, p);
      Accounts(p, r.events, r.port, d, Ordered(d0, p, d)) && Idles(p.script) - Idles(r.port.script) <= IDLE_BUDGET
  {
    hide Arrivals, Exhausted, Consumes, Explains, Accounts, Own, Through, Preempted, Ordered, Idles;
    var a, r := Arrivals(d0, p, IDLE_BUDGET), PlainRead(d0, p);
    var own := Own(a, d0);
    if own == [] {
      ExhaustedConsumes(d0, p, IDLE_BUDGET, d);
      QuietExplains(a, d0, [Faked(d0)], d);
      assert Preempted(a, d0) + [] == Preempted(a, d0);
      Accounted(p, Own(a, d), r.events, r.port, d, Ordered(d0, p, d));
    } else {
      var t := Through(a, d0, 1);
      ThroughOwn(a, d0, 1);
      ArrivalsConsume(d0, p, IDLE_BUDGET, t, d);
      assert own[..1] == [] + [own[0]] && SendAll(d0, []) == [];
      HitExplains(a[..t], d0, [], own[0], d);
      assert Preempted(a[..t], d0) + [] == Preempted(a[..t], d0);
      Accounted(p, Own(a[..t], d), r.events, r.port, d, Ordered(d0, p, d));
    }
  }

  /** So does the reordering read; what it loses is among at most two bytes of its own stream. */
  lemma ExpectReadAccounts(d0: Device, e: byte, p: Port, d: Device)
    ensures var r := ExpectRead(d0, e, p);
      Accounts(p, r.events, r.port, d, Ordered(d0, p, d)) && Idles(p.script) - Idles(r.port.script) <= IDLE_BUDGET
  {
    hide Arrivals, Exhausted, Consumes, Explains, Accounts, Own, Through, Preempted, Ordered, Idles, LoseAll, SendAll;
    var a, r := Arrivals(d0, p, IDLE_BUDGET), ExpectRead(d0, e, p);
    var own := Own(a, d0);
    var j := IndexOf(own, e);
    if j < |own| && j < 4 {
      var t := Through(a, d0, j + 1);
      ThroughOwn(a, d0, j + 1);
      ArrivalsConsume(d0, p, IDLE_BUDGET, t, d);
      assert own[..j + 1] == own[..j] + [e];
      HitExplains(a[..t], d0, own[..j], e, d);
      Accounted(p, Own(a[..t], d), r.events, r.port, d, Ordered(d0, p, d));
    } else if |own| >= 4 {
      var t := Through(a, d0, 4);
      ThroughOwn(a, d0, 4);
      ArrivalsConsume(d0, p, IDLE_BUDGET, t, d);
      assert own[..4][1..3] == own[1..3];
      GiveUpExplains(a[..t], d0, d);
      Assoc(Preempted(a[..t], d0) + [Sent(d0, own[3])], LoseAll(d0, own[1..3]), [Returned(d0, own[0])]);
      Accounted(p, Own(a[..t], d), r.events, r.port, d, Ordered(d0, p, d));
    } else {
      ExhaustedConsumes(d0, p, IDLE_BUDGET, d);
      var last := if own == [] then [Faked(d0)] else LoseAll(d0, own[1..]) + [Returned(d0, own[0])];
      QuietExplains(a, d0, last, d);
      assert Preempted(a, d0) + [] == Preempted(a, d0);
      if own != [] { Assoc(Preempted(a, d0), LoseAll(d0, own[1..]), [Returned(d0, own[0])]); }
      assert r.events == Preempted(a, d0) + [] + last;
      Accounted(p, Own(a, d), r.events, r.port, d, Ordered(d0, p, d));
    }
  }

  // ---------------------------------------------------------------- bounds on one read

  lemma {:induction false} LossesConcat(a: seq<Event>, b: seq<Event>)
    ensures Losses(a + b) == Losses(a) + Losses(b)
  {
    if a == [] {
      assert a + b == b;
    } else {
      LossesConcat(a[1..], b);
      assert (a + b)[1..] == a[1..] + b;
    }
  }

  lemma {:induction false} NoLosses(a: seq<Event>)
    requires forall i :: 0 <= i < |a| ==> !a[i].Lost?
    ensures Losses(a) == 0
  {
    if a != [] { NoLosses(a[1..]); }
  }

  lemma {:induction false} PreemptedSends(a: seq<Arrival>, d: Device)
    ensures forall i :: 0 <= i < |Preempted(a, d)| ==> Preempted(a, d)[i].Sent? && Preempted(a, d)[i].dev != d
  {
    if a != [] { PreemptedSends(a[1..], d); }
  }

  /** The last events of the reordering read: what becomes of the bytes `own` of its own stream. */
  function Outcome(d: Device, e: byte, own: seq<byte>): seq<Event> {
    var j := IndexOf(own, e);
    if j < |own| && j < 4 then SendAll(d, own[..j]) + [Returned(d, e)]
    else if |own| >= 4 then [Sent(d, own[3])] + (LoseAll(d, own[1..3]) + [Returned(d, own[0])])
    else if own != [] then LoseAll(d, own[1..]) + [Returned(d, own[0])]
    else [Faked(d)]
  }

  /** How much of the arrivals it looks at. */
  function Looked(d: Device, e: byte, a: seq<Arrival>): seq<Arrival> {
    var own := Own(a, d);
    var j := IndexOf(own, e);
    if j < |own| && j < 4 then a[..Through(a, d, j + 1)]
    else if |own| >= 4 then a[..Through(a, d, 4)]
    else a
  }

  lemma ExpectEvents(d: Device, e: byte, p: Port)
    ensures var a := Arrivals(d, p, IDLE_BUDGET);
      ExpectRead(d, e, p).events == Preempted(Looked(d, e, a), d) + Outcome(d, e, Own(a, d))
  {
    hide Arrivals, Exhausted, Own, Through, Preempted, SendAll, LoseAll;
    var a := Arrivals(d, p, IDLE_BUDGET);
    var own, before := Own(a, d), Preempted(Looked(d, e, a), d);
    var j := IndexOf(own, e);
    if j < |own| && j < 4 {
      Assoc(before, SendAll(d, own[..j]), [Returned(d, e)]);
    } else if |own| >= 4 {
      Assoc(before + [Sent(d, own[3])], LoseAll(d, own[1..3]), [Returned(d, own[0])]);
      Assoc(before, [Sent(d, own[3])], LoseAll(d, own[1..3]) + [Returned(d, own[0])]);
    } else if own != [] {
      Assoc(before, LoseAll(d, own[1..]), [Returned(d, own[0])]);
    }
  }

  lemma {:induction false} LosesAll(d: Device, s: seq<byte>)
    ensures Losses(LoseAll(d, s)) == |s| && Losses(SendAll(d, s)) == 0
  {
    if s != [] {
      LosesAll(d, s[1..]);
      assert LoseAll(d, s)[1..] == LoseAll(d, s[1..]) && SendAll(d, s)[1..] == SendAll(d, s[1..]);
    }
  }

  lemma LosesOne(e: Event)
    ensures Losses([e]) == if e.Lost? then 1 else 0
  {
    assert [e][1..] == [];
  }

  /** Bytes of its own stream that the reordering read loses: none if it finds what it expects; two if it gives up;
      all but the first of those it held if the budget runs out. */
  function LostOf(e: byte, own: seq<byte>): nat {
    var j := IndexOf(own, e);
    if j < |own| && j < 4 then 0 else if |own| >= 4 then 2 else if own != [] then |own| - 1 else 0
  }

  lemma OutcomeLoses(d: Device, e: byte, own: seq<byte>)
    ensures Losses(Outcome(d, e, own)) == LostOf(e, own)
  {
    hide Losses, SendAll, LoseAll;
    var j := IndexOf(own, e);
    if j < |own| && j < 4 {
      LossesConcat(SendAll(d, own[..j]), [Returned(d, e)]);
      LosesAll(d, own[..j]);
      LosesOne(Returned(d, e));
    } else if own != [] {
      var lost := if |own| >= 4 then own[1..3] else own[1..];
      LossesConcat(LoseAll(d, lost), [Returned(d, own[0])]);
      LosesAll(d, lost);
      LosesOne(Returned(d, own[0]));
      if |own| >= 4 {
        LossesConcat([Sent(d, own[3])], LoseAll(d, lost) + [Returned(d, own[0])]);
        LosesOne(Sent(d, own[3]));
      }
    } else {
      LosesOne(Faked(d));
    }
  }

  /** The exact loss of the reordering read, in terms of the bytes of its stream that arrive before its budget
      runs out. */
  lemma ExpectReadLoses(d: Device, e: byte, p: Port)
    ensures var own := Own(Arrivals(d, p, IDLE_BUDGET), d); Losses(ExpectRead(d, e, p).events) == LostOf(e, own) <= 2
  {
    hide Arrivals, Own, Preempted, Outcome, Looked, ExpectRead, Losses;
    var a := Arrivals(d, p, IDLE_BUDGET);
    var before := Preempted(Looked(d, e, a), d);
    ExpectEvents(d, e, p);
    PreemptedSends(Looked(d, e, a), d);
    NoLosses(before);
    LossesConcat(before, Outcome(d, e, Own(a, d)));
    OutcomeLoses(d, e, Own(a, d));
  }

  lemma PlainReadLoses(d: Device, p: Port)
    ensures Losses(PlainRead(d, p).events) == 0
  {
    hide Arrivals, Exhausted, Own, Through, Preempted;
    var a := Arrivals(d, p, IDLE_BUDGET);
    PreemptedSends(a, d);
    PreemptedSends(a[..Through(a, d, 1)], d);
    NoLosses(PlainRead(d, p).events);
  }

  /** Its own bytes among the last events: no more than four. */
  lemma OutcomeTakes(d: Device, e: byte, own: seq<byte>)
    ensures |Fates(Outcome(d, e, own), d)| <= 4
  {
    hide Fates, Delivered, SendAll, LoseAll;
    var j := IndexOf(own, e);
    if j < |own| && j < 4 {
      FatesConcat(SendAll(d, own[..j]), [Returned(d, e)], d);
      AllSent(d, own[..j], d);
      OneFate(Returned(d, e), d);
    } else if |own| >= 4 {
      FatesConcat([Sent(d, own[3])], LoseAll(d, own[1..3]) + [Returned(d, own[0])], d);
      LostThenReturned(d, own[1..3], own[0], d);
      OneFate(Sent(d, own[3]), d);
    } else if own != [] {
      LostThenReturned(d, own[1..], own[0], d);
    } else {
      OneFate(Faked(d), d);
    }
  }

  /** It takes at most four bytes of its own stream, whatever becomes of them. */
  lemma ExpectReadTakes(d: Device, e: byte, p: Port)
    ensures |Fates(ExpectRead(d, e, p).events, d)| <= 4
  {
    hide Arrivals, Own, Preempted, Outcome, Looked, ExpectRead, Fates, Delivered;
    var a := Arrivals(d, p, IDLE_BUDGET);
    ExpectEvents(d, e, p);
    PreemptedFates(Looked(d, e, a), d, d);
    FatesConcat(Preempted(Looked(d, e, a), d), Outcome(d, e, Own(a, d)), d);
    OutcomeTakes(d, e, Own(a, d));
  }
}
