/** What serving interrupts takes off the port and off the queue, and to whom it goes. */
module PS2Service {
  import opened PS2Port
  import opened PS2Progress
  import opened PS2Requests
  import opened PS2Runs
  import opened PS2Streams

  /** A poll that the work loop or the interrupt handler reacts to: a mouse byte, or a key whose interrupt can be
      served. */
  predicate Servable(s: Poll) { s.Ready? && (s.src.Mouse? || s.irq) }

  /** The script behind all that is servable without a pause. */
  function Rest(script: seq<Poll>): (r: seq<Poll>)
    ensures r == [] || !Servable(r[0])
  {
    if script != [] && Servable(script[0]) then Rest(script[1..]) else script
  }

  /** The bytes of device `d` among it. */
  function Ahead(script: seq<Poll>, d: Device): seq<byte> {
    if script != [] && Servable(script[0])
    then (if script[0].src == d then [script[0].data] else []) + Ahead(script[1..], d)
    else []
  }

  lemma HandleAhead(p: Port)
    requires Interrupts(p)
    ensures var q := HandleInterrupt(p);
      && Rest(q.script) == Rest(p.script) && Ahead(q.script, Mouse) == Ahead(p.script, Mouse)
      && (q.overrun == p.overrun ==> q.queue + Ahead(q.script, Keyboard) == p.queue + Ahead(p.script, Keyboard))
  {
    var q, k := HandleInterrupt(p), p.script[0].data;
    assert [] + Ahead(q.script, Mouse) == Ahead(q.script, Mouse);
    Assoc(p.queue, [k], Ahead(q.script, Keyboard));
  }

  lemma {:induction false} AbsorbAhead(p: Port)
    ensures var q := Absorb(p);
      && Rest(q.script) == Rest(p.script) && Ahead(q.script, Mouse) == Ahead(p.script, Mouse)
      && (q.overrun == p.overrun ==> q.queue + Ahead(q.script, Keyboard) == p.queue + Ahead(p.script, Keyboard))
    decreases |p.script|
  {
    hide Rest, Ahead, Later;
    if Interrupts(p) {
      var q := HandleInterrupt(p);
      HandleAhead(p);
      AbsorbAhead(q);
      AbsorbLater(q);
      HandleLater(p);
      if Absorb(p).overrun == p.overrun { SameOverrun(p, q, Absorb(p)); }
    }
  }

  /** The keys that are handed over, if none is refused. */
  function Keys(p: Port): seq<byte> { p.queue + Ahead(p.script, Keyboard) }

  ghost predicate Serves(e: Env, f: Env) {
    && f.port.queue == [] && f.port.script == Rest(e.port.script)
    && Delivered(f.log, Mouse) == Delivered(e.log, Mouse) + Ahead(e.port.script, Mouse)
    && (f.port.overrun == e.port.overrun ==>
          Delivered(f.log, Keyboard) == Delivered(e.log, Keyboard) + Keys(e.port))
  }

  lemma HandedOver(log: seq<Event>, d: Device, b: byte)
    ensures var after := log + [Sent(d, b)];
      && Delivered(after, Mouse) == Delivered(log, Mouse) + (if d.Mouse? then [b] else [])
      && Delivered(after, Keyboard) == Delivered(log, Keyboard) + (if d.Keyboard? then [b] else [])
  {
    hide Delivered;
    DeliveredConcat(log, [Sent(d, b)], Mouse);
    DeliveredConcat(log, [Sent(d, b)], Keyboard);
    OneFate(Sent(d, b), Mouse);
    OneFate(Sent(d, b), Keyboard);
  }

  /** A key handed over, off the queue. */
  lemma KeyServed(log: seq<Event>, p: Port, f: Env)
    requires p.queue != []
    requires Serves(Env(p.(queue := p.queue[1..]), log + [Sent(Keyboard, p.queue[0])]), f)
    ensures Serves(Env(p, log), f)
  {
    hide Delivered, Ahead, Rest;
    var head, q := [p.queue[0]], p.(queue := p.queue[1..]);
    HandedOver(log, Keyboard, p.queue[0]);
    assert Delivered(log, Mouse) + [] == Delivered(log, Mouse);
    assert p.queue == head + p.queue[1..];
    Assoc(head, p.queue[1..], Ahead(p.script, Keyboard));
    Assoc(Delivered(log, Keyboard), head, Keys(q));
  }

  /** A mouse byte handed over, off the port. */
  lemma MouseByteServed(log: seq<Event>, p: Port, f: Env)
    requires p.script != [] && p.script[0].Ready? && p.script[0].src.Mouse?
    requires Serves(Env(p.(script := p.script[1..]), log + [Sent(Mouse, p.script[0].data)]), f)
    ensures Serves(Env(p, log), f)
  {
    hide Delivered, Ahead, Rest;
    var b, rest := p.script[0].data, p.script[1..];
    HandedOver(log, Mouse, b);
    OneAhead(p.script);
    assert Delivered(log, Keyboard) + [] == Delivered(log, Keyboard);
    Assoc(Delivered(log, Mouse), [b], Ahead(rest, Mouse));
  }

  lemma OneAhead(script: seq<Poll>)
    requires script != [] && script[0].Ready? && script[0].src.Mouse?
    ensures Rest(script) == Rest(script[1..]) && Ahead(script, Keyboard) == Ahead(script[1..], Keyboard)
    ensures Ahead(script, Mouse) == [script[0].data] + Ahead(script[1..], Mouse)
  {
    assert [] + Ahead(script[1..], Keyboard) == Ahead(script[1..], Keyboard);
  }

  lemma AbsorbedServes(e: Env, f: Env)
    requires Serves(Env(Absorb(e.port), e.log), f) && Later(Absorb(e.port), f.port)
    ensures Serves(e, f)
  {
    hide Absorb, Delivered, Ahead, Rest, Later;
    AbsorbAhead(e.port);
    AbsorbLater(e.port);
    if f.port.overrun == e.port.overrun { SameOverrun(e.port, Absorb(e.port), f.port); }
  }

  /** When the loop ends the queue is empty, and neither a mouse byte nor a key that could interrupt is ready. Each
      mouse byte that was ready without a pause has gone to the mouse driver, and each key, those on the queue first,
      to the keyboard driver unless the full queue refused one; all in order and nothing else. */
  lemma {:induction false} ServiceServes(e: Env)
    ensures var f := Service(e);
      && f.port.queue == [] && f.port.script == Rest(e.port.script)
      && (f.port.script == [] || !f.port.script[0].Ready? || (f.port.script[0].src.Keyboard? && !f.port.script[0].irq))
      && Delivered(f.log, Mouse) == Delivered(e.log, Mouse) + Ahead(e.port.script, Mouse)
      && (f.port.overrun == e.port.overrun ==>
            Delivered(f.log, Keyboard) == Delivered(e.log, Keyboard) + (e.port.queue + Ahead(e.port.script, Keyboard)))
    decreases e.port.Size()
  {
    hide Absorb, Delivered, Later;
    var p, f := Absorb(e.port), Service(e);
    if p.queue != [] {
      var g := Env(p.(queue := p.queue[1..]), e.log + [Sent(Keyboard, p.queue[0])]);
      ServiceServes(g);
      KeyServed(e.log, p, f);
      DequeuedLater(p);
      ServiceLater(g);
      LaterTwice(p, g.port, f.port);
    } else if p.script != [] && p.script[0].Ready? && p.script[0].src.Mouse? {
      var g := Env(p.(script := p.script[1..]), e.log + [Sent(Mouse, p.script[0].data)]);
      ServiceServes(g);
      MouseByteServed(e.log, p, f);
      PolledLater(p);
      ServiceLater(g);
      LaterTwice(p, g.port, f.port);
    } else {
      NoLater(p);
      assert Delivered(e.log, Mouse) + [] == Delivered(e.log, Mouse);
      assert Delivered(e.log, Keyboard) + [] == Delivered(e.log, Keyboard);
      assert Serves(Env(p, e.log), f);
    }
    AbsorbedServes(e, f);
  }

  /** Mouse bytes that are ready reach the mouse driver at the next interrupt, all of them. */
  lemma MouseServed(e: Env, w: seq<byte>)
    requires |w| <= |e.port.script|
    requires forall i :: 0 <= i < |w| ==>
      e.port.script[i].Ready? && e.port.script[i].src.Mouse? && e.port.script[i].data == w[i]
    ensures Delivered(e.log, Mouse) + w <= Delivered(Service(e).log, Mouse)
  {
    hide Delivered, Service, Absorb, Rest, Ahead;
    ServiceServes(e);
    StartsAhead(e.port.script, w);
    var before, all := Delivered(e.log, Mouse), Ahead(e.port.script, Mouse);
    assert all == w + all[|w|..];
    Assoc(before, w, all[|w|..]);
  }

  lemma {:induction false} StartsAhead(script: seq<Poll>, w: seq<byte>)
    requires |w| <= |script|
    requires forall i :: 0 <= i < |w| ==> script[i].Ready? && script[i].src.Mouse? && script[i].data == w[i]
    ensures w <= Ahead(script, Mouse)
  {
    if w != [] {
      StartsAhead(script[1..], w[1..]);
      assert w == [w[0]] + w[1..];
      assert Ahead(script, Mouse) == [w[0]] + Ahead(script[1..], Mouse);
    }
  }
}
