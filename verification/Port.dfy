/** The output port shared by the keyboard and the mouse, as one status poll after the other shows it,
    and the meaning of the two blocking reads of `ApplePS2Controller` on it.

    A script lists what the coming polls show; past its end no poll shows data. A keyboard byte
    marked `irq` arrives while nobody holds the controller lock, if it can: then the keyboard interrupt
    handler moves it to the keyboard queue. If the lock is held, a poll sees it instead. */
module PS2Port {

  type byte = bv8

  datatype Device = Keyboard | Mouse {
    function Other(): Device { if Keyboard? then Mouse else Keyboard }
  }

  datatype Poll = NotReady | Ready(src: Device, data: byte, irq: bool)

  datatype Write = Cmd(data: byte) | Data(data: byte)

  /** What the controller did, in order: bytes handed to a driver, bytes returned to the reader, bytes the
      reader put aside and forgot, the zero returned when a read times out with nothing put aside, port writes. */
  datatype Event =
    | Sent(dev: Device, data: byte)
    | Returned(dev: Device, data: byte)
    | Lost(dev: Device, data: byte)
    | Faked(dev: Device)
    | Wrote(w: Write)

  /** `overrun` collects the bytes the interrupt handler took off the port but had no queue element for. */
  datatype Port = Port(script: seq<Poll>, queue: seq<byte>, overrun: seq<byte>) {
    function Size(): nat { |script| + |queue| }
  }

  const QUEUE_SIZE: nat := 32
  const IDLE_BUDGET: nat := 10000

  // ---------------------------------------------------------------- the keyboard interrupt handler

  predicate Interrupts(p: Port) {
    p.script != [] && p.script[0].Ready? && p.script[0].src.Keyboard? && p.script[0].irq
  }

  function HandleInterrupt(p: Port): (r: Port)
    requires p.script != [] && p.script[0].Ready? && p.script[0].src.Keyboard?
  {
    if |p.queue| < QUEUE_SIZE
    then Port(p.script[1..], p.queue + [p.script[0].data], p.overrun)
    else Port(p.script[1..], p.queue, p.overrun + [p.script[0].data])
  }

  /** Everything the interrupt handler does before the lock is taken. */
  function Absorb(p: Port): (r: Port)
    ensures !Interrupts(r) && r.Size() <= p.Size()
    ensures |p.queue| <= |r.queue|
    ensures |p.queue| <= QUEUE_SIZE ==> |r.queue| <= QUEUE_SIZE
    decreases |p.script|
  {
    if Interrupts(p) then Absorb(HandleInterrupt(p)) else p
  }

  // ---------------------------------------------------------------- arrivals at a blocked reader

  datatype Arrival = Arrival(src: Device, data: byte, after: Port, idle: nat)

  datatype Fetched = TimedOut(port: Port) | Got(arrival: Arrival)

  /** Polling with the lock held: the script that is left and the budget that is left. */
  function Wait(script: seq<Poll>, idle: nat): (r: (seq<Poll>, nat))
    ensures |r.0| <= |script| && r.1 <= idle
    ensures r.1 > 0 ==> r.0 != [] && r.0[0].Ready?
    decreases |script|
  {
    if idle == 0 then (script, 0)
    else if script == [] then ([], 0)
    else if script[0].NotReady? then Wait(script[1..], idle - 1)
    else (script, idle)
  }

  /** One turn of the reading loop: the next byte for a reader of `d`, from the queue or from the port. */
  function Fetch(d: Device, p: Port, idle: nat): (r: Fetched)
    ensures r.Got? ==> r.arrival.after.Size() < p.Size() && r.arrival.idle <= idle
  {
    var q := Absorb(p);
    if d.Keyboard? && q.queue != [] then
      Got(Arrival(Keyboard, q.queue[0], q.(queue := q.queue[1..]), idle))
    else
      var (s, left) := Wait(q.script, idle);
      if left == 0 then TimedOut(q.(script := s))
      else Got(Arrival(s[0].src, s[0].data, q.(script := s[1..]), left))
  }

  /** All bytes a reader of `d` would see, in order, until its idle budget runs out. */
  function Arrivals(d: Device, p: Port, idle: nat): seq<Arrival>
    decreases p.Size()
  {
    var f := Fetch(d, p, idle);
    if f.TimedOut? then [] else [f.arrival] + Arrivals(d, f.arrival.after, f.arrival.idle)
  }

  /** The port when the budget has run out. */
  function Exhausted(d: Device, p: Port, idle: nat): Port
    decreases p.Size()
  {
    var f := Fetch(d, p, idle);
    if f.TimedOut? then f.port else Exhausted(d, f.arrival.after, f.arrival.idle)
  }

  function Own(a: seq<Arrival>, d: Device): seq<byte> {
    if a == [] then [] else (if a[0].src == d then [a[0].data] else []) + Own(a[1..], d)
  }

  /** Length of the shortest prefix of `a` with `n` bytes of stream `d`. */
  function Through(a: seq<Arrival>, d: Device, n: nat): (t: nat)
    ensures t <= |a|
    ensures n > 0 && a != [] ==> t > 0
  {
    if n == 0 || a == [] then 0 else 1 + Through(a[1..], d, if a[0].src == d then n - 1 else n)
  }

  /** The other stream's bytes go to their driver as they arrive. */
  function Preempted(a: seq<Arrival>, d: Device): seq<Event> {
    if a == [] then [] else (if a[0].src == d then [] else [Sent(a[0].src, a[0].data)]) + Preempted(a[1..], d)
  }

  function SendAll(d: Device, s: seq<byte>): seq<Event> { seq(|s|, i requires 0 <= i < |s| => Sent(d, s[i])) }

  function LoseAll(d: Device, s: seq<byte>): seq<Event> { seq(|s|, i requires 0 <= i < |s| => Lost(d, s[i])) }

  function IndexOf(s: seq<byte>, b: byte): (i: nat)
    ensures i <= |s| && (i < |s| ==> s[i] == b) && forall k :: 0 <= k < i ==> s[k] != b
  {
    if s == [] || s[0] == b then 0 else 1 + IndexOf(s[1..], b)
  }

  // ---------------------------------------------------------------- the two blocking reads

  datatype Read = Read(value: byte, events: seq<Event>, port: Port)

  /** A read of stream `d` that sees the arrivals `a` before its budget runs out at `end`. */
  function PlainFrom(d: Device, a: seq<Arrival>, end: Port): Read {
    var own := Own(a, d);
    if own == [] then
      Read(0, Preempted(a, d) + [Faked(d)], end)
    else
      var t := Through(a, d, 1);
      NonEmpty(a, d);
      Read(own[0], Preempted(a[..t], d) + [Returned(d, own[0])], a[t - 1].after)
  }

  /** The reordering read. It looks at no more than four bytes of its stream. If the expected byte is among them,
      the earlier ones are handed to the driver; if not, the first is the answer, the fourth is handed to the
      driver and the two between are lost. If the budget runs out first, all but the first are lost. */
  function ExpectFrom(d: Device, e: byte, a: seq<Arrival>, end: Port): Read {
    var own := Own(a, d);
    var j := IndexOf(own, e);
    if j < |own| && j < 4 then
      var t := Through(a, d, j + 1);
      NonEmpty(a, d);
      Read(e, Preempted(a[..t], d) + SendAll(d, own[..j]) + [Returned(d, e)], a[t - 1].after)
    else if |own| >= 4 then
      var t := Through(a, d, 4);
      NonEmpty(a, d);
      Read(own[0], Preempted(a[..t], d) + [Sent(d, own[3])] + LoseAll(d, own[1..3]) + [Returned(d, own[0])],
           a[t - 1].after)
    else if own != [] then
      Read(own[0], Preempted(a, d) + LoseAll(d, own[1..]) + [Returned(d, own[0])], end)
    else
      Read(0, Preempted(a, d) + [Faked(d)], end)
  }

  function PlainRead(d: Device, p: Port): Read {
    PlainFrom(d, Arrivals(d, p, IDLE_BUDGET), Exhausted(d, p, IDLE_BUDGET))
  }

  function ExpectRead(d: Device, e: byte, p: Port): Read {
    ExpectFrom(d, e, Arrivals(d, p, IDLE_BUDGET), Exhausted(d, p, IDLE_BUDGET))
  }

  // ---------------------------------------------------------------- splitting a list of arrivals

  lemma Assoc<T>(a: seq<T>, b: seq<T>, c: seq<T>)
    ensures a + b + c == a + (b + c)
  {
  }

  lemma NonEmpty(a: seq<Arrival>, d: Device)
    ensures Own(a, d) != [] ==> a != []
  {
  }

  lemma Assoc3<T>(a: seq<T>, b: seq<T>, c: seq<T>, d: seq<T>)
    ensures a + b + c + d == a + (b + c + d)
  {
  }

  lemma {:induction false} OwnConcat(a: seq<Arrival>, b: seq<Arrival>, d: Device)
    ensures Own(a + b, d) == Own(a, d) + Own(b, d)
  {
    if a == [] {
      assert a + b == b;
    } else {
      OwnConcat(a[1..], b, d);
      assert (a + b)[1..] == a[1..] + b;
      var head := if a[0].src == d then [a[0].data] else [];
      Assoc(head, Own(a[1..], d), Own(b, d));
    }
  }

  lemma {:induction false} PreemptedConcat(a: seq<Arrival>, b: seq<Arrival>, d: Device)
    ensures Preempted(a + b, d) == Preempted(a, d) + Preempted(b, d)
  {
    if a == [] {
      assert a + b == b;
    } else {
      PreemptedConcat(a[1..], b, d);
      assert (a + b)[1..] == a[1..] + b;
      var head := if a[0].src == d then [] else [Sent(a[0].src, a[0].data)];
      Assoc(head, Preempted(a[1..], d), Preempted(b, d));
    }
  }

  lemma {:induction false} ThroughConcat(a: seq<Arrival>, x: Arrival, b: seq<Arrival>, d: Device)
    requires x.src == d
    ensures Through(a + [x] + b, d, |Own(a, d)| + 1) == |a| + 1
  {
    if a == [] {
      assert [] + [x] + b == [x] + b;
      assert ([x] + b)[1..] == b;
    } else {
      ThroughConcat(a[1..], x, b, d);
      assert (a + [x] + b)[1..] == a[1..] + [x] + b;
    }
  }

  /** The n-th byte of stream `d` closes the prefix that `Through` measures. */
  lemma {:induction false} ThroughOwn(a: seq<Arrival>, d: Device, n: nat)
    requires 0 < n <= |Own(a, d)|
    ensures var t := Through(a, d, n);
      0 < t <= |a| && a[t - 1].src == d && Own(a[..t], d) == Own(a, d)[..n]
  {
    var m := if a[0].src == d then n - 1 else n;
    if m > 0 {
      ThroughOwn(a[1..], d, m);
      assert a[1..][..Through(a, d, n) - 1] == a[..Through(a, d, n)][1..];
    } else {
      assert a[..1][1..] == [];
    }
  }

  // ---------------------------------------------------------------- how a read that has seen `seen` ends

  lemma Turn(d: Device, p: Port, idle: nat)
    ensures match Fetch(d, p, idle)
      case TimedOut(q) => Arrivals(d, p, idle) == [] && Exhausted(d, p, idle) == q
      case Got(x) =>
        && x.after.Size() < p.Size()
        && Arrivals(d, p, idle) == [x] + Arrivals(d, x.after, x.idle)
        && Exhausted(d, p, idle) == Exhausted(d, x.after, x.idle)
  {
  }

  lemma NothingSeen(d: Device)
    ensures Own([], d) == [] && Preempted([], d) == []
  {
  }

  lemma Advance(seen: seq<Arrival>, x: Arrival, d: Device)
    ensures Own(seen + [x], d) == if x.src == d then Own(seen, d) + [x.data] else Own(seen, d)
    ensures Preempted(seen + [x], d) ==
            if x.src == d then Preempted(seen, d) else Preempted(seen, d) + [Sent(x.src, x.data)]
  {
    OwnConcat(seen, [x], d);
    PreemptedConcat(seen, [x], d);
    assert [x][1..] == [];
  }

  /** A byte of the reader's own stream after `seen`. */
  lemma Reaches(a: seq<Arrival>, seen: seq<Arrival>, x: Arrival, rest: seq<Arrival>, d: Device)
    requires a == seen + [x] + rest && x.src == d
    ensures Own(a, d) == Own(seen, d) + [x.data] + Own(rest, d)
    ensures Through(a, d, |Own(seen, d)| + 1) == |seen| + 1 && a[|seen|] == x
    ensures Preempted(a[..|seen| + 1], d) == Preempted(seen, d)
  {
    Advance(seen, x, d);
    OwnConcat(seen + [x], rest, d);
    ThroughConcat(seen, x, rest, d);
    assert a[..|seen| + 1] == seen + [x];
  }

  lemma PlainReturns(d: Device, a: seq<Arrival>, end: Port, seen: seq<Arrival>, x: Arrival, rest: seq<Arrival>)
    requires a == seen + [x] + rest && x.src == d && Own(seen, d) == []
    ensures PlainFrom(d, a, end) == Read(x.data, Preempted(seen, d) + [Returned(d, x.data)], x.after)
  {
    hide Own, Preempted, Through;
    Reaches(a, seen, x, rest, d);
  }

  lemma PlainRunsOut(d: Device, a: seq<Arrival>, end: Port)
    requires Own(a, d) == []
    ensures PlainFrom(d, a, end) == Read(0, Preempted(a, d) + [Faked(d)], end)
  {
  }

  lemma ExpectHit(d: Device, e: byte, a: seq<Arrival>, end: Port, seen: seq<Arrival>, x: Arrival, rest: seq<Arrival>)
    requires a == seen + [x] + rest && x.src == d && e !in Own(seen, d) && |Own(seen, d)| <= 3 && x.data == e
    ensures ExpectFrom(d, e, a, end) ==
            Read(e, Preempted(seen, d) + SendAll(d, Own(seen, d)) + [Returned(d, e)], x.after)
  {
    hide Own, Preempted, Through;
    Reaches(a, seen, x, rest, d);
    var held, own := Own(seen, d), Own(a, d);
    assert forall k :: 0 <= k < |held| ==> own[k] == held[k];
    assert own[|held|] == e && own[..|held|] == held;
  }

  lemma ExpectGivesUp(d: Device, e: byte, a: seq<Arrival>, end: Port, seen: seq<Arrival>, x: Arrival,
                      rest: seq<Arrival>)
    requires a == seen + [x] + rest && x.src == d && e !in Own(seen, d) && |Own(seen, d)| == 3 && x.data != e
    ensures var held := Own(seen, d);
      ExpectFrom(d, e, a, end) ==
      Read(held[0], Preempted(seen, d) + [Sent(d, x.data)] + (LoseAll(d, held[1..]) + [Returned(d, held[0])]), x.after)
  {
    hide Own, Preempted, Through;
    Assoc(Preempted(seen, d) + [Sent(d, x.data)], LoseAll(d, Own(seen, d)[1..]), [Returned(d, Own(seen, d)[0])]);
    Reaches(a, seen, x, rest, d);
    var held, own := Own(seen, d), Own(a, d);
    assert forall k :: 0 <= k < |held| ==> own[k] == held[k];
    assert own[3] == x.data && own[1..3] == held[1..];
  }

  lemma ExpectRunsOut(d: Device, e: byte, a: seq<Arrival>, end: Port)
    requires e !in Own(a, d) && |Own(a, d)| <= 3
    ensures var held, r := Own(a, d), ExpectFrom(d, e, a, end);
      && r.value == (if held == [] then 0 else held[0])
      && r.events == Preempted(a, d) + []
           + (if held == [] then [Faked(d)] else LoseAll(d, held[1..]) + [Returned(d, held[0])])
      && r.port == end
  {
    hide Own, Preempted, Through, LoseAll;
    var held := Own(a, d);
    if held != [] {
      Assoc(Preempted(a, d), LoseAll(d, held[1..]), [Returned(d, held[0])]);
    }
    assert Preempted(a, d) + [] == Preempted(a, d);
  }
}
