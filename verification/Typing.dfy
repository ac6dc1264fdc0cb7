/** Any number of lights requests in the middle of typing, back to back or with interrupts served in between, and
    what the keyboard driver makes of it. */
module PS2Typing {
  import opened PS2Port
  import opened PS2Progress
  import opened PS2Requests
  import opened PS2Runs
  import opened PS2Sequences
  import opened PS2Streams
  import opened PS2ScanCodes
  import opened PS2Writes
  import opened PS2AckTransparency

  /** A lights request, and what is typed before each of its two acknowledgements. */
  datatype Lights = Lights(leds: byte, prefix: byte, k1: seq<byte>, k2: seq<byte>) {
    function Raw(): seq<byte> { k1 + [ACKNOWLEDGE] + (k2 + [ACKNOWLEDGE]) }
    function Typed(): seq<byte> { k1 + k2 }
    function Asked(): Op { Request(LedProgram(leds), prefix, false) }
  }

  /** What the keyboard sends while the requests run. */
  function Raw(ls: seq<Lights>): seq<byte> {
    if ls == [] then [] else Raw(ls[..|ls| - 1]) + ls[|ls| - 1].Raw()
  }

  function Typed(ls: seq<Lights>): seq<byte> {
    if ls == [] then [] else Typed(ls[..|ls| - 1]) + ls[|ls| - 1].Typed()
  }

  function Requests(ls: seq<Lights>): seq<Op> {
    if ls == [] then [] else Requests(ls[..|ls| - 1]) + [ls[|ls| - 1].Asked()]
  }

  /** Each acknowledgement is behind at most three typed bytes and comes within one budget of the byte before which
      its reader starts. */
  ghost predicate InTime(l: Lights, n: nat, p: Port) {
    && |l.k1| <= 3 && |l.k2| <= 3 && ACKNOWLEDGE !in l.k1 && ACKNOWLEDGE !in l.k2
    && Patience(p, n + (|l.k1| + 1)) - Patience(p, n) < IDLE_BUDGET
    && Patience(p, n + (|l.k1| + 1 + (|l.k2| + 1))) - Patience(p, n + (|l.k1| + 1)) < IDLE_BUDGET
  }

  ghost predicate AllInTime(ls: seq<Lights>, p: Port) {
    forall i :: 0 <= i < |ls| ==> InTime(ls[i], |Raw(ls[..i])|, p)
  }

  ghost predicate AllSucceed(ls: seq<Lights>, e: Env) {
    forall i :: 0 <= i < |ls| ==>
      Run(LedProgram(ls[i].leds), ls[i].prefix, false, Play(Requests(ls[..i]), e)).count == 4
  }

  // ---------------------------------------------------------------- one request after the other

  lemma LastRequest(ls: seq<Lights>, e: Env)
    requires ls != []
    ensures var l := ls[|ls| - 1];
      Play(Requests(ls), e) == Run(LedProgram(l.leds), l.prefix, false, Play(Requests(ls[..|ls| - 1]), e)).env
  {
    hide Run;
    var front, l := ls[..|ls| - 1], ls[|ls| - 1];
    assert Requests(ls)[..|Requests(ls)| - 1] == Requests(front);
  }

  lemma FrontInTime(ls: seq<Lights>, p: Port)
    requires ls != [] && AllInTime(ls, p)
    ensures AllInTime(ls[..|ls| - 1], p) && InTime(ls[|ls| - 1], |Raw(ls[..|ls| - 1])|, p)
  {
    hide InTime, Raw;
    var front := ls[..|ls| - 1];
    forall i | 0 <= i < |front| ensures InTime(front[i], |Raw(front[..i])|, p) {
      assert front[..i] == ls[..i] && front[i] == ls[i];
    }
  }

  lemma FrontSucceeds(ls: seq<Lights>, e: Env)
    requires ls != [] && AllSucceed(ls[..|ls| - 1], e)
    requires var l := ls[|ls| - 1];
      Run(LedProgram(l.leds), l.prefix, false, Play(Requests(ls[..|ls| - 1]), e)).count == 4
    ensures AllSucceed(ls, e)
  {
    hide Run, Play, Requests;
    var front := ls[..|ls| - 1];
    forall i | 0 <= i < |ls|
      ensures Run(LedProgram(ls[i].leds), ls[i].prefix, false, Play(Requests(ls[..i]), e)).count == 4
    {
      if i < |front| { assert front[..i] == ls[..i] && front[i] == ls[i]; }
    }
  }

  /** A reader that starts later sits through the same pauses. */
  lemma StillInTime(l: Lights, n: nat, p: Port, q: Port)
    requires InTime(l, n, p) && Delayed(p, n, q)
    ensures |l.k1| <= 3 && |l.k2| <= 3 && ACKNOWLEDGE !in l.k1 && ACKNOWLEDGE !in l.k2
    ensures Patience(q, |l.k1| + 1) < IDLE_BUDGET
    ensures Patience(q, |l.k1| + 1 + (|l.k2| + 1)) - Patience(q, |l.k1| + 1) < IDLE_BUDGET
  {
    hide Patience;
  }

  lemma NothingDelayed(p: Port)
    ensures Delayed(p, 0, p)
  {
  }

  /** All requests have succeeded, the driver has been handed what was typed before their acknowledgements, in order,
      and the rest of the stream is still to come, no later than before. */
  ghost predicate TypedThrough(ls: seq<Lights>, e: Env, rest: seq<byte>) {
    var f := Play(Requests(ls), e);
    && AllSucceed(ls, e)
    && Delivered(f.log, Keyboard) == Delivered(e.log, Keyboard) + Typed(ls)
    && Stream(f.port, Keyboard) == rest
    && |f.port.queue| <= QUEUE_SIZE && Delayed(e.port, |Raw(ls)|, f.port)
  }

  /** The next request, where the first `n` bytes of the stream at `p` are gone. */
  lemma NextRequest(l: Lights, n: nat, p: Port, g: Env, rest: seq<byte>)
    requires InTime(l, n, p) && Delayed(p, n, g.port) && |g.port.queue| <= QUEUE_SIZE
    requires Stream(g.port, Keyboard) == l.Raw() + rest
    requires Run(LedProgram(l.leds), l.prefix, false, g).env.port.overrun == g.port.overrun
    ensures var r := Run(LedProgram(l.leds), l.prefix, false, g);
      && r.count == 4 && Delivered(r.env.log, Keyboard) == Delivered(g.log, Keyboard) + l.Typed()
      && Stream(r.env.port, Keyboard) == rest
      && |r.env.port.queue| <= QUEUE_SIZE && Delayed(p, n + |l.Raw()|, r.env.port)
  {
    hide Run, Delivered, Stream, Patience, Later, InTime, Delayed, Roomy, PortWrites;
    var f := Run(LedProgram(l.leds), l.prefix, false, g).env;
    StillInTime(l, n, p, g.port);
    TypingThroughLeds(l.leds, l.prefix, g, l.k1, l.k2, rest);
    DelayedTwice(p, n, g.port, |l.k1| + 1 + (|l.k2| + 1), f.port);
    QueueStays(g.port, f.port);
    Assoc(Delivered(g.log, Keyboard), l.k1, l.k2);
  }

  lemma OneMoreRequest(ls: seq<Lights>, e: Env, rest: seq<byte>)
    requires ls != [] && TypedThrough(ls[..|ls| - 1], e, ls[|ls| - 1].Raw() + rest)
    requires InTime(ls[|ls| - 1], |Raw(ls[..|ls| - 1])|, e.port)
    requires Play(Requests(ls), e).port.overrun == Play(Requests(ls[..|ls| - 1]), e).port.overrun
    ensures TypedThrough(ls, e, rest)
  {
    hide Run, Play, Requests, Delivered, Stream, InTime, Delayed, AllSucceed, Lights.Raw, Lights.Typed, LedProgram;
    var front, l := ls[..|ls| - 1], ls[|ls| - 1];
    LastRequest(ls, e);
    NextRequest(l, |Raw(front)|, e.port, Play(Requests(front), e), rest);
    FrontSucceeds(ls, e);
    Assoc(Delivered(e.log, Keyboard), Typed(front), l.Typed());
  }

  lemma {:induction false} TypingThroughAll(ls: seq<Lights>, e: Env, rest: seq<byte>)
    requires |e.port.queue| <= QUEUE_SIZE && AllInTime(ls, e.port)
    requires Stream(e.port, Keyboard) == Raw(ls) + rest
    requires Play(Requests(ls), e).port.overrun == e.port.overrun
    ensures TypedThrough(ls, e, rest)
  {
    hide Run, Play, Requests, Delivered, Stream, Patience, Later, InTime, Delayed, AllInTime, AllSucceed, TypedThrough;
    if ls == [] {
      NothingAsked(e, rest);
    } else {
      var front, l := ls[..|ls| - 1], ls[|ls| - 1];
      var g := Play(Requests(front), e);
      LastRequest(ls, e);
      FrontInTime(ls, e.port);
      PlayLater(Requests(front), e);
      RunLater(LedProgram(l.leds), l.prefix, false, g);
      SameOverrun(e.port, g.port, Play(Requests(ls), e).port);
      Assoc(Raw(front), l.Raw(), rest);
      TypingThroughAll(front, e, l.Raw() + rest);
      OneMoreRequest(ls, e, rest);
    }
  }

  lemma NothingAsked(e: Env, rest: seq<byte>)
    requires |e.port.queue| <= QUEUE_SIZE && Stream(e.port, Keyboard) == Raw([]) + rest
    ensures TypedThrough([], e, rest)
  {
    hide Patience, Stream, Delivered;
    NothingDelayed(e.port);
    assert Delivered(e.log, Keyboard) + [] == Delivered(e.log, Keyboard) && [] + rest == rest;
  }

  lemma QueueStays(p: Port, q: Port)
    requires Later(p, q) && |p.queue| <= QUEUE_SIZE
    ensures |q.queue| <= QUEUE_SIZE
  {
  }

  // ---------------------------------------------------------------- and the keys that the driver decodes

  /** Serving interrupts moves keys from the stream to the driver and drops none unless the queue is full. */
  lemma {:induction false} ServiceInPlace(e: Env)
    ensures Service(e).port.overrun == e.port.overrun ==> Timeline(Service(e), Keyboard) == Timeline(e, Keyboard)
    decreases e.port.Size()
  {
    hide Absorb, Later, Stream, Delivered, Polled, Pending, IsSub;
    var p, f := Absorb(e.port), Service(e);
    AbsorbLater(e.port);
    AbsorbInPlace(e.port);
    if p.queue != [] {
      var g := Env(p.(queue := p.queue[1..]), e.log + [Sent(Keyboard, p.queue[0])]);
      Dequeued(p, Keyboard);
      DequeuedLater(p);
      HandedOver(e.log, p, Sent(Keyboard, p.queue[0]), g.port);
      ServiceInPlace(g);
      ServiceLater(g);
      ServedLater(e.port, p, g.port, f.port);
    } else if p.script != [] && p.script[0].Ready? && p.script[0].src.Mouse? {
      var g := Env(p.(script := p.script[1..]), e.log + [Sent(Mouse, p.script[0].data)]);
      TakenInOrder(p, p.script, Keyboard);
      PolledLater(p);
      HandedOver(e.log, p, Sent(Mouse, p.script[0].data), g.port);
      ServiceInPlace(g);
      ServiceLater(g);
      ServedLater(e.port, p, g.port, f.port);
    }
  }

  lemma AbsorbInPlace(p: Port)
    ensures Absorb(p).overrun == p.overrun ==> Stream(Absorb(p), Keyboard) == Stream(p, Keyboard)
  {
    hide Absorb, Pending, Stream, IsSub, Polled, Later;
    var q := Absorb(p);
    AbsorbKeeps(p, Keyboard);
    AbsorbLater(p);
    assert [] + Stream(q, Keyboard) == Stream(q, Keyboard);
    assert multiset([]) + Pending(q, Keyboard) == Pending(q, Keyboard);
    TakenExactly(p, [], q);
  }

  lemma HandedOver(log: seq<Event>, p: Port, s: Event, q: Port)
    requires s.Sent? && (if s.dev.Keyboard? then [s.data] else []) + Stream(q, Keyboard) == Stream(p, Keyboard)
    ensures Timeline(Env(q, log + [s]), Keyboard) == Delivered(log, Keyboard) + Stream(p, Keyboard)
  {
    hide Stream, Delivered;
    DeliveredConcat(log, [s], Keyboard);
    OneFate(s, Keyboard);
    Assoc(Delivered(log, Keyboard), if s.dev.Keyboard? then [s.data] else [], Stream(q, Keyboard));
  }

  lemma ServedLater(p: Port, a: Port, g: Port, f: Port)
    requires Later(p, a) && Later(a, g) && Later(g, f) && g.overrun == a.overrun
    ensures Later(p, f) && (f.overrun == p.overrun ==> a.overrun == p.overrun && f.overrun == g.overrun)
  {
    LaterTwice(p, a, g);
    LaterTwice(p, g, f);
  }

  lemma {:induction false} InterruptsInPlace(ops: seq<Op>, e: Env)
    requires forall i :: 0 <= i < |ops| ==> ops[i].Interrupt?
    ensures Play(ops, e).port.overrun == e.port.overrun ==> Timeline(Play(ops, e), Keyboard) == Timeline(e, Keyboard)
  {
    hide Service, Timeline;
    if ops != [] {
      var f := Play(ops[..|ops| - 1], e);
      InterruptsInPlace(ops[..|ops| - 1], e);
      ServiceInPlace(f);
      PlayLater(ops[..|ops| - 1], e);
      OpLater(ops[|ops| - 1], f);
      if Play(ops, e).port.overrun == e.port.overrun { SameOverrun(e.port, f.port, Play(ops, e).port); }
    }
  }

  /** Any number of requests in the middle of typing, and interrupts served afterwards, however often. If the full
      queue refuses nothing, and it does not if it has room for every key that comes by interrupt, every typed byte
      is with the driver or still to come, in order. Once nothing is to come any more, the driver has decoded what it
      was handed to the keys of the typing, which are those of the raw stream with all acknowledgements in it. */
  lemma KeysThroughLeds(ls: seq<Lights>, e: Env, rest: seq<byte>, ops: seq<Op>, c: nat)
    requires |e.port.queue| <= QUEUE_SIZE && AllInTime(ls, e.port)
    requires Stream(e.port, Keyboard) == Raw(ls) + rest
    requires forall i :: 0 <= i < |ops| ==> ops[i].Interrupt?
    requires Roomy(e.port) || Play(ops, Play(Requests(ls), e)).port.overrun == e.port.overrun
    ensures var g := Play(ops, Play(Requests(ls), e));
      var before := Delivered(e.log, Keyboard);
      && AllSucceed(ls, e)
      && Timeline(g, Keyboard) == before + (Typed(ls) + rest)
      && (Stream(g.port, Keyboard) == [] ==>
            var handed := Delivered(g.log, Keyboard)[|before|..];
            Decode(c, handed) == Decode(c, Typed(ls) + rest) == Decode(c, Stream(e.port, Keyboard)))
  {
    hide Run, Delivered, Stream, Patience, Decode, Play, Later, AllInTime, AllSucceed, Delayed, Roomy;
    var f := Play(Requests(ls), e);
    var g, before := Play(ops, f), Delivered(e.log, Keyboard);
    PlayLater(Requests(ls), e);
    PlayLater(ops, f);
    LaterTwice(e.port, f.port, g.port);
    RoomyKeeps(e.port, g.port);
    SameOverrun(e.port, f.port, g.port);
    TypingThroughAll(ls, e, rest);
    InterruptsInPlace(ops, f);
    Assoc(before, Typed(ls), rest);
    if Stream(g.port, Keyboard) == [] {
      assert Delivered(g.log, Keyboard) + [] == Delivered(g.log, Keyboard);
      assert (before + (Typed(ls) + rest))[|before|..] == Typed(ls) + rest;
      SilentAcks(c, ls, rest);
    }
  }

  lemma SilentAcks(c: nat, ls: seq<Lights>, rest: seq<byte>)
    ensures Decode(c, Typed(ls) + rest) == Decode(c, Raw(ls) + rest)
  {
    hide Decode, WithoutReplies;
    RepliesAreSilent(c, Raw(ls) + rest);
    RepliesAreSilent(c, Typed(ls) + rest);
    WithoutConcat(Raw(ls), rest);
    WithoutConcat(Typed(ls), rest);
    OnlyReplies(ls);
  }

  lemma {:induction false} OnlyReplies(ls: seq<Lights>)
    ensures WithoutReplies(Raw(ls)) == WithoutReplies(Typed(ls))
  {
    hide WithoutReplies;
    if ls != [] {
      var front, l := ls[..|ls| - 1], ls[|ls| - 1];
      OnlyReplies(front);
      WithoutConcat(Raw(front), l.Raw());
      WithoutConcat(Typed(front), l.Typed());
      WithoutConcat(l.k1 + [ACKNOWLEDGE], l.k2 + [ACKNOWLEDGE]);
      WithoutConcat(l.k1, [ACKNOWLEDGE]);
      WithoutConcat(l.k2, [ACKNOWLEDGE]);
      WithoutConcat(l.k1, l.k2);
      NoReply();
      assert WithoutReplies(l.k1) + [] == WithoutReplies(l.k1) && WithoutReplies(l.k2) + [] == WithoutReplies(l.k2);
    }
  }

  lemma NoReply()
    ensures WithoutReplies([ACKNOWLEDGE]) == []
  {
    assert [ACKNOWLEDGE][1..] == [];
  }

  lemma {:induction false} WithoutConcat(a: seq<byte>, b: seq<byte>)
    ensures WithoutReplies(a + b) == WithoutReplies(a) + WithoutReplies(b)
  {
    if a == [] {
      assert a + b == b;
    } else {
      WithoutConcat(a[1..], b);
      assert (a + b)[1..] == a[1..] + b;
      Assoc(if a[0] == ACKNOWLEDGE || a[0] == RESEND then [] else [a[0]], WithoutReplies(a[1..]), WithoutReplies(b));
    }
  }

  // ---------------------------------------------------------------- interrupts between the requests

  function WithoutAcks(bytes: seq<byte>): seq<byte> {
    if bytes == [] then [] else (if bytes[0] == ACKNOWLEDGE then [] else [bytes[0]]) + WithoutAcks(bytes[1..])
  }

  lemma {:induction false} WithoutAcksConcat(a: seq<byte>, b: seq<byte>)
    ensures WithoutAcks(a + b) == WithoutAcks(a) + WithoutAcks(b)
  {
    if a == [] {
      assert a + b == b;
    } else {
      WithoutAcksConcat(a[1..], b);
      assert (a + b)[1..] == a[1..] + b;
      Assoc(if a[0] == ACKNOWLEDGE then [] else [a[0]], WithoutAcks(a[1..]), WithoutAcks(b));
    }
  }

  lemma {:induction false} AcksAreReplies(bytes: seq<byte>)
    ensures WithoutReplies(WithoutAcks(bytes)) == WithoutReplies(bytes)
  {
    if bytes != [] {
      AcksAreReplies(bytes[1..]);
      var rest := WithoutAcks(bytes[1..]);
      if bytes[0] == ACKNOWLEDGE {
        assert [] + rest == rest;
        assert [] + WithoutReplies(bytes[1..]) == WithoutReplies(bytes[1..]);
      } else {
        assert ([bytes[0]] + rest)[1..] == rest;
      }
    }
  }

  /** Both acknowledgements of a request submitted now are behind at most three typed bytes, and come in time. */
  ghost predicate AcksAhead(p: Port) { exists l: Lights :: InTime(l, 0, p) && l.Raw() <= Stream(p, Keyboard) }

  /** Interrupts and lights requests in any order; the requests met online are answered in time. */
  ghost predicate Mixed(ops: seq<Op>, e: Env) {
    forall i :: 0 <= i < |ops| && ops[i].Request? ==>
      && (exists leds :: ops[i].program == LedProgram(leds))
      && (ops[i].offline || AcksAhead(Play(ops[..i], e).port))
  }

  ghost predicate AllAnswered(ops: seq<Op>, e: Env) {
    forall i :: 0 <= i < |ops| && ops[i].Request? && !ops[i].offline ==>
      Run(ops[i].program, ops[i].prefix, false, Play(ops[..i], e)).count == 4
  }

  /** A request takes its acknowledgements and leaves every other byte in its place. */
  lemma RequestInPlace(leds: byte, prefix: byte, e: Env)
    requires |e.port.queue| <= QUEUE_SIZE && AcksAhead(e.port)
    ensures var r := Run(LedProgram(leds), prefix, false, e);
      && r.count == 4
      && (r.env.port.overrun == e.port.overrun ==>
            WithoutAcks(Timeline(r.env, Keyboard)) == WithoutAcks(Timeline(e, Keyboard)))
  {
    hide Run, Delivered, Stream, Patience, PortWrites, Later, Roomy, Delayed, InTime, WithoutAcks;
    var l: Lights :| InTime(l, 0, e.port) && l.Raw() <= Stream(e.port, Keyboard);
    var s, before := Stream(e.port, Keyboard), Delivered(e.log, Keyboard);
    var rest := s[|l.Raw()|..];
    assert s == l.Raw() + rest;
    NothingDelayed(e.port);
    StillInTime(l, 0, e.port, e.port);
    TypingThroughLeds(leds, prefix, e, l.k1, l.k2, rest);
    AcksOut(before, l, rest);
  }

  lemma AcksOut(before: seq<byte>, l: Lights, rest: seq<byte>)
    ensures WithoutAcks(before + l.k1 + l.k2 + rest) == WithoutAcks(before + (l.Raw() + rest))
  {
    hide WithoutAcks;
    WithoutAcksConcat(before + l.k1 + l.k2, rest);
    WithoutAcksConcat(before + l.k1, l.k2);
    WithoutAcksConcat(before, l.k1);
    WithoutAcksConcat(before, l.Raw() + rest);
    WithoutAcksConcat(l.Raw(), rest);
    WithoutAcksConcat(l.k1 + [ACKNOWLEDGE], l.k2 + [ACKNOWLEDGE]);
    WithoutAcksConcat(l.k1, [ACKNOWLEDGE]);
    WithoutAcksConcat(l.k2, [ACKNOWLEDGE]);
    OneAck();
  }

  lemma OneAck()
    ensures WithoutAcks([ACKNOWLEDGE]) == []
  {
    assert [ACKNOWLEDGE][1..] == [];
  }

  lemma OpInPlace(op: Op, e: Env)
    requires |e.port.queue| <= QUEUE_SIZE
    requires op.Request? ==> (exists leds :: op.program == LedProgram(leds)) && (op.offline || AcksAhead(e.port))
    ensures op.Request? && !op.offline ==> Run(op.program, op.prefix, false, e).count == 4
    ensures Happens(op, e).port.overrun == e.port.overrun ==>
              WithoutAcks(Timeline(Happens(op, e), Keyboard)) == WithoutAcks(Timeline(e, Keyboard))
  {
    hide Run, Service, Timeline, AcksAhead, WithoutAcks, LedProgram;
    match op
    case Interrupt(offline) => if !offline { ServiceInPlace(e); }
    case Request(program, prefix, offline) =>
      if offline {
        RunOffline(program, prefix, e);
      } else {
        var leds :| program == LedProgram(leds);
        RequestInPlace(leds, prefix, e);
      }
  }

  lemma MixedFront(ops: seq<Op>, e: Env)
    requires ops != [] && Mixed(ops, e)
    ensures Mixed(ops[..|ops| - 1], e)
  {
    hide Play, AcksAhead, LedProgram;
    var front := ops[..|ops| - 1];
    forall i | 0 <= i < |front| && front[i].Request?
      ensures (exists leds :: front[i].program == LedProgram(leds))
              && (front[i].offline || AcksAhead(Play(front[..i], e).port))
    {
      assert front[..i] == ops[..i] && front[i] == ops[i];
    }
  }

  lemma AnsweredFront(ops: seq<Op>, e: Env)
    requires ops != [] && AllAnswered(ops[..|ops| - 1], e)
    requires var last := ops[|ops| - 1];
      last.Request? && !last.offline ==>
        Run(last.program, last.prefix, false, Play(ops[..|ops| - 1], e)).count == 4
    ensures AllAnswered(ops, e)
  {
    hide Play, Run;
    var front := ops[..|ops| - 1];
    forall i | 0 <= i < |ops| && ops[i].Request? && !ops[i].offline
      ensures Run(ops[i].program, ops[i].prefix, false, Play(ops[..i], e)).count == 4
    {
      if i < |front| { assert front[..i] == ops[..i] && front[i] == ops[i]; }
    }
  }

  lemma {:induction false} MixInPlace(ops: seq<Op>, e: Env)
    requires |e.port.queue| <= QUEUE_SIZE && Mixed(ops, e)
    ensures AllAnswered(ops, e)
    ensures Play(ops, e).port.overrun == e.port.overrun ==>
              WithoutAcks(Timeline(Play(ops, e), Keyboard)) == WithoutAcks(Timeline(e, Keyboard))
  {
    hide Happens, Timeline, AcksAhead, WithoutAcks, LedProgram, Later, Run, AllAnswered;
    if ops == [] {
      NothingAnswered(e);
    } else {
      var front, last := ops[..|ops| - 1], ops[|ops| - 1];
      var f, g := Play(front, e), Play(ops, e);
      MixedFront(ops, e);
      MixInPlace(front, e);
      PlayLater(front, e);
      QueueStays(e.port, f.port);
      OpLater(last, f);
      OpInPlace(last, f);
      AnsweredFront(ops, e);
      if g.port.overrun == e.port.overrun { SameOverrun(e.port, f.port, g.port); }
    }
  }

  lemma NothingAnswered(e: Env)
    ensures AllAnswered([], e)
  {
  }

  /** Any run of interrupts and lights requests in the middle of typing, each request submitted when its
      acknowledgements are behind at most three typed bytes. All are answered. If the full queue refuses nothing, what
      the driver has been handed and what is still to come are, but for acknowledgements, the stream of the keyboard,
      every byte in its place; and once nothing is to come any more, the driver has decoded the same keys as the raw
      stream holds. */
  lemma KeysThroughRuns(ops: seq<Op>, p: Port, c: nat)
    requires |p.queue| <= QUEUE_SIZE && Mixed(ops, Env(p, []))
    requires Roomy(p) || Play(ops, Env(p, [])).port.overrun == p.overrun
    ensures var g := Play(ops, Env(p, []));
      && AllAnswered(ops, Env(p, []))
      && WithoutAcks(Timeline(g, Keyboard)) == WithoutAcks(Stream(p, Keyboard))
      && (Stream(g.port, Keyboard) == [] ==> Decode(c, Delivered(g.log, Keyboard)) == Decode(c, Stream(p, Keyboard)))
  {
    hide Play, Stream, Mixed, AllAnswered, WithoutAcks, WithoutReplies, Decode, Later, Roomy;
    var e := Env(p, []);
    var g := Play(ops, e);
    PlayLater(ops, e);
    RoomyKeeps(p, g.port);
    MixInPlace(ops, e);
    assert Timeline(e, Keyboard) == [] + Stream(p, Keyboard) == Stream(p, Keyboard);
    if Stream(g.port, Keyboard) == [] {
      var handed := Delivered(g.log, Keyboard);
      assert Timeline(g, Keyboard) == handed + [] == handed;
      AcksAreReplies(handed);
      AcksAreReplies(Stream(p, Keyboard));
      RepliesAreSilent(c, handed);
      RepliesAreSilent(c, Stream(p, Keyboard));
    }
  }
}
