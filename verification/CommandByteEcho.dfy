/** Which byte `setCommandByte` takes for the register of the controller, in terms of the keyboard bytes that
    arrive: the controller's answers, but also anything typed meanwhile. */
module PS2CommandByteEcho {
  import opened PS2Port
  import opened PS2Progress
  import opened PS2Requests
  import opened PS2Sequences
  import opened PS2Streams
  import opened PS2Writes
  import opened PS2AckTransparency
  import opened PS2CommandByte
  import opened PS2SetCommandByte

  // ---------------------------------------------------------------- one turn, whatever arrives

  /** The keyboard bytes that a read sees before its budget runs out. */
  function Seen(p: Port): seq<byte> { Own(Arrivals(Keyboard, p, IDLE_BUDGET), Keyboard) }

  /** What the read of a turn takes for the register: the first of them, or 0. */
  function First(p: Port): byte { if Seen(p) == [] then 0 else Seen(p)[0] }

  /** The comparison of a turn finds the byte among the first four, or nothing arrives and it is 0. */
  predicate Finds(b: byte, p: Port) {
    var own := Seen(p);
    if own == [] then b == 0 else b in own[..if |own| < 4 then |own| else 4]
  }

  /** The outcome of a turn: what it takes for the register, and that it succeeds exactly if its comparison finds the
      same byte. */
  lemma TurnSees(m: Mask, prefix: byte, e: Env)
    ensures var t, q := Try(m, prefix, e), PlainRead(Keyboard, e.port).port;
      && t.seen == First(e.port)
      && (t.done <==> Finds(t.seen, q))
      && t.env.port == ExpectRead(Keyboard, t.seen, q).port
  {
    hide Run, PlainRead, ExpectRead, Arrivals;
    ReadRunAny(prefix, e);
    var read := Run(ReadProgram(), prefix, false, e);
    var b := read.commands[1].inOrOut;
    TestAndSetRunAny(b, m.Apply(b), prefix, read.env);
    PlainValue(e.port);
    ExpectValue(b, read.env.port);
  }

  lemma PlainValue(p: Port)
    ensures PlainRead(Keyboard, p).value == First(p)
  {
    hide Arrivals, Exhausted, Own, Through, Preempted;
  }

  lemma ExpectValue(b: byte, p: Port)
    ensures ExpectRead(Keyboard, b, p).value == b <==> Finds(b, p)
  {
    hide Arrivals, Exhausted, Own, Through, Preempted, LoseAll, SendAll;
    var own := Seen(p);
    var n, j := if |own| < 4 then |own| else 4, IndexOf(own, b);
    if j < n { assert own[..n][j] == b; }
    if b in own[..n] {
      var i :| 0 <= i < n && own[..n][i] == b;
      assert own[i] == b;
    }
  }

  /** A turn that does not find its byte has used up a byte that arrived. */
  lemma FailureUses(p: Port)
    ensures var q := PlainRead(Keyboard, p).port;
      !Finds(First(p), q) ==> ExpectRead(Keyboard, First(p), q).port.Size() < p.Size()
  {
    hide PlainRead, ExpectRead, Seen, First, Finds;
    var q := PlainRead(Keyboard, p).port;
    PlainValue(p);
    ExpectValue(First(p), q);
    PlainShrinks(Keyboard, p);
    ExpectShrinks(Keyboard, First(p), q);
  }

  /** The byte that the loop settles on: what the first turn takes whose comparison finds it. */
  function Settled(p: Port): byte
    decreases p.Size()
  {
    var b, q := First(p), PlainRead(Keyboard, p).port;
    FailureUses(p);
    if Finds(b, q) then b else Settled(ExpectRead(Keyboard, b, q).port)
  }

  lemma {:induction false} UpdateSettles(m: Mask, prefix: byte, e: Env)
    ensures LastSeen(m, prefix, e) == Settled(e.port)
    decreases e.port.Size()
  {
    hide Try, PlainRead, ExpectRead, Seen, First, Finds;
    var t := Try(m, prefix, e);
    TurnSees(m, prefix, e);
    FailureShrinks(m, prefix, e);
    FailureUses(e.port);
    if !t.done { UpdateSettles(m, prefix, t.env); }
  }

  // ---------------------------------------------------------------- bytes that arrive promptly

  function Few(n: nat): nat { if n < 5 then n else 5 }

  /** Wherever a reader stands, the next five keyboard bytes, or all that are left, come within its idle budget. */
  predicate Prompt(script: seq<Poll>) {
    forall i :: 0 <= i <= |script| ==> IdleTo(script[i..], Few(|Bytes(script[i..], Keyboard)|)) < IDLE_BUDGET
  }

  /** `Prompt` from the first poll on. */
  predicate PromptNow(script: seq<Poll>) { IdleTo(script, Few(|Bytes(script, Keyboard)|)) < IDLE_BUDGET }

  /** The calm side of a call: no queue overflow before it, and nobody dawdles. */
  predicate Fluent(p: Port) { |p.queue| <= QUEUE_SIZE && Prompt(p.script) }

  lemma FluentLater(p: Port, q: Port)
    requires Fluent(p) && Later(p, q)
    ensures Fluent(q)
  {
    var n := |p.script| - |q.script|;
    forall i | 0 <= i <= |q.script|
      ensures IdleTo(q.script[i..], Few(|Bytes(q.script[i..], Keyboard)|)) < IDLE_BUDGET
    {
      assert q.script[i..] == p.script[n + i..];
    }
  }

  /** A reader sees the bytes of the stream as they come: at least the next five, or all of them, and no others. */
  lemma SeesStream(p: Port)
    requires Fluent(p)
    ensures var own, s := Seen(p), Stream(p, Keyboard);
      && Few(|s|) <= |own| <= |s| && own[..Few(|s|)] == s[..Few(|s|)]
  {
    hide Arrivals, Own, Through, Patience, IdleTo, Stream, Bytes, Consumes;
    var s := Stream(p, Keyboard);
    var k := Few(|s|);
    if k > 0 {
      Affordable(p, k);
      assert s[..k][..k] == s[..k];
      SeesAhead(p, s[..k], k, IDLE_BUDGET);
    }
    ExhaustedConsumes(Keyboard, p, IDLE_BUDGET, Keyboard);
    NoMore(p, Seen(p), Exhausted(Keyboard, p, IDLE_BUDGET));
  }

  lemma Affordable(p: Port, k: nat)
    requires Fluent(p) && k == Few(|Stream(p, Keyboard)|)
    ensures Patience(p, k) < IDLE_BUDGET
  {
    hide IdleTo, Bytes;
    var m, n := if k <= |p.queue| then 0 else k - |p.queue|, Few(|Bytes(p.script, Keyboard)|);
    assert p.script[0..] == p.script;
    assert PromptNow(p.script[0..]);
    IdleToGrows(p.script, m, n);
  }

  lemma NoMore(p: Port, own: seq<byte>, q: Port)
    requires Consumes(p, own, q, Keyboard, true)
    ensures |own| <= |Stream(p, Keyboard)|
  {
    hide Pending, Stream, Polled, IsSub;
    SubLength(own + Stream(q, Keyboard), Stream(p, Keyboard));
  }

  // ---------------------------------------------------------------- one turn on a prompt stream

  lemma PlainTakes(p: Port)
    requires Fluent(p)
    ensures var r, s := PlainRead(Keyboard, p), Stream(p, Keyboard);
      && Later(p, r.port) && r.value == (if s == [] then 0 else s[0])
      && (r.port.overrun == p.overrun ==> Stream(r.port, Keyboard) == if s == [] then [] else s[1..])
  {
    hide Arrivals, Exhausted, Own, Through, Preempted, Stream, Consumes, Later, Fluent;
    var a, s := Arrivals(Keyboard, p, IDLE_BUDGET), Stream(p, Keyboard);
    var own, q := Seen(p), PlainRead(Keyboard, p).port;
    SeesStream(p);
    ReadsLater(Keyboard, 0, p);
    if s == [] {
      ExhaustedConsumes(Keyboard, p, IDLE_BUDGET, Keyboard);
      Rest(p, own, q);
    } else {
      assert own[0] == own[..Few(|s|)][0] == s[..Few(|s|)][0] == s[0];
      ThroughOwn(a, Keyboard, 1);
      ArrivalsConsume(Keyboard, p, IDLE_BUDGET, Through(a, Keyboard, 1), Keyboard);
      Rest(p, own[..1], q);
    }
  }

  lemma Rest(p: Port, own: seq<byte>, q: Port)
    requires Consumes(p, own, q, Keyboard, true) && Later(p, q)
    ensures |own| <= |Stream(p, Keyboard)|
    ensures q.overrun == p.overrun ==> Stream(q, Keyboard) == Stream(p, Keyboard)[|own|..]
  {
    hide Consumes, Stream, Later;
    NoMore(p, own, q);
    TakenExactly(p, own, q);
    if q.overrun == p.overrun { assert (own + Stream(q, Keyboard))[|own|..] == Stream(q, Keyboard); }
  }

  /** What the comparison uses up: everything up to the byte it looks for, or four bytes, or all there are. */
  function Compares(b: byte, s: seq<byte>): (n: nat)
    ensures n <= |s|
  {
    var j := IndexOf(s, b);
    if j < |s| && j < 4 then j + 1 else if |s| >= 4 then 4 else |s|
  }

  lemma SameIndex(own: seq<byte>, s: seq<byte>, b: byte)
    requires Few(|s|) <= |own| <= |s| && own[..Few(|s|)] == s[..Few(|s|)]
    ensures Compares(b, own) == Compares(b, s)
    ensures (IndexOf(own, b) < |own| && IndexOf(own, b) < 4) <==> (IndexOf(s, b) < |s| && IndexOf(s, b) < 4)
    ensures own == [] <==> s == []
  {
    var k := Few(|s|);
    assert forall i :: 0 <= i < k ==> own[i] == own[..k][i] == s[..k][i] == s[i];
  }

  lemma ExpectTakes(b: byte, p: Port)
    requires Fluent(p)
    ensures var r, s := ExpectRead(Keyboard, b, p), Stream(p, Keyboard);
      && Later(p, r.port)
      && (r.value == b <==> if s == [] then b == 0 else IndexOf(s, b) < |s| && IndexOf(s, b) < 4)
      && (r.port.overrun == p.overrun ==> Stream(r.port, Keyboard) == s[Compares(b, s)..])
  {
    hide Arrivals, Exhausted, Own, Through, Preempted, Stream, Consumes, Later, Fluent, SendAll, LoseAll;
    var a, s := Arrivals(Keyboard, p, IDLE_BUDGET), Stream(p, Keyboard);
    var own, q := Seen(p), ExpectRead(Keyboard, b, p).port;
    SeesStream(p);
    SameIndex(own, s, b);
    ReadsLater(Keyboard, b, p);
    var n, j := Compares(b, own), IndexOf(own, b);
    if (j < |own| && j < 4) || |own| >= 4 {
      ThroughOwn(a, Keyboard, n);
      ArrivalsConsume(Keyboard, p, IDLE_BUDGET, Through(a, Keyboard, n), Keyboard);
      Rest(p, own[..n], q);
    } else {
      ExhaustedConsumes(Keyboard, p, IDLE_BUDGET, Keyboard);
      Rest(p, own, q);
    }
  }

  // ---------------------------------------------------------------- the loop on the bytes that arrive

  /** The first byte comes again among the next four. */
  predicate Repeats(s: seq<byte>) { s != [] && IndexOf(s[1..], s[0]) < |s| - 1 && IndexOf(s[1..], s[0]) < 4 }

  /** The byte the loop settles on. It looks at five bytes at a time; the first that comes again within its five
      counts. If the bytes run out first, the loop settles on the zero of a read that timed out. */
  function Echo(s: seq<byte>): byte {
    if Repeats(s) then s[0] else if |s| < 5 then 0 else Echo(s[5..])
  }

  lemma TurnTakes(m: Mask, prefix: byte, e: Env)
    requires Fluent(e.port) && Try(m, prefix, e).env.port.overrun == e.port.overrun
    ensures var t, s := Try(m, prefix, e), Stream(e.port, Keyboard);
      && t.seen == (if s == [] then 0 else s[0])
      && (t.done <==> Repeats(s) || s == [] || s == [0])
      && (!Repeats(s) ==> Stream(t.env.port, Keyboard) == if |s| < 5 then [] else s[5..])
  {
    hide Try, PlainRead, ExpectRead, Fluent, Later, Stream, Arrivals;
    var t, s := Try(m, prefix, e), Stream(e.port, Keyboard);
    var q := PlainRead(Keyboard, e.port).port;
    TurnSees(m, prefix, e);
    PlainValue(e.port);
    PlainTakes(e.port);
    FluentLater(e.port, q);
    ExpectTakes(t.seen, q);
    ExpectValue(t.seen, q);
    SameOverrun(e.port, q, t.env.port);
    if s != [] && !Repeats(s) {
      var n := Compares(s[0], s[1..]);
      assert s[1..][n..] == s[n + 1..];
    }
  }

  lemma TryLater(m: Mask, prefix: byte, e: Env)
    ensures Later(e.port, Try(m, prefix, e).env.port)
  {
    hide Try, PlainRead, ExpectRead, Later, Arrivals;
    var t := Try(m, prefix, e);
    var q := PlainRead(Keyboard, e.port).port;
    TurnSees(m, prefix, e);
    ReadsLater(Keyboard, 0, e.port);
    ReadsLater(Keyboard, t.seen, q);
    LaterTwice(e.port, q, t.env.port);
  }

  lemma {:induction false} UpdateLater(m: Mask, prefix: byte, e: Env)
    ensures Later(e.port, Update(m, prefix, e).port)
    decreases e.port.Size()
  {
    hide Try, Later;
    var t := Try(m, prefix, e);
    TryLater(m, prefix, e);
    FailureShrinks(m, prefix, e);
    if !t.done {
      UpdateLater(m, prefix, t.env);
      LaterTwice(e.port, t.env.port, Update(m, prefix, e).port);
    }
  }

  /** The byte that a call takes for the register is the echo of the bytes that arrive. */
  lemma {:induction false} UpdateEchoes(m: Mask, prefix: byte, e: Env)
    requires Fluent(e.port) && Update(m, prefix, e).port.overrun == e.port.overrun
    ensures LastSeen(m, prefix, e) == Echo(Stream(e.port, Keyboard))
    decreases e.port.Size()
  {
    hide Try, Later, Fluent, Stream, Repeats;
    var t, s := Try(m, prefix, e), Stream(e.port, Keyboard);
    TryLater(m, prefix, e);
    FailureShrinks(m, prefix, e);
    NothingRepeats();
    if t.done {
      NoLater(t.env.port);
      TurnTakes(m, prefix, e);
    } else {
      UpdateLater(m, prefix, t.env);
      SameOverrun(e.port, t.env.port, Update(m, prefix, e).port);
      TurnTakes(m, prefix, e);
      FluentLater(e.port, t.env.port);
      UpdateEchoes(m, prefix, t.env);
    }
  }

  lemma NothingRepeats()
    ensures !Repeats([]) && Echo([]) == 0
  {
  }

  // ---------------------------------------------------------------- which bits the call leaves alone

  /** The bits that the call was not asked to change. */
  function Outside(b: byte, m: Mask): byte { b & !(m.setBits | m.clearBits) }

  /** The new byte has the bits outside from the old one and the others from the call. */
  lemma UpdateParts(m: Mask, a: byte)
    ensures Outside(m.Apply(a), m) == Outside(a, m)
    ensures m.Apply(a) == Outside(a, m) | (m.setBits & !m.clearBits)
  {
  }

  lemma SameUpdate(m: Mask, a: byte, b: byte)
    ensures m.Apply(a) == m.Apply(b) <==> Outside(a, m) == Outside(b, m)
  {
    hide Outside, Mask.Apply;
    UpdateParts(m, a);
    UpdateParts(m, b);
  }

  /** A register `reg` ends with the given bits set and cleared and all others as they were exactly if the byte that
      the loop settles on agrees with it on those others, whatever arrives and when. If it arrives promptly and the
      full queue refuses none, that byte is the echo of what arrives. */
  lemma TouchesOnlyItsBits(m: Mask, prefix: byte, e: Env, reg: byte)
    ensures var now, b := Register(PortWrites(Update(m, prefix, e).log), reg, false), Settled(e.port);
      && now == m.Apply(b)
      && (now == m.Apply(reg) <==> Outside(b, m) == Outside(reg, m))
      && (Fluent(e.port) && Update(m, prefix, e).port.overrun == e.port.overrun ==>
            b == Echo(Stream(e.port, Keyboard)))
  {
    hide PortWrites, Update, LastSeen, Fluent, Stream, Echo, Outside, Settled;
    UpdateSets(m, prefix, e, reg);
    UpdateSettles(m, prefix, e);
    SameUpdate(m, Settled(e.port), reg);
    if Fluent(e.port) && Update(m, prefix, e).port.overrun == e.port.overrun { UpdateEchoes(m, prefix, e); }
  }

  /** A call that has room on the queue for every key meets the condition on refused bytes. */
  lemma RoomySuffices(m: Mask, prefix: byte, e: Env)
    requires Roomy(e.port)
    ensures Update(m, prefix, e).port.overrun == e.port.overrun
  {
    hide Update, Roomy;
    UpdateLater(m, prefix, e);
    RoomyKeeps(e.port, Update(m, prefix, e).port);
  }

  /** The controller answers both questions of a turn with its register, and what is typed comes after: all is well. */
  lemma AnsweredEcho(reg: byte, typed: seq<byte>)
    ensures Echo([reg, reg] + typed) == reg
  {
    var s := [reg, reg] + typed;
    assert s[1..] == [reg] + typed;
  }

  /** All is not well when a key is pressed and repeated before the answers: its scan code becomes the command byte. */
  lemma KeyTakenForRegister(prefix: byte, log: seq<Event>)
    ensures var key, answer := Ready(Keyboard, 0x1C, false), Ready(Keyboard, 0x47, false);
      var e, m := Env(Port([key, key, answer, answer], [], []), log), Mask(0x41, 0x10);
      && Register(PortWrites(Update(m, prefix, e).log), 0x47, false) == 0x4D
      && m.Apply(0x47) == 0x47
  {
    hide PortWrites, Update, Roomy, Fluent;
    var key, answer := Ready(Keyboard, 0x1C, false), Ready(Keyboard, 0x47, false);
    var e, m := Env(Port([key, key, answer, answer], [], []), log), Mask(0x41, 0x10);
    AllPolled(e.port);
    FourKeys(e.port, 0x1C, 0x1C, 0x47, 0x47);
    RoomySuffices(m, prefix, e);
    TouchesOnlyItsBits(m, prefix, e, 0x47);
    assert Stream(e.port, Keyboard) == [0x1C, 0x1C] + [0x47, 0x47];
    AnsweredEcho(0x1C, [0x47, 0x47]);
  }

  lemma FourKeys(p: Port, a: byte, b: byte, c: byte, d: byte)
    requires p.queue == [] && |p.script| == 4
    requires p.script == [Ready(Keyboard, a, false), Ready(Keyboard, b, false),
                          Ready(Keyboard, c, false), Ready(Keyboard, d, false)]
    ensures Stream(p, Keyboard) == [a, b, c, d]
  {
    var s := p.script;
    assert s[1..][1..] == s[2..] && s[2..][1..] == s[3..] && s[3..][1..] == [];
    assert Bytes(s[3..], Keyboard) == [d];
    assert Bytes(s[2..], Keyboard) == [c] + [d];
    assert Bytes(s[1..], Keyboard) == [b] + [c, d];
  }

  /** A script on which every poll shows a byte, none of them by interrupt. */
  lemma AllPolled(p: Port)
    requires p.queue == [] && forall i :: 0 <= i < |p.script| ==> p.script[i].Ready? && !p.script[i].irq
    ensures Roomy(p) && Fluent(p)
  {
    NoneInterrupting(p.script);
    forall i | 0 <= i <= |p.script|
      ensures IdleTo(p.script[i..], Few(|Bytes(p.script[i..], Keyboard)|)) < IDLE_BUDGET
    {
      NoIdling(p.script[i..], Few(|Bytes(p.script[i..], Keyboard)|));
    }
  }

  lemma {:induction false} NoneInterrupting(script: seq<Poll>)
    requires forall i :: 0 <= i < |script| ==> script[i].Ready? && !script[i].irq
    ensures Interrupting(script) == 0
  {
    if script != [] { NoneInterrupting(script[1..]); }
  }

  lemma {:induction false} NoIdling(script: seq<Poll>, n: nat)
    requires forall i :: 0 <= i < |script| ==> script[i].Ready?
    ensures IdleTo(script, n) == 0
    decreases |script|
  {
    if n > 0 && script != [] { NoIdling(script[1..], if script[0].src.Keyboard? then n - 1 else n); }
  }
}
