/** Which keys a read of the mouse moves past each other, said on what arrives during the read. */
module PS2Overtaking {
  import opened PS2Port
  import opened PS2Progress
  import opened PS2Sequences
  import opened PS2Streams
  import opened PS2MouseOrder

  /** A key that the reader polls while others are on the keyboard queue. */
  predicate Overtakes(x: Arrival) { x.src.Keyboard? && x.after.queue != [] }

  predicate NoneOvertakes(b: seq<Arrival>) { forall i :: 0 <= i < |b| ==> !Overtakes(b[i]) }

  /** Whoever overtakes stood behind the head of the queue. */
  ghost predicate Behind(p: Port, x: Arrival) {
    Overtakes(x) ==> IsSub([x.after.queue[0], x.data], Stream(p, Keyboard))
  }

  /** What the arrivals `b` do to the keys from `p` to `q`: nothing is reordered but by overtaking, and the queue
      only grows. */
  ghost predicate Ranks(p: Port, b: seq<Arrival>, q: Port) {
    && p.queue <= q.queue && IsSub(Stream(q, Keyboard), Stream(p, Keyboard))
    && (NoneOvertakes(b) ==> IsSub(Own(b, Keyboard) + Stream(q, Keyboard), Stream(p, Keyboard)))
    && forall i :: 0 <= i < |b| ==> b[i].after.queue <= q.queue && Behind(p, b[i])
  }

  // ---------------------------------------------------------------- one turn after the other

  /** A key taken off the port, with the queue left alone. */
  lemma KeyTaken(a: Port, s: seq<Poll>)
    requires s != [] && s[0].Ready? && s[0].src.Keyboard? && Bytes(s, Keyboard) == Bytes(a.script, Keyboard)
    ensures var q := a.(script := s[1..]);
      && IsSub(Stream(q, Keyboard), Stream(a, Keyboard))
      && (a.queue == [] ==> IsSub([s[0].data] + Stream(q, Keyboard), Stream(a, Keyboard)))
      && (a.queue != [] ==> IsSub([a.queue[0], s[0].data], Stream(a, Keyboard)))
  {
    hide Bytes, IsSub;
    var k, rest := [s[0].data], Bytes(s[1..], Keyboard);
    BytesStep(s, Keyboard);
    SubDrop(k, rest);
    SubLeft(a.queue, rest, k + rest);
    if a.queue == [] {
      assert [] + rest == rest && [] + (k + rest) == k + rest;
      SubRefl(k + rest);
    } else {
      var head := [a.queue[0]];
      assert a.queue == head + a.queue[1..];
      SubPrefix(head, a.queue[1..]);
      SubPrefix(k, rest);
      SubBoth(head, k, a.queue, k + rest);
      assert head + k == [a.queue[0], s[0].data];
    }
  }

  /** A turn that got something, `a` being the port once the lock was taken. */
  lemma GotRanks(p: Port, a: Port, s: seq<Poll>, x: Arrival)
    requires s != [] && s[0].Ready? && Bytes(s, Keyboard) == Bytes(a.script, Keyboard)
    requires x.src == s[0].src && x.data == s[0].data && x.after == a.(script := s[1..])
    requires p.queue <= a.queue && IsSub(Stream(a, Keyboard), Stream(p, Keyboard))
    ensures Ranks(p, [x], x.after)
  {
    hide IsSub, Stream, Bytes;
    OneOwn(x);
    assert forall i :: 0 <= i < |[x]| ==> [x][i] == x;
    assert NoneOvertakes([x]) ==> !Overtakes([x][0]);
    if x.src.Keyboard? {
      KeyTaken(a, s);
      SubTrans(Stream(x.after, Keyboard), Stream(a, Keyboard), Stream(p, Keyboard));
      if Overtakes(x) {
        SubTrans(Head(x), Stream(a, Keyboard), Stream(p, Keyboard));
      } else {
        SubTrans([x.data] + Stream(x.after, Keyboard), Stream(a, Keyboard), Stream(p, Keyboard));
      }
    } else {
      TakenInOrder(a, s, Keyboard);
      assert [] + Stream(x.after, Keyboard) == Stream(x.after, Keyboard);
    }
  }

  lemma FetchRanks(p: Port, idle: nat)
    ensures var f := Fetch(Mouse, p, idle);
      && IsSub(Stream(After(f), Keyboard), Stream(p, Keyboard))
      && (f.Got? ==> Ranks(p, [f.arrival], f.arrival.after))
  {
    hide Absorb, Wait, IsSub, Stream, Bytes, Ranks;
    var a, f := Absorb(p), Fetch(Mouse, p, idle);
    var (s, left) := Wait(a.script, idle);
    AbsorbKeeps(p, Keyboard);
    WaitKeeps(a.script, idle, Keyboard);
    FetchQueues(p, idle);
    if f.Got? {
      GotRanks(p, a, s, f.arrival);
      RanksDrops(p, [f.arrival], f.arrival.after);
    } else {
      Waited(a, s, Keyboard);
      assert [] + Stream(f.port, Keyboard) == Stream(f.port, Keyboard);
    }
  }

  lemma RanksDrops(p: Port, b: seq<Arrival>, q: Port)
    requires Ranks(p, b, q)
    ensures IsSub(Stream(q, Keyboard), Stream(p, Keyboard))
  {
  }

  lemma FetchQueues(p: Port, idle: nat)
    ensures p.queue <= After(Fetch(Mouse, p, idle)).queue
  {
    hide Fetch, Spent, IsSub;
    FetchPasses(p, idle);
  }

  lemma OneOwn(x: Arrival)
    ensures Own([x], Keyboard) == if x.src.Keyboard? then [x.data] else []
  {
    assert [x][1..] == [];
  }

  lemma RanksTwice(p: Port, b: seq<Arrival>, q: Port, c: seq<Arrival>, r: Port)
    requires Ranks(p, b, q) && Ranks(q, c, r)
    ensures Ranks(p, b + c, r)
  {
    hide IsSub, Stream, Own, Overtakes;
    SubTrans(Stream(r, Keyboard), Stream(q, Keyboard), Stream(p, Keyboard));
    if NoneOvertakes(b + c) { RanksOrder(p, b, q, c, r); }
    forall i | 0 <= i < |b + c| ensures (b + c)[i].after.queue <= r.queue && Behind(p, (b + c)[i]) {
      if i < |b| {
        assert (b + c)[i] == b[i];
      } else {
        var x := c[i - |b|];
        assert (b + c)[i] == x;
        if Overtakes(x) { SubTrans(Head(x), Stream(q, Keyboard), Stream(p, Keyboard)); }
      }
    }
  }

  ghost function Head(x: Arrival): seq<byte>
    requires Overtakes(x)
  {
    [x.after.queue[0], x.data]
  }

  lemma RanksOrder(p: Port, b: seq<Arrival>, q: Port, c: seq<Arrival>, r: Port)
    requires Ranks(p, b, q) && Ranks(q, c, r) && NoneOvertakes(b + c)
    ensures IsSub(Own(b + c, Keyboard) + Stream(r, Keyboard), Stream(p, Keyboard))
  {
    hide IsSub, Stream, Own, Overtakes;
    assert forall i :: 0 <= i < |b| ==> (b + c)[i] == b[i];
    assert forall i :: 0 <= i < |c| ==> (b + c)[|b| + i] == c[i];
    OwnConcat(b, c, Keyboard);
    var x, y := Own(b, Keyboard), Own(c, Keyboard) + Stream(r, Keyboard);
    SubLeft(x, y, Stream(q, Keyboard));
    Assoc(x, Own(c, Keyboard), Stream(r, Keyboard));
    SubTrans(x + y, x + Stream(q, Keyboard), Stream(p, Keyboard));
  }

  lemma {:induction false} ArrivalsRank(p: Port, idle: nat, t: nat)
    requires 0 < t <= |Arrivals(Mouse, p, idle)|
    ensures var a := Arrivals(Mouse, p, idle); Ranks(p, a[..t], a[t - 1].after)
    decreases p.Size()
  {
    hide Fetch, Ranks;
    var f, a := Fetch(Mouse, p, idle), Arrivals(Mouse, p, idle);
    FetchRanks(p, idle);
    var x, rest := f.arrival, Arrivals(Mouse, f.arrival.after, f.arrival.idle);
    assert a == [x] + rest && a[..t] == [x] + rest[..t - 1];
    if t > 1 {
      ArrivalsRank(x.after, x.idle, t - 1);
      RanksTwice(p, [x], x.after, rest[..t - 1], a[t - 1].after);
    } else {
      assert a[..t] == [x];
    }
  }

  lemma {:induction false} ExhaustedRanks(p: Port, idle: nat)
    ensures Ranks(p, Arrivals(Mouse, p, idle), Exhausted(Mouse, p, idle))
    decreases p.Size()
  {
    hide Fetch, Ranks;
    var f := Fetch(Mouse, p, idle);
    FetchRanks(p, idle);
    if f.Got? {
      var x := f.arrival;
      ExhaustedRanks(x.after, x.idle);
      RanksTwice(p, [x], x.after, Arrivals(Mouse, x.after, x.idle), Exhausted(Mouse, p, idle));
    } else {
      FetchQueues(p, idle);
      NothingRanks(p, f.port);
    }
  }

  lemma NothingRanks(p: Port, q: Port)
    requires p.queue <= q.queue && IsSub(Stream(q, Keyboard), Stream(p, Keyboard))
    ensures Ranks(p, [], q)
  {
    assert [] + Stream(q, Keyboard) == Stream(q, Keyboard);
  }

  lemma ReadRanks(expecting: bool, e: byte, p: Port)
    ensures Ranks(p, LookedAt(expecting, e, p), MouseRead(expecting, e, p).port)
  {
    hide Arrivals, Exhausted, MouseRead, LookedAt, Ranks, Delivered, Own;
    var b, q := LookedAt(expecting, e, p), MouseRead(expecting, e, p).port;
    MouseReadLooks(expecting, e, p);
    if b == Arrivals(Mouse, p, IDLE_BUDGET) && q == Exhausted(Mouse, p, IDLE_BUDGET) {
      ExhaustedRanks(p, IDLE_BUDGET);
    } else {
      ArrivalsRank(p, IDLE_BUDGET, |b|);
    }
  }

  // ---------------------------------------------------------------- exactly when the order is kept

  /** Different values stand in one order only. */
  lemma {:induction false} OneOrder<T>(s: seq<T>, x: T, y: T)
    requires Distinct(s) && IsSub([x, y], s)
    ensures !IsSub([y, x], s)
  {
    assert [x, y][1..] == [y] && [y, x][1..] == [x];
    if s != [] && IsSub([y, x], s) {
      var t := s[1..];
      assert s[0] !in t && Distinct(t);
      MemberOfSub([y], t, y);
      MemberOfSub([x], t, x);
      MemberOfSub([x, y], t, y);
      MemberOfSub([y, x], t, x);
      MemberOfSub([x, y], t, x);
      MemberOfSub([y, x], t, y);
      OneOrder(t, x, y);
    }
  }

  lemma {:induction false} MemberOfSub<T>(a: seq<T>, b: seq<T>, x: T)
    requires x in a
    ensures IsSub(a, b) ==> x in b
  {
    if IsSub(a, b) {
      if a[0] == b[0] && IsSub(a[1..], b[1..]) {
        if x != a[0] { MemberOfSub(a[1..], b[1..], x); }
      } else {
        MemberOfSub(a, b[1..], x);
      }
    }
  }

  lemma {:induction false} OwnHas(b: seq<Arrival>, i: nat)
    requires i < |b| && b[i].src.Keyboard?
    ensures IsSub([b[i].data], Own(b, Keyboard))
  {
    hide IsSub;
    assert b == b[..i] + ([b[i]] + b[i + 1..]);
    OwnConcat(b[..i], [b[i]] + b[i + 1..], Keyboard);
    OwnConcat([b[i]], b[i + 1..], Keyboard);
    OneOwn(b[i]);
    SubPrefix([b[i].data], Own(b[i + 1..], Keyboard));
    SubDrop(Own(b[..i], Keyboard), [b[i].data] + Own(b[i + 1..], Keyboard));
    SubTrans([b[i].data], [b[i].data] + Own(b[i + 1..], Keyboard), Own(b, Keyboard));
  }

  /** A read that polls keys only while none is queued keeps the order, whatever the keys are. */
  lemma NoneOvertakesInOrder(expecting: bool, e: byte, p: Port)
    ensures var b, r := LookedAt(expecting, e, p), MouseRead(expecting, e, p);
      && Delivered(r.events, Keyboard) == Own(b, Keyboard)
      && (NoneOvertakes(b) ==>
            IsSub(Delivered(r.events, Keyboard) + Stream(r.port, Keyboard), Stream(p, Keyboard)))
  {
    hide MouseRead, LookedAt, Leaves, Delivered, Own, IsSub, Stream, NoneOvertakes;
    ReadRanks(expecting, e, p);
    MouseReadLooks(expecting, e, p);
  }

  lemma OvertakingShows(p: Port, b: seq<Arrival>, q: Port, i: nat)
    requires Ranks(p, b, q) && i < |b| && Overtakes(b[i]) && Distinct(Stream(p, Keyboard))
    ensures !IsSub(Own(b, Keyboard) + Stream(q, Keyboard), Stream(p, Keyboard))
  {
    hide IsSub, Own, Bytes, Distinct;
    var k, h := b[i].data, q.queue[0];
    assert b[i].after.queue <= q.queue && Behind(p, b[i]);
    OneOrder(Stream(p, Keyboard), h, k);
    OwnHas(b, i);
    assert Stream(q, Keyboard) == [h] + Stream(q, Keyboard)[1..];
    SubPrefix([h], Stream(q, Keyboard)[1..]);
    SubBoth([k], [h], Own(b, Keyboard), Stream(q, Keyboard));
    assert [k] + [h] == [k, h];
    if IsSub(Own(b, Keyboard) + Stream(q, Keyboard), Stream(p, Keyboard)) {
      SubTrans([k, h], Own(b, Keyboard) + Stream(q, Keyboard), Stream(p, Keyboard));
    }
  }

  /** Either read of the mouse on keys that can be told apart: they stay in order exactly if the queue is empty
      whenever the reader polls a key. If the queue has room for whatever comes, exactly then each key even keeps
      its place. */
  lemma OvertakesExactly(expecting: bool, e: byte, p: Port)
    requires Distinct(Stream(p, Keyboard))
    ensures var b, r := LookedAt(expecting, e, p), MouseRead(expecting, e, p);
      var now := Delivered(r.events, Keyboard) + Stream(r.port, Keyboard);
      && (IsSub(now, Stream(p, Keyboard)) <==> NoneOvertakes(b))
      && (Roomy(p) ==> (now == Stream(p, Keyboard) <==> NoneOvertakes(b)))
  {
    hide MouseRead, LookedAt, Leaves, Delivered, Own, IsSub, Stream, Distinct, Overtakes, Ranks;
    var b, r := LookedAt(expecting, e, p), MouseRead(expecting, e, p);
    NoneOvertakesInOrder(expecting, e, p);
    ReadRanks(expecting, e, p);
    if !NoneOvertakes(b) {
      var i: nat :| i < |b| && Overtakes(b[i]);
      OvertakingShows(p, b, r.port, i);
    }
    SubRefl(Stream(p, Keyboard));
    if Roomy(p) { KeptInPlace(expecting, e, p); }
  }

  /** If the queue has room, a read that keeps the order keeps every key in its place. */
  lemma KeptInPlace(expecting: bool, e: byte, p: Port)
    requires Roomy(p)
    ensures var r := MouseRead(expecting, e, p);
      var now := Delivered(r.events, Keyboard) + Stream(r.port, Keyboard);
      IsSub(now, Stream(p, Keyboard)) <==> now == Stream(p, Keyboard)
  {
    hide MouseRead, Orderly, Passes, Delivered, IsSub, Bytes, Roomy, Spent;
    var r := MouseRead(expecting, e, p);
    MouseReadPasses(expecting, e, p);
    MouseReadLater(expecting, e, p);
    MouseReadKeepsOrder(expecting, e, p);
    OrderlyInPlace(p, r);
    SubRefl(Stream(p, Keyboard));
    if Orderly(p, r) {
      SpentFirst(p, r.port);
      var rest := Bytes(r.port.script, Keyboard);
      Assoc(Delivered(r.events, Keyboard), r.port.queue, rest);
      Assoc(p.queue, Spent(p, r.port), rest);
    }
  }

  lemma SpentFirst(p: Port, q: Port)
    requires Later(p, q)
    ensures Bytes(p.script, Keyboard) == Spent(p, q) + Bytes(q.script, Keyboard)
  {
    var n := |p.script| - |q.script|;
    assert p.script == p.script[..n] + q.script;
    BytesConcat(p.script[..n], q.script, Keyboard);
  }

  lemma MouseReadLater(expecting: bool, e: byte, p: Port)
    ensures Later(p, MouseRead(expecting, e, p).port)
    ensures Roomy(p) ==> MouseRead(expecting, e, p).port.overrun == p.overrun
  {
    hide PlainRead, ExpectRead, Roomy;
    ReadsLater(Mouse, e, p);
  }

  /** No interrupt is left to serve once the lock has been taken: the keys stay in order exactly if those that come
      before the answer commute with those on the queue. */
  lemma CommutesWithoutInterrupts(expecting: bool, e: byte, p: Port)
    requires Interrupting(Absorb(p).script) == 0
    ensures var a, r := Absorb(p), MouseRead(expecting, e, p);
      var polled := Own(LookedAt(expecting, e, p), Keyboard);
      && Delivered(r.events, Keyboard) == polled
      && (IsSub(polled + Stream(r.port, Keyboard), Stream(a, Keyboard)) <==> polled + a.queue == a.queue + polled)
  {
    hide MouseRead, LookedAt, Leaves, Delivered, Own, IsSub, Stream, Absorb, Spent, Interrupting;
    var a, r := Absorb(p), MouseRead(expecting, e, p);
    SameAtLock(expecting, e, p);
    MouseReadLooks(expecting, e, p);
    MouseReadLater(expecting, e, a);
    MouseReadPasses(expecting, e, a);
    assert r.port.queue == a.queue && r.port.overrun == a.overrun;
    CommutesWithQueue(expecting, e, p);
  }
}
