/** Several drivers update the command byte, and what each of them takes for it may be anything that arrives: the
    answer of the controller, a key, or nothing. */
module PS2SharedCommandByte {
  import opened PS2Port
  import opened PS2Requests
  import opened PS2Sequences
  import opened PS2Writes
  import opened PS2CommandByte
  import opened PS2SetCommandByte
  import opened PS2CommandByteEcho

  /** What a request adds to the port writes. */
  predicate Adds(e: Env, f: Env, w: seq<Write>) {
    PortWrites(e.log) <= PortWrites(f.log) && PortWrites(f.log)[|PortWrites(e.log)|..] == w
  }

  lemma AddsWrites(e: Env, f: Env, w: seq<Write>)
    requires PortWrites(f.log) == PortWrites(e.log) + w
    ensures Adds(e, f, w)
  {
    hide PortWrites;
  }

  lemma ReadMeans(prefix: byte, e: Env)
    ensures var r := Run(ReadProgram(), prefix, false, e);
      |r.commands| == 2 && r.commands[1].inOrOut == First(e.port) && Adds(e, r.env, [Cmd(GET_COMMAND_BYTE)])
  {
    hide Run, PlainRead, PortWrites, Seen, ReadProgram, Adds;
    var r := PlainRead(Keyboard, e.port);
    ReadRunAny(prefix, e);
    PlainValue(e.port);
    WritingWrites(Cmd(GET_COMMAND_BYTE), e);
    ReadsWriteNothing(Keyboard, 0, e.port);
    ReadingWrites(r, AfterAsking(e));
    AddsWrites(e, Reading(r, AfterAsking(e)), [Cmd(GET_COMMAND_BYTE)]);
  }

  lemma CompareMeans(b: byte, new_: byte, prefix: byte, e: Env)
    ensures var r := Run(TestAndSetProgram(b, new_), prefix, false, e);
      if Finds(b, e.port)
      then r.count == 4 && Adds(e, r.env, [Cmd(GET_COMMAND_BYTE), Cmd(SET_COMMAND_BYTE), Data(new_)])
      else r.count == 1 && Adds(e, r.env, [Cmd(GET_COMMAND_BYTE)])
  {
    hide Run, ExpectRead, PortWrites, Seen, TestAndSetProgram, Adds;
    var r := ExpectRead(Keyboard, b, e.port);
    var f := Reading(r, AfterAsking(e));
    TestAndSetRunAny(b, new_, prefix, e);
    ExpectValue(b, e.port);
    WritingWrites(Cmd(GET_COMMAND_BYTE), e);
    ReadsWriteNothing(Keyboard, b, e.port);
    ReadingWrites(r, AfterAsking(e));
    AddsWrites(e, f, [Cmd(GET_COMMAND_BYTE)]);
    WritingWrites(Cmd(SET_COMMAND_BYTE), f);
    WritingWrites(Data(new_), Writing(Cmd(SET_COMMAND_BYTE), f));
    var all := [Cmd(GET_COMMAND_BYTE), Cmd(SET_COMMAND_BYTE), Data(new_)];
    assert [Cmd(GET_COMMAND_BYTE)] + [Cmd(SET_COMMAND_BYTE)] + [Data(new_)] == all;
    Assoc(PortWrites(e.log), [Cmd(GET_COMMAND_BYTE)], [Cmd(SET_COMMAND_BYTE)]);
    Assoc(PortWrites(e.log), [Cmd(GET_COMMAND_BYTE)] + [Cmd(SET_COMMAND_BYTE)], [Data(new_)]);
    AddsWrites(e, Writing(Data(new_), Writing(Cmd(SET_COMMAND_BYTE), f)), all);
  }

  /** What a request amounts to, whatever arrives. */
  lemma SubmitsMeans(masks: seq<Mask>, s: System, t: System, i: nat, prefix: byte, e: Env)
    requires |s.drivers| == |masks| && Submits(masks, s, t, i, prefix, e)
    ensures i < |masks| && !s.drivers[i].pc.Finished?
    ensures s.drivers[i].pc.Unread? ==>
              t == System(s.reg, s.drivers[i := s.drivers[i].(pc := Testing(First(e.port), |s.commits|))], s.commits)
    ensures s.drivers[i].pc.Testing? ==>
              t == if Finds(s.drivers[i].pc.seen, e.port)
                   then System(masks[i].Apply(s.drivers[i].pc.seen), s.drivers[i := s.drivers[i].(pc := Finished)],
                               s.commits + [i])
                   else System(s.reg, s.drivers[i := Driver(Unread, s.drivers[i].retries + 1)], s.commits)
  {
    hide Run, First, Finds, PortWrites, Mask.Apply, Register, ReadProgram, TestAndSetProgram;
    match s.drivers[i].pc
    case Finished =>
    case Unread =>
      ReadMeans(prefix, e);
      RegisterSet(0, s.reg);
    case Testing(seen, _) =>
      CompareMeans(seen, masks[i].Apply(seen), prefix, e);
      RegisterSet(masks[i].Apply(seen), s.reg);
  }

  // ---------------------------------------------------------------- every interleaving

  /** Which driver's request ran, behind which prefix, and what it met. */
  datatype Turn = Turn(who: nat, prefix: byte, env: Env)

  ghost predicate IsHistory(masks: seq<Mask>, run: seq<System>, turns: seq<Turn>) {
    && |run| == |turns| + 1 && Init(masks, run[0])
    && (forall k :: 0 <= k < |run| ==> |run[k].drivers| == |masks|)
    && forall k :: 0 <= k < |turns| ==>
         Submits(masks, run[k], run[k + 1], turns[k].who, turns[k].prefix, turns[k].env)
  }

  /** Turn `k` is the comparison of a driver, and finds the byte that the driver took for the register. */
  predicate Stores(run: seq<System>, turns: seq<Turn>, k: nat) {
    && k < |run| && k < |turns| && turns[k].who < |run[k].drivers|
    && run[k].drivers[turns[k].who].pc.Testing?
    && Finds(run[k].drivers[turns[k].who].pc.seen, turns[k].env.port)
  }

  /** At point `n` driver `i` is about to compare the byte it took at turn `j`, its last. */
  predicate Took(run: seq<System>, turns: seq<Turn>, j: nat, n: nat, i: nat) {
    && j < n < |run| && n <= |turns| && i < |run[j].drivers| && i < |run[n].drivers|
    && turns[j].who == i && run[j].drivers[i].pc.Unread?
    && (forall l :: j < l < n ==> turns[l].who != i)
    && run[n].drivers[i].pc.Testing? && run[n].drivers[i].pc.seen == First(turns[j].env.port)
  }

  lemma {:induction false} OwnRead(masks: seq<Mask>, run: seq<System>, turns: seq<Turn>, n: nat, i: nat)
    requires IsHistory(masks, run, turns) && n < |run| && i < |masks|
    ensures run[n].drivers[i].pc.Testing? ==> exists j: nat :: Took(run, turns, j, n, i)
  {
    hide Submits, First, Finds, Mask.Apply;
    if n > 0 {
      var m := n - 1;
      OwnRead(masks, run, turns, m, i);
      SubmitsMeans(masks, run[m], run[m + 1], turns[m].who, turns[m].prefix, turns[m].env);
      if run[n].drivers[i].pc.Testing? {
        if turns[m].who == i {
          assert Took(run, turns, m, n, i);
        } else {
          var j: nat :| Took(run, turns, j, m, i);
          assert Took(run, turns, j, n, i);
        }
      }
    }
  }

  /** Each turn of each driver, however they interleave: the register changes only in a turn whose comparison finds
      the byte, and then it becomes that byte with the driver's own bits set and cleared. The byte is the first that
      arrived at the driver's own last read. */
  lemma EachStoresItsEcho(masks: seq<Mask>, run: seq<System>, turns: seq<Turn>, k: nat)
    requires IsHistory(masks, run, turns) && k < |turns|
    ensures var s, t, i := run[k], run[k + 1], turns[k].who;
      && i < |masks|
      && (!Stores(run, turns, k) ==> t.reg == s.reg && t.commits == s.commits)
      && (Stores(run, turns, k) ==>
            && t.reg == masks[i].Apply(s.drivers[i].pc.seen) && t.commits == s.commits + [i]
            && exists j: nat :: Took(run, turns, j, k, i))
  {
    hide Submits, First, Finds, Mask.Apply, Took;
    SubmitsMeans(masks, run[k], run[k + 1], turns[k].who, turns[k].prefix, turns[k].env);
    OwnRead(masks, run, turns, k, turns[k].who);
  }

  /** In turn `k` the byte taken agrees with the register on the bits that the driver was not asked to change. */
  predicate Agrees(masks: seq<Mask>, run: seq<System>, turns: seq<Turn>, k: nat)
    requires k < |turns| && turns[k].who < |masks| && Stores(run, turns, k)
  {
    var i := turns[k].who;
    Outside(run[k].drivers[i].pc.seen, masks[i]) == Outside(run[k].reg, masks[i])
  }

  /** Every driver has finished exactly if its update has taken effect, and no update takes effect twice. */
  ghost predicate Once(masks: seq<Mask>, s: System) {
    && ValidCommits(masks, s.commits) && Distinct(s.commits) && |s.drivers| == |masks|
    && forall i :: 0 <= i < |masks| ==> (s.drivers[i].pc.Finished? <==> i in s.commits)
  }

  lemma {:induction false} AtMostOnce(masks: seq<Mask>, run: seq<System>, turns: seq<Turn>, n: nat)
    requires IsHistory(masks, run, turns) && n < |run|
    ensures Once(masks, run[n])
  {
    hide Submits, First, Finds, Mask.Apply;
    if n > 0 {
      var m := n - 1;
      AtMostOnce(masks, run, turns, m);
      SubmitsMeans(masks, run[m], run[m + 1], turns[m].who, turns[m].prefix, turns[m].env);
    }
  }

  /** The register is what the updates make of it, each applied once and whole, at every point up to `n`. */
  ghost predicate Folds(masks: seq<Mask>, run: seq<System>, n: nat)
    requires n < |run|
  {
    forall m :: 0 <= m <= n ==>
      ValidCommits(masks, run[m].commits) && run[m].reg == Value(run[0].reg, masks, run[m].commits)
  }

  ghost predicate AllAgree(masks: seq<Mask>, run: seq<System>, turns: seq<Turn>, n: nat)
    requires n <= |turns| && forall k :: 0 <= k < |turns| ==> turns[k].who < |masks|
  {
    forall k :: 0 <= k < n && Stores(run, turns, k) ==> Agrees(masks, run, turns, k)
  }

  lemma Whose(masks: seq<Mask>, run: seq<System>, turns: seq<Turn>)
    requires IsHistory(masks, run, turns)
    ensures |run| == |turns| + 1 && forall k :: 0 <= k < |turns| ==> turns[k].who < |masks|
  {
    hide Submits;
    forall k | 0 <= k < |turns| ensures turns[k].who < |masks| {
      SubmitsMeans(masks, run[k], run[k + 1], turns[k].who, turns[k].prefix, turns[k].env);
    }
  }

  /** Under every interleaving of any number of drivers, whatever they take for the register: it is the fold of the
      finished updates, at every point, exactly if every byte stored was made from one that agrees with the register
      on the bits that its driver was not asked to change. */
  lemma {:induction false} FoldsExactly(masks: seq<Mask>, run: seq<System>, turns: seq<Turn>, n: nat)
    requires IsHistory(masks, run, turns) && n <= |turns|
    ensures Once(masks, run[n])
    ensures forall k :: 0 <= k < |turns| ==> turns[k].who < |masks|
    ensures Folds(masks, run, n) <==> AllAgree(masks, run, turns, n)
  {
    hide IsHistory, Stores, Agrees, Value, Mask.Apply, Once;
    Whose(masks, run, turns);
    AtMostOnce(masks, run, turns, n);
    if n > 0 {
      FoldsExactly(masks, run, turns, n - 1);
      if Folds(masks, run, n - 1) { FoldsOn(masks, run, turns, n - 1); }
    } else {
      StartsFolded(masks, run, turns);
    }
  }

  lemma StartsFolded(masks: seq<Mask>, run: seq<System>, turns: seq<Turn>)
    requires IsHistory(masks, run, turns)
    ensures Folds(masks, run, 0)
  {
  }

  lemma FoldsOn(masks: seq<Mask>, run: seq<System>, turns: seq<Turn>, k: nat)
    requires IsHistory(masks, run, turns) && |run| == |turns| + 1
    requires k < |turns| && turns[k].who < |masks| && Folds(masks, run, k)
    ensures ValidCommits(masks, run[k + 1].commits)
    ensures run[k + 1].reg == Value(run[0].reg, masks, run[k + 1].commits)
            <==> (Stores(run, turns, k) ==> Agrees(masks, run, turns, k))
  {
    hide IsHistory, Stores, Value, Mask.Apply, Outside, Took;
    var s, i := run[k], turns[k].who;
    EachStoresItsEcho(masks, run, turns, k);
    assert ValidCommits(masks, s.commits) && s.reg == Value(run[0].reg, masks, s.commits);
    if Stores(run, turns, k) {
      StoresTested(run, turns, k);
      OneMoreCommit(run[0].reg, masks, s.commits, i);
      SameUpdate(masks[i], s.drivers[i].pc.seen, s.reg);
    }
  }

  lemma StoresTested(run: seq<System>, turns: seq<Turn>, k: nat)
    requires Stores(run, turns, k)
    ensures k < |run| && k < |turns| && turns[k].who < |run[k].drivers|
    ensures run[k].drivers[turns[k].who].pc.Testing?
  {
  }
}
