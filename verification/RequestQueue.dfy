/** Submitters, the work loop and synchronous callers share the request queue: every interleaving of their steps.
    Requests are named by numbers. A driver's interrupt routine never submits a synchronous request. */
module PS2RequestQueue {
  import opened PS2Sequences

  datatype Option<T> = None | Some(value: T)

  /** Who is inside the gate. `taken` says whether the queue has been moved to `local` yet, `mark` how many requests
      had been queued at that time. */
  datatype Gate = Free | Inside(sync: Option<nat>, taken: bool, local: seq<nat>, mark: nat)

  /** `entered` are the queued requests in the order in which their submitters got the lock, `drained` those of them
      that ran, `ran` all requests that ran, synchronous ones included. */
  datatype State = State(
    queue: seq<nat>, signalled: bool, signalling: set<nat>, gate: Gate,
    entered: seq<nat>, drained: seq<nat>, ran: seq<nat>, synchronous: set<nat>)

  const START := State([], false, {}, Free, [], [], [], {})

  datatype Step =
    | Enter(id: nat)      // submitRequest, under the lock
    | Signal(id: nat)     // submitRequest, after the lock
    | StartDrain          // the work loop answers the signal
    | StartSync(id: nat)  // submitRequestAndBlock, in the gate
    | Take                // processRequestQueue, under the lock
    | RunNext             // processRequestQueue, one request
    | RunSync             // the caller's own request
    | Leave               // the gate is left

  predicate Enabled(s: State, step: Step) {
    match step
    case Enter(id) => id !in s.entered && id !in s.synchronous
    case Signal(id) => id in s.signalling
    case StartDrain => s.signalled && s.gate.Free?
    case StartSync(id) => s.gate.Free? && id !in s.entered && id !in s.synchronous
    case Take => s.gate.Inside? && !s.gate.taken
    case RunNext => s.gate.Inside? && s.gate.taken && s.gate.local != []
    case RunSync => s.gate.Inside? && s.gate.taken && s.gate.local == [] && s.gate.sync.Some?
    case Leave => s.gate.Inside? && s.gate.taken && s.gate.local == [] && s.gate.sync.None?
  }

  function Next(s: State, step: Step): State
    requires Enabled(s, step)
  {
    match step
    case Enter(id) => s.(queue := s.queue + [id], entered := s.entered + [id], signalling := s.signalling + {id})
    case Signal(id) => s.(signalled := true, signalling := s.signalling - {id})
    case StartDrain => s.(signalled := false, gate := Inside(None, false, [], 0))
    case StartSync(id) => s.(gate := Inside(Some(id), false, [], 0), synchronous := s.synchronous + {id})
    case Take => s.(gate := s.gate.(taken := true, local := s.queue, mark := |s.entered|), queue := [])
    case RunNext =>
      s.(gate := s.gate.(local := s.gate.local[1..]),
         drained := s.drained + [s.gate.local[0]], ran := s.ran + [s.gate.local[0]])
    case RunSync => s.(gate := s.gate.(sync := None), ran := s.ran + [s.gate.sync.value])
    case Leave => s.(gate := Free)
  }

  function Local(s: State): seq<nat> { if s.gate.Inside? then s.gate.local else [] }

  /** Where every request is. */
  ghost predicate Accounted(s: State) {
    && s.entered == s.drained + Local(s) + s.queue
    && Distinct(s.entered)
    && (forall id :: id in s.entered ==> id !in s.synchronous)
    && Distinct(s.ran)
    && (forall id :: id in s.ran ==> id in s.drained || id in s.synchronous)
    && (forall id :: id in s.drained ==> id in s.ran)
  }

  /** A synchronous request has run, or its caller is in the gate. */
  ghost predicate SyncInv(s: State) {
    forall id :: id in s.synchronous ==> id in s.ran || (s.gate.Inside? && s.gate.sync == Some(id))
  }

  /** A queue that is not empty will be looked at. */
  ghost predicate Awake(s: State) {
    s.queue != [] ==> s.signalled || s.signalling != {} || (s.gate.Inside? && !s.gate.taken)
  }

  ghost predicate GateInv(s: State) {
    s.gate.Inside? ==>
      && (!s.gate.taken ==> s.gate.local == [])
      && (s.gate.taken ==> s.gate.mark == |s.drained| + |s.gate.local|)
      && (s.gate.sync.Some? ==> s.gate.sync.value in s.synchronous && s.gate.sync.value !in s.ran)
  }

  ghost predicate Inv(s: State) { Accounted(s) && Awake(s) && GateInv(s) && SyncInv(s) }

  lemma Appended(s: seq<nat>, x: nat)
    requires Distinct(s) && x !in s
    ensures Distinct(s + [x]) && forall y :: y in s + [x] <==> y in s || y == x
  {
  }

  lemma StepKeepsInv(s: State, step: Step)
    requires Inv(s) && Enabled(s, step)
    ensures Inv(Next(s, step))
  {
    var t := Next(s, step);
    match step
    case Enter(id) =>
      Appended(s.entered, id);
      assert t.entered == s.drained + Local(s) + s.queue + [id] == s.drained + Local(s) + t.queue;
    case Take =>
      assert t.entered == t.drained + Local(t) + t.queue;
    case RunNext => RunNextKeeps(s);
    case RunSync => Appended(s.ran, s.gate.sync.value);
    case Signal(_) =>
    case StartDrain =>
    case StartSync(_) =>
    case Leave =>
  }

  lemma RunNextKeeps(s: State)
    requires Inv(s) && Enabled(s, RunNext)
    ensures Inv(Next(s, RunNext))
  {
    hide Distinct;
    var x := s.gate.local[0];
    Moved(s.drained, s.gate.local, s.queue);
    FirstIsNew(s.drained, x, s.gate.local[1..] + s.queue);
    assert s.drained + [x] + (s.gate.local[1..] + s.queue) == s.entered;
    assert x in s.entered && x !in s.ran;
    Appended(s.ran, x);
  }

  lemma Moved(d: seq<nat>, local: seq<nat>, q: seq<nat>)
    requires local != []
    ensures d + local + q == d + [local[0]] + local[1..] + q == d + [local[0]] + (local[1..] + q)
  {
    assert local == [local[0]] + local[1..];
  }

  lemma FirstIsNew(d: seq<nat>, x: nat, r: seq<nat>)
    ensures x in d + [x] + r
    ensures Distinct(d + [x] + r) ==> x !in d
  {
    var s := d + [x] + r;
    assert s[|d|] == x && forall i :: 0 <= i < |d| ==> s[i] == d[i];
  }

  ghost predicate IsRun(steps: seq<Step>, states: seq<State>) {
    && |states| == |steps| + 1 && states[0] == START
    && forall k :: 0 <= k < |steps| ==> Enabled(states[k], steps[k]) && states[k + 1] == Next(states[k], steps[k])
  }

  lemma {:induction false} RunKeepsInv(steps: seq<Step>, states: seq<State>, n: nat)
    requires IsRun(steps, states) && n <= |steps|
    ensures Inv(states[n])
  {
    if n > 0 {
      RunKeepsInv(steps, states, n - 1);
      StepKeepsInv(states[n - 1], steps[n - 1]);
      assert states[n - 1 + 1] == states[n];
    }
  }

  /** Over every interleaving: no request runs twice, queued requests run in the order their submitters got the lock, a
      synchronous request has run once its caller has left the gate, and when nobody is about to signal, drain or run
      anything, every request has run. */
  lemma RunsOnceInOrder(steps: seq<Step>, states: seq<State>, n: nat)
    requires IsRun(steps, states) && n <= |steps|
    ensures var s := states[n];
      && Distinct(s.ran)
      && s.drained <= s.entered
      && (s.queue != [] ==> s.signalled || s.signalling != {} || (s.gate.Inside? && !s.gate.taken))
      && (forall id :: id in s.synchronous ==> id in s.ran || (s.gate.Inside? && s.gate.sync == Some(id)))
      && (!s.signalled && s.signalling == {} && s.gate.Free? ==>
            s.drained == s.entered && forall id :: id in s.entered || id in s.synchronous ==> id in s.ran)
  {
    RunKeepsInv(steps, states, n);
    var s := states[n];
    assert s.drained + Local(s) + s.queue == s.drained + (Local(s) + s.queue);
    if s.gate.Free? && s.queue == [] { assert s.drained + [] + [] == s.drained; }
  }

  /** `drained` are the requests of the queue that ran, in the order in which they ran. */
  lemma {:induction false} DrainedIsRan(steps: seq<Step>, states: seq<State>, n: nat)
    requires IsRun(steps, states) && n <= |steps|
    ensures states[n].drained == Queued(states[n].ran, states[n].synchronous)
  {
    if n > 0 {
      var s, step := states[n - 1], steps[n - 1];
      DrainedIsRan(steps, states, n - 1);
      RunKeepsInv(steps, states, n - 1);
      assert states[n - 1 + 1] == Next(s, step);
      if step.RunNext? {
        assert s.entered[|s.drained|] == s.gate.local[0];
        assert (s.ran + [s.gate.local[0]])[..|s.ran|] == s.ran;
      } else if step.RunSync? {
        assert (s.ran + [s.gate.sync.value])[..|s.ran|] == s.ran;
      } else if step.StartSync? {
        SameQueued(s.ran, s.synchronous, states[n].synchronous);
      }
    }
  }

  function Queued(ran: seq<nat>, synchronous: set<nat>): seq<nat> {
    if ran == [] then []
    else Queued(ran[..|ran| - 1], synchronous)
         + if ran[|ran| - 1] in synchronous then [] else [ran[|ran| - 1]]
  }

  lemma {:induction false} SameQueued(ran: seq<nat>, a: set<nat>, b: set<nat>)
    requires forall i :: 0 <= i < |ran| ==> (ran[i] in a <==> ran[i] in b)
    ensures Queued(ran, a) == Queued(ran, b)
  {
    if ran != [] { SameQueued(ran[..|ran| - 1], a, b); }
  }

  /** When a synchronous request runs, everything that was queued when its caller took the queue has run before it. */
  lemma SyncRunsLast(steps: seq<Step>, states: seq<State>, n: nat)
    requires IsRun(steps, states) && n < |steps| && steps[n].RunSync?
    ensures var s := states[n];
      && s.gate.mark <= |s.entered| && s.drained == s.entered[..s.gate.mark]
      && forall id :: id in s.drained ==> id in s.ran
  {
    RunKeepsInv(steps, states, n);
    var s := states[n];
    assert s.entered == s.drained + (Local(s) + s.queue);
  }

  /** The drain under way, with nobody else taking a step. */
  function RunLocal(s: State): State
    requires s.gate.Inside? && s.gate.taken
    decreases |Local(s)|
  {
    if s.gate.local == [] then s else RunLocal(Next(s, RunNext))
  }

  lemma Onward(a: seq<nat>, q: seq<nat>)
    requires q != []
    ensures a + [q[0]] + q[1..] == a + q
  {
    assert q == [q[0]] + q[1..];
  }

  lemma OneRun(s: State)
    requires s.gate.Inside? && s.gate.taken && s.gate.local != []
    ensures var x := s.gate.local[0];
      Next(s, RunNext) == s.(gate := s.gate.(local := s.gate.local[1..]), drained := s.drained + [x],
                             ran := s.ran + [x])
    ensures RunLocal(s) == RunLocal(Next(s, RunNext))
  {
  }

  lemma NoneRun(s: State)
    requires s.gate.Inside? && s.gate.taken && s.gate.local == []
    ensures RunLocal(s) == s && s.drained + [] == s.drained && s.ran + [] == s.ran
  {
  }

  lemma {:induction false} RunLocalRuns(s: State)
    requires s.gate.Inside? && s.gate.taken
    ensures RunLocal(s) == s.(gate := s.gate.(local := []), drained := s.drained + s.gate.local,
                              ran := s.ran + s.gate.local)
    decreases |Local(s)|
  {
    hide RunLocal, Next;
    var q := s.gate.local;
    if q == [] {
      NoneRun(s);
    } else {
      OneRun(s);
      RunLocalRuns(Next(s, RunNext));
      Onward(s.drained, q);
      Onward(s.ran, q);
    }
  }

  /** A signal is answered by one drain, which runs the whole queue, in order, and leaves no signal behind. */
  lemma DrainAnswersSignal(s: State)
    requires Enabled(s, StartDrain)
    ensures var t := RunLocal(Next(Next(s, StartDrain), Take));
      && Enabled(t, Leave)
      && Next(t, Leave) == s.(signalled := false, queue := [], drained := s.drained + s.queue, ran := s.ran + s.queue)
  {
    RunLocalRuns(Next(Next(s, StartDrain), Take));
  }
}
