/** The work loop looks at the port status under the lock but reads a mouse byte after dropping it. The devices
    and the keyboard interrupt handler may run in between. Every interleaving of their steps with those of
    `interruptOccurred`. */
module PS2InterruptRace {
  import opened PS2Port
  import opened PS2Sequences

  datatype Buffer = Empty | Full(src: Device, data: byte)

  /** Where the work loop is: outside, waiting for the lock, holding it, about to read what it took for a mouse byte,
      or about to hand over a byte. */
  datatype Pc = Idle | Locking | Locked | SawMouse | Sending(dev: Device, data: byte)

  /** The controller's one-byte output buffer, the keyboard queue, the work loop; what each device sent, what each
      driver was handed, what the full queue refused. */
  datatype State = State(
    buffer: Buffer, queue: seq<byte>, pc: Pc, keyboardSignal: bool, mouseSignal: bool,
    keySent: seq<byte>, mouseSent: seq<byte>, keyGot: seq<byte>, mouseGot: seq<byte>, refused: seq<byte>)

  const START := State(Empty, [], Idle, false, false, [], [], [], [], [])

  datatype Step =
    | DeviceSends(src: Device, data: byte)
    | KeyboardInterrupt   // interruptHandlerKeyboard, all of it under the lock
    | Wake                // the work loop calls interruptOccurred
    | Lock
    | Look                // under the lock: queue first, then the status register; the lock is dropped
    | ReadMouse           // the data port is read without the lock
    | Dispatch

  predicate Enabled(s: State, step: Step) {
    match step
    case DeviceSends(_, _) => s.buffer.Empty?
    case KeyboardInterrupt => !s.pc.Locked?
    case Wake => s.pc.Idle? && (s.keyboardSignal || s.mouseSignal)
    case Lock => s.pc.Locking?
    case Look => s.pc.Locked?
    case ReadMouse => s.pc.SawMouse?
    case Dispatch => s.pc.Sending?
  }

  /** Reading the data port empties the buffer; an empty buffer reads as zero. */
  function PortData(b: Buffer): byte { if b.Full? then b.data else 0 }

  function Next(s: State, step: Step): State
    requires Enabled(s, step)
  {
    match step
    case DeviceSends(src, data) =>
      if src.Mouse? then s.(buffer := Full(src, data), mouseSent := s.mouseSent + [data])
      else s.(buffer := Full(src, data), keySent := s.keySent + [data])
    case KeyboardInterrupt =>
      if s.buffer.Empty? then s
      else if s.buffer.src.Mouse? then s.(mouseSignal := true)
      else if |s.queue| < QUEUE_SIZE then
        s.(buffer := Empty, queue := s.queue + [s.buffer.data], keyboardSignal := true)
      else
        s.(buffer := Empty, refused := s.refused + [s.buffer.data], keyboardSignal := true)
    case Wake => s.(pc := Locking, keyboardSignal := false, mouseSignal := false)
    case Lock => s.(pc := Locked)
    case Look =>
      if s.queue != [] then s.(queue := s.queue[1..], pc := Sending(Keyboard, s.queue[0]))
      else if s.buffer.Full? && s.buffer.src.Mouse? then s.(pc := SawMouse)
      else s.(pc := Idle)
    case ReadMouse => s.(buffer := Empty, pc := Sending(Mouse, PortData(s.buffer)))
    case Dispatch =>
      if s.pc.dev.Mouse? then s.(pc := Locking, mouseGot := s.mouseGot + [s.pc.data])
      else s.(pc := Locking, keyGot := s.keyGot + [s.pc.data])
  }

  /** A byte of stream `d` in the work loop's hands, and one in the buffer. */
  function InHand(s: State, d: Device): seq<byte> { if s.pc.Sending? && s.pc.dev == d then [s.pc.data] else [] }

  function Buffered(s: State, d: Device): seq<byte> {
    if s.buffer.Full? && s.buffer.src == d then [s.buffer.data] else []
  }

  /** Keyboard bytes handed over or on their way, oldest first. */
  function Keys(s: State): seq<byte> { s.keyGot + (InHand(s, Keyboard) + (s.queue + Buffered(s, Keyboard))) }

  ghost predicate MouseInv(s: State) {
    && (s.pc.SawMouse? ==> s.buffer.Full? && s.buffer.src.Mouse?)
    && s.mouseSent == s.mouseGot + InHand(s, Mouse) + Buffered(s, Mouse)
  }

  ghost predicate KeyInv(s: State) {
    IsSub(Keys(s), s.keySent) && multiset(s.keySent) == multiset(Keys(s)) + multiset(s.refused)
  }

  lemma Extend(a: seq<byte>, b: seq<byte>, x: byte)
    requires IsSub(a, b)
    ensures IsSub(a + [x], b + [x]) && IsSub(a, b + [x])
  {
    SubRight(a, b, [x]);
    SubPrefix(b, [x]);
    SubTrans(a, b, b + [x]);
  }

  /** Leaving out the last element. */
  lemma Shorten(a: seq<byte>, x: byte, b: seq<byte>)
    requires IsSub(a + [x], b)
    ensures IsSub(a, b)
  {
    SubPrefix(a, [x]);
    SubTrans(a, a + [x], b);
  }

  lemma StepKeepsMouse(s: State, step: Step)
    requires MouseInv(s) && Enabled(s, step)
    ensures MouseInv(Next(s, step))
  {
  }

  lemma StepKeepsKeys(s: State, step: Step)
    requires MouseInv(s) && KeyInv(s) && Enabled(s, step)
    ensures KeyInv(Next(s, step))
  {
    hide IsSub, Keys;
    if step.DeviceSends? && step.src.Keyboard? {
      SentKey(s, step.data);
      KeyArrives(s, Next(s, step), step.data);
    } else if step.KeyboardInterrupt? && s.buffer.Full? && s.buffer.src.Keyboard? && |s.queue| >= QUEUE_SIZE {
      RefusedKey(s);
      KeyRefused(s, Next(s, step), s.buffer.data);
    } else {
      SameKeys(s, step);
    }
  }

  lemma KeyArrives(s: State, t: State, x: byte)
    requires KeyInv(s) && t.keySent == s.keySent + [x] && t.refused == s.refused && Keys(t) == Keys(s) + [x]
    ensures KeyInv(t)
  {
    hide IsSub, Keys;
    Extend(Keys(s), s.keySent, x);
    assert multiset(s.keySent + [x]) == multiset(s.keySent) + multiset{x};
    assert multiset(Keys(s) + [x]) == multiset(Keys(s)) + multiset{x};
  }

  lemma KeyRefused(s: State, t: State, x: byte)
    requires KeyInv(s) && t.keySent == s.keySent && t.refused == s.refused + [x] && Keys(s) == Keys(t) + [x]
    ensures KeyInv(t)
  {
    hide IsSub, Keys;
    Shorten(Keys(t), x, s.keySent);
    assert multiset(Keys(t) + [x]) == multiset(Keys(t)) + multiset{x};
    assert multiset(s.refused + [x]) == multiset(s.refused) + multiset{x};
  }

  lemma SentKey(s: State, x: byte)
    requires s.buffer.Empty?
    ensures Keys(Next(s, DeviceSends(Keyboard, x))) == Keys(s) + [x]
  {
  }

  lemma RefusedKey(s: State)
    requires Enabled(s, KeyboardInterrupt) && s.buffer.Full? && s.buffer.src.Keyboard? && |s.queue| >= QUEUE_SIZE
    ensures Keys(s) == Keys(Next(s, KeyboardInterrupt)) + [s.buffer.data]
  {
  }

  lemma SameKeys(s: State, step: Step)
    requires MouseInv(s) && Enabled(s, step)
    requires !(step.DeviceSends? && step.src.Keyboard?)
    requires step.KeyboardInterrupt? && s.buffer.Full? && s.buffer.src.Keyboard? ==> |s.queue| < QUEUE_SIZE
    ensures var t := Next(s, step); Keys(t) == Keys(s) && t.keySent == s.keySent && t.refused == s.refused
  {
    var t, none: seq<byte> := Next(s, step), [];
    var ahead := s.queue + Buffered(s, Keyboard);
    match step
    case KeyboardInterrupt =>
      assert t.queue + Buffered(t, Keyboard) == ahead;
    case Look =>
      if s.queue != [] {
        assert s.queue == [s.queue[0]] + s.queue[1..];
        Assoc([s.queue[0]], s.queue[1..], Buffered(s, Keyboard));
        assert none + ahead == ahead;
      }
    case Dispatch =>
      if s.pc.dev.Keyboard? {
        Assoc(s.keyGot, [s.pc.data], ahead);
        assert none + ahead == ahead;
      }
    case _ =>
  }

  ghost predicate IsRun(steps: seq<Step>, states: seq<State>) {
    && |states| == |steps| + 1 && states[0] == START
    && forall k :: 0 <= k < |steps| ==> Enabled(states[k], steps[k]) && states[k + 1] == Next(states[k], steps[k])
  }

  lemma {:induction false} RunKeepsInv(steps: seq<Step>, states: seq<State>, n: nat)
    requires IsRun(steps, states) && n <= |steps|
    ensures MouseInv(states[n]) && KeyInv(states[n])
  {
    if n > 0 {
      RunKeepsInv(steps, states, n - 1);
      StepKeepsMouse(states[n - 1], steps[n - 1]);
      StepKeepsKeys(states[n - 1], steps[n - 1]);
      assert states[n - 1 + 1] == states[n];
    }
  }

  /** However the steps interleave: the byte read without the lock is the mouse byte that was seen, the mouse driver has
      been handed everything the mouse sent but for the byte still on its way, and the keyboard driver a subsequence of
      what the keyboard sent, short of it only by bytes the full queue refused. */
  lemma NoByteGoesAstray(steps: seq<Step>, states: seq<State>, n: nat)
    requires IsRun(steps, states) && n <= |steps|
    ensures var s := states[n];
      && (s.pc.SawMouse? ==> s.buffer.Full? && s.buffer.src.Mouse?)
      && s.mouseGot <= s.mouseSent && |s.mouseSent| <= |s.mouseGot| + 2
      && (s.buffer.Empty? && !s.pc.Sending? ==> s.mouseGot == s.mouseSent)
      && IsSub(s.keyGot, s.keySent)
      && (s.refused == [] ==> s.keyGot <= s.keySent)
      && (s.refused == [] && s.buffer.Empty? && !s.pc.Sending? && s.queue == [] ==> s.keyGot == s.keySent)
  {
    hide IsSub;
    RunKeepsInv(steps, states, n);
    var s := states[n];
    Assoc(s.mouseGot, InHand(s, Mouse), Buffered(s, Mouse));
    SubPrefix(s.keyGot, InHand(s, Keyboard) + (s.queue + Buffered(s, Keyboard)));
    SubTrans(s.keyGot, Keys(s), s.keySent);
    if s.refused == [] {
      assert |multiset(s.keySent)| == |multiset(Keys(s))|;
      SubWhole(Keys(s), s.keySent);
    }
  }

  // ---------------------------------------------------------------- nothing is left lying

  /** A queued key that the work loop does not know of has a signal pending. */
  lemma {:induction false} KeysAttended(steps: seq<Step>, states: seq<State>, n: nat)
    requires IsRun(steps, states) && n <= |steps|
    ensures states[n].pc.Idle? && states[n].queue != [] ==> states[n].keyboardSignal
  {
    if n > 0 {
      KeysAttended(steps, states, n - 1);
      assert states[n - 1 + 1] == states[n];
    }
  }

  lemma {:induction false} SentGrows(steps: seq<Step>, states: seq<State>, k: nat, n: nat)
    requires IsRun(steps, states) && k <= n <= |steps|
    ensures states[k].mouseSent <= states[n].mouseSent
    decreases n - k
  {
    if k < n {
      SentGrows(steps, states, k, n - 1);
      assert states[n - 1 + 1] == states[n];
    }
  }

  /** So has a mouse byte whose interrupt was taken at step `k`, for as long as the byte is in the buffer. */
  lemma {:induction false} MouseAttended(steps: seq<Step>, states: seq<State>, k: nat, n: nat)
    requires IsRun(steps, states) && k < n <= |steps| && steps[k].KeyboardInterrupt?
    requires states[k].buffer.Full? && states[k].buffer.src.Mouse?
    requires states[n].buffer.Full? && states[n].buffer.src.Mouse? && states[n].mouseSent == states[k].mouseSent
    ensures states[n].pc.Idle? ==> states[n].mouseSignal
    decreases n
  {
    assert states[n - 1 + 1] == states[n];
    assert Enabled(states[n - 1], steps[n - 1]);
    if k < n - 1 {
      SentGrows(steps, states, k, n - 1);
      SentGrows(steps, states, n - 1, n);
      MouseAttended(steps, states, k, n - 1);
    }
  }

  /** Once the work loop has the lock it hands over the oldest queued key, or, with none queued, the mouse byte in the
      buffer, and then looks again; with neither it goes back to rest. */
  lemma LockedServes(s: State)
    requires s.pc.Locked?
    ensures s.queue != [] ==>
              var t := Next(Next(s, Look), Dispatch);
              t.pc.Locking? && t.keyGot == s.keyGot + [s.queue[0]] && t.queue == s.queue[1..] && t.buffer == s.buffer
    ensures s.queue == [] && s.buffer.Full? && s.buffer.src.Mouse? ==>
              var t := Next(Next(Next(s, Look), ReadMouse), Dispatch);
              t.pc.Locking? && t.mouseGot == s.mouseGot + [s.buffer.data] && t.buffer.Empty?
    ensures s.queue == [] && !(s.buffer.Full? && s.buffer.src.Mouse?) ==> Next(s, Look) == s.(pc := Idle)
  {
  }
}
