/** Power transitions: what `setPowerStateGated` does to the offline flag and tells the drivers. */
module PS2Power {

  const SLEEP: nat := 0
  const DOZE: nat := 1
  const NORMAL: nat := 2

  /** A call of the drivers' power handlers, and whether requests failed at that moment. */
  datatype Notice = Notice(enable: bool, offline: bool)

  datatype Power = Power(state: nat, offline: bool, notices: seq<Notice>)

  const POWERED: Power := Power(NORMAL, false, [])

  function PowerStep(p: Power, ordinal: nat): Power {
    if ordinal == p.state then p
    else if ordinal == SLEEP then Power(ordinal, true, p.notices + [Notice(false, p.offline)])
    else if ordinal <= NORMAL && p.state == SLEEP then Power(ordinal, false, p.notices + [Notice(true, false)])
    else p.(state := ordinal)
  }

  function PowerRun(ordinals: seq<nat>): Power {
    if ordinals == [] then POWERED
    else PowerStep(PowerRun(ordinals[..|ordinals| - 1]), ordinals[|ordinals| - 1])
  }

  /** Offline exactly while asleep. */
  predicate Linked(p: Power) { p.offline <==> p.state == SLEEP }

  /** The drivers hear disable, enable, disable, ... and always while the hardware is online. */
  predicate WellNotified(p: Power) {
    && (forall i :: 0 <= i < |p.notices| ==> p.notices[i] == Notice(i % 2 == 1, false))
    && (|p.notices| % 2 == 1 <==> p.state == SLEEP)
  }

  lemma {:induction false} StateIsLastOrdinal(ordinals: seq<nat>)
    ensures PowerRun(ordinals).state == if ordinals == [] then NORMAL else ordinals[|ordinals| - 1]
  {
    if ordinals != [] {
      StateIsLastOrdinal(ordinals[..|ordinals| - 1]);
    }
  }

  /** An ordinal above `NORMAL` directly after sleep. */
  predicate LeavesSleepBadly(ordinals: seq<nat>) {
    exists i :: 0 < i < |ordinals| && ordinals[i - 1] == SLEEP && ordinals[i] > NORMAL
  }

  /** The promise holds at every point of a run exactly when the run never leaves sleep for an ordinal that
      is no power state: such an ordinal is stored, but the hardware stays offline. */
  lemma {:induction false} PowerRuns(ordinals: seq<nat>)
    ensures (forall n :: 0 <= n <= |ordinals| ==>
               Linked(PowerRun(ordinals[..n])) && WellNotified(PowerRun(ordinals[..n])))
            <==> !LeavesSleepBadly(ordinals)
  {
    if LeavesSleepBadly(ordinals) {
      var i :| 0 < i < |ordinals| && ordinals[i - 1] == SLEEP && ordinals[i] > NORMAL;
      var before, after := ordinals[..i], ordinals[..i + 1];
      assert after[..|after| - 1] == before;
      StateIsLastOrdinal(before);
      if Linked(PowerRun(before)) {
        assert !Linked(PowerRun(after));
      }
    } else {
      forall n | 0 <= n <= |ordinals|
        ensures Linked(PowerRun(ordinals[..n])) && WellNotified(PowerRun(ordinals[..n]))
      {
        StaysLinked(ordinals, n);
      }
    }
  }

  lemma {:induction false} StaysLinked(ordinals: seq<nat>, n: nat)
    requires n <= |ordinals| && !LeavesSleepBadly(ordinals)
    ensures Linked(PowerRun(ordinals[..n])) && WellNotified(PowerRun(ordinals[..n]))
  {
    if n > 0 {
      StaysLinked(ordinals, n - 1);
      StateIsLastOrdinal(ordinals[..n - 1]);
      assert ordinals[..n][..n - 1] == ordinals[..n - 1];
      if n > 1 { assert ordinals[..n - 1][n - 2] == ordinals[n - 2]; }
    }
  }

  /** In particular every run over the three power states keeps the promise. */
  lemma PowerStatesOnly(ordinals: seq<nat>)
    requires forall i :: 0 <= i < |ordinals| ==> ordinals[i] <= NORMAL
    ensures Linked(PowerRun(ordinals)) && WellNotified(PowerRun(ordinals))
  {
    StaysLinked(ordinals, |ordinals|);
    assert ordinals[..|ordinals|] == ordinals;
  }
}
