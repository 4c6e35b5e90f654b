/**
  How the threads of freqmine's first mining level give node arrays back while others are
  still mining: each publishes the item it has finished, takes the maximum over all
  threads, which it reads one by one and possibly out of date, and releases from there on.
 */
module NodeRelease {

  datatype Pc =
    | Idle
    | Mining(item: nat)
    | Scanning(i: nat, current: nat)  // the loop over thread_finish_status
    | Releasing(current: nat)         // before the critical section

  // next: how many items have not been handed out; the schedule hands out the highest first.
  // status: thread_finish_status.  Arrays of items below released are still there.
  datatype State = State(itemno: nat, next: nat, status: seq<nat>, pc: seq<Pc>, released: nat)

  predicate InRange(s: State, t: nat) {
    t < |s.pc| == |s.status|
  }

  // The values that a read of another thread's status may return: the present one or one from before.
  ghost predicate MayRead(s: State, i: nat, v: nat)
    requires i < |s.status|
  {
    s.status[i] <= v <= s.itemno
  }

  function Max(a: nat, b: nat): nat {
    if a < b then b else a
  }

  ghost predicate Step(s: State, t: nat, s': State)
    requires InRange(s, t)
  {
    match s.pc[t]
    case Idle => s.next > 0 && s' == s.(next := s.next - 1, pc := s.pc[t := Mining(s.next - 1)])
    case Mining(item) => s' == s.(status := s.status[t := item], pc := s.pc[t := Scanning(0, 0)])
    case Scanning(i, current) =>
      if i < |s.status| then exists v :: MayRead(s, i, v) && s' == s.(pc := s.pc[t := Scanning(i + 1, Max(current, v))])
      else s' == s.(pc := s.pc[t := Releasing(current)])
    case Releasing(current) =>
      s' == s.(pc := s.pc[t := Idle], released := if current < s.released then current else s.released)
  }

  ghost predicate Next(s: State, s': State) {
    exists t :: InRange(s, t) && Step(s, t, s')
  }

  ghost predicate Init(s: State) {
    && |s.status| == |s.pc| && s.next == s.itemno && s.released == s.itemno
    && forall t :: 0 <= t < |s.pc| ==> s.status[t] == s.itemno && s.pc[t] == Idle
  }

  // A status is above everything its thread is mining and everything not handed out yet;
  // a scan so far is at least every status it has passed.
  ghost predicate ThreadOk(s: State, t: nat)
    requires InRange(s, t)
  {
    && s.next <= s.status[t] <= s.itemno && s.status[t] <= s.released
    && match s.pc[t]
       case Idle => true
       case Mining(item) => s.next <= item < s.status[t]
       case Scanning(i, current) => i <= |s.status| && forall k :: 0 <= k < i ==> s.status[k] <= current
       case Releasing(current) => forall k :: 0 <= k < |s.status| ==> s.status[k] <= current
  }

  ghost predicate Inv(s: State) {
    |s.status| == |s.pc| && s.next <= s.itemno && forall t :: 0 <= t < |s.pc| ==> ThreadOk(s, t)
  }

  lemma StepKeepsInv(s: State, s': State)
    requires Inv(s) && Next(s, s')
    ensures Inv(s') && s'.released <= s.released
    ensures forall t :: 0 <= t < |s.status| ==> s'.status[t] <= s.status[t]
  {
    var t :| InRange(s, t) && Step(s, t, s');
    assert ThreadOk(s, t);
    forall u | 0 <= u < |s'.pc| ensures ThreadOk(s', u) {
      assert ThreadOk(s, u);
    }
  }

  ghost predicate IsRun(run: seq<State>) {
    run != [] && Init(run[0]) && forall i :: 0 <= i < |run| - 1 ==> Next(run[i], run[i + 1])
  }

  // What is being mined, or will be, has not been released.
  ghost predicate Safe(s: State) {
    && (forall t :: 0 <= t < |s.pc| && s.pc[t].Mining? ==> s.pc[t].item < s.released)
    && (s.pc != [] ==> s.next <= s.released)
  }

  lemma {:induction false} NeverReleasedTooEarly(run: seq<State>)
    requires IsRun(run)
    ensures forall i :: 0 <= i < |run| ==> Inv(run[i]) && Safe(run[i])
  {
    var m := |run| - 1;
    if m > 0 {
      NeverReleasedTooEarly(run[..m]);
      assert Inv(run[..m][m - 1]);
      assert Next(run[m - 1], run[m - 1 + 1]);
      StepKeepsInv(run[m - 1], run[m]);
    }
    assert forall t :: 0 <= t < |run[m].pc| ==> ThreadOk(run[m], t);
    forall i | 0 <= i < |run| ensures Inv(run[i]) && Safe(run[i]) {
      if i < m { assert run[..m][i] == run[i]; }
      else { SafeNow(run[m]); }
    }
  }

  lemma SafeNow(s: State)
    requires Inv(s)
    ensures Safe(s)
  {
    if s.pc != [] { assert ThreadOk(s, 0); }
    forall t | 0 <= t < |s.pc| && s.pc[t].Mining? ensures s.pc[t].item < s.released {
      assert ThreadOk(s, t);
    }
  }
}
