/**
  The cycle/counter barrier that barnes expands in line: NPROC threads take turns
  under one mutex, a thread remembers the cycle flag it saw on arrival and waits
  until the flag differs.  A step is one critical section, as in ParsecBarrier.
 */
module CycleBarrier {
  import opened FiniteSets

  // A waiting thread also carries, for the statements below only, the number of the round it came for.
  datatype Pc = Outside | Waiting(saved: bool, round: nat, asleep: bool)

  // calls: how often the thread will still call; arrived, departed: how often it came and left.
  datatype Thread = Thread(pc: Pc, calls: nat, arrived: nat, departed: nat)

  datatype State = State(nproc: nat, cycle: bool, counter: nat, flips: nat, threads: seq<Thread>)

  function Woken(th: Thread): Thread {
    if th.pc.Waiting? then th.(pc := th.pc.(asleep := false)) else th
  }

  function Broadcast(threads: seq<Thread>): (r: seq<Thread>)
    ensures |r| == |threads|
  {
    seq(|threads|, i requires 0 <= i < |threads| => Woken(threads[i]))
  }

  predicate CanArrive(s: State, t: nat) {
    t < |s.threads| && s.threads[t].pc == Outside && s.threads[t].calls > 0
  }

  function Arrive(s: State, t: nat): State
    requires CanArrive(s, t)
  {
    var th := s.threads[t].(calls := s.threads[t].calls - 1, arrived := s.threads[t].arrived + 1);
    if s.counter + 1 != s.nproc then
      s.(counter := s.counter + 1, threads := s.threads[t := th.(pc := Waiting(s.cycle, s.flips, true))])
    else
      s.(cycle := !s.cycle, counter := 0, flips := s.flips + 1,
         threads := Broadcast(s.threads[t := th.(departed := th.departed + 1)]))
  }

  predicate CanLook(s: State, t: nat) {
    t < |s.threads| && s.threads[t].pc.Waiting? && !s.threads[t].pc.asleep
  }

  // Back from pthread_cond_wait: sleep again or leave.
  function Look(s: State, t: nat): State
    requires CanLook(s, t)
  {
    var th := s.threads[t];
    if th.pc.saved == s.cycle then s.(threads := s.threads[t := th.(pc := th.pc.(asleep := true))])
    else s.(threads := s.threads[t := th.(pc := Outside, departed := th.departed + 1)])
  }

  // Spurious wake-ups included.
  ghost predicate Next(s: State, s': State) {
    || (exists t :: CanArrive(s, t) && s' == Arrive(s, t))
    || (exists t :: CanLook(s, t) && s' == Look(s, t))
    || (exists t :: 0 <= t < |s.threads| && s' == s.(threads := s.threads[t := Woken(s.threads[t])]))
  }

  /* ---------- the invariant ---------- */

  ghost predicate ThreadOk(s: State, th: Thread) {
    match th.pc
    case Outside => th.arrived == s.flips && th.departed == s.flips
    case Waiting(saved, round, asleep) =>
      && th.arrived == round + 1 && th.departed == round
      && (if saved == s.cycle then round == s.flips else round + 1 == s.flips)
      && (asleep ==> saved == s.cycle)
  }

  // Threads that came for the round that is still open.
  ghost function Came(s: State): set<nat> {
    set t: nat | t < |s.threads| && s.threads[t].arrived == s.flips + 1
  }

  ghost predicate Inv(s: State) {
    && |s.threads| <= s.nproc && s.counter < s.nproc
    && s.counter == |Came(s)|
    && forall t :: 0 <= t < |s.threads| ==> ThreadOk(s, s.threads[t])
  }

  ghost function Below(n: nat): set<nat> {
    if n == 0 then {} else Below(n - 1) + {n - 1}
  }

  lemma {:induction false} BelowHolds(n: nat)
    ensures |Below(n)| == n && forall t: nat :: t in Below(n) <==> t < n
  {
    if n > 0 { BelowHolds(n - 1); }
  }

  // When the counter is one short of NPROC, everybody else has come.
  lemma OthersCame(s: State, t: nat)
    requires Inv(s) && CanArrive(s, t) && s.counter + 1 == s.nproc
    ensures forall u :: 0 <= u < |s.threads| && u != t ==> s.threads[u].arrived == s.flips + 1
  {
    BelowHolds(|s.threads|);
    assert ThreadOk(s, s.threads[t]);
    SubsetSize(Came(s), Below(|s.threads|) - {t});
    forall u | 0 <= u < |s.threads| && u != t ensures s.threads[u].arrived == s.flips + 1 {
      assert u in Below(|s.threads|) - {t};
      assert u in Came(s);
    }
  }

  lemma FlipKeepsInv(s: State, t: nat)
    requires Inv(s) && CanArrive(s, t) && s.counter + 1 == s.nproc
    ensures Inv(Arrive(s, t))
  {
    var s' := Arrive(s, t);
    OthersCame(s, t);
    forall u | 0 <= u < |s'.threads| ensures ThreadOk(s', s'.threads[u]) && s'.threads[u].arrived == s'.flips {
      assert ThreadOk(s, s.threads[u]);
    }
    assert Came(s') == {};
  }

  lemma ArriveKeepsInv(s: State, t: nat)
    requires Inv(s) && CanArrive(s, t)
    ensures Inv(Arrive(s, t))
  {
    if s.counter + 1 == s.nproc {
      FlipKeepsInv(s, t);
    } else {
      var s' := Arrive(s, t);
      assert ThreadOk(s, s.threads[t]);
      assert Came(s') == Came(s) + {t};
    }
  }

  lemma StepKeepsInv(s: State, s': State)
    requires Inv(s) && Next(s, s')
    ensures Inv(s')
  {
    if t :| CanArrive(s, t) && s' == Arrive(s, t) {
      ArriveKeepsInv(s, t);
    } else {
      assert Came(s') == Came(s);
    }
  }

  /* ---------- whole runs ---------- */

  // calls: how often each thread will call the barrier.
  ghost predicate Init(s: State, calls: nat) {
    && s.nproc >= 1 && s.counter == 0 && s.flips == 0
    && forall t :: 0 <= t < |s.threads| ==> s.threads[t] == Thread(Outside, calls, 0, 0)
  }

  ghost predicate IsRun(run: seq<State>, calls: nat) {
    && run != [] && Init(run[0], calls)
    && forall i :: 0 <= i < |run| - 1 ==> Next(run[i], run[i + 1])
  }

  // Nobody has left more often than anybody has come, nobody is a full round ahead,
  // and whoever sleeps sleeps in the round that is still open.
  ghost predicate IsBarrier(s: State) {
    && (forall t, u :: 0 <= t < |s.threads| && 0 <= u < |s.threads| ==>
          s.threads[t].departed <= s.threads[u].arrived <= s.threads[t].departed + 2)
    && (forall t :: 0 <= t < |s.threads| ==> NotLost(s, s.threads[t]))
  }

  // A waiting thread sees a changed flag exactly when its round is over, and does not sleep then.
  ghost predicate NotLost(s: State, th: Thread) {
    th.pc.Waiting? ==>
      (th.pc.round < s.flips <==> th.pc.saved != s.cycle) && (th.pc.asleep ==> th.pc.round == s.flips)
  }

  ghost predicate CallsLeft(s: State, calls: nat) {
    forall t :: 0 <= t < |s.threads| ==> s.threads[t].calls + s.threads[t].arrived == calls
  }

  lemma InvIsBarrier(s: State)
    requires Inv(s)
    ensures IsBarrier(s)
  {
    forall t | 0 <= t < |s.threads|
      ensures s.threads[t].departed <= s.flips <= s.threads[t].arrived <= s.flips + 1 <= s.threads[t].departed + 2 && NotLost(s, s.threads[t])
    {
      assert ThreadOk(s, s.threads[t]);
    }
  }

  lemma StepCountsCalls(s: State, s': State, calls: nat)
    requires Next(s, s') && CallsLeft(s, calls)
    ensures CallsLeft(s', calls)
  {
  }

  lemma {:induction false} RunKeepsInv(run: seq<State>, calls: nat)
    requires IsRun(run, calls) && |run[0].threads| <= run[0].nproc
    ensures forall i :: 0 <= i < |run| ==> Inv(run[i]) && IsBarrier(run[i]) && CallsLeft(run[i], calls)
    ensures forall i :: 0 <= i < |run| ==> |run[i].threads| == |run[0].threads| && run[i].nproc == run[0].nproc
  {
    var m := |run| - 1;
    if m == 0 {
      assert Came(run[0]) == {};
    } else {
      RunKeepsInv(run[..m], calls);
      assert Inv(run[..m][m - 1]) && CallsLeft(run[..m][m - 1], calls) && |run[..m][m - 1].threads| == |run[0].threads|;
      assert Next(run[m - 1], run[m - 1 + 1]);
      StepKeepsInv(run[m - 1], run[m]);
      StepCountsCalls(run[m - 1], run[m], calls);
    }
    InvIsBarrier(run[m]);
    forall i | 0 <= i < |run|
      ensures Inv(run[i]) && IsBarrier(run[i]) && CallsLeft(run[i], calls)
      ensures |run[i].threads| == |run[0].threads| && run[i].nproc == run[0].nproc
    {
      assert i < m ==> run[..m][i] == run[i];
    }
  }

  ghost predicate Stuck(s: State) {
    forall t :: !CanArrive(s, t) && !CanLook(s, t)
  }

  ghost predicate AllReturned(s: State, calls: nat) {
    s.flips == calls && forall t :: 0 <= t < |s.threads| ==> s.threads[t] == Thread(Outside, 0, calls, calls)
  }

  // NPROC threads can only stop when every call has returned.
  lemma EqualCallersFinish(run: seq<State>, calls: nat)
    requires IsRun(run, calls) && |run[0].threads| == run[0].nproc
    requires Stuck(run[|run| - 1])
    ensures AllReturned(run[|run| - 1], calls)
  {
    var s := run[|run| - 1];
    RunKeepsInv(run, calls);
    BelowHolds(s.nproc);
    if Below(s.nproc) <= Came(s) {
      SubsetSize(Below(s.nproc), Came(s));
      assert false;
    }
    var u :| u in Below(s.nproc) && u !in Came(s);
    assert ThreadOk(s, s.threads[u]) && !CanArrive(s, u) && !CanLook(s, u);
    assert s.flips == calls;
    forall t | 0 <= t < |s.threads| ensures s.threads[t] == Thread(Outside, 0, calls, calls) {
      assert ThreadOk(s, s.threads[t]) && !CanArrive(s, t) && !CanLook(s, t);
    }
  }

  /* ---------- more than NPROC threads ---------- */

  // s' can be reached from s.
  ghost predicate IsPath(path: seq<State>) {
    path != [] && forall i :: 0 <= i < |path| - 1 ==> Next(path[i], path[i + 1])
  }

  ghost predicate Leads(s: State, s': State) {
    exists path :: IsPath(path) && path[0] == s && path[|path| - 1] == s'
  }

  lemma LeadsNowhere(s: State)
    ensures Leads(s, s)
  {
    assert IsPath([s]) && [s][0] == s;
  }

  lemma LeadsOn(s: State, s': State, s'': State)
    requires Leads(s, s') && Next(s', s'')
    ensures Leads(s, s'')
  {
    var path :| IsPath(path) && path[0] == s && path[|path| - 1] == s';
    var longer := path + [s''];
    assert IsPath(longer) && longer[0] == s && longer[|longer| - 1] == s'';
  }

  function Arrived(s: State, th: Thread): Thread {
    Thread(Waiting(s.cycle, s.flips, true), if th.calls > 0 then th.calls - 1 else 0, th.arrived + 1, th.departed)
  }

  // Threads lo to hi - 1 have come and wait.
  function Gathered(s: State, lo: nat, hi: nat): State
    requires lo <= hi <= |s.threads|
  {
    s.(counter := s.counter + hi - lo,
       threads := seq(|s.threads|, t requires 0 <= t < |s.threads| => if lo <= t < hi then Arrived(s, s.threads[t]) else s.threads[t]))
  }

  lemma {:induction false} CanGather(s0: State, s: State, lo: nat, hi: nat)
    requires lo <= hi <= |s.threads| && s.counter + (hi - lo) < s.nproc && Leads(s0, s)
    requires forall t :: lo <= t < hi ==> CanArrive(s, t)
    ensures Leads(s0, Gathered(s, lo, hi))
  {
    if lo == hi {
      assert Gathered(s, lo, hi).threads == s.threads;
    } else {
      var before, after := Gathered(s, lo, hi - 1), Gathered(s, lo, hi);
      CanGather(s0, s, lo, hi - 1);
      assert CanArrive(s, hi - 1);
      assert CanArrive(before, hi - 1);
      assert after.threads == Arrive(before, hi - 1).threads;
      assert after == Arrive(before, hi - 1);
      LeadsOn(s0, before, after);
    }
  }

  function Gone(th: Thread): Thread {
    th.(pc := Outside, departed := th.departed + 1)
  }

  // Threads lo to hi - 1 have looked and left.
  function Emptied(s: State, lo: nat, hi: nat): State
    requires lo <= hi <= |s.threads|
  {
    s.(threads := seq(|s.threads|, t requires 0 <= t < |s.threads| => if lo <= t < hi then Gone(s.threads[t]) else s.threads[t]))
  }

  lemma {:induction false} CanEmpty(s0: State, s: State, lo: nat, hi: nat)
    requires lo <= hi <= |s.threads| && Leads(s0, s)
    requires forall t :: lo <= t < hi ==> CanLook(s, t) && s.threads[t].pc.saved != s.cycle
    ensures Leads(s0, Emptied(s, lo, hi))
  {
    if lo == hi {
      assert Emptied(s, lo, hi).threads == s.threads;
    } else {
      var before, after := Emptied(s, lo, hi - 1), Emptied(s, lo, hi);
      CanEmpty(s0, s, lo, hi - 1);
      assert CanLook(s, hi - 1);
      assert CanLook(before, hi - 1);
      assert after.threads == Look(before, hi - 1).threads;
      LeadsOn(s0, before, after);
    }
  }

  lemma RunTo(s: State, s': State, calls: nat) returns (run: seq<State>)
    requires Init(s, calls) && Leads(s, s')
    ensures IsRun(run, calls) && run[0] == s && run[|run| - 1] == s'
  {
    var path :| IsPath(path) && path[0] == s && path[|path| - 1] == s';
    run := path;
  }

  // The first NPROC threads have come once: the flag has flipped, the last of them is out again,
  // the others are awake and have not looked yet.
  function FirstRound(s: State): State
    requires 1 <= s.nproc <= |s.threads| && CanArrive(Gathered(s, 0, s.nproc - 1), s.nproc - 1)
  {
    Arrive(Gathered(s, 0, s.nproc - 1), s.nproc - 1)
  }

  lemma FirstRoundDone(s: State, calls: nat)
    requires Init(s, calls) && calls >= 1 && s.nproc <= |s.threads|
    ensures CanArrive(Gathered(s, 0, s.nproc - 1), s.nproc - 1) && Leads(s, FirstRound(s))
    ensures var r := FirstRound(s);
      && r.cycle != s.cycle && r.flips == 1 && r.counter == 0 && r.nproc == s.nproc && |r.threads| == |s.threads|
      && (forall t :: 0 <= t < s.nproc - 1 ==> r.threads[t] == Thread(Waiting(s.cycle, 0, false), calls - 1, 1, 0))
      && r.threads[s.nproc - 1] == Thread(Outside, calls - 1, 1, 1)
      && forall t :: s.nproc <= t < |s.threads| ==> r.threads[t] == Thread(Outside, calls, 0, 0)
  {
    LeadsNowhere(s);
    CanGather(s, s, 0, s.nproc - 1);
    LeadsOn(s, Gathered(s, 0, s.nproc - 1), FirstRound(s));
  }

  // A thread that does not belong to the first NPROC is overtaken: somebody leaves before it has come.
  lemma TooManyOvertake(s: State, calls: nat) returns (run: seq<State>)
    requires Init(s, calls) && calls >= 1 && |s.threads| > s.nproc
    ensures IsRun(run, calls) && run[0] == s && !IsBarrier(run[|run| - 1])
  {
    FirstRoundDone(s, calls);
    var r := FirstRound(s);
    run := RunTo(s, r, calls);
    assert r.threads[s.nproc - 1].departed > r.threads[s.nproc].arrived;
  }

  // In every state of every run from s the barrier holds.
  ghost predicate AlwaysBarrier(s: State, calls: nat) {
    forall run: seq<State>, i: nat :: IsRun(run, calls) && run[0] == s && i < |run| ==> IsBarrier(run[i])
  }

  // The barrier is safe for at most NPROC threads and for no other number.
  lemma SafeExactly(s: State, calls: nat)
    requires Init(s, calls) && calls >= 1
    ensures AlwaysBarrier(s, calls) <==> |s.threads| <= s.nproc
  {
    if |s.threads| <= s.nproc {
      forall run: seq<State>, i: nat | IsRun(run, calls) && run[0] == s && i < |run| ensures IsBarrier(run[i]) {
        RunKeepsInv(run, calls);
      }
    } else {
      var run := TooManyOvertake(s, calls);
      assert IsRun(run, calls) && run[0] == s && |run| - 1 < |run| && !IsBarrier(run[|run| - 1]);
    }
  }

  ghost predicate Loses(s: State, t: nat) {
    t < |s.threads| && !NotLost(s, s.threads[t])
  }

  // With two calls each, the flag can flip a second time before thread 0 has looked once. It then
  // sees the flag it saw on arrival and goes back to sleep, two rounds late.
  lemma TooManyLose(s: State, calls: nat) returns (run: seq<State>)
    requires Init(s, calls) && calls >= 2 && |s.threads| > s.nproc >= 2
    ensures IsRun(run, calls) && run[0] == s && Loses(run[|run| - 1], 0)
  {
    FirstRoundDone(s, calls);
    var n, r := s.nproc, FirstRound(s);
    CanEmpty(s, r, 1, n - 1);
    var e := Emptied(r, 1, n - 1);
    assert forall t :: 1 <= t < n ==> CanArrive(e, t);
    CanGather(s, e, 1, n);
    var g := Gathered(e, 1, n);
    assert CanArrive(g, n);
    LeadsOn(s, g, Arrive(g, n));
    run := RunTo(s, Arrive(g, n), calls);
  }

  /* ---------- fewer than NPROC threads ---------- */

  ghost predicate NobodyLeft(s: State) {
    forall t :: 0 <= t < |s.threads| ==> s.threads[t].departed == 0
  }

  // Fewer threads all come and wait for ever: safe, but no call returns.
  lemma TooFewWait(s: State, calls: nat) returns (run: seq<State>)
    requires Init(s, calls) && calls >= 1 && |s.threads| < s.nproc
    ensures IsRun(run, calls) && run[0] == s && Stuck(run[|run| - 1])
    ensures NobodyLeft(run[|run| - 1]) && !AllReturned(run[|run| - 1], calls)
  {
    LeadsNowhere(s);
    CanGather(s, s, 0, |s.threads|);
    run := RunTo(s, Gathered(s, 0, |s.threads|), calls);
  }

  // Every run that comes to a stop has served all calls.
  ghost predicate AlwaysFinishes(s: State, calls: nat) {
    forall run: seq<State> :: IsRun(run, calls) && run[0] == s && Stuck(run[|run| - 1]) ==> AllReturned(run[|run| - 1], calls)
  }

  // Among the safe numbers of threads exactly NPROC makes progress.
  lemma FinishesExactly(s: State, calls: nat)
    requires Init(s, calls) && calls >= 1 && |s.threads| <= s.nproc
    ensures AlwaysFinishes(s, calls) <==> |s.threads| == s.nproc
  {
    if |s.threads| == s.nproc {
      forall run: seq<State> | IsRun(run, calls) && run[0] == s && Stuck(run[|run| - 1])
        ensures AllReturned(run[|run| - 1], calls)
      {
        EqualCallersFinish(run, calls);
      }
    } else {
      var run := TooFewWait(s, calls);
      assert IsRun(run, calls) && run[0] == s && Stuck(run[|run| - 1]);
    }
  }
}
