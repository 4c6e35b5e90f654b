/**
  parsec_barrier_wait of fluidanimate for any number of threads and rounds.
  A step is one critical section of the mutex, from locking it (or waking up
  inside pthread_cond_wait) to unlocking it (or going to sleep again).  The
  polling loops of the spinning variant are covered by waking up early: a
  thread that polls is simply awake.
 */
module ParsecBarrier {
  import opened FiniteSets
  import opened Numbers

  datatype Pc =
    | Outside
    | Blocked(asleep: bool)  // in the first loop, until an arrival phase begins
    | Inside(asleep: bool)   // counted in n, until the departure phase begins

  datatype Thread = Thread(pc: Pc, master: bool, calls: nat)

  // What one use of the barrier looks like from outside: who came, who left, who got the serial value.
  datatype Round = Round(arrivals: seq<nat>, departures: seq<nat>, serials: seq<nat>)

  datatype State = State(max: nat, n: nat, arrival: bool, threads: map<nat, Thread>, past: seq<Round>, cur: Round)

  const EMPTY := Round([], [], [])

  function Woken(th: Thread): Thread {
    match th.pc
    case Outside => th
    case Blocked(_) => th.(pc := Blocked(false))
    case Inside(_) => th.(pc := Inside(false))
  }

  // pthread_cond_broadcast
  function Broadcast(threads: map<nat, Thread>): map<nat, Thread> {
    map t | t in threads :: Woken(threads[t])
  }

  /* ---------- the critical sections ---------- */

  predicate CanEnter(s: State, t: nat) {
    t in s.threads && match s.threads[t].pc
      case Outside => s.threads[t].calls > 0
      case Blocked(asleep) => !asleep
      case Inside(_) => false
  }

  // n-- and, for the last one out, the start of a new arrival phase.
  function Depart(s: State, t: nat, master: bool): State
    requires t in s.threads && s.n > 0
  {
    var th := s.threads[t];
    var left := s.threads[t := Thread(Outside, master, if th.calls > 0 then th.calls - 1 else 0)];
    var cur := Round(s.cur.arrivals, s.cur.departures + [t], s.cur.serials + if master then [t] else []);
    if s.n == 1 then s.(n := 0, arrival := true, threads := Broadcast(left), past := s.past + [cur], cur := EMPTY)
    else s.(n := s.n - 1, threads := left, cur := cur)
  }

  // The first half of parsec_barrier_wait: wait for an arrival phase, arrive, and either wait or open the departure phase and go on.
  function Enter(s: State, t: nat): State
    requires CanEnter(s, t)
  {
    var th := s.threads[t];
    if !s.arrival then s.(threads := s.threads[t := th.(pc := Blocked(true))])
    else
      var master := s.n == 0;
      var arrived := s.(n := s.n + 1, cur := s.cur.(arrivals := s.cur.arrivals + [t]));
      if arrived.n >= s.max then
        Depart(arrived.(arrival := false, threads := Broadcast(arrived.threads)), t, master)
      else arrived.(threads := s.threads[t := th.(pc := Inside(true), master := master)])
  }

  predicate CanLeave(s: State, t: nat) {
    t in s.threads && s.threads[t].pc == Inside(false) && s.n > 0
  }

  // A waiting thread looks again: still an arrival phase, or time to leave.
  function Leave(s: State, t: nat): State
    requires CanLeave(s, t)
  {
    if s.arrival then s.(threads := s.threads[t := s.threads[t].(pc := Inside(true))])
    else Depart(s, t, s.threads[t].master)
  }

  ghost predicate Next(s: State, s': State) {
    || (exists t :: CanEnter(s, t) && s' == Enter(s, t))
    || (exists t :: CanLeave(s, t) && s' == Leave(s, t))
    || (exists t :: t in s.threads && s' == s.(threads := s.threads[t := Woken(s.threads[t])]))
  }

  /* ---------- the invariant ---------- */

  // A finished round: max threads came, exactly they left, and the first to come got the serial value.
  ghost predicate Complete(r: Round, max: nat) {
    && |r.arrivals| == max && Distinct(r.arrivals)
    && multiset(r.departures) == multiset(r.arrivals)
    && max > 0 && r.serials == [r.arrivals[0]]
  }

  ghost predicate IsInside(s: State, t: nat) {
    t in s.threads && s.threads[t].pc.Inside?
  }

  ghost predicate CurOk(s: State) {
    && Distinct(s.cur.arrivals) && Distinct(s.cur.departures)
    && |s.cur.arrivals| == |s.cur.departures| + s.n
    && (forall t :: t in s.cur.departures ==> t in s.cur.arrivals)
    && (forall t :: IsInside(s, t) <==> t in s.cur.arrivals && t !in s.cur.departures)
    && (forall t :: IsInside(s, t) ==> (s.threads[t].master <==> t == s.cur.arrivals[0]))
    && s.cur.serials == (if |s.cur.arrivals| > 0 && s.cur.arrivals[0] in s.cur.departures then [s.cur.arrivals[0]] else [])
  }

  ghost predicate Inv(s: State) {
    && s.max >= 1
    && (s.arrival ==> s.n < s.max && s.cur.departures == [])
    && (!s.arrival ==> 0 < s.n < s.max && |s.cur.arrivals| == s.max)
    && CurOk(s)
    && (forall i :: 0 <= i < |s.past| ==> Complete(s.past[i], s.max))
    // nobody sleeps on a condition that already holds
    && (forall t :: t in s.threads && s.threads[t].pc == Blocked(true) ==> !s.arrival)
    && (forall t :: t in s.threads && s.threads[t].pc == Inside(true) ==> s.arrival)
  }

  function Members(s: seq<nat>): set<nat> {
    set x | x in s
  }

  lemma {:induction false} DistinctCount(s: seq<nat>)
    requires Distinct(s)
    ensures |Members(s)| == |s|
  {
    if s != [] {
      var n := |s| - 1;
      DistinctCount(s[..n]);
      assert Members(s) == Members(s[..n]) + {s[n]};
    } else {
      assert Members(s) == {};
    }
  }

  lemma {:induction false} OnceEach(s: seq<nat>, x: nat)
    requires Distinct(s)
    ensures multiset(s)[x] == if x in s then 1 else 0
  {
    if s != [] {
      var n := |s| - 1;
      OnceEach(s[..n], x);
      assert s == s[..n] + [s[n]];
      assert multiset(s)[x] == multiset(s[..n])[x] + if x == s[n] then 1 else 0;
    }
  }

  lemma SameMembers(s: seq<nat>, r: seq<nat>)
    requires Distinct(s) && Distinct(r) && |s| == |r| && forall x :: x in s ==> x in r
    ensures multiset(s) == multiset(r)
  {
    DistinctCount(s);
    DistinctCount(r);
    SubsetSize(Members(s), Members(r));
    forall x: nat ensures multiset(s)[x] == multiset(r)[x] {
      OnceEach(s, x);
      OnceEach(r, x);
      assert x in s <==> x in Members(s);
      assert x in r <==> x in Members(r);
    }
  }

  lemma DistinctAppend(s: seq<nat>, x: nat)
    requires Distinct(s) && x !in s
    ensures Distinct(s + [x])
  {
  }

  // The state of the barrier while a thread with the right to leave is on its way out.
  ghost predicate Departing(s: State, t: nat, master: bool) {
    && s.max >= 1 && s.n >= 1 && t in s.threads && |s.cur.arrivals| == s.max
    && Distinct(s.cur.arrivals) && Distinct(s.cur.departures)
    && |s.cur.arrivals| == |s.cur.departures| + s.n && s.n <= s.max
    && t in s.cur.arrivals && t !in s.cur.departures
    && (master <==> t == s.cur.arrivals[0])
    && (forall u :: u in s.cur.departures ==> u in s.cur.arrivals)
    && (forall u :: u != t ==> (IsInside(s, u) <==> u in s.cur.arrivals && u !in s.cur.departures))
    && (forall u :: u != t && IsInside(s, u) ==> (s.threads[u].master <==> u == s.cur.arrivals[0]))
    && s.cur.serials == (if s.cur.arrivals[0] in s.cur.departures then [s.cur.arrivals[0]] else [])
    && (forall i :: 0 <= i < |s.past| ==> Complete(s.past[i], s.max))
    && !s.arrival
    && (forall u :: u in s.threads && u != t ==> s.threads[u].pc != Inside(true))
  }

  lemma {:induction false} NoneLeft(s: seq<nat>, r: seq<nat>, x: nat)
    requires Distinct(s) && Distinct(r) && |s| == |r| && (forall y :: y in r ==> y in s)
    ensures x in s <==> x in r
  {
    SameMembers(r, s);
    assert x in s <==> x in multiset(s);
    assert x in r <==> x in multiset(r);
  }

  lemma DepartKeepsInv(s: State, t: nat, master: bool)
    requires Departing(s, t, master)
    ensures Inv(Depart(s, t, master))
  {
    var s', departures := Depart(s, t, master), s.cur.departures + [t];
    DistinctAppend(s.cur.departures, t);
    assert forall u :: u in departures <==> u in s.cur.departures || u == t;
    if s.n == 1 {
      SameMembers(departures, s.cur.arrivals);
      forall u ensures !IsInside(s', u) {
        NoneLeft(s.cur.arrivals, departures, u);
        assert u in s.threads && u != t ==> s'.threads[u] == Woken(s.threads[u]);
      }
      NoneLeft(s.cur.arrivals, departures, s.cur.arrivals[0]);
      assert Complete(s'.past[|s.past|], s.max);
    } else {
      assert forall u :: u != t && u in s.threads ==> s'.threads[u] == s.threads[u];
    }
  }

  lemma ArriveKeepsInv(s: State, t: nat)
    requires Inv(s) && CanEnter(s, t) && s.arrival && s.n + 1 < s.max
    ensures Inv(Enter(s, t))
  {
    var s' := Enter(s, t);
    assert !IsInside(s, t);
    DistinctAppend(s.cur.arrivals, t);
    assert forall u :: u in s'.cur.arrivals <==> u in s.cur.arrivals || u == t;
    assert forall u :: u != t && u in s.threads ==> s'.threads[u] == s.threads[u];
    assert s'.threads[t].pc == Inside(true);
  }

  // The last one to come finds the barrier ready for leaving.
  lemma LastArrivalDeparts(s: State, t: nat, a: State)
    requires Inv(s) && CanEnter(s, t) && s.arrival && s.n + 1 >= s.max
    requires a == s.(n := s.n + 1, arrival := false, threads := Broadcast(s.threads),
                     cur := s.cur.(arrivals := s.cur.arrivals + [t]))
    ensures Departing(a, t, s.n == 0) && Enter(s, t) == Depart(a, t, s.n == 0)
  {
    assert !IsInside(s, t);
    DistinctAppend(s.cur.arrivals, t);
    assert forall u :: u in a.cur.arrivals <==> u in s.cur.arrivals || u == t;
    assert forall u :: u in s.threads ==> a.threads[u] == Woken(s.threads[u]);
    assert forall u :: IsInside(a, u) <==> IsInside(s, u);
    assert s.n > 0 ==> a.cur.arrivals[0] == s.cur.arrivals[0];
  }

  lemma EnterKeepsInv(s: State, t: nat)
    requires Inv(s) && CanEnter(s, t)
    ensures Inv(Enter(s, t))
  {
    if !s.arrival {
      var s' := Enter(s, t);
      assert forall u :: u != t && u in s.threads ==> s'.threads[u] == s.threads[u];
      assert forall u :: IsInside(s', u) <==> IsInside(s, u);
    } else if s.n + 1 < s.max {
      ArriveKeepsInv(s, t);
    } else {
      var a := s.(n := s.n + 1, arrival := false, threads := Broadcast(s.threads),
                  cur := s.cur.(arrivals := s.cur.arrivals + [t]));
      LastArrivalDeparts(s, t, a);
      DepartKeepsInv(a, t, s.n == 0);
    }
  }

  lemma LeaveKeepsInv(s: State, t: nat)
    requires Inv(s) && CanLeave(s, t)
    ensures Inv(Leave(s, t))
  {
    if s.arrival {
      var s' := Leave(s, t);
      assert forall u :: u != t && u in s.threads ==> s'.threads[u] == s.threads[u];
      assert forall u :: IsInside(s', u) <==> IsInside(s, u);
    } else {
      assert IsInside(s, t);
      DepartKeepsInv(s, t, s.threads[t].master);
    }
  }

  lemma WakeKeepsInv(s: State, t: nat)
    requires Inv(s) && t in s.threads
    ensures Inv(s.(threads := s.threads[t := Woken(s.threads[t])]))
  {
    var s' := s.(threads := s.threads[t := Woken(s.threads[t])]);
    assert forall u :: IsInside(s', u) <==> IsInside(s, u);
  }

  lemma StepKeepsInv(s: State, s': State)
    requires Inv(s) && Next(s, s')
    ensures Inv(s')
  {
    if t :| CanEnter(s, t) && s' == Enter(s, t) {
      EnterKeepsInv(s, t);
    } else if t :| CanLeave(s, t) && s' == Leave(s, t) {
      LeaveKeepsInv(s, t);
    } else {
      var t :| t in s.threads && s' == s.(threads := s.threads[t := Woken(s.threads[t])]);
      WakeKeepsInv(s, t);
    }
  }

  /* ---------- whole runs ---------- */

  // parsec_barrier_init accepts every count but zero.
  ghost predicate Init(s: State) {
    && s.max >= 1 && s.n == 0 && s.arrival && s.past == [] && s.cur == EMPTY
    && forall t :: t in s.threads ==> s.threads[t].pc == Outside
  }

  ghost predicate IsRun(run: seq<State>) {
    && run != [] && Init(run[0])
    && forall i :: 0 <= i < |run| - 1 ==> Next(run[i], run[i + 1])
  }

  // What a user of the barrier sees: every finished round let exactly max threads pass,
  // one of them with the serial value, and in the open round nobody left before all max had come.
  ghost predicate IsBarrier(s: State) {
    && (forall i :: 0 <= i < |s.past| ==> Complete(s.past[i], s.max))
    && (s.cur.departures != [] ==> |s.cur.arrivals| == s.max)
    && |s.cur.serials| <= 1
    && (forall t :: t in s.threads && s.threads[t].pc == Blocked(true) ==> !s.arrival)
    && (forall t :: t in s.threads && s.threads[t].pc == Inside(true) ==> s.arrival)
  }

  lemma {:induction false} RunKeepsInv(run: seq<State>)
    requires IsRun(run)
    ensures forall i :: 0 <= i < |run| ==> Inv(run[i]) && IsBarrier(run[i])
  {
    if |run| > 1 {
      var m := |run| - 1;
      RunKeepsInv(run[..m]);
      assert Inv(run[..m][m - 1]);
      assert Next(run[m - 1], run[m - 1 + 1]);
      StepKeepsInv(run[m - 1], run[m]);
      forall i | 0 <= i < |run| ensures Inv(run[i]) && IsBarrier(run[i]) {
        assert i < m ==> run[..m][i] == run[i];
      }
    }
  }

  // Nobody overtakes: an arrival is only counted while the open round has let nobody go.
  lemma NoOvertaking(s: State, s': State)
    requires Inv(s) && Next(s, s') && |s'.past| == |s.past| && |s'.cur.arrivals| > |s.cur.arrivals|
    ensures s.arrival && s.cur.departures == [] && s.n == |s.cur.arrivals| < s.max
    ensures exists t :: s'.cur.arrivals == s.cur.arrivals + [t] && t !in s.cur.arrivals
  {
    if t :| CanEnter(s, t) && s' == Enter(s, t) {
      assert !IsInside(s, t);
      assert s'.cur.arrivals == s.cur.arrivals + [t];
    }
  }

  /* ---------- max threads with the same number of calls finish together ---------- */

  ghost predicate Behind(s: State, t: nat, rounds: nat) {
    t in s.threads ==>
      && s.threads[t].calls + |s.past| + (if t in s.cur.departures then 1 else 0) == rounds
      && (s.threads[t].pc != Outside ==> s.threads[t].calls > 0)
  }

  ghost predicate Lockstep(s: State, rounds: nat) {
    && |s.threads| == s.max
    && (forall t :: t in s.cur.arrivals ==> t in s.threads)
    && forall t :: Behind(s, t, rounds)
  }

  lemma EverybodyCame(s: State, arrivals: seq<nat>)
    requires Distinct(arrivals) && |arrivals| == |s.threads| && forall t :: t in arrivals ==> t in s.threads
    ensures forall t :: t in s.threads ==> t in arrivals
  {
    DistinctCount(arrivals);
    assert |s.threads.Keys| == |s.threads|;
    SubsetSize(Members(arrivals), s.threads.Keys);
    assert forall t :: t in s.threads <==> t in Members(arrivals);
  }

  // Leaving counts one call of t and, for the last one out, one round of everybody.
  lemma DepartKeepsLockstep(s: State, t: nat, master: bool, rounds: nat)
    requires Departing(s, t, master) && Lockstep(s, rounds)
    requires s.threads[t].calls > 0
    ensures Lockstep(Depart(s, t, master), rounds)
  {
    var s', departures := Depart(s, t, master), s.cur.departures + [t];
    DistinctAppend(s.cur.departures, t);
    assert forall u :: u in departures <==> u in s.cur.departures || u == t;
    assert s'.threads.Keys == s.threads.Keys;
    assert |s'.threads.Keys| == |s.threads.Keys|;
    if s.n == 1 {
      EverybodyCame(s, s.cur.arrivals);
      forall u | u in s.threads ensures Behind(s', u, rounds) {
        NoneLeft(s.cur.arrivals, departures, u);
        assert Behind(s, u, rounds);
        assert u != t ==> s'.threads[u] == Woken(s.threads[u]);
      }
    } else {
      forall u | u in s.threads ensures Behind(s', u, rounds) {
        assert Behind(s, u, rounds);
        assert u != t ==> s'.threads[u] == s.threads[u];
      }
    }
  }

  lemma EnterKeepsLockstep(s: State, t: nat, rounds: nat)
    requires Inv(s) && CanEnter(s, t) && Lockstep(s, rounds)
    ensures Lockstep(Enter(s, t), rounds)
  {
    var s' := Enter(s, t);
    assert Behind(s, t, rounds);
    if s.arrival && s.n + 1 >= s.max {
      assert !IsInside(s, t);
      DistinctAppend(s.cur.arrivals, t);
      var a := s.(n := s.n + 1, arrival := false, threads := Broadcast(s.threads),
                  cur := s.cur.(arrivals := s.cur.arrivals + [t]));
      LastArrivalDeparts(s, t, a);
      assert a.threads.Keys == s.threads.Keys;
      assert |a.threads.Keys| == |s.threads.Keys|;
      forall u | u in s.threads ensures Behind(a, u, rounds) {
        assert Behind(s, u, rounds);
        assert a.threads[u] == Woken(s.threads[u]);
      }
      DepartKeepsLockstep(a, t, s.n == 0, rounds);
    } else {
      assert s'.threads.Keys == s.threads.Keys;
      assert |s'.threads.Keys| == |s.threads.Keys|;
      forall u | u in s.threads ensures Behind(s', u, rounds) {
        assert Behind(s, u, rounds);
      }
    }
  }

  // A thread that only sleeps or wakes changes no counts.
  lemma SameCounts(s: State, s': State, t: nat, th: Thread, rounds: nat)
    requires Lockstep(s, rounds) && t in s.threads && s' == s.(threads := s.threads[t := th])
    requires th.calls == s.threads[t].calls && (th.pc != Outside ==> s.threads[t].pc != Outside)
    ensures Lockstep(s', rounds)
  {
    assert s'.threads.Keys == s.threads.Keys;
    assert |s'.threads.Keys| == |s.threads.Keys|;
    forall u | u in s.threads ensures Behind(s', u, rounds) {
      assert Behind(s, u, rounds);
    }
  }

  lemma LeaveKeepsLockstep(s: State, t: nat, rounds: nat)
    requires Inv(s) && CanLeave(s, t) && Lockstep(s, rounds)
    ensures Lockstep(Leave(s, t), rounds)
  {
    if s.arrival {
      SameCounts(s, Leave(s, t), t, s.threads[t].(pc := Inside(true)), rounds);
    } else {
      assert IsInside(s, t) && Behind(s, t, rounds);
      DepartKeepsLockstep(s, t, s.threads[t].master, rounds);
    }
  }

  lemma StepKeepsLockstep(s: State, s': State, rounds: nat)
    requires Inv(s) && Next(s, s') && Lockstep(s, rounds)
    ensures Lockstep(s', rounds)
  {
    hide Inv, Lockstep, Enter, Leave;
    if t :| CanEnter(s, t) && s' == Enter(s, t) {
      EnterKeepsLockstep(s, t, rounds);
    } else if t :| CanLeave(s, t) && s' == Leave(s, t) {
      LeaveKeepsLockstep(s, t, rounds);
    } else {
      var t :| t in s.threads && s' == s.(threads := s.threads[t := Woken(s.threads[t])]);
      SameCounts(s, s', t, Woken(s.threads[t]), rounds);
    }
  }

  ghost predicate Stuck(s: State) {
    forall t :: !CanEnter(s, t) && !CanLeave(s, t)
  }

  // Whoever is stuck waits for callers: the arrival phase is open, fewer than max have come,
  // and no thread outside has a call left.
  lemma StuckOnlyForWantOfCallers(s: State)
    requires Inv(s) && Stuck(s)
    ensures s.arrival && s.n < s.max
    ensures forall t :: t in s.threads ==>
      s.threads[t].pc == Inside(true) || (s.threads[t].pc == Outside && s.threads[t].calls == 0)
  {
    if !s.arrival {
      SomeoneInside(s);
      var t :| IsInside(s, t);
      assert CanLeave(s, t);
    }
    forall t | t in s.threads ensures
      s.threads[t].pc == Inside(true) || (s.threads[t].pc == Outside && s.threads[t].calls == 0)
    {
      assert !CanEnter(s, t) && !CanLeave(s, t);
      assert s.threads[t].pc.Inside? ==> IsInside(s, t);
    }
  }

  lemma SomeoneInside(s: State)
    requires CurOk(s) && s.n > 0
    ensures exists t :: IsInside(s, t)
  {
    DistinctCount(s.cur.arrivals);
    DistinctCount(s.cur.departures);
    if Members(s.cur.arrivals) <= Members(s.cur.departures) {
      SubsetSize(Members(s.cur.arrivals), Members(s.cur.departures));
    } else {
      var t :| t in Members(s.cur.arrivals) && t !in Members(s.cur.departures);
      assert IsInside(s, t);
    }
  }

  // max threads that call the barrier equally often can only stop when all their calls have returned.
  lemma EqualCallersFinish(s: State, rounds: nat)
    requires Inv(s) && Lockstep(s, rounds) && Stuck(s)
    ensures forall t :: t in s.threads ==> s.threads[t].pc == Outside && s.threads[t].calls == 0
    ensures |s.past| == rounds && s.cur == EMPTY
  {
    StuckOnlyForWantOfCallers(s);
    DistinctCount(s.cur.arrivals);
    assert |s.threads.Keys| == |s.threads|;
    if s.threads.Keys <= Members(s.cur.arrivals) {
      SubsetSize(s.threads.Keys, Members(s.cur.arrivals));
      assert false;
    }
    var u :| u in s.threads && u !in s.cur.arrivals;
    assert !IsInside(s, u) && Behind(s, u, rounds);
    forall t | t in s.threads ensures s.threads[t].pc == Outside && s.threads[t].calls == 0 {
      assert Behind(s, t, rounds);
    }
    assert forall t :: !IsInside(s, t);
    if s.n > 0 { SomeoneInside(s); }
  }

  lemma {:induction false} EqualCallersFinishTogether(run: seq<State>, rounds: nat)
    requires IsRun(run) && |run[0].threads| == run[0].max
    requires forall t :: t in run[0].threads ==> run[0].threads[t].calls == rounds
    ensures forall i :: 0 <= i < |run| ==> Inv(run[i]) && Lockstep(run[i], rounds)
    ensures Stuck(run[|run| - 1]) ==> |run[|run| - 1].past| == rounds
  {
    RunKeepsInv(run);
    if |run| > 1 {
      var m := |run| - 1;
      EqualCallersFinishTogether(run[..m], rounds);
      assert Lockstep(run[..m][m - 1], rounds);
      assert Next(run[m - 1], run[m - 1 + 1]);
      StepKeepsLockstep(run[m - 1], run[m], rounds);
      forall i | 0 <= i < |run| ensures Lockstep(run[i], rounds) {
        assert i < m ==> run[..m][i] == run[i];
      }
    }
    if Stuck(run[|run| - 1]) { EqualCallersFinish(run[|run| - 1], rounds); }
  }

  /* ---------- runs come to a stop ---------- */

  ghost predicate CallsOk(threads: map<nat, Thread>) {
    forall t :: t in threads && threads[t].pc != Outside ==> threads[t].calls > 0
  }

  // What the thread still has to do: come to wait, arrive and leave, for each call.
  function Left(th: Thread): int {
    3 * th.calls - match th.pc case Outside => 0 case Blocked(_) => 1 case Inside(_) => 2
  }

  function Awake(th: Thread): nat {
    if th.pc == Blocked(false) || th.pc == Inside(false) then 1 else 0
  }

  // A broadcast may wake n threads, so headway has to count for more than n of them going back to sleep.
  function Effort(th: Thread, n: nat): int {
    (n + 1) * Left(th) + Awake(th)
  }

  function TotalEffort(threads: map<nat, Thread>, n: nat, k: nat): int {
    if k == 0 then 0 else TotalEffort(threads, n, k - 1) + if k - 1 in threads then Effort(threads[k - 1], n) else 0
  }

  // A step of a thread by itself: into or out of the barrier, or back to sleep.
  ghost predicate Acts(s: State, s': State) {
    (exists t :: CanEnter(s, t) && s' == Enter(s, t)) || (exists t :: CanLeave(s, t) && s' == Leave(s, t))
  }

  ghost predicate Wakes(s: State, s': State) {
    exists t :: t in s.threads && s' == s.(threads := s.threads[t := Woken(s.threads[t])])
  }

  // th goes on, everybody else is at most woken.
  ghost predicate Moves(threads: map<nat, Thread>, threads': map<nat, Thread>, t: nat) {
    && threads'.Keys == threads.Keys && t in threads
    && (forall u :: u in threads && u != t ==> threads'[u] == threads[u] || threads'[u] == Woken(threads[u]))
    && Left(threads'[t]) < Left(threads[t])
  }

  // th goes to sleep again.
  ghost predicate Sleeps(threads: map<nat, Thread>, threads': map<nat, Thread>, t: nat) {
    && t in threads && t in threads' && threads' == threads[t := threads'[t]]
    && Left(threads'[t]) == Left(threads[t]) && Awake(threads'[t]) == 0 && Awake(threads[t]) == 1
  }

  lemma DepartMoves(s: State, t: nat, master: bool)
    requires t in s.threads && s.n > 0 && s.threads[t].calls > 0 && CallsOk(s.threads)
    ensures CallsOk(Depart(s, t, master).threads) && Moves(s.threads, Depart(s, t, master).threads, t)
  {
    var s' := Depart(s, t, master);
    assert s'.threads[t] == Thread(Outside, master, s.threads[t].calls - 1);
    forall u | u in s.threads && u != t ensures s'.threads[u] == s.threads[u] || s'.threads[u] == Woken(s.threads[u]) {
    }
  }

  lemma WokenFirst(threads: map<nat, Thread>, threads': map<nat, Thread>, t: nat)
    requires Moves(Broadcast(threads), threads', t) && CallsOk(threads')
    ensures Moves(threads, threads', t)
  {
    forall u | u in threads ensures Broadcast(threads)[u] == Woken(threads[u]) == Woken(Woken(threads[u])) {
    }
    assert Left(Woken(threads[t])) == Left(threads[t]);
  }

  lemma EnterMovesOrSleeps(s: State, t: nat)
    requires CanEnter(s, t) && CallsOk(s.threads)
    ensures CallsOk(Enter(s, t).threads)
    ensures Moves(s.threads, Enter(s, t).threads, t) || Sleeps(s.threads, Enter(s, t).threads, t)
  {
    hide Depart;
    if s.arrival && s.n + 1 >= s.max {
      var arrived := s.(n := s.n + 1, arrival := false, threads := Broadcast(s.threads), cur := s.cur.(arrivals := s.cur.arrivals + [t]));
      DepartMoves(arrived, t, s.n == 0);
      WokenFirst(s.threads, Enter(s, t).threads, t);
    }
  }

  lemma LeaveMovesOrSleeps(s: State, t: nat)
    requires CanLeave(s, t) && CallsOk(s.threads)
    ensures CallsOk(Leave(s, t).threads)
    ensures Moves(s.threads, Leave(s, t).threads, t) || Sleeps(s.threads, Leave(s, t).threads, t)
  {
    hide Depart;
    if !s.arrival { DepartMoves(s, t, s.threads[t].master); }
  }

  lemma ActMovesOrSleeps(s: State, s': State) returns (t: nat)
    requires CallsOk(s.threads) && Acts(s, s')
    ensures t in s.threads && CallsOk(s'.threads)
    ensures Moves(s.threads, s'.threads, t) || Sleeps(s.threads, s'.threads, t)
  {
    hide Enter, Leave, CallsOk, Moves, Sleeps;
    if u :| CanEnter(s, u) && s' == Enter(s, u) {
      t := u;
      EnterMovesOrSleeps(s, t);
    } else {
      t :| CanLeave(s, t) && s' == Leave(s, t);
      LeaveMovesOrSleeps(s, t);
    }
  }

  lemma EffortOfMover(th: Thread, th': Thread, n: nat)
    requires Left(th') < Left(th)
    ensures Effort(th', n) + n <= Effort(th, n)
  {
    MulMonotone(n + 1, Left(th') + 1, Left(th));
    assert (n + 1) * (Left(th') + 1) == (n + 1) * Left(th') + n + 1;
  }

  lemma EffortOfWoken(th: Thread, n: nat)
    ensures Effort(th, n) <= Effort(Woken(th), n) <= Effort(th, n) + 1
  {
  }

  lemma {:induction false} MoveLowersEffort(threads: map<nat, Thread>, threads': map<nat, Thread>, t: nat, n: nat, k: nat)
    requires Moves(threads, threads', t) && t < n && k <= n
    ensures TotalEffort(threads', n, k) + (if t < k then n + 1 else 0) <= TotalEffort(threads, n, k) + k
  {
    hide Effort, Left, Woken;
    if k > 0 {
      MoveLowersEffort(threads, threads', t, n, k - 1);
      if k - 1 == t {
        EffortOfMover(threads[t], threads'[t], n);
      } else if k - 1 in threads {
        EffortOfWoken(threads[k - 1], n);
      }
    }
  }

  lemma {:induction false} OneThreadsEffort(threads: map<nat, Thread>, t: nat, th: Thread, n: nat, k: nat)
    requires t in threads
    ensures TotalEffort(threads[t := th], n, k)
      == TotalEffort(threads, n, k) + if t < k then Effort(th, n) - Effort(threads[t], n) else 0
  {
    hide Effort;
    if k > 0 { OneThreadsEffort(threads, t, th, n, k - 1); }
  }

  lemma ActLowersEffort(s: State, s': State, n: nat)
    requires CallsOk(s.threads) && Acts(s, s') && forall t :: t in s.threads ==> t < n
    ensures CallsOk(s'.threads) && TotalEffort(s'.threads, n, n) + 1 <= TotalEffort(s.threads, n, n)
  {
    hide Acts;
    var t := ActMovesOrSleeps(s, s');
    if Moves(s.threads, s'.threads, t) {
      MoveLowersEffort(s.threads, s'.threads, t, n, n);
    } else {
      OneThreadsEffort(s.threads, t, s'.threads[t], n, n);
    }
  }

  lemma WakeRaisesEffort(s: State, s': State, n: nat)
    requires CallsOk(s.threads) && Wakes(s, s') && forall t :: t in s.threads ==> t < n
    ensures CallsOk(s'.threads) && TotalEffort(s'.threads, n, n) <= TotalEffort(s.threads, n, n) + 1
  {
    var t :| t in s.threads && s' == s.(threads := s.threads[t := Woken(s.threads[t])]);
    OneThreadsEffort(s.threads, t, Woken(s.threads[t]), n, n);
    EffortOfWoken(s.threads[t], n);
  }

  lemma {:induction false} EffortIsPositive(threads: map<nat, Thread>, n: nat, k: nat)
    requires CallsOk(threads)
    ensures TotalEffort(threads, n, k) >= 0
  {
    if k > 0 {
      EffortIsPositive(threads, n, k - 1);
      if k - 1 in threads { MulMonotone(n + 1, 0, Left(threads[k - 1])); }
    }
  }

  // The steps of the first i that threads made by themselves; the others were wake-ups out of turn.
  ghost function Actions(run: seq<State>, i: nat): (c: nat)
    requires i < |run|
    ensures c <= i
  {
    if i == 0 then 0 else Actions(run, i - 1) + if Acts(run[i - 1], run[i]) then 1 else 0
  }

  // All calls of threads 0 to k - 1.
  function CallsBelow(threads: map<nat, Thread>, k: nat): nat {
    if k == 0 then 0 else CallsBelow(threads, k - 1) + if k - 1 in threads then threads[k - 1].calls else 0
  }

  lemma {:induction false} EffortAtStart(threads: map<nat, Thread>, n: nat, k: nat)
    requires forall t :: t in threads ==> threads[t].pc == Outside
    ensures TotalEffort(threads, n, k) == 3 * (n + 1) * CallsBelow(threads, k)
  {
    if k > 0 {
      EffortAtStart(threads, n, k - 1);
      Distributes(3 * (n + 1), CallsBelow(threads, k - 1), if k - 1 in threads then threads[k - 1].calls else 0);
    }
  }

  lemma Distributes(m: nat, x: nat, y: nat)
    ensures m * (x + y) == m * x + m * y
  {
  }

  lemma {:induction false} EffortOverRun(run: seq<State>, n: nat, i: nat)
    requires IsRun(run) && i < |run| && forall t :: t in run[0].threads ==> t < n
    ensures CallsOk(run[i].threads) && run[i].threads.Keys == run[0].threads.Keys
    ensures TotalEffort(run[i].threads, n, n) + Actions(run, i) <= TotalEffort(run[0].threads, n, n) + (i - Actions(run, i))
  {
    hide TotalEffort, Acts, Wakes;
    if i > 0 {
      EffortOverRun(run, n, i - 1);
      var s, s' := run[i - 1], run[i];
      assert Next(run[i - 1], run[i - 1 + 1]);
      NextKinds(s, s');
      if Acts(s, s') { ActLowersEffort(s, s', n); } else { WakeRaisesEffort(s, s', n); }
    }
  }

  lemma NextKinds(s: State, s': State)
    requires Next(s, s')
    ensures (Acts(s, s') || Wakes(s, s')) && s'.threads.Keys == s.threads.Keys
  {
  }

  // The threads' own steps, including those that find a condition unmet and sleep again, are bounded by
  // their calls and by the wake-ups out of turn: without endless spurious wake-ups, or polling, every run stops.
  lemma ActionsAreBounded(run: seq<State>, n: nat, i: nat)
    requires IsRun(run) && i < |run| && forall t :: t in run[0].threads ==> t < n
    ensures Actions(run, i) <= 3 * (n + 1) * CallsBelow(run[0].threads, n) + (i - Actions(run, i))
  {
    EffortOverRun(run, n, i);
    EffortIsPositive(run[i].threads, n, n);
    EffortAtStart(run[0].threads, n, n);
  }
}
