/**
  AtomicPtr of canneal: Swap and TrySwap on pairs of distinct slots, run by any
  number of threads.  Slots are numbered by address.  A step is one atomic
  load, compare-and-set or store.  A slot that holds ATOMIC_NULL is checked
  out: the thread that put the mark there keeps its pointer meanwhile.
 */
module AtomicSwap {
  import opened Numbers

  const ATOMIC_NULL := 1

  // One call: the lower address, the higher address, and whether it is a TrySwap.
  datatype Op = Op(first: nat, last: nat, isTry: bool)

  datatype Pc =
    | Idle
    | Get1 | Cas1   // Checkout of the first slot: load, then compare-and-set to ATOMIC_NULL
    | Get2 | Cas2   // PrivateSet of the last slot: load, then compare-and-set to the first pointer
    | Put           // Checkin of the first slot

  // val is the pointer just loaded, held the one kept while first is checked out;
  // swapped says whether the compare-and-set on the last slot has succeeded.
  datatype Thread = Thread(pc: Pc, op: Op, val: int, held: int, swapped: bool, todo: seq<Op>, results: seq<bool>)

  // effects lists the swaps in the order in which they took effect.
  datatype State = State(slots: seq<int>, threads: map<nat, Thread>, effects: seq<Op>)

  predicate Holding(th: Thread) {
    th.pc == Get2 || th.pc == Cas2 || th.pc == Put
  }

  predicate OpOk(op: Op, n: nat) {
    op.first < op.last < n
  }

  ghost predicate ThreadOk(slots: seq<int>, th: Thread) {
    && (forall i :: 0 <= i < |th.todo| ==> OpOk(th.todo[i], |slots|))
    && (th.pc != Idle ==> OpOk(th.op, |slots|))
    && (th.pc == Cas1 || th.pc == Cas2 ==> th.val != ATOMIC_NULL)
    && (Holding(th) ==> slots[th.op.first] == ATOMIC_NULL && th.held != ATOMIC_NULL)
    && (th.pc == Put && !th.op.isTry ==> th.swapped)
    && (th.pc != Idle && th.pc != Put ==> !th.swapped)
  }

  // Its step makes headway; a Get on a checked-out slot merely spins.
  ghost predicate CanGo(slots: seq<int>, th: Thread)
    requires ThreadOk(slots, th)
  {
    match th.pc
    case Idle => th.todo != []
    case Get1 => th.op.isTry || slots[th.op.first] != ATOMIC_NULL
    case Get2 => th.op.isTry || slots[th.op.last] != ATOMIC_NULL
    case _ => true
  }

  ghost predicate Enabled(s: State, t: nat) {
    t in s.threads && ThreadOk(s.slots, s.threads[t]) && CanGo(s.slots, s.threads[t])
  }

  ghost function NextThread(slots: seq<int>, th: Thread): Thread
    requires ThreadOk(slots, th)
  {
    match th.pc
    case Idle =>
      if th.todo == [] then th
      else th.(pc := Get1, op := th.todo[0], todo := th.todo[1..], swapped := false)
    case Get1 =>
      if slots[th.op.first] != ATOMIC_NULL then th.(pc := Cas1, val := slots[th.op.first])
      else if th.op.isTry then th.(pc := Idle, results := th.results + [false])
      else th
    case Cas1 =>
      if slots[th.op.first] == th.val then th.(pc := Get2, held := th.val)
      else if th.op.isTry then th.(pc := Idle, results := th.results + [false])
      else th.(pc := Get1)
    case Get2 =>
      if slots[th.op.last] != ATOMIC_NULL then th.(pc := Cas2, val := slots[th.op.last])
      else if th.op.isTry then th.(pc := Put)
      else th
    case Cas2 =>
      if slots[th.op.last] == th.val then th.(pc := Put, held := th.val, swapped := true)
      else if th.op.isTry then th.(pc := Put)
      else th.(pc := Get2)
    case Put => th.(pc := Idle, results := th.results + [th.swapped])
  }

  ghost function NextSlots(slots: seq<int>, th: Thread): seq<int>
    requires ThreadOk(slots, th)
  {
    match th.pc
    case Cas1 => if slots[th.op.first] == th.val then slots[th.op.first := ATOMIC_NULL] else slots
    case Cas2 => if slots[th.op.last] == th.val then slots[th.op.last := th.held] else slots
    case Put => slots[th.op.first := th.held]
    case _ => slots
  }

  ghost predicate TakesEffect(slots: seq<int>, th: Thread)
    requires ThreadOk(slots, th)
  {
    th.pc == Cas2 && slots[th.op.last] == th.val
  }

  ghost function Advance(s: State, t: nat): State
    requires t in s.threads && ThreadOk(s.slots, s.threads[t])
  {
    var th := s.threads[t];
    State(NextSlots(s.slots, th), s.threads[t := NextThread(s.slots, th)],
          if TakesEffect(s.slots, th) then s.effects + [th.op] else s.effects)
  }

  ghost predicate Inv(s: State) {
    && (forall t :: t in s.threads ==> ThreadOk(s.slots, s.threads[t]))
    && OneHolderEach(s)
    && (forall a :: 0 <= a < |s.slots| && s.slots[a] == ATOMIC_NULL ==> exists t :: IsHolder(s, t, a))
  }

  ghost predicate IsHolder(s: State, t: nat, a: nat) {
    t in s.threads && Holding(s.threads[t]) && s.threads[t].op.first == a
  }

  ghost predicate OneHolderEach(s: State) {
    forall t, u, a :: IsHolder(s, t, a) && IsHolder(s, u, a) ==> t == u
  }

  lemma StepKeepsInv(s: State, t: nat)
    requires Inv(s) && t in s.threads
    ensures Inv(Advance(s, t)) && |Advance(s, t).slots| == |s.slots|
  {
    var s', th := Advance(s, t), s.threads[t];
    forall u | u in s'.threads ensures ThreadOk(s'.slots, s'.threads[u]) {
      if u == t {
        OwnThreadOk(s.slots, th);
      } else {
        OtherThreadOk(s, t, u);
      }
    }
    forall a | 0 <= a < |s'.slots| && s'.slots[a] == ATOMIC_NULL ensures exists u :: IsHolder(s', u, a) {
      if s.slots[a] == ATOMIC_NULL {
        var u :| IsHolder(s, u, a);
        assert IsHolder(s', u, a);
      } else {
        assert IsHolder(s', t, a);
      }
    }
    HoldersStayUnique(s, t);
  }

  lemma OwnThreadOk(slots: seq<int>, th: Thread)
    requires ThreadOk(slots, th)
    ensures ThreadOk(NextSlots(slots, th), NextThread(slots, th))
  {
  }

  lemma OtherThreadOk(s: State, t: nat, u: nat)
    requires Inv(s) && t in s.threads && u in s.threads && t != u
    ensures ThreadOk(NextSlots(s.slots, s.threads[t]), s.threads[u])
  {
    assert Holding(s.threads[u]) ==> IsHolder(s, u, s.threads[u].op.first);
    assert Holding(s.threads[t]) ==> IsHolder(s, t, s.threads[t].op.first);
  }

  lemma HoldersStayUnique(s: State, t: nat)
    requires Inv(s) && t in s.threads
    ensures OneHolderEach(Advance(s, t))
  {
    var s', th := Advance(s, t), s.threads[t];
    forall u, v, a: nat | IsHolder(s', u, a) && IsHolder(s', v, a) ensures u == v {
      assert u != t ==> IsHolder(s, u, a);
      assert v != t ==> IsHolder(s, v, a);
      if th.pc == Cas1 {
        assert forall w :: IsHolder(s, w, a) ==> s.slots[a] == ATOMIC_NULL;
      } else {
        assert IsHolder(s', t, a) ==> IsHolder(s, t, a);
      }
    }
  }

  /* ---------- what the slots mean ---------- */

  // The pointer that slot a stands for: its own, or the one its holder keeps for it.
  ghost function Meaning(s: State, a: nat): int
    requires Inv(s) && a < |s.slots|
  {
    if s.slots[a] != ATOMIC_NULL then s.slots[a]
    else
      var t :| IsHolder(s, t, a);
      s.threads[t].held
  }

  lemma MeaningOfHeld(s: State, t: nat, a: nat)
    requires Inv(s) && a < |s.slots| && IsHolder(s, t, a)
    ensures Meaning(s, a) == s.threads[t].held
  {
  }

  ghost function Meanings(s: State): (r: seq<int>)
    requires Inv(s)
    ensures |r| == |s.slots| && forall a :: 0 <= a < |r| ==> r[a] == Meaning(s, a)
  {
    seq(|s.slots|, a requires 0 <= a < |s.slots| => Meaning(s, a))
  }

  ghost function Exchanged(p: seq<int>, i: nat, j: nat): seq<int>
    requires i < |p| && j < |p|
  {
    p[i := p[j]][j := p[i]]
  }

  // A step changes nothing, except that the successful compare-and-set on the last slot swaps both at once.
  lemma StepMeans(s: State, t: nat, a: nat)
    requires Inv(s) && t in s.threads && a < |s.slots| && Inv(Advance(s, t)) && |Advance(s, t).slots| == |s.slots|
    ensures var th := s.threads[t];
      Meaning(Advance(s, t), a) ==
        if TakesEffect(s.slots, th) then Exchanged(Meanings(s), th.op.first, th.op.last)[a] else Meaning(s, a)
  {
    var s', th := Advance(s, t), s.threads[t];
    if s.slots[a] == ATOMIC_NULL {
      var u :| IsHolder(s, u, a);
      MeaningOfHeld(s, u, a);
      if u != t || th.pc != Put {
        assert IsHolder(s', u, a);
        MeaningOfHeld(s', u, a);
      }
    } else if s'.slots[a] == ATOMIC_NULL {
      assert IsHolder(s', t, a);
      MeaningOfHeld(s', t, a);
    }
    if TakesEffect(s.slots, th) {
      assert IsHolder(s, t, th.op.first);
      MeaningOfHeld(s, t, th.op.first);
    }
  }

  lemma StepRefines(s: State, t: nat)
    requires Inv(s) && t in s.threads
    ensures Inv(Advance(s, t))
    ensures var th := s.threads[t];
      Meanings(Advance(s, t)) ==
        if TakesEffect(s.slots, th) then Exchanged(Meanings(s), th.op.first, th.op.last) else Meanings(s)
  {
    StepKeepsInv(s, t);
    hide Inv, Meaning, Advance, ThreadOk;
    var s', th := Advance(s, t), s.threads[t];
    assert ThreadOk(s.slots, th) by { ThreadsOk(s, t); }
    SameLength(s, t);
    forall a | 0 <= a < |s.slots|
      ensures Meaning(s', a) ==
        if TakesEffect(s.slots, th) then Exchanged(Meanings(s), th.op.first, th.op.last)[a] else Meaning(s, a)
    {
      StepMeans(s, t, a);
    }
  }

  lemma ThreadsOk(s: State, t: nat)
    requires Inv(s) && t in s.threads
    ensures ThreadOk(s.slots, s.threads[t])
  {
  }

  lemma SameLength(s: State, t: nat)
    requires t in s.threads && ThreadOk(s.slots, s.threads[t])
    ensures |Advance(s, t).slots| == |s.slots|
  {
  }

  /* ---------- whole runs ---------- */

  ghost function Replayed(p: seq<int>, effects: seq<Op>): (r: seq<int>)
    requires forall i :: 0 <= i < |effects| ==> OpOk(effects[i], |p|)
    ensures |r| == |p|
  {
    if effects == [] then p
    else
      var op := effects[|effects| - 1];
      assert OpOk(op, |p|);
      Exchanged(Replayed(p, effects[..|effects| - 1]), op.first, op.last)
  }

  lemma {:induction false} ReplayPermutes(p: seq<int>, effects: seq<Op>)
    requires forall i :: 0 <= i < |effects| ==> OpOk(effects[i], |p|)
    ensures multiset(Replayed(p, effects)) == multiset(p)
  {
    if effects != [] {
      ReplayPermutes(p, effects[..|effects| - 1]);
    }
  }

  ghost predicate Init(s: State) {
    && s.effects == []
    && (forall a :: 0 <= a < |s.slots| ==> s.slots[a] != ATOMIC_NULL)
    && (forall t :: t in s.threads ==>
          s.threads[t].pc == Idle && s.threads[t].results == [] && ThreadOk(s.slots, s.threads[t]))
  }

  ghost predicate IsRun(run: seq<State>, sched: seq<nat>) {
    |run| == |sched| + 1 && forall i {:trigger sched[i]} :: 0 <= i < |sched| ==>
      sched[i] in run[i].threads && ThreadOk(run[i].slots, run[i].threads[sched[i]]) && run[i + 1] == Advance(run[i], sched[i])
  }

  ghost predicate EffectsOk(s: State) {
    forall i :: 0 <= i < |s.effects| ==> OpOk(s.effects[i], |s.slots|)
  }

  // In every state of every run the slots mean what the swaps so far, one after the other, make of the start.
  lemma {:induction false} RunIsSequential(run: seq<State>, sched: seq<nat>, i: nat)
    requires IsRun(run, sched) && Init(run[0]) && i < |run|
    ensures Inv(run[i]) && EffectsOk(run[i]) && |run[i].slots| == |run[0].slots|
    ensures Meanings(run[i]) == Replayed(run[0].slots, run[i].effects)
  {
    if i == 0 {
      assert Meanings(run[0]) == run[0].slots;
    } else {
      RunIsSequential(run, sched, i - 1);
      var s, t := run[i - 1], sched[i - 1];
      StepRefines(s, t);
      SequentialStep(s, t, run[0].slots);
    }
  }

  lemma SequentialStep(s: State, t: nat, p: seq<int>)
    requires Inv(s) && t in s.threads && Inv(Advance(s, t)) && EffectsOk(s) && |p| == |s.slots|
    requires Meanings(s) == Replayed(p, s.effects)
    requires var th := s.threads[t];
      Meanings(Advance(s, t)) ==
        if TakesEffect(s.slots, th) then Exchanged(Meanings(s), th.op.first, th.op.last) else Meanings(s)
    ensures EffectsOk(Advance(s, t)) && |Advance(s, t).slots| == |s.slots|
    ensures Meanings(Advance(s, t)) == Replayed(p, Advance(s, t).effects)
  {
    hide Inv, Meanings, NextThread;
    ThreadsOk(s, t);
    var s', th := Advance(s, t), s.threads[t];
    if TakesEffect(s.slots, th) {
      assert s'.effects[..|s'.effects| - 1] == s.effects;
    }
  }

  // Slots and pointers in flight are always a permutation of what was there at the start.
  lemma RunPermutes(run: seq<State>, sched: seq<nat>, i: nat)
    requires IsRun(run, sched) && Init(run[0]) && i < |run|
    ensures Inv(run[i]) && multiset(Meanings(run[i])) == multiset(run[0].slots)
  {
    RunIsSequential(run, sched, i);
    ReplayPermutes(run[0].slots, run[i].effects);
  }

  ghost predicate NobodyHolds(s: State) {
    forall t :: t in s.threads ==> !Holding(s.threads[t])
  }

  // Once nobody holds a slot, the slots themselves are the result of the swaps in order.
  lemma QuietRunIsSequential(run: seq<State>, sched: seq<nat>)
    requires IsRun(run, sched) && Init(run[0])
    requires NobodyHolds(run[|run| - 1])
    ensures EffectsOk(run[|run| - 1]) && |run[|run| - 1].slots| == |run[0].slots|
    ensures run[|run| - 1].slots == Replayed(run[0].slots, run[|run| - 1].effects)
  {
    var s := run[|run| - 1];
    RunIsSequential(run, sched, |run| - 1);
    forall a | 0 <= a < |s.slots| ensures Meaning(s, a) == s.slots[a] {
    }
    assert Meanings(s) == s.slots;
  }

  // How many of the effects a thread's calls report.
  ghost function Successes(results: seq<bool>): nat {
    if results == [] then 0 else Successes(results[..|results| - 1]) + if results[|results| - 1] then 1 else 0
  }

  ghost function Credited(th: Thread): nat {
    Successes(th.results) + if th.pc == Put && th.swapped then 1 else 0
  }

  // A call reports true exactly when it took effect, and it takes effect once.
  lemma EachCallOnce(s: State, t: nat, u: nat)
    requires Inv(s) && t in s.threads && u in s.threads
    ensures Credited(Advance(s, t).threads[u])
         == Credited(s.threads[u]) + if t == u then |Advance(s, t).effects| - |s.effects| else 0
  {
    var th, th' := s.threads[u], Advance(s, t).threads[u];
    if t == u && |th'.results| > |th.results| {
      assert th'.results[..|th'.results| - 1] == th.results;
    }
  }

  // The calls of threads 0 to n - 1 that have taken effect.
  ghost function CreditedBelow(s: State, n: nat): nat {
    if n == 0 then 0 else CreditedBelow(s, n - 1) + if n - 1 in s.threads then Credited(s.threads[n - 1]) else 0
  }

  lemma {:induction false} CreditsOfStep(s: State, t: nat, n: nat)
    requires Inv(s) && t in s.threads
    ensures CreditedBelow(Advance(s, t), n) == CreditedBelow(s, n) + if t < n then |Advance(s, t).effects| - |s.effects| else 0
  {
    hide Inv, Credited, NextThread, NextSlots;
    ThreadsOk(s, t);
    if n > 0 {
      CreditsOfStep(s, t, n - 1);
      if n - 1 in s.threads { EachCallOnce(s, t, n - 1); }
    }
  }

  // Over a whole run: the swaps that took effect are those that the threads report or are about to.
  lemma {:induction false} CreditsAddUp(run: seq<State>, sched: seq<nat>, n: nat, i: nat)
    requires IsRun(run, sched) && Init(run[0]) && i < |run|
    requires forall t :: t in run[0].threads ==> t < n
    ensures CreditedBelow(run[i], n) == CreditedBelow(run[0], n) + |run[i].effects|
    ensures run[i].threads.Keys == run[0].threads.Keys
  {
    hide Inv, Init, CreditedBelow, NextThread, NextSlots;
    if i > 0 {
      CreditsAddUp(run, sched, n, i - 1);
      RunIsSequential(run, sched, i - 1);
      var s, t := run[i - 1], sched[i - 1];
      assert t in run[0].threads;
      CreditsOfStep(s, t, n);
    } else {
      NoEffectsYet(run[0]);
    }
  }

  lemma NoEffectsYet(s: State)
    requires Init(s)
    ensures s.effects == []
  {
  }

  /* ---------- what the calls report ---------- */

  // th has worked off the calls of its list in order, with one result each, and a Swap reports true.
  ghost predicate History(calls: seq<Op>, th: Thread) {
    var n := |th.results|;
    && n + |th.todo| + (if th.pc == Idle then 0 else 1) == |calls|
    && th.todo == calls[|calls| - |th.todo|..]
    && (th.pc != Idle ==> th.op == calls[n])
    && forall k :: 0 <= k < n && !calls[k].isTry ==> th.results[k]
  }

  lemma StepKeepsHistory(slots: seq<int>, th: Thread, calls: seq<Op>)
    requires ThreadOk(slots, th) && History(calls, th)
    ensures History(calls, NextThread(slots, th))
  {
  }

  // One step of a run, thread by thread.
  lemma RunStep(run: seq<State>, sched: seq<nat>, i: nat)
    requires IsRun(run, sched) && 0 < i < |run|
    ensures var s, t := run[i - 1], sched[i - 1];
      && t in s.threads && ThreadOk(s.slots, s.threads[t]) && run[i].threads.Keys == s.threads.Keys
      && run[i].threads[t] == NextThread(s.slots, s.threads[t]) && run[i].slots == NextSlots(s.slots, s.threads[t])
      && (forall u :: u in s.threads && u != t ==> run[i].threads[u] == s.threads[u])
      && run[i].effects == if TakesEffect(s.slots, s.threads[t]) then s.effects + [s.threads[t].op] else s.effects
  {
    hide NextThread, NextSlots, ThreadOk, TakesEffect;
    assert run[i - 1 + 1] == Advance(run[i - 1], sched[i - 1]);
  }

  lemma {:induction false} CallsInOrder(run: seq<State>, sched: seq<nat>, t: nat, i: nat)
    requires IsRun(run, sched) && Init(run[0]) && i < |run| && t in run[0].threads
    ensures run[i].threads.Keys == run[0].threads.Keys && History(run[0].threads[t].todo, run[i].threads[t])
  {
    if i > 0 {
      hide History, NextThread, NextSlots, ThreadOk, IsRun, TakesEffect;
      CallsInOrder(run, sched, t, i - 1);
      RunStep(run, sched, i);
      if sched[i - 1] == t { StepKeepsHistory(run[i - 1].slots, run[i - 1].threads[t], run[0].threads[t].todo); }
    }
  }

  // The calls that have reported true.
  ghost function Successful(calls: seq<Op>, results: seq<bool>): seq<Op>
    requires |results| <= |calls|
  {
    if results == [] then []
    else
      var n := |results| - 1;
      Successful(calls, results[..n]) + if results[n] then [calls[n]] else []
  }

  // What step i added to the effects.
  ghost function EffectOf(run: seq<State>, sched: seq<nat>, i: nat): seq<Op>
    requires IsRun(run, sched) && 0 < i < |run|
  {
    RunStep(run, sched, i);
    var th := run[i - 1].threads[sched[i - 1]];
    if TakesEffect(run[i - 1].slots, th) then [th.op] else []
  }

  // The effects of the first i steps that thread t made.
  ghost function OwnEffects(run: seq<State>, sched: seq<nat>, t: nat, i: nat): seq<Op>
    requires IsRun(run, sched) && i < |run|
  {
    if i == 0 then []
    else OwnEffects(run, sched, t, i - 1) + if sched[i - 1] == t then EffectOf(run, sched, i) else []
  }

  // The call that has taken effect and is about to report it.
  ghost function Unreported(th: Thread): seq<Op> {
    if th.pc == Put && th.swapped then [th.op] else []
  }

  // A step returns from its call or it does not.
  lemma StepReturns(slots: seq<int>, th: Thread)
    requires ThreadOk(slots, th)
    ensures var th', e := NextThread(slots, th), if TakesEffect(slots, th) then [th.op] else [];
      || (th'.results == th.results && Unreported(th') == Unreported(th) + e)
      || (th.pc != Idle && e == [] && Unreported(th') == [] && th'.results == th.results + [Unreported(th) == [th.op]]
          && (Unreported(th) == [th.op] || Unreported(th) == []))
  {
  }

  lemma OneMoreResult(calls: seq<Op>, results: seq<bool>, b: bool)
    requires |results| < |calls|
    ensures Successful(calls, results + [b]) == Successful(calls, results) + if b then [calls[|results|]] else []
  {
    assert (results + [b])[..|results|] == results;
  }

  lemma StepReports(slots: seq<int>, th: Thread, calls: seq<Op>)
    requires ThreadOk(slots, th) && History(calls, th)
    ensures var th' := NextThread(slots, th);
      && |th.results| <= |calls| && |th'.results| <= |calls|
      && Successful(calls, th'.results) + Unreported(th')
        == Successful(calls, th.results) + Unreported(th) + if TakesEffect(slots, th) then [th.op] else []
  {
    hide NextThread, ThreadOk, TakesEffect, Unreported, Successful;
    var th', n := NextThread(slots, th), |th.results|;
    StepReturns(slots, th);
    if th'.results != th.results {
      OneMoreResult(calls, th.results, Unreported(th) == [th.op]);
    }
  }

  // A thread's effects are, in order, the calls of its list that report true.
  lemma {:induction false} EffectsAreReported(run: seq<State>, sched: seq<nat>, t: nat, i: nat)
    requires IsRun(run, sched) && Init(run[0]) && i < |run| && t in run[0].threads
    ensures t in run[i].threads && |run[i].threads[t].results| <= |run[0].threads[t].todo|
    ensures OwnEffects(run, sched, t, i)
      == Successful(run[0].threads[t].todo, run[i].threads[t].results) + Unreported(run[i].threads[t])
  {
    if i > 0 {
      hide History, NextThread, NextSlots, ThreadOk, TakesEffect, Successful, Unreported, Init, IsRun;
      EffectsAreReported(run, sched, t, i - 1);
      CallsInOrder(run, sched, t, i - 1);
      RunStep(run, sched, i);
      if sched[i - 1] == t { StepReports(run[i - 1].slots, run[i - 1].threads[t], run[0].threads[t].todo); }
    }
  }

  ghost function OwnEffectsBelow(run: seq<State>, sched: seq<nat>, n: nat, i: nat): multiset<Op>
    requires IsRun(run, sched) && i < |run|
  {
    if n == 0 then multiset{} else OwnEffectsBelow(run, sched, n - 1, i) + multiset(OwnEffects(run, sched, n - 1, i))
  }

  lemma {:induction false} OwnEffectsOfStep(run: seq<State>, sched: seq<nat>, n: nat, i: nat)
    requires IsRun(run, sched) && 0 < i < |run|
    ensures OwnEffectsBelow(run, sched, n, i)
      == OwnEffectsBelow(run, sched, n, i - 1) + if sched[i - 1] < n then multiset(EffectOf(run, sched, i)) else multiset{}
  {
    assert |run| == |sched| + 1;
    hide IsRun, EffectOf;
    if n > 0 {
      OwnEffectsOfStep(run, sched, n - 1, i);
      var before := OwnEffects(run, sched, n - 1, i - 1);
      assert OwnEffects(run, sched, n - 1, i) == before + if sched[i - 1] == n - 1 then EffectOf(run, sched, i) else [];
      assert sched[i - 1] != n - 1 ==> OwnEffects(run, sched, n - 1, i) == before;
    }
  }

  lemma {:induction false} NoOwnEffectsYet(run: seq<State>, sched: seq<nat>, n: nat)
    requires IsRun(run, sched)
    ensures OwnEffectsBelow(run, sched, n, 0) == multiset{}
  {
    if n > 0 { NoOwnEffectsYet(run, sched, n - 1); }
  }

  // Every effect of the run is one of some thread's.
  lemma {:induction false} EffectsAreOwn(run: seq<State>, sched: seq<nat>, n: nat, i: nat)
    requires IsRun(run, sched) && Init(run[0]) && i < |run| && forall t :: t in run[0].threads ==> t < n
    ensures run[i].threads.Keys == run[0].threads.Keys
    ensures multiset(run[i].effects) == OwnEffectsBelow(run, sched, n, i)
  {
    if i == 0 {
      NoOwnEffectsYet(run, sched, n);
      NoEffectsYet(run[0]);
    } else {
      hide NextThread, NextSlots, ThreadOk, TakesEffect, Init, OwnEffectsBelow, IsRun;
      EffectsAreOwn(run, sched, n, i - 1);
      OwnEffectsOfStep(run, sched, n, i);
      RunStep(run, sched, i);
      assert run[i].effects == run[i - 1].effects + EffectOf(run, sched, i);
    }
  }

  // The calls of a thread that report true.
  ghost function SuccessfulOf(start: State, end: State, t: nat): seq<Op> {
    if t in start.threads && t in end.threads && |end.threads[t].results| <= |start.threads[t].todo|
    then Successful(start.threads[t].todo, end.threads[t].results) else []
  }

  ghost function SuccessfulBelow(start: State, end: State, n: nat): multiset<Op> {
    if n == 0 then multiset{} else SuccessfulBelow(start, end, n - 1) + multiset(SuccessfulOf(start, end, n - 1))
  }

  ghost predicate AllServed(s: State) {
    forall t :: t in s.threads ==> s.threads[t].pc == Idle && s.threads[t].todo == []
  }

  lemma OwnEffectsAreSuccessful(run: seq<State>, sched: seq<nat>, t: nat)
    requires IsRun(run, sched) && Init(run[0]) && AllServed(run[|run| - 1])
    ensures OwnEffects(run, sched, t, |run| - 1) == SuccessfulOf(run[0], run[|run| - 1], t)
  {
    var m, start := |run| - 1, run[0];
    hide Init, Successful, IsRun, OwnEffects;
    if t in start.threads {
      EffectsAreReported(run, sched, t, m);
      assert Unreported(run[m].threads[t]) == [];
    } else {
      Strangers(run, sched, t, m);
    }
  }

  lemma {:induction false} AllOwnAreSuccessful(run: seq<State>, sched: seq<nat>, n: nat)
    requires IsRun(run, sched) && Init(run[0]) && AllServed(run[|run| - 1])
    ensures OwnEffectsBelow(run, sched, n, |run| - 1) == SuccessfulBelow(run[0], run[|run| - 1], n)
  {
    hide Init, IsRun, OwnEffects, SuccessfulOf, AllServed;
    if n > 0 {
      AllOwnAreSuccessful(run, sched, n - 1);
      OwnEffectsAreSuccessful(run, sched, n - 1);
    }
  }

  lemma {:induction false} Strangers(run: seq<State>, sched: seq<nat>, t: nat, i: nat)
    requires IsRun(run, sched) && i < |run| && t !in run[0].threads
    ensures OwnEffects(run, sched, t, i) == [] && run[i].threads.Keys == run[0].threads.Keys
  {
    hide NextThread, NextSlots, ThreadOk, TakesEffect, IsRun, EffectOf;
    if i > 0 {
      Strangers(run, sched, t, i - 1);
      RunStep(run, sched, i);
    }
  }

  // Each call of the list has its result, and a Swap has done its swap.
  ghost predicate Served(calls: seq<Op>, results: seq<bool>) {
    |results| == |calls| && forall k :: 0 <= k < |calls| && !calls[k].isTry ==> results[k]
  }

  // When all calls have returned, the slots are the start with the calls that report true performed one
  // after the other, each once; every Swap is among them.
  lemma AllCallsServed(run: seq<State>, sched: seq<nat>, n: nat)
    requires IsRun(run, sched) && Init(run[0]) && AllServed(run[|run| - 1])
    requires forall t :: t in run[0].threads ==> t < n
    ensures var s := run[|run| - 1];
      && s.threads.Keys == run[0].threads.Keys
      && (forall t :: t in s.threads ==> Served(run[0].threads[t].todo, s.threads[t].results))
      && multiset(s.effects) == SuccessfulBelow(run[0], s, n)
      && EffectsOk(s) && |s.slots| == |run[0].slots| && s.slots == Replayed(run[0].slots, s.effects)
  {
    var s := run[|run| - 1];
    hide Init, IsRun, OwnEffectsBelow, SuccessfulBelow, Replayed, EffectsOk;
    EffectsAreOwn(run, sched, n, |run| - 1);
    AllOwnAreSuccessful(run, sched, n);
    QuietRunIsSequential(run, sched);
    forall t | t in s.threads ensures Served(run[0].threads[t].todo, s.threads[t].results) {
      CallsInOrder(run, sched, t, |run| - 1);
    }
  }

  /* ---------- a call that is not disturbed ---------- */

  // Where a call on two free slots with pointers p and q is, if nobody else has written them since it began.
  ghost predicate OnCourse(slots: seq<int>, th: Thread, op: Op, p: int, q: int, before: seq<bool>)
    requires OpOk(op, |slots|)
  {
    if th.results == before then
      && th.pc != Idle && th.op == op
      && (th.pc == Get1 ==> slots[op.first] == p && slots[op.last] == q)
      && (th.pc == Cas1 ==> slots[op.first] == p == th.val && slots[op.last] == q)
      && (th.pc == Get2 ==> th.held == p && slots[op.last] == q)
      && (th.pc == Cas2 ==> th.held == p && slots[op.last] == q == th.val)
      && (th.pc == Put ==> th.held == q && slots[op.last] == p && th.swapped)
    else
      before + [true] <= th.results
  }

  // Other threads leave the two slots alone from step i to step j.
  ghost predicate Undisturbed(run: seq<State>, sched: seq<nat>, t: nat, op: Op, i: nat, j: nat) {
    i <= j < |run| == |sched| + 1 && forall k {:trigger sched[k]} :: i <= k < j && sched[k] != t ==>
      && OpOk(op, |run[k].slots|) && |run[k + 1].slots| == |run[k].slots|
      && run[k + 1].slots[op.first] == run[k].slots[op.first] && run[k + 1].slots[op.last] == run[k].slots[op.last]
  }

  lemma StepOnCourse(slots: seq<int>, th: Thread, op: Op, p: int, q: int, before: seq<bool>)
    requires ThreadOk(slots, th) && OpOk(op, |slots|) && OnCourse(slots, th, op, p, q, before)
    requires p != ATOMIC_NULL && q != ATOMIC_NULL
    ensures |NextSlots(slots, th)| == |slots| && OnCourse(NextSlots(slots, th), NextThread(slots, th), op, p, q, before)
    ensures th.results == before != NextThread(slots, th).results ==>
      NextSlots(slots, th) == slots[op.first := q] && slots[op.last] == p && NextThread(slots, th).results == before + [true]
  {
  }

  // The call of thread t begins after i steps, and both its slots are free.
  ghost predicate BeginsFree(run: seq<State>, sched: seq<nat>, t: nat, i: nat) {
    && IsRun(run, sched) && i < |run| && t in run[i].threads && ThreadOk(run[i].slots, run[i].threads[t])
    && run[i].threads[t].pc == Get1
    && var op := run[i].threads[t].op; run[i].slots[op.first] != ATOMIC_NULL && run[i].slots[op.last] != ATOMIC_NULL
  }

  lemma {:induction false} StaysOnCourse(run: seq<State>, sched: seq<nat>, t: nat, i: nat, j: nat)
    requires BeginsFree(run, sched, t, i) && Undisturbed(run, sched, t, run[i].threads[t].op, i, j)
    ensures var op := run[i].threads[t].op;
      && t in run[j].threads && OpOk(op, |run[j].slots|)
      && OnCourse(run[j].slots, run[j].threads[t], op, run[i].slots[op.first], run[i].slots[op.last], run[i].threads[t].results)
  {
    var op, before := run[i].threads[t].op, run[i].threads[t].results;
    if j > i {
      hide NextThread, NextSlots, TakesEffect, IsRun;
      StaysOnCourse(run, sched, t, i, j - 1);
      RunStep(run, sched, j);
      assert sched[j - 1] == sched[j - 1];
      if sched[j - 1] == t {
        StepOnCourse(run[j - 1].slots, run[j - 1].threads[t], op, run[i].slots[op.first], run[i].slots[op.last], before);
      }
    }
  }

  // A call, TrySwap included, that finds both slots free and is not disturbed: when it returns it reports
  // true, and the two pointers have changed places.
  lemma UndisturbedSucceeds(run: seq<State>, sched: seq<nat>, t: nat, i: nat, j: nat)
    requires BeginsFree(run, sched, t, i) && i < j && Undisturbed(run, sched, t, run[i].threads[t].op, i, j)
    requires t in run[j - 1].threads && run[j - 1].threads[t].results == run[i].threads[t].results
    requires t in run[j].threads && run[j].threads[t].results != run[i].threads[t].results
    ensures run[j].threads[t].results == run[i].threads[t].results + [true]
    ensures var op := run[i].threads[t].op;
      && OpOk(op, |run[j].slots|)
      && run[j].slots[op.first] == run[i].slots[op.last] && run[j].slots[op.last] == run[i].slots[op.first]
  {
    var op, before := run[i].threads[t].op, run[i].threads[t].results;
    hide NextThread, NextSlots, TakesEffect, IsRun;
    assert Undisturbed(run, sched, t, op, i, j - 1);
    StaysOnCourse(run, sched, t, i, j - 1);
    RunStep(run, sched, j);
    StepOnCourse(run[j - 1].slots, run[j - 1].threads[t], op, run[i].slots[op.first], run[i].slots[op.last], before);
  }

  /* ---------- no deadlock ---------- */

  ghost predicate Busy(s: State, t: nat) {
    t in s.threads && (s.threads[t].pc != Idle || s.threads[t].todo != [])
  }

  // Whoever waits for a slot waits for a holder of it, and holders wait only for higher slots.
  lemma {:induction false} HolderCanStep(s: State, t: nat, a: nat) returns (u: nat)
    requires Inv(s) && a < |s.slots| && IsHolder(s, t, a)
    ensures Enabled(s, u)
    decreases |s.slots| - a
  {
    var th := s.threads[t];
    if th.pc == Get2 && !th.op.isTry && s.slots[th.op.last] == ATOMIC_NULL {
      var h :| IsHolder(s, h, th.op.last);
      u := HolderCanStep(s, h, th.op.last);
    } else {
      u := t;
    }
  }

  lemma SomeoneCanStep(s: State, t: nat) returns (u: nat)
    requires Inv(s) && Busy(s, t)
    ensures Enabled(s, u)
  {
    var th := s.threads[t];
    if Holding(th) {
      u := HolderCanStep(s, t, th.op.first);
    } else if th.pc == Get1 && !th.op.isTry && s.slots[th.op.first] == ATOMIC_NULL {
      var h :| IsHolder(s, h, th.op.first);
      u := HolderCanStep(s, h, th.op.first);
    } else {
      u := t;
    }
  }

  /* ---------- and no endless failing ---------- */

  // The next compare-and-set of th will fail: somebody has written the slot since th loaded it.
  ghost predicate Stale(slots: seq<int>, th: Thread)
    requires ThreadOk(slots, th)
  {
    match th.pc
    case Cas1 => slots[th.op.first] != th.val
    case Cas2 => slots[th.op.last] != th.val
    case _ => false
  }

  // Writes that the call at hand may still make.
  function WritesLeft(pc: Pc): nat {
    match pc
    case Idle => 0
    case Get1 => 3
    case Cas1 => 3
    case Get2 => 2
    case Cas2 => 2
    case Put => 1
  }

  function StepsToWrite(pc: Pc): nat {
    match pc
    case Get1 => 2
    case Get2 => 2
    case Cas1 => 1
    case Cas2 => 1
    case _ => 0
  }

  // A write costs its thread more than it can cost the other n - 1 by making them fail once.
  ghost function Effort(slots: seq<int>, th: Thread, n: nat): nat
    requires ThreadOk(slots, th)
  {
    (6 * n + 15) * |th.todo| + (2 * n + 4) * WritesLeft(th.pc) + StepsToWrite(th.pc) + if Stale(slots, th) then 2 else 0
  }

  ghost predicate Writes(slots: seq<int>, th: Thread)
    requires ThreadOk(slots, th)
  {
    th.pc == Put || (th.pc == Cas1 && slots[th.op.first] == th.val) || (th.pc == Cas2 && slots[th.op.last] == th.val)
  }

  lemma WriteEffort(slots: seq<int>, th: Thread, n: nat)
    requires ThreadOk(slots, th) && Writes(slots, th) && ThreadOk(NextSlots(slots, th), NextThread(slots, th))
    ensures Effort(NextSlots(slots, th), NextThread(slots, th), n) + 2 * n + 1 <= Effort(slots, th, n)
  {
    var th' := NextThread(slots, th);
    assert th'.todo == th.todo;
    assert WritesLeft(th'.pc) == WritesLeft(th.pc) - 1 && !Stale(NextSlots(slots, th), th') && !Stale(slots, th);
    OneFewer(2 * n + 4, WritesLeft(th.pc));
  }

  lemma ReadEffort(slots: seq<int>, th: Thread, n: nat)
    requires ThreadOk(slots, th) && CanGo(slots, th) && !Writes(slots, th) && th.pc != Idle && ThreadOk(slots, NextThread(slots, th))
    ensures Effort(slots, NextThread(slots, th), n) + 1 <= Effort(slots, th, n) && NextSlots(slots, th) == slots
  {
    var th' := NextThread(slots, th);
    assert th'.todo == th.todo && WritesLeft(th'.pc) <= WritesLeft(th.pc) && !Stale(slots, th');
    MulMonotone(2 * n + 4, WritesLeft(th'.pc), WritesLeft(th.pc));
    if WritesLeft(th'.pc) < WritesLeft(th.pc) {
      MulMonotone(2 * n + 4, WritesLeft(th'.pc) + 1, WritesLeft(th.pc));
      OneFewer(2 * n + 4, WritesLeft(th'.pc) + 1);
    }
  }

  lemma StartEffort(slots: seq<int>, th: Thread, n: nat)
    requires ThreadOk(slots, th) && th.pc == Idle && th.todo != [] && ThreadOk(slots, NextThread(slots, th))
    ensures Effort(slots, NextThread(slots, th), n) + 1 <= Effort(slots, th, n) && NextSlots(slots, th) == slots
  {
    OneFewer(6 * n + 15, |th.todo|);
  }

  lemma OwnEffort(s: State, t: nat, n: nat)
    requires Inv(s) && Enabled(s, t)
    ensures var th, th', slots' := s.threads[t], Advance(s, t).threads[t], Advance(s, t).slots;
      && ThreadOk(slots', th')
      && Effort(slots', th', n) + (if Writes(s.slots, th) then 2 * n + 1 else 1) <= Effort(s.slots, th, n)
  {
    hide Effort, NextThread, NextSlots, Writes, ThreadOk, Stale;
    StepKeepsInv(s, t);
    ThreadsOk(Advance(s, t), t);
    var th := s.threads[t];
    if Writes(s.slots, th) {
      WriteEffort(s.slots, th, n);
    } else {
      OnlyWritesWrite(s.slots, th);
      if th.pc == Idle { StartEffort(s.slots, th, n); } else { ReadEffort(s.slots, th, n); }
    }
  }

  lemma OnlyWritesWrite(slots: seq<int>, th: Thread)
    requires ThreadOk(slots, th) && !Writes(slots, th)
    ensures NextSlots(slots, th) == slots
  {
  }

  lemma OneFewer(k: nat, m: nat)
    requires m > 0
    ensures k * m == k * (m - 1) + k
  {
  }

  lemma OtherEffort(s: State, t: nat, u: nat, n: nat)
    requires Inv(s) && t in s.threads && u in s.threads && u != t
    ensures Advance(s, t).threads[u] == s.threads[u] && ThreadOk(Advance(s, t).slots, s.threads[u])
    ensures Effort(Advance(s, t).slots, s.threads[u], n) <= Effort(s.slots, s.threads[u], n) + if Writes(s.slots, s.threads[t]) then 2 else 0
  {
    StepKeepsInv(s, t);
  }

  ghost function TotalEffort(s: State, n: nat, k: nat): nat
    requires Inv(s)
  {
    if k == 0 then 0
    else TotalEffort(s, n, k - 1) + if k - 1 in s.threads then Effort(s.slots, s.threads[k - 1], n) else 0
  }

  lemma {:induction false} StepLowersEffort(s: State, t: nat, n: nat, k: nat)
    requires Inv(s) && t in s.threads && Enabled(s, t) && Inv(Advance(s, t)) && k <= n
    ensures var w := Writes(s.slots, s.threads[t]);
      TotalEffort(Advance(s, t), n, k) + (if t < k then (if w then 2 * n + 1 else 1) else 0)
        <= TotalEffort(s, n, k) + if w then 2 * k else 0
  {
    hide Inv, Effort, NextThread, NextSlots, Writes, Enabled;
    ThreadsOk(s, t);
    assert Advance(s, t).threads.Keys == s.threads.Keys;
    if k > 0 {
      StepLowersEffort(s, t, n, k - 1);
      if k - 1 == t {
        OwnEffort(s, t, n);
      } else if k - 1 in s.threads {
        OtherEffort(s, t, k - 1, n);
      }
    }
  }

  // The steps of the first i that made headway; the others only looked at a slot in use.
  ghost function Headway(run: seq<State>, sched: seq<nat>, i: nat): nat
    requires i <= |sched| && |run| == |sched| + 1
  {
    if i == 0 then 0 else Headway(run, sched, i - 1) + if Enabled(run[i - 1], sched[i - 1]) then 1 else 0
  }

  // Failed compare-and-sets included, there are only so many of them: no run keeps its threads failing.
  lemma {:induction false} HeadwayIsBounded(run: seq<State>, sched: seq<nat>, n: nat, i: nat)
    requires IsRun(run, sched) && Init(run[0]) && i < |run| && Inv(run[0])
    requires forall t :: t in run[0].threads ==> t < n
    ensures Inv(run[i]) && Headway(run, sched, i) + TotalEffort(run[i], n, n) <= TotalEffort(run[0], n, n)
    ensures run[i].threads.Keys == run[0].threads.Keys
  {
    hide Inv, Init, TotalEffort, NextThread, NextSlots, Enabled;
    RunIsSequential(run, sched, i);
    if i > 0 {
      HeadwayIsBounded(run, sched, n, i - 1);
      var s, t := run[i - 1], sched[i - 1];
      assert t in run[0].threads;
      if Enabled(s, t) {
        StepLowersEffort(s, t, n, n);
      } else {
        Spins(s, t);
      }
    }
  }

  // Without headway nothing changes.
  lemma Spins(s: State, t: nat)
    requires Inv(s) && t in s.threads && !Enabled(s, t) && ThreadOk(s.slots, s.threads[t])
    ensures Advance(s, t) == s
  {
    assert s.threads[t := s.threads[t]] == s.threads;
  }

  // When no thread can make headway any more, every call has returned.
  lemma AllCallsReturn(s: State)
    requires Inv(s) && forall u :: !Enabled(s, u)
    ensures forall t :: t in s.threads ==> s.threads[t].pc == Idle && s.threads[t].todo == []
  {
    forall t | t in s.threads ensures s.threads[t].pc == Idle && s.threads[t].todo == [] {
      if Busy(s, t) {
        var u := SomeoneCanStep(s, t);
      }
    }
  }
}
