/**
  Which items the threads of freqmine's first mining level take: all of them, from the last
  to the first, each once.
 */
module MiningOrder {
  import opened NodeRelease

  // Thread t has just taken an item.
  ghost predicate Takes(s: State, s': State, t: nat) {
    t < |s.pc| == |s'.pc| && s'.pc[t].Mining? && !s.pc[t].Mining?
  }

  ghost function TakenBy(s: State, s': State): seq<nat> {
    if exists t: nat :: Takes(s, s', t) then
      var t: nat :| Takes(s, s', t);
      [s'.pc[t].item]
    else []
  }

  // The items that threads have taken in the first i steps, in order.
  ghost function Taken(run: seq<State>, i: nat): seq<nat>
    requires i < |run|
  {
    if i == 0 then [] else Taken(run, i - 1) + TakenBy(run[i - 1], run[i])
  }

  // A step takes the next item exactly when it hands one out.
  lemma StepTakes(s: State, s': State)
    requires Inv(s) && Next(s, s')
    ensures s'.itemno == s.itemno && s'.next <= s.next <= s'.next + 1
    ensures TakenBy(s, s') == if s'.next < s.next then [s'.next] else []
  {
    var t: nat :| InRange(s, t) && Step(s, t, s');
    assert forall u: nat :: u < |s.pc| && u != t ==> s'.pc[u] == s.pc[u];
    if s'.next < s.next {
      assert Takes(s, s', t);
    }
  }

  // No item that has been handed out is left out.
  lemma {:induction false} EveryItemIsTaken(run: seq<State>, i: nat)
    requires IsRun(run) && i < |run|
    ensures run[i].itemno == run[0].itemno && run[i].next <= run[0].itemno
    ensures |Taken(run, i)| == run[0].itemno - run[i].next
    ensures forall k :: 0 <= k < |Taken(run, i)| ==> Taken(run, i)[k] == run[0].itemno - 1 - k
  {
    NeverReleasedTooEarly(run);
    if i > 0 {
      EveryItemIsTaken(run, i - 1);
      assert Next(run[i - 1], run[i - 1 + 1]);
      StepTakes(run[i - 1], run[i]);
    }
  }
}
