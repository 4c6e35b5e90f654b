/**
  What a recording is, from the calls alone: which data, flags and times make up a frame, and
  where the duration comes from.
 */
module Recording {
  import opened Wrappers
  import opened Numbers
  import opened MatroskaWriter

  // A scaled time is the time in whole units of the time scale.
  lemma ScaledIs(tc: nat, timescale: nat)
    requires timescale > 0
    ensures Scaled(tc, timescale) * timescale <= tc < (Scaled(tc, timescale) + 1) * timescale
  {
  }

  // The data of the calls, joined in order.
  function DataOf(calls: seq<Call>): seq<Byte> {
    if calls == [] then []
    else DataOf(calls[..|calls| - 1]) + match calls[|calls| - 1] case Data(bytes) => bytes case _ => []
  }

  predicate NoStart(calls: seq<Call>) {
    forall i :: 0 <= i < |calls| ==> !calls[i].Start?
  }

  // The number of the last call that sets flags.
  function LastFlags(calls: seq<Call>): (r: Option<nat>)
    ensures r.Some? ==> r.value < |calls| && calls[r.value].Flags?
    ensures forall i :: (if r.Some? then r.value + 1 else 0) <= i < |calls| ==> !calls[i].Flags?
  {
    if calls == [] then None
    else if calls[|calls| - 1].Flags? then Some(|calls| - 1)
    else LastFlags(calls[..|calls| - 1])
  }

  lemma OneMoreCall(calls: seq<Call>, c: Call, timescale: nat)
    requires timescale > 0
    ensures PlayAll(calls + [c], timescale) == Play(PlayAll(calls, timescale), c, timescale)
  {
    hide Play;
    assert (calls + [c])[..|calls|] == calls;
  }

  // Once a frame has been started, there always is an open one.
  lemma {:induction false} NothingYet(calls: seq<Call>, timescale: nat)
    requires timescale > 0
    ensures !PlayAll(calls, timescale).inFrame ==> PlayAll(calls, timescale) == BLANK
  {
    if calls != [] { NothingYet(calls[..|calls| - 1], timescale); }
  }

  // t is the tape after was, the start of a frame and calls.
  ghost predicate InFrame(t: Tape, was: Tape, calls: seq<Call>, timescale: nat)
    requires timescale > 0
  {
    && t.inFrame && t.frames == Finish(was, timescale).frames && t.data == DataOf(calls)
    && match LastFlags(calls)
       case None => !t.keyframe && t.time == was.time
       case Some(k) => calls[k].Flags? && t.keyframe == calls[k].keyframe && t.time == calls[k].time
  }

  lemma FrameGoesOn(t: Tape, was: Tape, calls: seq<Call>, c: Call, timescale: nat)
    requires timescale > 0 && InFrame(t, was, calls, timescale) && !c.Start?
    ensures InFrame(Play(t, c, timescale), was, calls + [c], timescale)
  {
    hide Finish;
    assert (calls + [c])[..|calls|] == calls;
  }

  // From one mk_startFrame to the next: the frame that was open is finished, and the new one gets all the
  // data in order and the last flags; without flags it is no key frame.
  lemma {:induction false} FrameOfCalls(before: seq<Call>, calls: seq<Call>, timescale: nat)
    requires timescale > 0 && NoStart(calls)
    ensures InFrame(PlayAll(before + [Start] + calls, timescale), PlayAll(before, timescale), calls, timescale)
  {
    if calls == [] {
      assert before + [Start] + calls == before + [Start];
      OneMoreCall(before, Start, timescale);
      NothingYet(before, timescale);
    } else {
      hide InFrame, PlayAll, Play;
      var n := |calls| - 1;
      FrameOfCalls(before, calls[..n], timescale);
      assert before + [Start] + calls == (before + [Start] + calls[..n]) + [calls[n]];
      OneMoreCall(before + [Start] + calls[..n], calls[n], timescale);
      FrameGoesOn(PlayAll(before + [Start] + calls[..n], timescale), PlayAll(before, timescale), calls[..n], calls[n], timescale);
      assert calls[..n] + [calls[n]] == calls;
    }
  }

  // A call that sets the time of a frame.
  predicate SetsTime(calls: seq<Call>, k: nat, timescale: nat)
    requires timescale > 0 && k < |calls|
  {
    calls[k].Flags? && PlayAll(calls[..k], timescale).inFrame
  }

  // The duration comes from the greatest time that was set.
  lemma {:induction false} LatestIsGreatest(calls: seq<Call>, timescale: nat)
    requires timescale > 0
    ensures forall k :: 0 <= k < |calls| && SetsTime(calls, k, timescale) ==> calls[k].time <= PlayAll(calls, timescale).latest
    ensures PlayAll(calls, timescale).latest > 0 ==>
      exists k :: 0 <= k < |calls| && SetsTime(calls, k, timescale) && calls[k].time == PlayAll(calls, timescale).latest
  {
    if calls != [] {
      var n := |calls| - 1;
      var init := calls[..n];
      LatestIsGreatest(init, timescale);
      assert forall k :: 0 <= k < n ==> init[k] == calls[k] && init[..k] == calls[..k];
      forall k | 0 <= k < |calls| && SetsTime(calls, k, timescale) ensures calls[k].time <= PlayAll(calls, timescale).latest {
        if k < n { assert SetsTime(init, k, timescale); }
      }
      if PlayAll(calls, timescale).latest > 0 {
        if PlayAll(calls, timescale).latest == PlayAll(init, timescale).latest {
          var k :| 0 <= k < n && SetsTime(init, k, timescale) && init[k].time == PlayAll(init, timescale).latest;
          assert SetsTime(calls, k, timescale);
        } else {
          assert SetsTime(calls, n, timescale);
        }
      }
    }
  }
}
