/**
  The node arrays of freqmine's first mining level in the mark/release memory: a mark before
  each array, and releases by the protocol of NodeRelease.  An array stays live as long as
  its item is being mined or has not been handed out.
 */
module NodeArrays {
  import opened Arena
  import opened NodeRelease

  // A request for no bytes cuts no block.
  function NonEmpty(blocks: seq<Block>): (r: seq<Block>)
    ensures |r| <= |blocks|
  {
    if blocks == [] then []
    else
      var n := |blocks| - 1;
      NonEmpty(blocks[..n]) + if blocks[n].len > 0 then [blocks[n]] else []
  }

  // Mark k was set before the array of item k.
  ghost predicate MarkIs(set0: seq<(Mark, nat)>, marks: seq<Mark>, blocks: seq<Block>, k: nat)
    requires k < |marks| == |blocks| && k < |set0|
  {
    set0[k] == (marks[k], |NonEmpty(blocks[..k])|)
  }

  ghost predicate MarksAre(set0: seq<(Mark, nat)>, marks: seq<Mark>, blocks: seq<Block>) {
    |set0| <= |marks| == |blocks| && forall k :: 0 <= k < |set0| ==> MarkIs(set0, marks, blocks, k)
  }

  // The arrays of the items below released are live, and nothing else is.
  ghost predicate Holds(mem: Memory, marks: seq<Mark>, blocks: seq<Block>, released: nat)
    reads mem
  {
    released <= |mem.marks| && MarksAre(mem.marks, marks, blocks) && mem.live == NonEmpty(blocks[..released])
  }

  lemma OneMoreMark(set0: seq<(Mark, nat)>, marks: seq<Mark>, blocks: seq<Block>, m: Mark, b: Block)
    requires MarksAre(set0, marks, blocks) && |set0| == |marks|
    ensures MarksAre(set0 + [(m, |NonEmpty(blocks)|)], marks + [m], blocks + [b])
  {
    forall k | 0 <= k <= |marks| ensures MarkIs(set0 + [(m, |NonEmpty(blocks)|)], marks + [m], blocks + [b], k) {
      assert k < |marks| ==> MarkIs(set0, marks, blocks, k);
      assert (blocks + [b])[..k] == blocks[..k] && blocks[..|blocks|] == blocks;
    }
  }

  lemma FewerMarks(set0: seq<(Mark, nat)>, marks: seq<Mark>, blocks: seq<Block>, n: nat)
    requires MarksAre(set0, marks, blocks) && n <= |set0|
    ensures MarksAre(set0[..n], marks, blocks)
  {
    forall k | 0 <= k < n ensures MarkIs(set0[..n], marks, blocks, k) {
      assert MarkIs(set0, marks, blocks, k);
    }
  }

  lemma OneMoreArray(blocks: seq<Block>, b: Block)
    ensures NonEmpty(blocks + [b]) == NonEmpty(blocks) + if b.len > 0 then [b] else []
  {
    assert (blocks + [b])[..|blocks|] == blocks;
  }

  lemma {:induction false} FewerArrays(blocks: seq<Block>, k: nat)
    requires k <= |blocks|
    ensures NonEmpty(blocks[..k]) <= NonEmpty(blocks)
  {
    if k < |blocks| {
      var n := |blocks| - 1;
      FewerArrays(blocks[..n], k);
      assert blocks[..n][..k] == blocks[..k];
    } else {
      assert blocks[..k] == blocks;
    }
  }

  lemma {:induction false} ArrayIsThere(blocks: seq<Block>, x: nat)
    requires x < |blocks| && blocks[x].len > 0
    ensures blocks[x] in NonEmpty(blocks)
  {
    if x < |blocks| - 1 { ArrayIsThere(blocks[..|blocks| - 1], x); }
  }

  // The node arrays of first_transform_FPTree_into_FPArray: nodenum[k] pairs of ints for item k.
  method Allocate(mem: Memory, nodenum: seq<nat>) returns (marks: seq<Mark>, blocks: seq<Block>, ok: bool)
    requires mem.Valid() && mem.live == [] && mem.marks == []
    modifies mem
    ensures mem.Valid() && (ok ==> Holds(mem, marks, blocks, |nodenum|) && |blocks| == |nodenum|)
    ensures ok ==> forall k :: 0 <= k < |blocks| ==> blocks[k].len == Rounded(8 * nodenum[k])
  {
    marks, blocks := [], [];
    for j := 0 to |nodenum|
      invariant mem.Valid() && j == |blocks| == |marks| == |mem.marks|
      invariant MarksAre(mem.marks, marks, blocks) && mem.live == NonEmpty(blocks)
      invariant forall k :: 0 <= k < j ==> blocks[k].len == Rounded(8 * nodenum[k])
    {
      hide MarksAre, NonEmpty;
      ghost var set0 := mem.marks;
      var m := mem.Bufmark();
      var block;
      block, ok := mem.Newbuf(1, 8 * nodenum[j]);
      if !ok { return; }
      OneMoreArray(blocks, block);
      OneMoreMark(set0, marks, blocks, m, block);
      marks, blocks := marks + [m], blocks + [block];
    }
    ok := true;
    assert blocks[..|nodenum|] == blocks;
  }

  // The critical section of release_node_array_after_mining.
  method Release(mem: Memory, marks: seq<Mark>, ghost blocks: seq<Block>, current: nat, released: nat) returns (released': nat)
    requires mem.Valid() && Holds(mem, marks, blocks, released)
    modifies mem
    ensures mem.Valid() && Holds(mem, marks, blocks, released') && mem.live == NonEmpty(blocks[..released'])
    ensures released' == if current < released then current else released
  {
    released' := released;
    if current < released {
      released' := current;
      assert MarkIs(mem.marks, marks, blocks, current);
      FewerMarks(mem.marks, marks, blocks, current + 1);
      FewerArrays(blocks[..released], current);
      assert blocks[..released][..current] == blocks[..current];
      mem.Freebuf(marks[current], current);
    }
  }

  // The item is being mined, or will be.
  ghost predicate Needed(s: State, x: nat) {
    (s.pc != [] && x < s.next) || exists t :: 0 <= t < |s.pc| && s.pc[t] == Mining(x)
  }

  lemma NeededIsKept(s: State, x: nat)
    requires Safe(s) && Needed(s, x)
    ensures x < s.released
  {
  }

  // Every array that is still needed is live.
  ghost predicate NeededAreLive(s: State, live: seq<Block>, blocks: seq<Block>) {
    forall x: nat :: x < |blocks| && Needed(s, x) && blocks[x].len > 0 ==> blocks[x] in live
  }

  lemma KeptAreLive(s: State, blocks: seq<Block>)
    requires Safe(s) && s.released <= |blocks|
    ensures NeededAreLive(s, NonEmpty(blocks[..s.released]), blocks)
  {
    forall x: nat | x < |blocks| && Needed(s, x) && blocks[x].len > 0 ensures blocks[x] in NonEmpty(blocks[..s.released]) {
      NeededIsKept(s, x);
      ArrayIsThere(blocks[..s.released], x);
    }
  }

  // In every run, with the memory released as the critical sections say: after each step the memory holds
  // exactly the arrays that have not been released, and all that are still needed are among them.
  method FollowRun(mem: Memory, marks: seq<Mark>, ghost blocks: seq<Block>, run: seq<State>) returns (ghost lives: seq<seq<Block>>)
    requires mem.Valid() && Holds(mem, marks, blocks, |blocks|)
    requires IsRun(run) && run[0].itemno == |blocks|
    modifies mem
    ensures mem.Valid() && |lives| == |run| && mem.live == lives[|run| - 1]
    ensures forall i :: 0 <= i < |run| ==> run[i].released <= |blocks| && lives[i] == NonEmpty(blocks[..run[i].released])
    ensures forall i :: 0 <= i < |run| ==> NeededAreLive(run[i], lives[i], blocks)
  {
    var i, released := 0, |marks|;
    assert run[0].released == released == |blocks| && mem.live == NonEmpty(blocks[..released]);
    hide Inv, Safe, NeededAreLive, Holds, NonEmpty, Memory.Valid;
    NeverReleasedTooEarly(run);
    lives := [mem.live];
    KeptAreLive(run[0], blocks);
    while i < |run| - 1
      invariant 0 <= i < |run| && |lives| == i + 1 && lives[i] == mem.live
      invariant mem.Valid() && released == run[i].released && Holds(mem, marks, blocks, released)
      invariant forall j :: 0 <= j <= i ==> run[j].released <= |blocks| && lives[j] == NonEmpty(blocks[..run[j].released])
      invariant forall j :: 0 <= j <= i ==> NeededAreLive(run[j], lives[j], blocks)
    {
      StepKeepsInv(run[i], run[i + 1]);
      released := Release(mem, marks, blocks, run[i + 1].released, released);
      KeptAreLive(run[i + 1], blocks);
      lives := lives + [mem.live];
      i := i + 1;
    }
  }

  // From the allocation on; ok is false when the buffers are used up.
  method MineAndRelease(nodenum: seq<nat>, run: seq<State>) returns (blocks: seq<Block>, ok: bool, ghost lives: seq<seq<Block>>)
    requires IsRun(run) && run[0].itemno == |nodenum|
    ensures ok ==> |blocks| == |nodenum| && |lives| == |run|
    ensures ok ==> forall k :: 0 <= k < |blocks| ==> blocks[k].len == Rounded(8 * nodenum[k]) >= 8 * nodenum[k]
    ensures ok ==> forall i :: 0 <= i < |run| ==> NeededAreLive(run[i], lives[i], blocks)
  {
    hide Holds, NeededAreLive;
    var mem := new Memory(80, 131072, 2097152 * 4, 2);
    var marks;
    marks, blocks, ok := Allocate(mem, nodenum);
    lives := [];
    if ok { lives := FollowRun(mem, marks, blocks, run); }
  }
}
