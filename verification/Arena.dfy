/**
  The mark/release memory of freqmine: blocks are cut from a row of growing buffers, and
  everything that was cut since a mark is given back at once.  A pointer is a buffer
  number and an offset.
 */
module Arena {
  import opened Numbers

  datatype Block = Block(buf: nat, off: nat, len: nat)

  // What bufmark returns: MC, MB as an offset, MR.
  datatype Mark = Mark(buf: nat, off: nat, rest: nat)

  const L2BITS: nat := 3
  const MULTOF: nat := 8

  // The rounding of newbuf; size & L2BITS is size % 4.
  function Rounded(size: nat): nat {
    size + if size % (L2BITS + 1) != 0 then MULTOF - size % (L2BITS + 1) else 0
  }

  // It is meant to reach a multiple of MULTOF, but it looks at two bits only: a multiple of 4
  // comes out, and one of 8 exactly when the size without its last two bits is one.
  lemma RoundedIsAligned(size: nat)
    ensures Rounded(size) >= size && Rounded(size) % 4 == 0
    ensures Rounded(size) % MULTOF == 0 <==> size / 4 % 2 == 0
    ensures Rounded(4) % MULTOF != 0
  {
  }

  predicate Before(b: Block, m: Mark) {
    b.buf < m.buf || (b.buf == m.buf && b.off + b.len <= m.off)
  }

  predicate Since(b: Block, m: Mark) {
    b.buf > m.buf || (b.buf == m.buf && b.off >= m.off)
  }

  predicate Disjoint(a: Block, b: Block) {
    a.buf != b.buf || a.off + a.len <= b.off || b.off + b.len <= a.off
  }

  // A mark and the blocks: the first count were cut before it.
  ghost predicate MarkOk(entry: (Mark, nat), live: seq<Block>, start: seq<nat>, restsize: seq<nat>, bufcount: nat, markcount: nat) {
    var (m, count) := entry;
    && m.buf <= bufcount < |start| == |restsize| && m.buf <= markcount
    && m.off + m.rest == restsize[m.buf] && m.off <= start[m.buf] && count <= |live|
    && (forall i :: 0 <= i < count ==> Before(live[i], m))
    && (forall i :: count <= i < |live| ==> Since(live[i], m))
  }

  predicate Ordered(a: (Mark, nat), b: (Mark, nat)) {
    a.1 <= b.1 && a.0.buf <= b.0.buf && (a.0.buf == b.0.buf ==> a.0.off <= b.0.off)
  }

  // power2[j - 1], and the last one from 12 on.
  function Factor(j: nat): nat {
    if 0 < j < 12 then Power2(j - 1) else Power2(11)
  }

  lemma LargerQuotient(a: nat, b: nat, c: nat)
    requires 0 < c <= b <= a
    ensures 1 <= a / b <= a / c
  {
    var q, p := a / b, a / c;
    assert a == b * q + a % b && a == c * p + a % c;
    MulMonotone(q, c, b);
    MulMonotone(c, if p < q then p + 1 else q, q);
    assert c * (p + 1) == c * p + c;
  }

  lemma {:induction false} PowersGrow(i: nat, j: nat)
    requires i <= j
    ensures Power2(i) <= Power2(j)
  {
    if i < j { PowersGrow(i, j - 1); }
  }

  lemma FactorsGrow(j: nat, k: nat)
    requires 1 <= j <= k
    ensures 1 <= Factor(j) <= Factor(k) <= 2048
  {
    assert Power2(11) == 2048;
    PowersGrow(j - 1, if k < 12 then k - 1 else if j < 12 then 11 else j - 1);
    if k < 12 { PowersGrow(k - 1, 11); }
  }

  class Memory {
    const BUFPOS: nat
    const BUFS_SMALL: nat
    const BUFS_BIG: nat
    const BUFSBSWITCH: nat
    var start: seq<nat>
    var rest: seq<nat>
    var restsize: seq<nat>
    var bufcount: nat
    var markcount: nat
    // Blocks that have not been released, oldest first; marks, oldest first, and how many blocks each had before it.
    ghost var live: seq<Block>
    ghost var marks: seq<(Mark, nat)>

    ghost predicate Valid()
      reads this
    {
      && |start| == |rest| == |restsize| == BUFPOS && bufcount < BUFPOS && markcount < BUFPOS
      && (forall b :: 0 <= b <= bufcount ==> start[b] + rest[b] == restsize[b])
      // markcount may be behind the last buffer after a release; there is nothing left to cut there
      && (forall b :: bufcount < b <= markcount ==> rest[b] == 0)
      && (forall i :: 0 <= i < |live| ==> live[i].buf <= bufcount && live[i].off + live[i].len <= start[live[i].buf])
      && (forall i, j :: 0 <= i < j < |live| ==> Disjoint(live[i], live[j]))
      && (forall k :: 0 <= k < |marks| ==> MarkOk(marks[k], live, start, restsize, bufcount, markcount))
      && (forall k, l :: 0 <= k < l < |marks| ==> Ordered(marks[k], marks[l]))
    }

    constructor (bufpos: nat, small: nat, big: nat, bufsbswitch: nat)
      requires bufpos > 0
      ensures Valid() && live == [] && marks == [] && BUFPOS == bufpos
    {
      BUFPOS, BUFS_SMALL, BUFS_BIG, BUFSBSWITCH := bufpos, small, big, bufsbswitch;
      start, rest, restsize := seq(bufpos, _ => 0), seq(bufpos, _ => small), seq(bufpos, _ => small);
      bufcount, markcount, live, marks := 0, 0, [], [];
    }

    function NewSize(n: nat): nat
      requires n < BUFPOS
    {
      if n < BUFSBSWITCH then BUFS_SMALL
      else
        Factor(BUFPOS / (BUFPOS - n)) * BUFS_BIG
    }

    // Later buffers are no smaller, at least BUFS_BIG from BUFSBSWITCH on, and at most 2048 times that.
    lemma SizesGrow(n: nat, m: nat)
      requires n <= m < BUFPOS && BUFS_SMALL <= BUFS_BIG
      ensures BUFS_SMALL <= NewSize(n) <= NewSize(m) <= 2048 * BUFS_BIG
      ensures n >= BUFSBSWITCH ==> NewSize(n) >= BUFS_BIG
    {
      var j, k := BUFPOS / (BUFPOS - n), BUFPOS / (BUFPOS - m);
      LargerQuotient(BUFPOS, BUFPOS - n, BUFPOS - m);
      FactorsGrow(j, k);
      hide Factor;
      MulMonotone(BUFS_BIG, 1, Factor(j));
      MulMonotone(BUFS_BIG, Factor(j), Factor(k));
      MulMonotone(BUFS_BIG, Factor(k), 2048);
    }

    // switchbuf, when there is a buffer left: a new buffer with room for i bytes.
    method Switchbuf(i: nat) returns (pos: nat)
      requires Valid() && bufcount + 1 < BUFPOS
      modifies this`bufcount, this`start, this`rest, this`restsize
      ensures Valid() && bufcount == old(bufcount) + 1 == pos && rest[pos] >= i && start[pos] == 0
    {
      bufcount := bufcount + 1;
      var size := NewSize(bufcount);
      if size < i { size := i; }
      rest := rest[bufcount := size];
      restsize := restsize[bufcount := size];
      start := start[bufcount := 0];
      pos := bufcount;
      forall k | 0 <= k < |marks| ensures MarkOk(marks[k], live, start, restsize, bufcount, markcount) {
        MarkKept(marks[k], live, old(start), old(restsize), old(bufcount), markcount, start, restsize, bufcount);
      }
    }

    // The first buffer from the last mark on with room for i bytes, a new one if need be.
    method Room(i: nat) returns (pos: nat, ok: bool)
      requires Valid()
      modifies this`bufcount, this`start, this`rest, this`restsize
      ensures Valid() && pos < BUFPOS && (ok ==> (i > 0 ==> pos <= bufcount) && rest[pos] >= i)
      ensures ok ==> forall k :: 0 <= k < |marks| ==> marks[k].0.buf <= pos
      ensures !ok ==> bufcount + 1 == BUFPOS && bufcount == old(bufcount) && i > 0
    {
      forall k | 0 <= k < |marks| ensures marks[k].0.buf <= bufcount && marks[k].0.buf <= markcount {
        assert MarkOk(marks[k], live, start, restsize, bufcount, markcount);
      }
      pos := markcount;
      while pos < bufcount && rest[pos] < i
        invariant markcount <= pos && (pos <= bufcount || pos == markcount)
      {
        pos := pos + 1;
      }
      ok := true;
      if rest[pos] < i {
        if bufcount + 1 == BUFPOS { return pos, false; }
        pos := Switchbuf(i);
      }
    }

    // A request for no bytes gets a place that is no block.  ok is false when the buffers are used up,
    // where the program stops; a request for no bytes never gets there.
    method Newbuf(num: nat, size: nat) returns (block: Block, ok: bool)
      requires Valid()
      modifies this`bufcount, this`start, this`rest, this`restsize, this`live
      ensures Valid()
      ensures ok ==> block.len == num * Rounded(size) && live == old(live) + if block.len > 0 then [block] else []
      ensures !ok ==> live == old(live) && old(bufcount) + 1 == BUFPOS && num * Rounded(size) > 0
    {
      var i := num * Rounded(size);
      var pos;
      pos, ok := Room(i);
      block := Block(pos, 0, i);
      if ok { block := Cut(pos, i); }
    }

    method Cut(pos: nat, i: nat) returns (block: Block)
      requires Valid() && pos < BUFPOS && (i > 0 ==> pos <= bufcount) && rest[pos] >= i
      requires forall k :: 0 <= k < |marks| ==> marks[k].0.buf <= pos
      modifies this`start, this`rest, this`live
      ensures Valid() && block.len == i && live == old(live) + if i > 0 then [block] else []
    {
      block := Block(pos, start[pos], i);
      start := start[pos := start[pos] + i];
      rest := rest[pos := rest[pos] - i];
      live := live + if i > 0 then [block] else [];
      forall k | 0 <= k < |marks| ensures MarkOk(marks[k], live, start, restsize, bufcount, markcount) {
        assert MarkOk(marks[k], old(live), old(start), restsize, bufcount, markcount);
      }
    }

    method Bufmark() returns (m: Mark)
      requires Valid()
      modifies this`markcount, this`marks
      ensures Valid() && marks == old(marks) + [(m, |live|)]
    {
      forall k | 0 <= k < |marks| ensures MarkOk(marks[k], live, start, restsize, bufcount, bufcount) {
        assert MarkOk(marks[k], live, start, restsize, bufcount, markcount);
      }
      markcount := bufcount;
      m := Mark(markcount, start[bufcount], rest[bufcount]);
      assert MarkOk((m, |live|), live, start, restsize, bufcount, markcount);
      marks := marks + [(m, |live|)];
    }

    // delete the buffers behind the one of the mark
    method ClearBehind(mc: nat)
      requires |start| == |rest| == |restsize| == BUFPOS && mc <= bufcount < BUFPOS
      modifies this`start, this`rest, this`restsize
      ensures |start| == |rest| == |restsize| == BUFPOS
      ensures forall b :: mc < b <= bufcount ==> rest[b] == 0
      ensures forall b :: (0 <= b <= mc || bufcount < b < BUFPOS) ==>
        start[b] == old(start)[b] && rest[b] == old(rest)[b] && restsize[b] == old(restsize)[b]
    {
      var i := mc + 1;
      while i <= bufcount
        invariant mc < i <= bufcount + 1 && |start| == |rest| == |restsize| == BUFPOS
        invariant forall b :: mc < b < i ==> rest[b] == 0
        invariant forall b :: (0 <= b <= mc || i <= b < BUFPOS) ==>
          start[b] == old(start)[b] && rest[b] == old(rest)[b] && restsize[b] == old(restsize)[b]
      {
        rest := rest[i := 0];
        restsize := restsize[i := 0];
        start := start[i := 0];
        i := i + 1;
      }
    }

    // Everything since mark k goes, and with it the later marks; mark k can be used again.
    method Freebuf(m: Mark, ghost k: nat)
      requires Valid() && k < |marks| && marks[k].0 == m
      modifies this`bufcount, this`start, this`rest, this`restsize, this`live, this`marks
      ensures Valid() && marks == old(marks)[..k + 1]
      ensures marks[k].1 <= |old(live)| && live == old(live)[..marks[k].1]
    {
      assert MarkOk(marks[k], live, start, restsize, bufcount, markcount);
      ClearBehind(m.buf);
      bufcount := m.buf;
      start := start[bufcount := m.off];
      rest := rest[bufcount := m.rest];
      live := live[..marks[k].1];
      marks := marks[..k + 1];
      forall l | 0 <= l < |marks| ensures MarkOk(marks[l], live, start, restsize, bufcount, markcount) {
        assert MarkOk(marks[l], old(live), old(start), old(restsize), old(bufcount), markcount);
        assert l < k ==> Ordered(marks[l], marks[k]);
      }
    }
  }

  lemma MarkKept(entry: (Mark, nat), live: seq<Block>, start: seq<nat>, restsize: seq<nat>, bufcount: nat, markcount: nat,
                 start': seq<nat>, restsize': seq<nat>, bufcount': nat)
    requires MarkOk(entry, live, start, restsize, bufcount, markcount)
    requires bufcount <= bufcount' < |start'| == |restsize'|
    requires forall b :: 0 <= b <= bufcount ==> start[b] <= start'[b] && restsize'[b] == restsize[b]
    ensures MarkOk(entry, live, start', restsize', bufcount', markcount)
  {
  }
}
