/**
  The table-driven Rabin fingerprint of dedup: rolling over a window of 32 bytes and
  cutting where the low bits are zero.  Words are residues modulo X^32 + irr over GF(2),
  bit i standing for X^i.
 */
module Rabin {

  const NWINDOW: nat := 32
  const MASK: bv32 := 0xfff
  const IRRPOLY: bv32 := 0x45c2b6a1

  /* ---------- words as polynomials: addition and multiplication by X ---------- */

  function Add(x: bv32, y: bv32): bv32 {
    x ^ y
  }

  function Shl(x: bv32): bv32 {
    x << 1
  }

  predicate Top(x: bv32) {
    x >> 31 != 0
  }

  // The loop body of fpreduce.
  function Times2(x: bv32, irr: bv32): bv32 {
    if Top(x) then Add(Shl(x), irr) else Shl(x)
  }

  function MulX(x: bv32, k: nat, irr: bv32): bv32 {
    if k == 0 then x else Times2(MulX(x, k - 1, irr), irr)
  }

  lemma AddAssoc(a: bv32, b: bv32, c: bv32)
    ensures Add(Add(a, b), c) == Add(a, Add(b, c))
  {
  }

  lemma AddComm(a: bv32, b: bv32)
    ensures Add(a, b) == Add(b, a)
  {
  }

  lemma AddSelf(a: bv32)
    ensures Add(a, a) == 0
  {
  }

  lemma AddZero(a: bv32)
    ensures Add(a, 0) == a
  {
  }

  lemma AddRules(a: bv32, b: bv32, c: bv32)
    ensures Add(a, b) == Add(b, a) && Add(Add(a, b), c) == Add(a, Add(b, c))
    ensures Add(a, a) == 0 && Add(a, 0) == a && Add(0, a) == a
  {
    hide Add;
    AddAssoc(a, b, c);
    AddComm(a, b);
    AddComm(a, 0);
    AddSelf(a);
    AddZero(a);
  }

  lemma AddPairs(a: bv32, b: bv32, c: bv32, d: bv32)
    ensures Add(Add(a, b), Add(c, d)) == Add(Add(a, c), Add(b, d))
  {
    hide Add;
    AddAssoc(a, b, Add(c, d));
    AddAssoc(b, c, d);
    AddComm(b, c);
    AddAssoc(c, b, d);
    AddAssoc(a, c, Add(b, d));
  }

  lemma ShiftAdd(x: bv32, y: bv32)
    ensures Shl(Add(x, y)) == Add(Shl(x), Shl(y))
  {
  }

  lemma TopBit(x: bv32)
    ensures x >> 31 == 0 || x >> 31 == 1
  {
  }

  lemma TopXor(x: bv32, y: bv32)
    ensures (x ^ y) >> 31 == (x >> 31) ^ (y >> 31)
  {
  }

  lemma BitXor(a: bv32, b: bv32)
    requires (a == 0 || a == 1) && (b == 0 || b == 1)
    ensures a ^ b != 0 <==> (a != 0) != (b != 0)
  {
  }

  lemma TopAdd(x: bv32, y: bv32)
    ensures Top(Add(x, y)) <==> Top(x) != Top(y)
  {
    TopBit(x);
    TopBit(y);
    TopXor(x, y);
    BitXor(x >> 31, y >> 31);
  }

  lemma Times2Linear(x: bv32, y: bv32, irr: bv32)
    ensures Times2(Add(x, y), irr) == Add(Times2(x, irr), Times2(y, irr))
  {
    hide Add, Shl, Top;
    ShiftAdd(x, y);
    TopAdd(x, y);
    var a, b := Shl(x), Shl(y);
    AddPairs(a, irr, b, irr);
    AddSelf(irr);
    AddZero(Add(a, b));
    AddAssoc(a, b, irr);
    AddAssoc(a, irr, b);
    AddComm(b, irr);
  }

  lemma {:induction false} MulXLinear(x: bv32, y: bv32, k: nat, irr: bv32)
    ensures MulX(Add(x, y), k, irr) == Add(MulX(x, k, irr), MulX(y, k, irr))
  {
    hide Times2, Add;
    if k > 0 {
      MulXLinear(x, y, k - 1, irr);
      Times2Linear(MulX(x, k - 1, irr), MulX(y, k - 1, irr), irr);
    }
  }

  lemma {:induction false} MulXSum(x: bv32, a: nat, b: nat, irr: bv32)
    ensures MulX(MulX(x, a, irr), b, irr) == MulX(x, a + b, irr)
  {
    hide Times2;
    if b > 0 { MulXSum(x, a, b - 1, irr); }
  }

  lemma {:induction false} MulXZero(k: nat, irr: bv32)
    ensures MulX(0, k, irr) == 0
  {
    if k > 0 { MulXZero(k - 1, irr); }
  }

  // With an odd irr nothing but 0 goes to 0.
  lemma {:induction false} MulXNonzero(x: bv32, k: nat, irr: bv32)
    requires irr & 1 == 1 && x != 0
    ensures MulX(x, k, irr) != 0
  {
    hide Times2;
    if k > 0 {
      MulXNonzero(x, k - 1, irr);
      Times2Nonzero(MulX(x, k - 1, irr), irr);
    }
  }

  lemma Times2Nonzero(x: bv32, irr: bv32)
    requires irr & 1 == 1 && x != 0
    ensures Times2(x, irr) != 0
  {
    if Top(x) {
      assert (x << 1) & 1 == 0;
    }
  }

  // Without overflow a shift by a byte is just that.
  lemma ShiftByte(x: bv32, irr: bv32)
    requires x & 0xff000000 == 0
    ensures MulX(x, 8, irr) == x << 8
  {
    assert MulX(x, 1, irr) == x << 1;
    assert MulX(x, 2, irr) == x << 2;
    assert MulX(x, 3, irr) == x << 3;
    assert MulX(x, 4, irr) == x << 4;
    assert MulX(x, 5, irr) == x << 5;
    assert MulX(x, 6, irr) == x << 6;
    assert MulX(x, 7, irr) == x << 7;
  }

  lemma SmallShifts(t: bv32)
    requires t & 0xffffff00 == 0
    ensures t & 0xff000000 == 0 && (t << 8) & 0xff000000 == 0 && (t << 16) & 0xff000000 == 0
    ensures (t << 8) << 8 == t << 16 && (t << 16) << 8 == t << 24
  {
  }

  lemma TopByte(t: bv32, irr: bv32)
    requires t & 0xffffff00 == 0
    ensures MulX(t << 24, 8, irr) == MulX(t, 32, irr)
  {
    hide MulX;
    SmallShifts(t);
    ShiftByte(t, irr);
    ShiftByte(t << 8, irr);
    ShiftByte(t << 16, irr);
    MulXSum(t, 8, 8, irr);
    MulXSum(t, 16, 8, irr);
    MulXSum(t, 24, 8, irr);
  }

  lemma SplitWord(h: bv32, b: bv32)
    requires b & 0xffffff00 == 0
    ensures h == Add((h >> 24) << 24, h & 0x00ffffff)
    ensures (h << 8) | b == Add((h & 0x00ffffff) << 8, b)
    ensures (h >> 24) & 0xffffff00 == 0 && (h & 0x00ffffff) & 0xff000000 == 0
  {
  }

  // h * X^8 + b, for one byte more.
  function Feed(h: bv32, b: bv32, irr: bv32): bv32 {
    Add(MulX(h, 8, irr), b)
  }

  // One table lookup replaces eight steps of the division.
  lemma TableStep(h: bv32, b: bv32, irr: bv32)
    requires b & 0xffffff00 == 0
    ensures Add((h << 8) | b, MulX(h >> 24, 32, irr)) == Feed(h, b, irr)
  {
    hide MulX, Add;
    var t, lo := h >> 24, h & 0x00ffffff;
    SplitWord(h, b);
    MulXLinear(t << 24, lo, 8, irr);
    TopByte(t, irr);
    ShiftByte(lo, irr);
    Reorder(lo << 8, b, MulX(t, 32, irr));
  }

  lemma Reorder(a: bv32, b: bv32, c: bv32)
    ensures Add(Add(a, b), c) == Add(Add(c, a), b)
  {
    hide Add;
    AddComm(Add(a, b), c);
    AddAssoc(c, a, b);
  }

  /* ---------- the fingerprint ---------- */

  // The fingerprint from scratch.
  function Fingerprint(s: seq<bv8>, irr: bv32): bv32 {
    if s == [] then 0 else Feed(Fingerprint(s[..|s| - 1], irr), s[|s| - 1] as bv32, irr)
  }

  lemma {:induction false} FirstByte(x: bv8, s: seq<bv8>, irr: bv32)
    ensures Fingerprint([x] + s, irr) == Add(MulX(x as bv32, 8 * |s|, irr), Fingerprint(s, irr))
  {
    hide MulX, Add;
    if s == [] {
      assert [x] + s == [x] && [x][..0] == [];
      MulXZero(8, irr);
      NoSteps(x as bv32, irr);
      AddRules(0, x as bv32, 0);
    } else {
      var n := |s| - 1;
      FirstByte(x, s[..n], irr);
      assert ([x] + s)[..n + 1] == [x] + s[..n];
      var a, f := MulX(x as bv32, 8 * n, irr), Fingerprint(s[..n], irr);
      MulXLinear(a, f, 8, irr);
      MulXSum(x as bv32, 8 * n, 8, irr);
      AddRules(MulX(a, 8, irr), MulX(f, 8, irr), s[n] as bv32);
    }
  }

  lemma NoSteps(x: bv32, irr: bv32)
    ensures MulX(x, 0, irr) == x
  {
  }

  // Dropping the oldest byte of a window and taking in a new one.
  lemma Slide(s: seq<bv8>, b: bv8, irr: bv32)
    requires s != []
    ensures Fingerprint(s[1..] + [b], irr)
      == Feed(Add(Fingerprint(s, irr), MulX(s[0] as bv32, 8 * (|s| - 1), irr)), b as bv32, irr)
  {
    hide MulX, Add;
    var r := s[1..];
    FirstByte(s[0], r, irr);
    assert s == [s[0]] + r && (r + [b])[..|r|] == r;
    var a, f := MulX(s[0] as bv32, 8 * |r|, irr), Fingerprint(r, irr);
    AddRules(a, f, a);
    AddRules(f, a, a);
    AddRules(f, a, a);
    AddRules(a, 0, 0);
    AddRules(f, 0, 0);
  }

  /* ---------- the tables ---------- */

  method Fpreduce(x0: bv32, irr: bv32) returns (x: bv32)
    ensures x == MulX(x0, 32, irr)
  {
    hide MulX, Times2;
    NoSteps(x0, irr);
    x := x0;
    var i := 32;
    while i != 0
      invariant 0 <= i <= 32 && x == MulX(x0, 32 - i, irr)
    {
      StepIs(x, irr);
      NextStep(x0, 32 - i, irr);
      if x >> 31 != 0 { x := (x << 1) ^ irr; } else { x := x << 1; }
      i := i - 1;
    }
  }

  lemma StepIs(y: bv32, irr: bv32)
    ensures Times2(y, irr) == if y >> 31 != 0 then (y << 1) ^ irr else y << 1
  {
  }

  lemma NextStep(x: bv32, k: nat, irr: bv32)
    ensures MulX(x, k + 1, irr) == Times2(MulX(x, k, irr), irr)
  {
    hide Times2;
  }

  // The index that a byte is.
  function At(b: bv8): (i: nat)
    ensures i < 256
  {
    b as nat
  }

  function Word(b: bv8): bv32 {
    b as bv32
  }

  predicate EntryIs(tab: seq<bv32>, b: bv8, k: nat, irr: bv32) {
    |tab| == 256 && tab[At(b)] == MulX(Word(b), k, irr)
  }

  // The table that multiplies a byte by X^k.
  ghost predicate TableOf(tab: seq<bv32>, k: nat, irr: bv32) {
    |tab| == 256 && forall b: bv8 :: EntryIs(tab, b, k, irr)
  }

  predicate Less(a: bv32, b: bv32) {
    a < b
  }

  ghost predicate FilledTo(tab: seq<bv32>, i: bv32, k: nat, irr: bv32) {
    |tab| == 256 && forall b: bv8 :: Less(Word(b), i) ==> EntryIs(tab, b, k, irr)
  }

  lemma CountsOn(i: bv32)
    requires i < 256
    ensures i as int < 256 && (i + 1) as int == i as int + 1
  {
  }

  lemma NextLess(w: bv32, i: bv32)
    requires i < 256 && Less(w, i + 1)
    ensures Less(w, i) || w == i
  {
  }

  lemma SameIndex(b: bv8)
    ensures Word(b) as int == At(b)
  {
  }

  lemma OtherIndex(b: bv8, i: bv32)
    requires i < 256 && Word(b) != i
    ensures At(b) != i as int
  {
  }

  lemma FillOne(tab: seq<bv32>, i: bv32, k: nat, irr: bv32)
    requires FilledTo(tab, i, k, irr) && i < 256
    ensures 0 <= i as int < 256 && FilledTo(tab[i as int := MulX(i, k, irr)], i + 1, k, irr)
  {
    hide MulX, Word, Less, At;
    CountsOn(i);
    var tab' := tab[i as int := MulX(i, k, irr)];
    forall b: bv8 | Less(Word(b), i + 1) ensures EntryIs(tab', b, k, irr) {
      NextLess(Word(b), i);
      SameIndex(b);
      if Word(b) != i { OtherIndex(b, i); }
    }
  }

  lemma FilledAll(tab: seq<bv32>, k: nat, irr: bv32)
    requires FilledTo(tab, 256, k, irr)
    ensures TableOf(tab, k, irr)
  {
    hide MulX, EntryIs;
    forall b: bv8 ensures EntryIs(tab, b, k, irr) {
      ByteBelow(b);
    }
  }

  lemma ByteBelow(b: bv8)
    ensures Less(Word(b), 256)
  {
  }

  lemma NothingFilled(tab: seq<bv32>, k: nat, irr: bv32)
    requires |tab| == 256
    ensures FilledTo(tab, 0, k, irr)
  {
    hide MulX;
  }

  lemma EndOfCount(i: bv32)
    requires i <= 256 && !(i < 256)
    ensures i == 256
  {
  }

  ghost predicate ReduceTable(tab: seq<bv32>, irr: bv32) {
    TableOf(tab, 32, irr)
  }

  method Fpmkredtab(irr: bv32, tab: array<bv32>)
    requires tab.Length == 256
    modifies tab
    ensures ReduceTable(tab[..], irr)
  {
    hide MulX, FilledTo, TableOf;
    var i: bv32 := 0;
    NothingFilled(tab[..], 32, irr);
    while i < 256
      invariant i <= 256 && FilledTo(tab[..], i, 32, irr)
      decreases 256 - i as int
    {
      CountsOn(i);
      FillOne(tab[..], i, 32, irr);
      ghost var was := tab[..];
      tab[i as int] := Fpreduce(i, irr);
      assert tab[..] == was[i as int := MulX(i, 32, irr)];
      i := i + 1;
    }
    EndOfCount(i);
    FilledAll(tab[..], 32, irr);
  }

  lemma TopIndex(h: bv32)
    ensures 0 <= (h >> 24) as int < 256
    ensures At((h >> 24) as bv8) == (h >> 24) as int && Word((h >> 24) as bv8) == h >> 24
  {
  }

  lemma Lookup(tab: seq<bv32>, h: bv32, irr: bv32)
    requires ReduceTable(tab, irr)
    ensures 0 <= (h >> 24) as int < 256 && tab[(h >> 24) as int] == MulX(h >> 24, 32, irr)
  {
    hide MulX, At, Word;
    TopIndex(h);
    assert EntryIs(tab, (h >> 24) as bv8, 32, irr);
  }

  // How many bytes further fpwinreduce moves its argument.
  function Drop(winlen: int): nat {
    if winlen <= 1 then 0 else winlen - 1
  }

  lemma ByteWord(x: bv8)
    ensures (x as bv32) & 0xffffff00 == 0
  {
  }

  lemma FeedNothing(x: bv32, irr: bv32)
    requires x & 0xffffff00 == 0
    ensures Feed(0, x, irr) == x && Feed(x, 0, irr) == MulX(x, 8, irr)
  {
    hide MulX, Add;
    MulXZero(8, irr);
    AddRules(x, 0, 0);
    AddRules(MulX(x, 8, irr), 0, 0);
  }

  lemma FeedZero(x: bv32, irr: bv32)
    ensures Feed(x, 0, irr) == MulX(x, 8, irr)
  {
    hide MulX, Add;
    AddRules(MulX(x, 8, irr), 0, 0);
  }

  lemma PlainShift(h: bv32)
    ensures (h << 8) | 0 == h << 8
  {
  }

  lemma TableShift(h: bv32, tab: seq<bv32>, irr: bv32)
    requires ReduceTable(tab, irr)
    ensures |tab| == 256 && 0 <= (h >> 24) as int < 256
    ensures (h << 8) ^ tab[(h >> 24) as int] == MulX(h, 8, irr)
  {
    hide MulX, Feed;
    Lookup(tab, h, irr);
    TableStep(h, 0, irr);
    PlainShift(h);
    FeedZero(h, irr);
  }

  lemma TableFeed(h: bv32, b: bv8, tab: seq<bv32>, irr: bv32)
    requires ReduceTable(tab, irr)
    ensures |tab| == 256 && 0 <= (h >> 24) as int < 256
    ensures ((h << 8) | (b as bv32)) ^ tab[(h >> 24) as int] == Feed(h, b as bv32, irr)
  {
    hide MulX, Feed;
    Lookup(tab, h, irr);
    ByteWord(b);
    TableStep(h, b as bv32, irr);
  }

  // h times X^8 plus the next byte, by one lookup.
  method TakeIn(h: bv32, b: bv8, tab: array<bv32>, ghost irr: bv32) returns (r: bv32)
    requires tab.Length == 256 && ReduceTable(tab[..], irr)
    ensures r == Feed(h, b as bv32, irr)
  {
    hide ReduceTable, Feed;
    TableFeed(h, b, tab[..], irr);
    var x := h >> 24;
    r := ((h << 8) | (b as bv32)) ^ tab[x as int];
  }

  method ShiftIn(h: bv32, tab: array<bv32>, ghost irr: bv32) returns (r: bv32)
    requires tab.Length == 256 && ReduceTable(tab[..], irr)
    ensures r == MulX(h, 8, irr)
  {
    hide ReduceTable, MulX;
    TableShift(h, tab[..], irr);
    r := (h << 8) ^ tab[(h >> 24) as int];
  }

  method Fpwinreduce(winlen: int, x: bv8, tab: array<bv32>, ghost irr: bv32) returns (winval: bv32)
    requires tab.Length == 256 && ReduceTable(tab[..], irr)
    ensures winval == MulX(Word(x), 8 * Drop(winlen), irr)
  {
    hide MulX, ReduceTable, Feed;
    ByteWord(x);
    FeedNothing(x as bv32, irr);
    NoSteps(x as bv32, irr);
    winval := 0;
    winval := TakeIn(winval, x, tab, irr);
    var i := 1;
    while i < winlen
      invariant 1 <= i && i <= Drop(winlen) + 1
      invariant winval == MulX(x as bv32, 8 * (i - 1), irr)
    {
      MulXSum(x as bv32, 8 * (i - 1), 8, irr);
      winval := ShiftIn(winval, tab, irr);
      i := i + 1;
    }
  }

  ghost predicate WindowTable(tab: seq<bv32>, drop: nat, irr: bv32) {
    TableOf(tab, 8 * drop, irr)
  }

  lemma BackToWord(i: bv32)
    requires i < 256
    ensures Word(i as bv8) == i
  {
  }

  method Fpmkwinredtab(winlen: int, tab: array<bv32>, wintab: array<bv32>, ghost irr: bv32)
    requires tab.Length == 256 && wintab.Length == 256 && tab != wintab && ReduceTable(tab[..], irr)
    modifies wintab
    ensures WindowTable(wintab[..], Drop(winlen), irr)
  {
    hide MulX, ReduceTable, FilledTo, TableOf, Word, Drop;
    ghost var k := 8 * Drop(winlen);
    var i: bv32 := 0;
    NothingFilled(wintab[..], k, irr);
    while i < 256
      invariant i <= 256 && ReduceTable(tab[..], irr) && FilledTo(wintab[..], i, k, irr)
      decreases 256 - i as int
    {
      CountsOn(i);
      BackToWord(i);
      FillOne(wintab[..], i, k, irr);
      ghost var was, kept := wintab[..], tab[..];
      wintab[i as int] := Fpwinreduce(winlen, i as bv8, tab, irr);
      assert wintab[..] == was[i as int := MulX(i, k, irr)] && tab[..] == kept;
      i := i + 1;
    }
    EndOfCount(i);
    FilledAll(wintab[..], k, irr);
  }

  method Rabininit(winlen: int, tab: array<bv32>, wintab: array<bv32>)
    requires tab.Length == 256 && wintab.Length == 256 && tab != wintab
    modifies tab, wintab
    ensures ReduceTable(tab[..], IRRPOLY) && WindowTable(wintab[..], Drop(winlen), IRRPOLY)
  {
    hide ReduceTable, WindowTable;
    Fpmkredtab(IRRPOLY, tab);
    ghost var was := tab[..];
    Fpmkwinredtab(winlen, tab, wintab, IRRPOLY);
    assert tab[..] == was;
  }

  /* ---------- rolling and cutting ---------- */

  // The value of h in rabinseg after i bytes, when the window table drops bytes drop steps old.
  function Rolled(p: seq<bv8>, i: nat, drop: nat, irr: bv32): bv32
    requires NWINDOW <= i <= |p|
  {
    if i == NWINDOW then Fingerprint(p[..NWINDOW], irr)
    else Feed(Add(Rolled(p, i - 1, drop, irr), MulX(p[i - 1 - NWINDOW] as bv32, 8 * drop, irr)), p[i - 1] as bv32, irr)
  }

  predicate Cuts(h: bv32) {
    h & MASK == 0
  }

  // A cut is where the fingerprint is a multiple of 4096.
  lemma CutsIs(h: bv32)
    ensures Cuts(h) <==> h % 4096 == 0
  {
  }

  // r is the first cut in p, or its end.
  ghost predicate FirstCut(p: seq<bv8>, r: nat, drop: nat, irr: bv32) {
    if |p| < NWINDOW then r == |p|
    else
      && NWINDOW <= r <= |p|
      && (forall j :: NWINDOW <= j < r ==> !Cuts(Rolled(p, j, drop, irr)))
      && (r < |p| ==> Cuts(Rolled(p, r, drop, irr)))
  }

  lemma TableDrop(h: bv32, b: bv8, wintab: seq<bv32>, drop: nat, irr: bv32)
    requires WindowTable(wintab, drop, irr)
    ensures |wintab| == 256 && h ^ wintab[At(b)] == Add(h, MulX(Word(b), 8 * drop, irr))
  {
    hide MulX, At, Word;
    assert EntryIs(wintab, b, 8 * drop, irr);
  }

  // The oldest byte of the window goes.
  method Forget(h: bv32, b: bv8, wintab: array<bv32>, ghost drop: nat, ghost irr: bv32) returns (r: bv32)
    requires wintab.Length == 256 && WindowTable(wintab[..], drop, irr)
    ensures r == Add(h, MulX(Word(b), 8 * drop, irr))
  {
    hide WindowTable, Add, MulX;
    TableDrop(h, b, wintab[..], drop, irr);
    r := h ^ wintab[At(b)];
  }

  method Rabinseg(p: seq<bv8>, tab: array<bv32>, wintab: array<bv32>, ghost drop: nat, ghost irr: bv32) returns (r: nat)
    requires tab.Length == 256 && wintab.Length == 256
    requires ReduceTable(tab[..], irr) && WindowTable(wintab[..], drop, irr)
    ensures FirstCut(p, r, drop, irr)
  {
    hide MulX, ReduceTable, WindowTable, Feed, Add, Cuts;
    if |p| < NWINDOW { return |p|; }
    var h: bv32 := 0;
    var i := 0;
    while i < NWINDOW
      invariant 0 <= i <= NWINDOW && h == Fingerprint(p[..i], irr)
    {
      h := TakeIn(h, p[i], tab, irr);
      assert p[..i + 1][..i] == p[..i];
      i := i + 1;
    }
    if Cuts(h) { return i; }
    while i < |p|
      invariant NWINDOW <= i <= |p| && h == Rolled(p, i, drop, irr)
      invariant forall j :: NWINDOW <= j <= i ==> !Cuts(Rolled(p, j, drop, irr))
    {
      h := Forget(h, p[i - NWINDOW], wintab, drop, irr);
      h := TakeIn(h, p[i], tab, irr);
      i := i + 1;
      if Cuts(h) { return i; }
    }
    return |p|;
  }

  /* ---------- when rolling is right ---------- */

  // Multiplying by X^a and by X^b is the same when it is for 1.
  lemma {:induction false} SamePower(x: bv32, a: nat, b: nat, irr: bv32)
    requires MulX(1, a, irr) == MulX(1, b, irr)
    ensures MulX(x, a, irr) == MulX(x, b, irr)
    decreases x
  {
    hide Times2, Add;
    if x == 0 {
      MulXZero(a, irr);
      MulXZero(b, irr);
    } else {
      var y, z := x >> 1, x & 1;
      Halves(x, irr);
      SamePower(y, a, b, irr);
      MulXLinear(Times2(y, irr), z, a, irr);
      MulXLinear(Times2(y, irr), z, b, irr);
      Commute(y, a, irr);
      Commute(y, b, irr);
      if z == 0 {
        MulXZero(a, irr);
        MulXZero(b, irr);
      }
    }
  }

  lemma {:induction false} Commute(x: bv32, k: nat, irr: bv32)
    ensures MulX(Times2(x, irr), k, irr) == Times2(MulX(x, k, irr), irr)
  {
    hide Times2;
    if k > 0 { Commute(x, k - 1, irr); }
  }

  lemma Halves(x: bv32, irr: bv32)
    requires x != 0
    ensures x >> 1 < x && (x & 1 == 0 || x & 1 == 1)
    ensures x == Add(Times2(x >> 1, irr), x & 1)
  {
  }

  // The window table removes the byte that leaves the window.
  predicate Removes(drop: nat, irr: bv32) {
    MulX(1, 8 * drop, irr) == MulX(1, 8 * (NWINDOW - 1), irr)
  }

  // The last NWINDOW bytes before position i.
  function Window(p: seq<bv8>, i: nat): seq<bv8>
    requires NWINDOW <= i <= |p|
  {
    p[i - NWINDOW..i]
  }

  // Then h is at every step the fingerprint of the last 32 bytes, and of nothing else.
  lemma {:induction false} RolledIsWindow(p: seq<bv8>, i: nat, drop: nat, irr: bv32)
    requires NWINDOW <= i <= |p| && Removes(drop, irr)
    ensures Rolled(p, i, drop, irr) == Fingerprint(Window(p, i), irr)
  {
    hide MulX, Feed, Add, Fingerprint;
    if i == NWINDOW {
      assert p[..NWINDOW] == p[0..NWINDOW];
    } else {
      RolledIsWindow(p, i - 1, drop, irr);
      var was := Window(p, i - 1);
      Slide(was, p[i - 1], irr);
      SamePower(was[0] as bv32, 8 * drop, 8 * (NWINDOW - 1), irr);
      assert Window(p, i) == was[1..] + [p[i - 1]];
    }
  }

  lemma {:induction false} FingerprintOfZeros(s: seq<bv8>, irr: bv32)
    requires forall i :: 0 <= i < |s| ==> s[i] == 0
    ensures Fingerprint(s, irr) == 0
  {
    hide MulX;
    if s != [] {
      FingerprintOfZeros(s[..|s| - 1], irr);
      MulXZero(8, irr);
    }
  }

  // Otherwise a single 1 that should have been forgotten is still felt.
  lemma NotRemoved(drop: nat, irr: bv32)
    requires !Removes(drop, irr) && irr & 1 == 1
    ensures exists p: seq<bv8> :: |p| == 33 && Rolled(p, 33, drop, irr) != Fingerprint(Window(p, 33), irr)
  {
    hide MulX, Add, Feed, Fingerprint;
    var zeros: seq<bv8> := seq(31, _ => 0);
    var p := [1] + zeros + [0];
    assert p[..32] == [1] + zeros;
    FirstByte(1, zeros, irr);
    FingerprintOfZeros(zeros, irr);
    FingerprintOfZeros(Window(p, 33), irr);
    var a, b := MulX(1, 248, irr), MulX(1, 8 * drop, irr);
    AddZero(a);
    OneWord();
    FeedZero(Add(a, b), irr);
    Differ(a, b);
    MulXNonzero(Add(a, b), 8, irr);
    assert Rolled(p, 32, drop, irr) == a;
    assert Rolled(p, 33, drop, irr) == Feed(Add(a, b), 0, irr);
  }

  lemma OneWord()
    ensures (1 as bv8) as bv32 == 1 && (0 as bv8) as bv32 == 0
  {
  }

  lemma Differ(a: bv32, b: bv32)
    requires a != b
    ensures Add(a, b) != 0
  {
  }

  // The rolling value is the fingerprint of the window for all inputs exactly when the
  // window table was made for the window length.
  lemma RollingIsRightIff(drop: nat, irr: bv32)
    requires irr & 1 == 1
    ensures Removes(drop, irr) <==> RollsRight(drop, irr)
  {
    hide Removes;
    if Removes(drop, irr) {
      forall p: seq<bv8>, i: nat | NWINDOW <= i <= |p| ensures Rolled(p, i, drop, irr) == Fingerprint(Window(p, i), irr) {
        RolledIsWindow(p, i, drop, irr);
      }
    } else {
      NotRemoved(drop, irr);
    }
  }

  ghost predicate RollsRight(drop: nat, irr: bv32) {
    forall p: seq<bv8>, i: nat :: NWINDOW <= i <= |p| ==> Rolled(p, i, drop, irr) == Fingerprint(Window(p, i), irr)
  }

  // The first position from 32 on whose last 32 bytes have a fingerprint with zero low bits, else the end.
  ghost predicate WindowCut(p: seq<bv8>, r: nat, irr: bv32) {
    if |p| < NWINDOW then r == |p|
    else
      && NWINDOW <= r <= |p|
      && (forall j :: NWINDOW <= j < r ==> !Cuts(Fingerprint(Window(p, j), irr)))
      && (r < |p| ==> Cuts(Fingerprint(Window(p, r), irr)))
  }

  lemma CutsAtWindows(p: seq<bv8>, r: nat, d: nat, irr: bv32)
    requires Removes(d, irr)
    ensures FirstCut(p, r, d, irr) <==> WindowCut(p, r, irr)
  {
    hide Rolled, Fingerprint, Cuts, Window;
    forall j: nat | NWINDOW <= j <= |p|
      ensures Cuts(Rolled(p, j, d, irr)) == Cuts(Fingerprint(Window(p, j), irr))
    {
      RolledIsWindow(p, j, d, irr);
    }
    if |p| >= NWINDOW && FirstCut(p, r, d, irr) {
      assert forall j: nat :: NWINDOW <= j < r ==> !Cuts(Fingerprint(Window(p, j), irr));
    }
    if |p| >= NWINDOW && WindowCut(p, r, irr) {
      assert forall j: nat :: NWINDOW <= j < r ==> !Cuts(Rolled(p, j, d, irr));
    }
  }

  // rabininit and rabinseg together, for a window length of NWINDOW.
  method FirstSegment(p: seq<bv8>) returns (r: nat)
    ensures WindowCut(p, r, IRRPOLY)
  {
    hide Rolled, Fingerprint, Cuts, ReduceTable, WindowTable;
    var tab, wintab := new bv32[256], new bv32[256];
    Rabininit(NWINDOW, tab, wintab);
    r := Rabinseg(p, tab, wintab, NWINDOW - 1, IRRPOLY);
    assert Removes(NWINDOW - 1, IRRPOLY);
    CutsAtWindows(p, r, NWINDOW - 1, IRRPOLY);
  }
}
