/**
  Which cuts the rolling value makes when the window table does not remove the byte that
  leaves the window, and what the window lengths below 32 come to.
 */
module RabinCuts {
  import opened Rabin

  /* ---------- a difference always gets down to the low bits ---------- */

  predicate Odd(x: bv32) {
    x & 1 == 1
  }

  function PowUp(n: nat): bv32 {
    if n == 0 then 0x1000 else PowUp(n - 1) << 1
  }

  lemma LastPow()
    ensures PowUp(19) == 0x80000000
  {
    assert PowUp(6) == 0x40000;
    assert PowUp(12) == 0x1000000;
  }

  predicate AtLeast(y: bv32, m: bv32) {
    y >= m
  }

  lemma HighIsTop(y: bv32)
    requires AtLeast(y, 0x80000000)
    ensures Top(y)
  {
  }

  lemma AtTop(y: bv32)
    requires AtLeast(y, PowUp(19))
    ensures Top(y)
  {
    hide Top, AtLeast;
    LastPow();
    HighIsTop(y);
  }

  lemma DoublesUp(y: bv32, m: bv32)
    requires !Top(y) && AtLeast(y, m)
    ensures AtLeast(Shl(y), Shl(m))
  {
  }

  lemma NextPow(n: nat)
    ensures PowUp(n + 1) == Shl(PowUp(n))
  {
  }

  lemma TopGivesOne(y: bv32, irr: bv32)
    requires Top(y) && Odd(irr)
    ensures Odd(Times2(y, irr))
  {
  }

  lemma NoTopShifts(y: bv32, irr: bv32)
    requires !Top(y)
    ensures Times2(y, irr) == Shl(y)
  {
  }

  lemma OneUp(y: bv32, n: nat, irr: bv32)
    requires n <= 19 && !Top(y) && AtLeast(y, PowUp(n))
    ensures n < 19 && AtLeast(Times2(y, irr), PowUp(n + 1))
  {
    hide *;
    if n == 19 { AtTop(y); }
    DoublesUp(y, PowUp(n));
    NextPow(n);
    NoTopShifts(y, irr);
  }

  lemma FirstStep(y: bv32, t: nat, irr: bv32)
    ensures MulX(y, 1, irr) == Times2(y, irr) && MulX(Times2(y, irr), t, irr) == MulX(y, t + 1, irr)
  {
    hide MulX, Times2;
    NoSteps(y, irr);
    NextStep(y, 0, irr);
    MulXSum(y, 1, t, irr);
  }

  // Multiplied by X again and again a word loses its highest bit, which sets the lowest.
  lemma {:induction false} LowBitSet(y: bv32, n: nat, irr: bv32) returns (t: nat)
    requires Odd(irr) && n <= 19 && AtLeast(y, PowUp(n))
    ensures t <= 20 - n && Odd(MulX(y, t, irr))
    decreases 19 - n
  {
    hide *;
    if Top(y) {
      FirstStep(y, 0, irr);
      TopGivesOne(y, irr);
      t := 1;
    } else {
      OneUp(y, n, irr);
      t := LowBitSet(Times2(y, irr), n + 1, irr);
      FirstStep(y, t, irr);
      t := t + 1;
    }
  }

  lemma NoLowBits(y: bv32)
    requires y != 0 && Cuts(y)
    ensures AtLeast(y, PowUp(0))
  {
  }

  lemma LowBitCounts(y: bv32)
    requires Odd(y)
    ensures !Cuts(y)
  {
  }

  lemma ReachesLowBits(y: bv32, irr: bv32) returns (t: nat)
    requires Odd(irr) && y != 0
    ensures t <= 20 && !Cuts(MulX(y, t, irr))
  {
    hide MulX, Odd, Cuts, AtLeast, PowUp;
    if Cuts(y) {
      NoLowBits(y);
      t := LowBitSet(y, 0, irr);
      LowBitCounts(MulX(y, t, irr));
    } else {
      NoSteps(y, irr);
      t := 0;
    }
  }

  /* ---------- the difference between rolling and the window ---------- */

  // What is left of a byte that has gone out of the window.
  function Residue(x: bv8, drop: nat, irr: bv32): bv32 {
    Add(MulX(Word(x), 8 * (NWINDOW - 1), irr), MulX(Word(x), 8 * drop, irr))
  }

  function Difference(p: seq<bv8>, i: nat, drop: nat, irr: bv32): bv32
    requires NWINDOW <= i <= |p|
  {
    Add(Rolled(p, i, drop, irr), Fingerprint(Window(p, i), irr))
  }

  lemma NoDifferenceYet(p: seq<bv8>, drop: nat, irr: bv32)
    requires NWINDOW <= |p|
    ensures Difference(p, NWINDOW, drop, irr) == 0
  {
    assert p[..NWINDOW] == p[0..NWINDOW];
    AddSelf(Fingerprint(p[..NWINDOW], irr));
  }

  lemma AddFour(a: bv32, b: bv32, c: bv32)
    ensures Add(Add(a, c), Add(b, c)) == Add(a, b)
  {
    hide Add;
    AddPairs(a, c, b, c);
    AddSelf(c);
    AddZero(Add(a, b));
  }

  lemma RolledNext(p: seq<bv8>, i: nat, drop: nat, irr: bv32)
    requires NWINDOW <= i < |p|
    ensures Rolled(p, i + 1, drop, irr)
      == Add(MulX(Add(Rolled(p, i, drop, irr), MulX(Word(p[i - NWINDOW]), 8 * drop, irr)), 8, irr), Word(p[i]))
  {
    hide MulX, Add, Fingerprint;
  }

  lemma WindowNext(p: seq<bv8>, i: nat, irr: bv32)
    requires NWINDOW <= i < |p|
    ensures Fingerprint(Window(p, i + 1), irr)
      == Add(MulX(Add(Fingerprint(Window(p, i), irr), MulX(Word(p[i - NWINDOW]), 8 * (NWINDOW - 1), irr)), 8, irr), Word(p[i]))
  {
    hide MulX, Add, Fingerprint;
    Slide(Window(p, i), p[i], irr);
    assert Window(p, i + 1) == Window(p, i)[1..] + [p[i]];
  }

  // With each byte the difference moves on by X^8, together with the residue of the byte that has gone.
  lemma DifferenceMoves(p: seq<bv8>, i: nat, drop: nat, irr: bv32)
    requires NWINDOW <= i < |p|
    ensures Difference(p, i + 1, drop, irr)
      == MulX(Add(Difference(p, i, drop, irr), Residue(p[i - NWINDOW], drop, irr)), 8, irr)
  {
    hide MulX, Add, Fingerprint, Rolled, Word, Window;
    RolledNext(p, i, drop, irr);
    WindowNext(p, i, irr);
    var r, w := Rolled(p, i, drop, irr), Fingerprint(Window(p, i), irr);
    var x, y := MulX(Word(p[i - NWINDOW]), 8 * drop, irr), MulX(Word(p[i - NWINDOW]), 8 * (NWINDOW - 1), irr);
    AddFour(MulX(Add(r, x), 8, irr), MulX(Add(w, y), 8, irr), Word(p[i]));
    MulXLinear(Add(r, x), Add(w, y), 8, irr);
    AddPairs(r, x, w, y);
    AddComm(x, y);
  }

  // The byte that is X^j.
  function PowByte(j: nat): bv8 {
    match j
    case 0 => 1
    case 1 => 2
    case 2 => 4
    case 3 => 8
    case 4 => 16
    case 5 => 32
    case 6 => 64
    case _ => 128
  }

  lemma PowByteIs(j: nat, irr: bv32)
    requires j < 8
    ensures Word(PowByte(j)) == MulX(1, j, irr)
  {
    assert MulX(1, 1, irr) == 2;
    assert MulX(1, 2, irr) == 4;
    assert MulX(1, 3, irr) == 8;
    assert MulX(1, 4, irr) == 16;
    assert MulX(1, 5, irr) == 32;
    assert MulX(1, 6, irr) == 64;
    assert MulX(1, 7, irr) == 128;
  }

  // What is wrong with the table, seen at the byte 1.
  function Fault(drop: nat, irr: bv32): bv32 {
    Add(MulX(1, 8 * (NWINDOW - 1), irr), MulX(1, 8 * drop, irr))
  }

  lemma PowResidue(j: nat, drop: nat, irr: bv32)
    requires j < 8
    ensures Residue(PowByte(j), drop, irr) == MulX(Fault(drop, irr), j, irr)
  {
    hide MulX, Add, Word, PowByte;
    PowByteIs(j, irr);
    MulXSum(1, j, 8 * (NWINDOW - 1), irr);
    MulXSum(1, 8 * (NWINDOW - 1), j, irr);
    MulXSum(1, j, 8 * drop, irr);
    MulXSum(1, 8 * drop, j, irr);
    MulXLinear(MulX(1, 8 * (NWINDOW - 1), irr), MulX(1, 8 * drop, irr), j, irr);
  }

  lemma NoResidue(drop: nat, irr: bv32)
    ensures Residue(0, drop, irr) == 0
  {
    hide MulX, Add;
    ZeroWord();
    MulXZero(8 * (NWINDOW - 1), irr);
    MulXZero(8 * drop, irr);
    AddZero(0);
  }

  lemma ZeroWord()
    ensures Word(0) == 0
  {
  }

  /* ---------- an input on which the cuts differ ---------- */

  // A byte whose low four bits are clear and which differs from the low byte of e.
  function Pick(e: bv32): bv8 {
    if e & 0xff == 0x10 then 0x20 else 0x10
  }

  predicate IsPick(b: bv8) {
    b == 0x10 || b == 0x20
  }

  lemma PickDiffers(e: bv32)
    ensures !Cuts(Add(e, Word(Pick(e))))
  {
  }

  predicate ClearTop(h: bv32) {
    h & 0xff000000 == 0
  }

  predicate ClearNibble(h: bv32) {
    h & 0xf == 0
  }

  function ByteUp(h: bv32): bv32 {
    h << 8
  }

  lemma ShortFeed(h: bv32, b: bv8, irr: bv32)
    requires ClearTop(h)
    ensures Feed(h, Word(b), irr) == Add(ByteUp(h), Word(b))
  {
    hide Add, MulX;
    ShiftByte(h, irr);
  }

  lemma TenShows(h: bv32)
    ensures !Cuts(Add(ByteUp(h), Word(0x10)))
  {
  }

  lemma ZeroCuts(h: bv32)
    requires ClearNibble(h)
    ensures Cuts(Add(ByteUp(h), Word(0)))
  {
  }

  lemma CutMoves(w: bv32, e: bv32)
    requires Cuts(w)
    ensures Cuts(Add(w, e)) <==> Cuts(e)
  {
  }

  function Zeros(n: nat): (z: seq<bv8>)
    ensures |z| == n
  {
    seq(n, _ => 0)
  }

  function Tens(n: nat): (z: seq<bv8>)
    ensures |z| == n
  {
    seq(n, _ => 0x10)
  }

  lemma {:induction false} LeadingZeros(n: nat, s: seq<bv8>, irr: bv32)
    ensures Fingerprint(Zeros(n) + s, irr) == Fingerprint(s, irr)
  {
    hide MulX, Add, Fingerprint;
    if n == 0 {
      assert Zeros(0) + s == s;
    } else {
      LeadingZeros(n - 1, s, irr);
      assert Zeros(n) + s == [0] + (Zeros(n - 1) + s);
      FirstByte(0, Zeros(n - 1) + s, irr);
      ZeroWord();
      MulXZero(8 * (n - 1 + |s|), irr);
      AddZero(Fingerprint(s, irr));
      AddComm(0, Fingerprint(s, irr));
    }
  }

  lemma OneMoreByte(s: seq<bv8>, b: bv8, irr: bv32)
    ensures Fingerprint(s + [b], irr) == Feed(Fingerprint(s, irr), Word(b), irr)
  {
    hide Feed;
    assert (s + [b])[..|s|] == s;
  }

  // b0 and up to two tens: no reduction yet, and the low four bits are clear.
  function ShortWord(b0: bv8, n: nat): bv32 {
    if n == 0 then Word(b0) else Add(ByteUp(ShortWord(b0, n - 1)), Word(0x10))
  }

  lemma ShortWordClear(b0: bv8, n: nat)
    requires n <= 2 && IsPick(b0)
    ensures (n <= 2 ==> ClearTop(ShortWord(b0, n))) && ClearNibble(ShortWord(b0, n))
  {
    assert ShortWord(b0, 0) == Word(b0);
    assert ShortWord(b0, 1) == Add(ByteUp(Word(b0)), Word(0x10));
    assert ShortWord(b0, 2) == Add(ByteUp(Add(ByteUp(Word(b0)), Word(0x10))), Word(0x10));
  }

  lemma ShortWordNext(b0: bv8, n: nat)
    ensures ShortWord(b0, 0) == Word(b0)
    ensures n > 0 ==> ShortWord(b0, n) == Add(ByteUp(ShortWord(b0, n - 1)), Word(0x10))
  {
    hide Add, ByteUp, Word;
  }

  lemma {:induction false} ShortFingerprint(b0: bv8, n: nat, irr: bv32)
    requires n <= 2 && IsPick(b0)
    ensures Fingerprint([b0] + Tens(n), irr) == ShortWord(b0, n)
  {
    hide *;
    ShortWordNext(b0, n);
    if n == 0 {
      NoTens(b0);
      OneMoreByte([], b0, irr);
      EmptyFingerprint(irr);
      WordIsShort(b0, irr);
    } else {
      ShortFingerprint(b0, n - 1, irr);
      OneMoreTen(b0, n);
      OneMoreByte([b0] + Tens(n - 1), 0x10, irr);
      ShortWordClear(b0, n - 1);
      ShortFeed(ShortWord(b0, n - 1), 0x10, irr);
    }
  }

  lemma NoTens(b0: bv8)
    ensures [b0] + Tens(0) == [] + [b0]
  {
  }

  lemma OneMoreTen(b0: bv8, n: nat)
    requires n > 0
    ensures [b0] + Tens(n) == ([b0] + Tens(n - 1)) + [0x10]
  {
  }

  lemma EmptyFingerprint(irr: bv32)
    ensures Fingerprint([], irr) == 0
  {
  }

  lemma WordIsShort(b: bv8, irr: bv32)
    ensures Feed(0, Word(b), irr) == Word(b)
  {
    ByteWord(b);
    FeedNothing(Word(b), irr);
  }

  // The first byte should be forgotten at 33; k more bytes bring its residue to the low bits.
  function Witness(x: bv8, b0: bv8, k: nat): (p: seq<bv8>)
    ensures |p| == 34 + k
  {
    [x] + Zeros(30) + [b0] + Tens(k) + [0, 0]
  }

  lemma WitnessBytes(x: bv8, b0: bv8, k: nat, m: nat)
    requires m <= k <= 2
    ensures var p := Witness(x, b0, k);
      Window(p, 32) == [x] + (Zeros(30) + [b0]) && p[0] == x && (m > 0 ==> p[m] == 0)
  {
  }

  // The window at 33 + m ends in the byte after the m-th ten.
  lemma WitnessWindow(x: bv8, b0: bv8, k: nat, m: nat)
    requires m <= k <= 2
    ensures Window(Witness(x, b0, k), 33 + m) == Zeros(30 - m) + ([b0] + Tens(m) + [if m < k then 0x10 else 0])
  {
    var w, z := Window(Witness(x, b0, k), 33 + m), Zeros(30 - m) + ([b0] + Tens(m) + [if m < k then 0x10 else 0]);
    forall i | 0 <= i < 32 ensures w[i] == z[i] {
      assert w[i] == Witness(x, b0, k)[i + 1 + m];
    }
  }

  lemma WindowValue(b0: bv8, m: nat, b: bv8, irr: bv32)
    requires m <= 2 && IsPick(b0)
    ensures Fingerprint(Zeros(30 - m) + ([b0] + Tens(m) + [b]), irr) == Add(ByteUp(ShortWord(b0, m)), Word(b))
    ensures ClearNibble(ShortWord(b0, m))
  {
    hide *;
    var s := [b0] + Tens(m);
    LeadingZeros(30 - m, s + [b], irr);
    OneMoreByte(s, b, irr);
    ShortFingerprint(b0, m, irr);
    ShortWordClear(b0, m);
    ShortFeed(ShortWord(b0, m), b, irr);
  }

  lemma WitnessCutAt(x: bv8, b0: bv8, k: nat, m: nat, irr: bv32)
    requires m <= k <= 2 && IsPick(b0)
    ensures Cuts(Fingerprint(Window(Witness(x, b0, k), 33 + m), irr)) <==> m == k
  {
    hide MulX, Add, Fingerprint, Feed, Word, Cuts, Window, Witness, ShortWord, ClearTop, ClearNibble, IsPick, ByteUp;
    WitnessWindow(x, b0, k, m);
    if m < k {
      WindowValue(b0, m, 0x10, irr);
      TenShows(ShortWord(b0, m));
    } else {
      WindowValue(b0, m, 0, irr);
      ZeroCuts(ShortWord(b0, m));
    }
  }

  // Until then every window fingerprint has low bits, and then it has none.
  lemma WitnessCuts(x: bv8, k: nat, irr: bv32)
    requires k <= 2
    ensures var p, r := Witness(x, Pick(MulX(Word(x), 248, irr)), k), 33 + k;
      NWINDOW <= r < |p| && WindowCut(p, r, irr) && Cuts(Fingerprint(Window(p, r), irr))
  {
    hide MulX, Add, Fingerprint, Feed, Word, Cuts, Pick, Window, Witness;
    var a := MulX(Word(x), 248, irr);
    var b0 := Pick(a);
    PickIs(a);
    var p := Witness(x, b0, k);
    WitnessStart(x, b0, k, irr);
    PickDiffers(a);
    WitnessCutAt(x, b0, k, k, irr);
    forall j: nat | NWINDOW <= j < 33 + k ensures !Cuts(Fingerprint(Window(p, j), irr)) {
      if j > 32 { WitnessCutAt(x, b0, k, j - 33, irr); }
    }
  }

  lemma PickIs(e: bv32)
    ensures IsPick(Pick(e))
  {
  }

  lemma WitnessStart(x: bv8, b0: bv8, k: nat, irr: bv32)
    requires k <= 2
    ensures Fingerprint(Window(Witness(x, b0, k), 32), irr) == Add(MulX(Word(x), 248, irr), Word(b0))
  {
    hide MulX, Add, Fingerprint, Feed, Word, Window, Witness;
    WitnessBytes(x, b0, k, 0);
    FirstByte(x, Zeros(30) + [b0], irr);
    LeadingZeros(30, [b0], irr);
    OneMoreByte([], b0, irr);
    assert [] + [b0] == [b0];
    EmptyFingerprint(irr);
    WordIsShort(b0, irr);
    WordIs(x);
  }

  lemma WordIs(x: bv8)
    ensures Word(x) == x as bv32
  {
  }

  // The difference at 33 + m: the residue of the first byte, m bytes on.
  lemma {:induction false} WitnessDifference(j: nat, b0: bv8, k: nat, m: nat, drop: nat, irr: bv32)
    requires m <= k <= 2 && j < 8
    ensures Difference(Witness(PowByte(j), b0, k), 33 + m, drop, irr) == MulX(Fault(drop, irr), j + 8 * (m + 1), irr)
  {
    hide MulX, Add, Fingerprint, Word, Window, Witness, Difference, Residue, Fault, PowByte;
    var p, d := Witness(PowByte(j), b0, k), Fault(drop, irr);
    DifferenceMoves(p, 32 + m, drop, irr);
    WitnessBytes(PowByte(j), b0, k, m);
    MulXSum(d, j + 8 * m, 8, irr);
    if m == 0 {
      NoDifferenceYet(p, drop, irr);
      PowResidue(j, drop, irr);
      AddZero(MulX(d, j, irr));
      AddComm(0, MulX(d, j, irr));
    } else {
      WitnessDifference(j, b0, k, m - 1, drop, irr);
      NoResidue(drop, irr);
      AddZero(MulX(d, j + 8 * m, irr));
    }
  }

  lemma FaultIsThere(drop: nat, irr: bv32)
    ensures Fault(drop, irr) == 0 <==> Removes(drop, irr)
  {
    hide MulX, Add;
    var a, b := MulX(1, 8 * (NWINDOW - 1), irr), MulX(1, 8 * drop, irr);
    if a == b { AddSelf(a); } else { Differ(a, b); }
  }

  lemma OddIs(irr: bv32)
    ensures Odd(irr) <==> irr & 1 == 1
  {
  }

  // A position at which the window cuts and rolling does not.
  lemma CutsDiffer(drop: nat, irr: bv32) returns (p: seq<bv8>, r: nat)
    requires Odd(irr) && !Removes(drop, irr)
    ensures WindowCut(p, r, irr) && !FirstCut(p, r, drop, irr)
  {
    hide *;
    FaultIsThere(drop, irr);
    var d := Fault(drop, irr);
    FaultGoesOn(d, irr);
    var t := ReachesLowBits(MulX(d, 8, irr), irr);
    MulXSum(d, 8, t, irr);
    var j, k := t % 8, t / 8;
    var x := PowByte(j);
    var b0 := Pick(MulX(Word(x), 248, irr));
    p, r := Witness(x, b0, k), 33 + k;
    WitnessCuts(x, k, irr);
    WitnessDifference(j, b0, k, k, drop, irr);
    RollingMisses(p, r, drop, irr);
  }

  lemma FaultGoesOn(d: bv32, irr: bv32)
    requires Odd(irr) && d != 0
    ensures MulX(d, 8, irr) != 0
  {
    hide MulX;
    OddIs(irr);
    MulXNonzero(d, 8, irr);
  }

  // Where the window cuts and the difference has low bits, rolling does not cut.
  lemma RollingMisses(p: seq<bv8>, r: nat, drop: nat, irr: bv32)
    requires NWINDOW <= r < |p| && Cuts(Fingerprint(Window(p, r), irr)) && !Cuts(Difference(p, r, drop, irr))
    ensures !FirstCut(p, r, drop, irr)
  {
    hide Add, Cuts, Rolled, Fingerprint, Window;
    var h, w := Rolled(p, r, drop, irr), Fingerprint(Window(p, r), irr);
    AddAssoc(h, w, w);
    AddSelf(w);
    AddZero(h);
    AddComm(Add(h, w), w);
    CutMoves(w, Add(h, w));
  }

  /* ---------- when the cuts are right ---------- */

  // What a caller of rabinseg sees is right for all inputs.
  ghost predicate CutsRight(drop: nat, irr: bv32) {
    forall p: seq<bv8>, r: nat :: FirstCut(p, r, drop, irr) <==> WindowCut(p, r, irr)
  }

  lemma CutsAreRightIff(drop: nat, irr: bv32)
    requires irr & 1 == 1
    ensures Removes(drop, irr) <==> CutsRight(drop, irr)
  {
    hide Removes, FirstCut, WindowCut, Odd;
    OddIs(irr);
    if Removes(drop, irr) {
      forall p: seq<bv8>, r: nat ensures FirstCut(p, r, drop, irr) <==> WindowCut(p, r, irr) {
        CutsAtWindows(p, r, drop, irr);
      }
    } else {
      var p, r := CutsDiffer(drop, irr);
    }
  }

  /* ---------- window lengths below 32 ---------- */

  lemma EightMore(x: bv32, k: nat, y: bv32)
    requires MulX(1, k, IRRPOLY) == x && Eight(x) == y
    ensures MulX(1, k + 8, IRRPOLY) == y
  {
    hide Times2;
    MulXSum(1, k, 8, IRRPOLY);
    EightIs(x);
  }

  function Eight(x: bv32): bv32 {
    var a := Times2(Times2(x, IRRPOLY), IRRPOLY);
    var b := Times2(Times2(a, IRRPOLY), IRRPOLY);
    var c := Times2(Times2(b, IRRPOLY), IRRPOLY);
    Times2(Times2(c, IRRPOLY), IRRPOLY)
  }

  lemma EightIs(x: bv32)
    ensures MulX(x, 8, IRRPOLY) == Eight(x)
  {
    hide Times2;
    hide MulX;
    NoSteps(x, IRRPOLY);
    NextStep(x, 0, IRRPOLY);
    NextStep(x, 1, IRRPOLY);
    NextStep(x, 2, IRRPOLY);
    NextStep(x, 3, IRRPOLY);
    NextStep(x, 4, IRRPOLY);
    NextStep(x, 5, IRRPOLY);
    NextStep(x, 6, IRRPOLY);
    NextStep(x, 7, IRRPOLY);
  }

  // X^(8 * k) for k up to 31.
  function PowerOf(k: nat): bv32 {
    match k
    case 0 => 1
    case 1 => 0x100
    case 2 => 0x10000
    case 3 => 0x1000000
    case 4 => 0x45c2b6a1
    case 5 => 0xee306350
    case 6 => 0x1decac3b
    case 7 => 0x50d53ffb
    case 8 => 0xe050e5e1
    case 9 => 0x1b7c416
    case 10 => 0xf206a0a1
    case 11 => 0xd294ef61
    case 12 => 0x5d1d230b
    case 13 => 0x9ad6172f
    case 14 => 0x81f9ad95
    case 15 => 0xcb771209
    case 16 => 0x505123d5
    case 17 => 0x644ccbe1
    case 18 => 0x3849999b
    case 19 => 0xff2c4915
    case 20 => 0x4ae759af
    case 21 => 0xf2c002dc
    case 22 => 0x14369261
    case 23 => 0x6ab90b10
    case 24 => 0xb154b1b6
    case 25 => 0x754e3b56
    case 26 => 0x71989e0f
    case 27 => 0xf5f5ab2a
    case 28 => 0xbd10d3a7
    case 29 => 0xc6749e39
    case 30 => 0xe147111b
    case _ => 0x538188b7
  }

  lemma NextPower0(k: nat)
    requires 0 <= k < 8
    ensures Eight(PowerOf(k)) == PowerOf(k + 1)
  {
    match k
    case 0 => assert Eight(1) == 0x100;
    case 1 => assert Eight(0x100) == 0x10000;
    case 2 => assert Eight(0x10000) == 0x1000000;
    case 3 => assert Eight(0x1000000) == 0x45c2b6a1;
    case 4 => assert Eight(0x45c2b6a1) == 0xee306350;
    case 5 => assert Eight(0xee306350) == 0x1decac3b;
    case 6 => assert Eight(0x1decac3b) == 0x50d53ffb;
    case 7 => assert Eight(0x50d53ffb) == 0xe050e5e1;
  }

  lemma NextPower8(k: nat)
    requires 8 <= k < 16
    ensures Eight(PowerOf(k)) == PowerOf(k + 1)
  {
    match k
    case 8 => assert Eight(0xe050e5e1) == 0x1b7c416;
    case 9 => assert Eight(0x1b7c416) == 0xf206a0a1;
    case 10 => assert Eight(0xf206a0a1) == 0xd294ef61;
    case 11 => assert Eight(0xd294ef61) == 0x5d1d230b;
    case 12 => assert Eight(0x5d1d230b) == 0x9ad6172f;
    case 13 => assert Eight(0x9ad6172f) == 0x81f9ad95;
    case 14 => assert Eight(0x81f9ad95) == 0xcb771209;
    case 15 => assert Eight(0xcb771209) == 0x505123d5;
  }

  lemma NextPower16(k: nat)
    requires 16 <= k < 24
    ensures Eight(PowerOf(k)) == PowerOf(k + 1)
  {
    match k
    case 16 => assert Eight(0x505123d5) == 0x644ccbe1;
    case 17 => assert Eight(0x644ccbe1) == 0x3849999b;
    case 18 => assert Eight(0x3849999b) == 0xff2c4915;
    case 19 => assert Eight(0xff2c4915) == 0x4ae759af;
    case 20 => assert Eight(0x4ae759af) == 0xf2c002dc;
    case 21 => assert Eight(0xf2c002dc) == 0x14369261;
    case 22 => assert Eight(0x14369261) == 0x6ab90b10;
    case 23 => assert Eight(0x6ab90b10) == 0xb154b1b6;
  }

  lemma NextPower24(k: nat)
    requires 24 <= k < 31
    ensures Eight(PowerOf(k)) == PowerOf(k + 1)
  {
    match k
    case 24 => assert Eight(0xb154b1b6) == 0x754e3b56;
    case 25 => assert Eight(0x754e3b56) == 0x71989e0f;
    case 26 => assert Eight(0x71989e0f) == 0xf5f5ab2a;
    case 27 => assert Eight(0xf5f5ab2a) == 0xbd10d3a7;
    case 28 => assert Eight(0xbd10d3a7) == 0xc6749e39;
    case 29 => assert Eight(0xc6749e39) == 0xe147111b;
    case 30 => assert Eight(0xe147111b) == 0x538188b7;
  }

  lemma NextPower(k: nat)
    requires k < 31
    ensures Eight(PowerOf(k)) == PowerOf(k + 1)
  {
    hide Eight, PowerOf;
    if k < 8 { NextPower0(k); } else if k < 16 { NextPower8(k); } else if k < 24 { NextPower16(k); } else { NextPower24(k); }
  }

  lemma {:induction false} PowersAre(k: nat)
    requires k <= 31
    ensures MulX(1, 8 * k, IRRPOLY) == PowerOf(k)
  {
    hide MulX, Eight, PowerOf;
    if k == 0 {
      NoSteps(1, IRRPOLY);
      FirstPower();
    } else {
      PowersAre(k - 1);
      NextPower(k - 1);
      EightMore(PowerOf(k - 1), 8 * (k - 1), PowerOf(k));
    }
  }

  lemma FirstPower()
    ensures PowerOf(0) == 1
  {
  }

  lemma LastPowerIsOther(k: nat)
    requires k < 31
    ensures PowerOf(k) != PowerOf(31)
  {
  }

  // No window length below 32, and so not the 0 that the encoder passes, makes the cuts of the window.
  lemma ShortWindowsCutWrong(winlen: int)
    requires winlen < NWINDOW
    ensures !Removes(Drop(winlen), IRRPOLY) && !RollsRight(Drop(winlen), IRRPOLY) && !CutsRight(Drop(winlen), IRRPOLY)
  {
    hide MulX, PowerOf, RollsRight, CutsRight;
    var k := Drop(winlen);
    PowersAre(k);
    PowersAre(31);
    LastPowerIsOther(k);
    IrrIsOdd();
    RollingIsRightIff(k, IRRPOLY);
    CutsAreRightIff(k, IRRPOLY);
  }

  lemma IrrIsOdd()
    ensures IRRPOLY & 1 == 1
  {
  }

  // With the encoder's table, a 1 followed by zeros: the window cuts at 33, where it has become
  // zero, and the rolling value, which still feels the 1, does not.
  lemma EncoderMissesCut()
    ensures var p := [1] + Zeros(33); WindowCut(p, 33, IRRPOLY) && !FirstCut(p, 33, Drop(0), IRRPOLY)
  {
    hide MulX, Add, Fingerprint, Word, Rolled, Eight, PowerOf, Residue, Difference;
    var p := [1] + Zeros(33);
    assert Window(p, 32) == [1] + Zeros(31) && Window(p, 33) == Zeros(32);
    FirstByte(1, Zeros(31), IRRPOLY);
    FingerprintOfZeros(Zeros(31), IRRPOLY);
    FingerprintOfZeros(Zeros(32), IRRPOLY);
    AddZero(MulX(1, 248, IRRPOLY));
    OneWord();
    PowersAre(31);
    LastPowerHasLowBits();
    NoDifferenceYet(p, 0, IRRPOLY);
    DifferenceMoves(p, 32, 0, IRRPOLY);
    ResidueOfOne();
    RollingMisses(p, 33, 0, IRRPOLY);
  }

  lemma LastPowerHasLowBits()
    ensures !Cuts(PowerOf(31)) && Cuts(0)
  {
  }

  lemma ResidueOfOne()
    ensures !Cuts(MulX(Add(0, Residue(1, 0, IRRPOLY)), 8, IRRPOLY))
  {
    hide MulX, Eight, PowerOf, Cuts;
    PowersAre(31);
    NoSteps(1, IRRPOLY);
    WordIs(1);
    OneWord();
    FaultValue();
    EightIs(0x538188b6);
    FaultMoved();
  }

  lemma FaultValue()
    ensures Add(0, Add(PowerOf(31), 1)) == 0x538188b6
  {
  }

  lemma FaultMoved()
    ensures !Cuts(Eight(0x538188b6))
  {
    assert Eight(0x538188b6) == 0x7aa07302;
  }
}
