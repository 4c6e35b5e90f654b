/**
  The Mersenne Twister of canneal: a state vector that is renewed in place, against the
  MT19937 recurrence.  Words are kept in 64 bits, as unsigned long is on the platform.
 */
module MersenneTwister {

  const N: nat := 624
  const M: nat := 397

  /* ---------- the recurrence ---------- */

  // Multiplication by the matrix A, as the definition of MT19937 gives it.
  function TimesA(y: bv64): bv64 {
    if y & 1 == 1 then (y >> 1) ^ 0x9908b0df else y >> 1
  }

  // Upper bit of one word, lower bits of the next.
  function Joined(u: bv64, v: bv64): bv64 {
    (u & 0x80000000) | (v & 0x7fffffff)
  }

  function Recur(m: bv64, s0: bv64, s1: bv64): bv64 {
    Xor(m, TimesA(Joined(s0, s1)))
  }

  function Xor(x: bv64, y: bv64): bv64 {
    x ^ y
  }

  // The k-th word of the sequence that starts with init.
  function Word(init: seq<bv64>, k: nat): bv64
    requires |init| == N
  {
    if k < N then init[k] else Recur(Word(init, k - N + M), Word(init, k - N), Word(init, k - N + 1))
  }

  // N words from k on.
  function Window(init: seq<bv64>, k: nat): (w: seq<bv64>)
    requires |init| == N
    ensures |w| == N
  {
    seq(N, i requires 0 <= i < N => Word(init, k + i))
  }

  function Temper(x: bv64): bv64 {
    Temper4(Temper3(Temper2(Temper1(x))))
  }

  function Temper1(x: bv64): bv64 {
    x ^ (x >> 11)
  }

  function Temper2(x: bv64): bv64 {
    x ^ ((x << 7) & 0x9d2c5680)
  }

  function Temper3(x: bv64): bv64 {
    x ^ ((x << 15) & 0xefc60000)
  }

  function Temper4(x: bv64): bv64 {
    x ^ (x >> 18)
  }

  /* ---------- the same, bit by bit ---------- */

  // Bits are numbered from 0, the lowest.
  predicate Bit(x: bv64, i: bv64)
    requires i < 64
  {
    (x >> i) & 1 == 1
  }

  // The ones of the matrix's last row, and of the two tempering masks.
  predicate InA(i: bv64) {
    i <= 4 || i == 6 || i == 7 || i == 12 || i == 13 || i == 15 || i == 19 || i == 24 || i == 27 || i == 28 || i == 31
  }

  predicate InB(i: bv64) {
    i == 7 || i == 9 || i == 10 || i == 12 || i == 14 || i == 18 || i == 19 || i == 21 || i == 24 || i == 26 || i == 27 || i == 28
    || i == 31
  }

  predicate InC(i: bv64) {
    i == 17 || i == 18 || i == 22 || i == 23 || i == 24 || i == 25 || i == 26 || i == 27 || i == 29 || i == 30 || i == 31
  }

  // Bit i of u's top bit followed by the lower 31 bits of v.
  predicate JoinedBit(u: bv64, v: bv64, i: bv64)
    requires i < 64
  {
    if i == 31 then Bit(u, 31) else i < 31 && Bit(v, i)
  }

  lemma JoinedBits(u: bv64, v: bv64, i: bv64)
    requires i < 33
    ensures Bit(Joined(u, v), i) <==> JoinedBit(u, v, i)
  {
  }

  lemma RowBits(i: bv64)
    requires i < 32
    ensures InA(i) <==> Bit(0x9908b0df, i)
  {
  }

  lemma TimesABits(y: bv64, i: bv64)
    requires i < 32
    ensures Bit(TimesA(y), i) <==> Bit(y, i + 1) != (Bit(y, 0) && Bit(0x9908b0df, i))
  {
  }

  lemma SumBits(x: bv64, y: bv64, i: bv64)
    requires i < 32
    ensures Bit(Xor(x, y), i) <==> Bit(x, i) != Bit(y, i)
  {
  }

  lemma JoinedLowest(u: bv64, v: bv64)
    ensures Bit(Joined(u, v), 0) <==> Bit(v, 0)
  {
  }

  lemma RecurIsSum(m: bv64, s0: bv64, s1: bv64, i: bv64)
    requires i < 32
    ensures Bit(Recur(m, s0, s1), i) <==> Bit(m, i) != Bit(TimesA(Joined(s0, s1)), i)
  {
    hide Bit, TimesA, Joined, Xor;
    SumBits(m, TimesA(Joined(s0, s1)), i);
  }

  // The recurrence moves the joined word down by one bit and adds the matrix's row for its lowest bit.
  lemma RecurBits(m: bv64, s0: bv64, s1: bv64, i: bv64)
    requires i < 32
    ensures Bit(Recur(m, s0, s1), i) <==> Bit(m, i) != (JoinedBit(s0, s1, i + 1) != (Bit(s1, 0) && InA(i)))
  {
    hide Bit, Joined, TimesA, InA, JoinedBit, Recur;
    RecurIsSum(m, s0, s1, i);
    TimesABits(Joined(s0, s1), i);
    JoinedBits(s0, s1, i + 1);
    JoinedLowest(s0, s1);
    RowBits(i);
  }

  // The four steps of the tempering.
  predicate Tempered1(x: bv64, i: bv64)
    requires i < 32
  {
    Bit(x, i) != (i < 21 && Bit(x, i + 11))
  }

  predicate Tempered2(x: bv64, i: bv64)
    requires i < 32
  {
    Tempered1(x, i) != (InB(i) && Tempered1(x, i - 7))
  }

  predicate Tempered3(x: bv64, i: bv64)
    requires i < 32
  {
    Tempered2(x, i) != (InC(i) && Tempered2(x, i - 15))
  }

  predicate Tempered4(x: bv64, i: bv64)
    requires i < 32
  {
    Tempered3(x, i) != (i < 14 && Tempered3(x, i + 18))
  }

  // The masks as words.
  lemma MaskB(i: bv64)
    requires i < 32
    ensures InB(i) <==> Bit(0x9d2c5680, i)
  {
  }

  lemma MaskC(i: bv64)
    requires i < 32
    ensures InC(i) <==> Bit(0xefc60000, i)
  {
  }

  lemma Down11(x: bv64, i: bv64)
    requires Is32(x) && i < 32
    ensures Bit(x ^ (x >> 11), i) <==> Bit(x, i) != (i < 21 && Bit(x, i + 11))
  {
  }

  lemma Up7(x: bv64, i: bv64)
    requires i < 32
    ensures Bit(x ^ ((x << 7) & 0x9d2c5680), i) <==> Bit(x, i) != (Bit(0x9d2c5680, i) && i >= 7 && Bit(x, i - 7))
  {
  }

  lemma Up15(x: bv64, i: bv64)
    requires i < 32
    ensures Bit(x ^ ((x << 15) & 0xefc60000), i) <==> Bit(x, i) != (Bit(0xefc60000, i) && i >= 15 && Bit(x, i - 15))
  {
  }

  lemma Down18(x: bv64, i: bv64)
    requires Is32(x) && i < 32
    ensures Bit(x ^ (x >> 18), i) <==> Bit(x, i) != (i < 14 && Bit(x, i + 18))
  {
  }

  lemma StepsAre32(x: bv64)
    requires Is32(x)
    ensures Is32(Temper1(x)) && Is32(Temper2(x)) && Is32(Temper3(x)) && Is32(Temper4(x))
  {
  }

  lemma Bits1(x: bv64, i: bv64)
    requires Is32(x) && i < 32
    ensures Is32(Temper1(x)) && (Bit(Temper1(x), i) <==> Bit(x, i) != (i < 21 && Bit(x, i + 11)))
  {
    hide Bit, Is32;
    StepsAre32(x);
    Down11(x, i);
  }

  lemma Bits2(x: bv64, i: bv64)
    requires Is32(x) && i < 32
    ensures Is32(Temper2(x)) && (Bit(Temper2(x), i) <==> Bit(x, i) != (InB(i) && Bit(x, i - 7)))
  {
    hide Bit, Is32;
    StepsAre32(x);
    MaskB(i);
    Up7(x, i);
  }

  lemma Bits3(x: bv64, i: bv64)
    requires Is32(x) && i < 32
    ensures Is32(Temper3(x)) && (Bit(Temper3(x), i) <==> Bit(x, i) != (InC(i) && Bit(x, i - 15)))
  {
    hide Bit, Is32;
    StepsAre32(x);
    MaskC(i);
    Up15(x, i);
  }

  lemma Bits4(x: bv64, i: bv64)
    requires Is32(x) && i < 32
    ensures Is32(Temper4(x)) && (Bit(Temper4(x), i) <==> Bit(x, i) != (i < 14 && Bit(x, i + 18)))
  {
    hide Bit, Is32;
    StepsAre32(x);
    Down18(x, i);
  }

  lemma Tempered2Bits(x: bv64, i: bv64)
    requires Is32(x) && i < 32
    ensures Is32(Temper2(Temper1(x))) && (Bit(Temper2(Temper1(x)), i) <==> Tempered2(x, i))
  {
    hide Is32, Bit, Temper1, Temper2;
    Bits1(x, i);
    Bits2(Temper1(x), i);
    if InB(i) { Bits1(x, i - 7); }
  }

  lemma Tempered3Bits(x: bv64, i: bv64)
    requires Is32(x) && i < 32
    ensures Is32(Temper3(Temper2(Temper1(x)))) && (Bit(Temper3(Temper2(Temper1(x))), i) <==> Tempered3(x, i))
  {
    hide Is32, Bit, Temper1, Temper2, Temper3, Tempered2;
    Tempered2Bits(x, i);
    Bits3(Temper2(Temper1(x)), i);
    if InC(i) { Tempered2Bits(x, i - 15); }
  }

  // Every bit of the output is an exclusive or of bits of the word.
  lemma TemperBits(x: bv64, i: bv64)
    requires Is32(x) && i < 32
    ensures Bit(Temper(x), i) <==> Tempered4(x, i)
  {
    hide Is32, Bit, Temper1, Temper2, Temper3, Temper4, Tempered3;
    Tempered3Bits(x, i);
    Bits4(Temper3(Temper2(Temper1(x))), i);
    if i < 14 { Tempered3Bits(x, i + 18); }
  }

  predicate Is32(x: bv64) {
    x & 0xffffffff00000000 == 0
  }

  ghost predicate All32(s: seq<bv64>) {
    forall i :: 0 <= i < |s| ==> Is32(s[i])
  }

  // twist is the recurrence: minus the low bit is a mask of all ones or none.
  function Twist(m: bv64, s0: bv64, s1: bv64): bv64 {
    m ^ (Joined(s0, s1) >> 1) ^ ((0 - (s1 & 1)) & 0x9908b0df)
  }

  lemma LowBit(x: bv64)
    ensures x & 1 == 0 || x & 1 == 1
  {
  }

  lemma JoinedLow(u: bv64, v: bv64)
    ensures Joined(u, v) & 1 == v & 1
  {
  }

  lemma TwistRecurs(m: bv64, s0: bv64, s1: bv64)
    ensures Twist(m, s0, s1) == Recur(m, s0, s1)
  {
    LowBit(s1);
    JoinedLow(s0, s1);
    var y := Joined(s0, s1) >> 1;
    if s1 & 1 == 1 {
      assert (0 - (s1 & 1)) & 0x9908b0df == 0x9908b0df;
    } else {
      assert (0 - (s1 & 1)) & 0x9908b0df == 0;
    }
  }

  lemma RecurIs32(m: bv64, s0: bv64, s1: bv64)
    requires Is32(m)
    ensures Is32(Recur(m, s0, s1))
  {
  }

  lemma TemperIs32(x: bv64)
    requires Is32(x)
    ensures Is32(Temper(x))
  {
  }

  lemma {:induction false} WordIs32(init: seq<bv64>, k: nat)
    requires |init| == N && All32(init)
    ensures Is32(Word(init, k))
  {
    hide Recur, Is32;
    if k >= N {
      WordIs32(init, k - N + M);
      RecurIs32(Word(init, k - N + M), Word(init, k - N), Word(init, k - N + 1));
    }
  }

  // Any N words in a row determine the rest: the state vector is enough to go on.
  lemma {:induction false} GoesOn(init: seq<bv64>, base: nat, k: nat)
    requires |init| == N
    ensures Word(Window(init, base), k) == Word(init, base + k)
  {
    hide Recur;
    if k >= N {
      GoesOn(init, base, k - N + M);
      GoesOn(init, base, k - N);
      GoesOn(init, base, k - N + 1);
    }
  }

  // The words that initialize derives from one seed.
  function Seeded(seed: bv64, k: nat): bv64
    requires k < N
  {
    if k == 0 then Low32(seed) else NextSeed(Seeded(seed, k - 1), k as bv64)
  }

  function Low32(x: bv64): bv64 {
    x & 0xffffffff
  }

  // Knuth's multiplier; reduced modulo 2^32.
  function NextSeed(x: bv64, i: bv64): bv64 {
    SeedStep(1812433253, x, i)
  }

  function SeedStep(c: bv64, x: bv64, i: bv64): bv64 {
    (c * (x ^ (x >> 30)) + i) & 0xffffffff
  }

  // In 32-bit words, where sum and product are modulo 2^32.
  function SeedStep32(c: bv32, x: bv32, i: bv32): bv32 {
    c * (x ^ (x >> 30)) + i
  }

  lemma LowWordWraps(c: bv32, x: bv32, i: bv32)
    ensures (c as bv64 * (x as bv64 ^ (x as bv64 >> 30)) + i as bv64) & 0xffffffff == (c * (x ^ (x >> 30)) + i) as bv64
  {
  }

  lemma StepWraps(c: bv32, x: bv32, i: bv32)
    ensures SeedStep(c as bv64, x as bv64, i as bv64) == SeedStep32(c, x, i) as bv64
  {
    LowWordWraps(c, x, i);
  }

  // The seeding is a multiply-and-add modulo 2^32.
  lemma NextSeedWraps(x: bv32, i: bv32)
    ensures NextSeed(x as bv64, i as bv64) == SeedStep32(0x6c078965, x, i) as bv64
  {
    hide SeedStep, SeedStep32;
    StepWraps(0x6c078965, x, i);
  }

  // The first words for the seed 5489.
  lemma SeedsOf5489()
    ensures Seeded(5489, 0) == 5489 && Seeded(5489, 1) == 1301868182 && Seeded(5489, 2) == 2938499221
  {
  }

  function Initial(seed: bv64): (s: seq<bv64>)
    ensures |s| == N
  {
    seq(N, i requires 0 <= i < N => Seeded(seed, i))
  }

  lemma MaskIs32(x: bv64)
    ensures Is32(Low32(x))
  {
  }

  lemma StepIs32(c: bv64, x: bv64, i: bv64)
    ensures Is32(SeedStep(c, x, i))
  {
  }

  lemma NextSeedIs32(x: bv64, i: bv64)
    ensures Is32(NextSeed(x, i))
  {
    hide Is32, SeedStep;
    StepIs32(1812433253, x, i);
  }

  lemma InitialIs32(seed: bv64)
    ensures All32(Initial(seed))
  {
    hide Is32;
    forall k: nat | k < N ensures Is32(Seeded(seed, k)) {
      SeededIs32(seed, k);
    }
  }

  lemma SeededIs32(seed: bv64, k: nat)
    requires k < N
    ensures Is32(Seeded(seed, k))
  {
    hide Is32, Low32, NextSeed;
    if k == 0 {
      MaskIs32(seed);
    } else {
      NextSeedIs32(Seeded(seed, k - 1), k as bv64);
    }
  }

  /* ---------- the generator ---------- */

  class MTRand {
    const state: array<bv64>
    // pNext is state + next.
    var next: nat
    var left: nat
    // The first N words of the sequence, and which of its words is in state[0].
    ghost var origin: seq<bv64>
    ghost var base: nat

    ghost predicate Valid()
      reads this, state
    {
      && state.Length == N && left <= N && next == N - left
      && |origin| == N && All32(origin) && state[..] == Window(origin, base)
    }

    // The number of the word that comes next.
    ghost function At(): nat
      reads this
    {
      base + next
    }

    // The word that comes k words later.
    ghost function Coming(k: nat): bv64
      requires |origin| == N
      reads this
    {
      Word(origin, At() + k)
    }

    // Of the state vector, the first i words are of the next round.
    ghost predicate Renewed(i: nat)
      reads this, state
    {
      && state.Length == N && |origin| == N && i <= N
      && (forall j :: 0 <= j < i ==> state[j] == Word(origin, base + N + j))
      && (forall j :: i <= j < N ==> state[j] == Word(origin, base + j))
    }

    // *p = twist( p[m - i], p[0], p[next - i] ) with p at state + i.
    method Renew(i: nat, m: nat, next: nat)
      requires i < N && Renewed(i) && m == (i + M) % N && next == (i + 1) % N
      modifies state
      ensures Renewed(i + 1)
    {
      hide Recur, Word, Twist;
      NextWord(origin, base + i);
      TwistRecurs(state[m], state[i], state[next]);
      assert state[m] == Word(origin, base + i + M);
      assert state[next] == Word(origin, base + i + 1);
      state[i] := Twist(state[m], state[i], state[next]);
    }

    method Reload()
      requires state.Length == N && |origin| == N && state[..] == Window(origin, base)
      modifies this`next, this`left, this`base, state
      ensures state[..] == Window(origin, base) && base == old(base) + N && next == 0 && left == N
    {
      hide Renewed;
      AtStart();
      var i := 0;
      while i < N - M
        invariant 0 <= i <= N - M && Renewed(i) && base == old(base)
      {
        Renew(i, i + M, i + 1);
        i := i + 1;
      }
      while i < N - 1
        invariant N - M <= i <= N - 1 && Renewed(i) && base == old(base)
      {
        Renew(i, i + M - N, i + 1);
        i := i + 1;
      }
      Renew(i, i + M - N, 0);
      AtEnd();
      base := base + N;
      left, next := N, 0;
    }

    lemma AtStart()
      requires state.Length == N && |origin| == N && state[..] == Window(origin, base)
      ensures Renewed(0)
    {
      hide Word;
      assert forall j :: 0 <= j < N ==> state[j] == state[..][j];
    }

    lemma AtEnd()
      requires Renewed(N)
      ensures state[..] == Window(origin, base + N)
    {
      hide Word;
      assert forall j :: 0 <= j < N ==> state[..][j] == state[j];
    }

    method Initialize(seed: bv64)
      requires state.Length == N
      modifies this`origin, this`base, state
      ensures origin == Initial(seed) && base == 0 && state[..] == Window(origin, 0) && All32(origin)
    {
      hide Is32, Low32, NextSeed, Word;
      state[0] := Low32(seed);
      var i := 1;
      while i < N
        invariant 1 <= i <= N
        invariant forall j :: 0 <= j < i ==> state[j] == Seeded(seed, j)
      {
        state[i] := NextSeed(state[i - 1], i as bv64);
        i := i + 1;
      }
      origin, base := Initial(seed), 0;
      InitialIs32(seed);
      WindowAtStart(origin);
      assert state[..] == origin;
    }

    // seed( const uint32 )
    constructor (oneSeed: bv64)
      ensures Valid() && origin == Initial(oneSeed) && At() == N && fresh(state)
    {
      state := new bv64[N];
      new;
      Initialize(oneSeed);
      Reload();
    }

    method RandInt() returns (r: bv64)
      requires Valid()
      modifies this`next, this`left, this`base, state
      ensures Valid() && At() == old(At()) + 1
      ensures r == Temper(Word(origin, old(At()))) && Is32(r)
    {
      hide Word, Is32, Recur, Temper;
      if left == 0 { Reload(); }
      left := left - 1;
      var s1 := state[next];
      assert s1 == state[..][next] == Word(origin, base + next);
      next := next + 1;
      WordIs32(origin, base + next - 1);
      TemperIs32(s1);
      r := Temper(s1);
    }

    // One draw, without the bits that n does not use, and whether it is too large.
    method Candidate(n: bv64) returns (r: bv64, over: bool)
      requires Valid()
      modifies this`next, this`left, this`base, state
      ensures Valid() && At() == old(At()) + 1
      ensures r == Masked(origin, old(At()), n) && over == Over(r, n)
    {
      hide Word, Is32, Temper, Smear, Toss, Over;
      var i := RandInt();
      r := Toss(i, n);
      over := Over(r, n);
    }

    method Search(n: bv64, ghost hit: nat) returns (r: bv64)
      requires Valid() && hit >= At() && !Over(Masked(origin, hit, n), n)
      modifies this`next, this`left, this`base, state
      ensures Valid() && old(At()) < At() <= hit + 1
      ensures r == Masked(origin, At() - 1, n) && !Over(r, n)
      ensures forall k :: old(At()) <= k < At() - 1 ==> Over(Masked(origin, k, n), n)
    {
      hide Word, Is32, Masked, Over;
      var over;
      r, over := Candidate(n);
      while over
        invariant Valid() && old(At()) < At() <= hit + 1 && r == Masked(origin, At() - 1, n) && over == Over(r, n)
        invariant forall k :: old(At()) <= k < At() - 1 ==> Over(Masked(origin, k, n), n)
        decreases hit + 1 - At()
      {
        r, over := Candidate(n);
      }
    }

    // In [0, n].  hit is the number of a word that ends the search; without one it would not end.
    method RandIntUpTo(n: bv64, ghost hit: nat) returns (r: bv64)
      requires Valid() && hit >= At() && Masked(origin, hit, n) <= n
      modifies this`next, this`left, this`base, state
      ensures Valid() && old(At()) < At() <= hit + 1
      ensures r <= n && r == Temper(Word(origin, At() - 1)) & Smear(n)
      ensures forall k :: old(At()) <= k < At() - 1 ==> Masked(origin, k, n) > n
    {
      hide Word, Is32, Masked, Temper, Smear;
      r := Search(n, hit);
      MaskedIs(origin, At() - 1, n);
    }

    // From sa, an array of N + 1 words.
    method Load(sa: array<bv64>)
      requires state.Length == N && sa.Length == N + 1 && sa != state
      requires All32(sa[..N]) && CountOk(sa[N])
      modifies this`next, this`left, this`origin, this`base, state
      ensures Valid() && origin == sa[..N] && At() == N - CountOf(sa[N])
    {
      hide Is32, Word, CountOk, CountOf;
      var i := 0;
      while i < N
        invariant 0 <= i <= N && forall j :: 0 <= j < i ==> state[j] == sa[j]
      {
        state[i] := sa[i];
        i := i + 1;
      }
      left := CountOf(sa[N]);
      next := N - left;
      origin, base := sa[..N], 0;
      WindowAtStart(origin);
      assert state[..] == origin;
    }

    method Save(sa: array<bv64>)
      requires Valid() && sa.Length == N + 1 && sa != state
      modifies sa
      ensures sa[..N] == Window(origin, base) && sa[N] == Count(left)
    {
      hide Word;
      var i := 0;
      while i < N
        invariant 0 <= i <= N && Valid()
        invariant forall j :: 0 <= j < i ==> sa[j] == state[j]
      {
        sa[i] := state[i];
        i := i + 1;
      }
      sa[N] := Count(left);
      assert forall j :: 0 <= j < N ==> sa[..N][j] == state[..][j];
    }
  }

  // Every bit below the highest bit of n.
  function Smear(n: bv64): bv64 {
    var a := n | (n >> 1);
    var b := a | (a >> 2);
    var c := b | (b >> 4);
    var d := c | (c >> 8);
    d | (d >> 16)
  }

  function Toss(i: bv64, n: bv64): bv64 {
    i & Smear(n)
  }

  predicate Over(i: bv64, n: bv64) {
    i > n
  }

  // The k-th word, tempered, without the bits that a number up to n does not use.
  ghost function Masked(origin: seq<bv64>, k: nat, n: bv64): bv64
    requires |origin| == N
  {
    Toss(Temper(Word(origin, k)), n)
  }

  lemma MaskedIs(origin: seq<bv64>, k: nat, n: bv64)
    requires |origin| == N
    ensures Masked(origin, k, n) == Temper(Word(origin, k)) & Smear(n)
  {
    hide Word, Temper, Smear;
  }

  // For a 32-bit n the mask is the least of the form 2^k - 1 that has all bits of n.
  lemma SmearCovers(n: bv64)
    requires Is32(n)
    ensures n & Smear(n) == n && Is32(Smear(n))
  {
  }

  lemma SmearIsLow(n: bv64)
    requires Is32(n)
    ensures Smear(n) & (Smear(n) + 1) == 0
  {
  }

  lemma SmearIsTight(n: bv64)
    requires Is32(n) && n != 0
    ensures Smear(n) >> 1 < n
  {
  }

  lemma WindowAtStart(init: seq<bv64>)
    requires |init| == N
    ensures Window(init, 0) == init
  {
  }

  // A loaded count of words left.
  predicate CountOk(x: bv64) {
    x <= 624
  }

  function CountOf(x: bv64): (n: nat)
    requires CountOk(x)
    ensures n <= N
  {
    x as nat
  }

  // The recurrence of MT19937: 624 words back, 397 words on.
  lemma NextWord(init: seq<bv64>, k: nat)
    requires |init| == 624
    ensures Word(init, k + 624) == Recur(Word(init, k + 397), Word(init, k), Word(init, k + 1))
  {
  }

  /* ---------- streams ---------- */

  // The k-th output after seeding, from 0, is the tempered word N + k of the recurrence.
  method Draw(seed: bv64, count: nat) returns (out: seq<bv64>)
    ensures |out| == count
    ensures forall k :: 0 <= k < count ==> out[k] == Temper(Word(Initial(seed), N + k)) && Is32(out[k])
  {
    hide Word, Temper, Is32;
    var rng := new MTRand(seed);
    out := [];
    while |out| < count
      invariant |out| <= count && fresh(rng) && fresh(rng.state) && rng.Valid()
      invariant rng.origin == Initial(seed) && rng.At() == N + |out|
      invariant forall k :: 0 <= k < |out| ==> out[k] == Temper(Word(Initial(seed), N + k)) && Is32(out[k])
    {
      var r := rng.RandInt();
      out := out + [r];
    }
  }

  // A generator that loads what another has saved goes on with the same words.
  method Copy(from: MTRand, to: MTRand)
    requires from.Valid() && to.state.Length == N && from != to && from.state != to.state
    modifies to`next, to`left, to`origin, to`base, to.state
    ensures from.Valid() && to.Valid()
    ensures forall k: nat :: to.Coming(k) == from.Coming(k)
  {
    hide Word, Is32;
    var sa := new bv64[N + 1];
    WindowIs32(from.origin, from.base);
    from.Save(sa);
    CountIs(from.left);
    to.Load(sa);
    forall k: nat ensures to.Coming(k) == from.Coming(k) {
      GoesOn(from.origin, from.base, from.next + k);
    }
  }

  // left fits 10 bits on its way into the array.
  function Count(left: nat): bv64
    requires left <= N
  {
    (left as bv10) as bv64
  }

  lemma TenBits(left: nat)
    requires left <= N
    ensures (left as bv10) as nat == left
  {
  }

  lemma Widened(x: bv10)
    ensures (x as bv64) as nat == x as nat
  {
  }

  lemma InOrder(x: bv10)
    requires x as nat <= 624
    ensures x as bv64 <= 624
  {
  }

  lemma CountIs(left: nat)
    requires left <= N
    ensures CountOk(Count(left)) && CountOf(Count(left)) == left
  {
    var x := left as bv10;
    TenBits(left);
    Widened(x);
    InOrder(x);
  }

  lemma WindowIs32(init: seq<bv64>, k: nat)
    requires |init| == N && All32(init)
    ensures All32(Window(init, k))
  {
    hide Word, Is32;
    forall i: nat | i < N ensures Is32(Window(init, k)[i]) {
      WordIs32(init, k + i);
    }
  }
}
