/**
  What the fingerprint is: the remainder of the window, read as a polynomial over GF(2),
  on division by X^32 + irr.  A polynomial is the set of its exponents.
 */
module RabinPolynomial {
  import opened Rabin

  /* ---------- polynomials ---------- */

  function Sum(a: set<nat>, b: set<nat>): set<nat> {
    (a - b) + (b - a)
  }

  // Times X^k.
  function Up(a: set<nat>, k: nat): set<nat> {
    set e | e in a :: e + k
  }

  // The multiple of p by the polynomial whose coefficients, highest first, are q.
  function Multiple(q: seq<bool>, p: set<nat>): set<nat> {
    if q == [] then {} else Sum(Up(Multiple(q[..|q| - 1], p), 1), if q[|q| - 1] then p else {})
  }

  lemma UpSum(a: set<nat>, b: set<nat>, k: nat)
    ensures Up(Sum(a, b), k) == Sum(Up(a, k), Up(b, k))
  {
    assert forall e :: e in Up(a, k) <==> e - k in a && e >= k;
    assert forall e :: e in Up(b, k) <==> e - k in b && e >= k;
    assert forall e :: e in Up(Sum(a, b), k) <==> e >= k && e - k in Sum(a, b);
  }

  lemma UpTwice(a: set<nat>, j: nat, k: nat)
    ensures Up(Up(a, j), k) == Up(a, j + k)
  {
    forall e | e in Up(a, j + k) ensures e in Up(Up(a, j), k) {
      assert e - k in Up(a, j);
    }
  }

  /* ---------- the polynomial of a word ---------- */

  function Mask(e: nat): bv32 {
    if e == 0 then 1 else Mask(e - 1) << 1
  }

  function And(x: bv32, m: bv32): bv32 {
    x & m
  }

  predicate Bit(x: bv32, e: nat) {
    And(x, Mask(e)) != 0
  }

  function Bits(x: bv32): set<nat> {
    set e: nat | e < 32 && Bit(x, e)
  }

  // X^32 + irr.
  function Modulus(irr: bv32): set<nat> {
    Bits(irr) + {32}
  }

  lemma ShiftBoth(x: bv32, m: bv32)
    ensures (x << 1) & (m << 1) == (x & m) << 1
  {
  }

  lemma ShiftUp(x: bv32)
    ensures (x << 1) & 1 == 0
  {
  }

  lemma AndAdd(x: bv32, y: bv32, m: bv32)
    ensures And(Add(x, y), m) == Add(And(x, m), And(y, m))
  {
  }

  lemma AndShl(x: bv32, m: bv32)
    ensures And(x, Shl(m)) == Shl(And(x >> 1, m))
  {
  }

  lemma TopMask(x: bv32)
    ensures x & 0x80000000 != 0 <==> x >> 31 != 0
  {
  }

  lemma ShlZero()
    ensures Shl(0) == 0
  {
  }

  lemma MaskStep(e: nat)
    ensures Mask(e + 1) == Shl(Mask(e))
  {
  }

  lemma AndOne(x: bv32)
    ensures And(x, 1) == 0 || And(x, 1) == 1
  {
  }

  // A mask takes all of itself or nothing.
  lemma {:induction false} AllOrNothing(x: bv32, e: nat)
    ensures And(x, Mask(e)) == 0 || And(x, Mask(e)) == Mask(e)
  {
    hide And, Shl;
    if e == 0 {
      AndOne(x);
    } else {
      AllOrNothing(x >> 1, e - 1);
      AndShl(x, Mask(e - 1));
      MaskStep(e - 1);
      ShlZero();
    }
  }

  lemma {:induction false} MaskNonzero(e: nat)
    requires e < 32
    ensures Mask(e) != 0
    decreases 32 - e
  {
    if e == 31 {
      MaskLast();
    } else {
      MaskNonzero(e + 1);
    }
  }

  lemma MaskLast()
    ensures Mask(31) == 0x80000000
  {
    assert Mask(7) == 0x80;
    assert Mask(15) == 0x8000;
    assert Mask(23) == 0x800000;
  }

  lemma BitAdd(x: bv32, y: bv32, e: nat)
    ensures Bit(Add(x, y), e) <==> Bit(x, e) != Bit(y, e)
  {
    hide Mask, And, Add;
    AllOrNothing(x, e);
    AllOrNothing(y, e);
    AndAdd(x, y, Mask(e));
    AddRules(Mask(e), 0, 0);
    AddZero(0);
  }

  lemma BitShl(x: bv32, e: nat)
    requires e < 31
    ensures Bit(Shl(x), e + 1) <==> Bit(x, e)
  {
    AllOrNothing(x, e);
    MaskNonzero(e + 1);
    ShiftBoth(x, Mask(e));
  }

  lemma BitsAdd(x: bv32, y: bv32)
    ensures Bits(Add(x, y)) == Sum(Bits(x), Bits(y))
  {
    hide Bit, Add;
    forall e: nat | e < 32 ensures Bit(Add(x, y), e) <==> Bit(x, e) != Bit(y, e) {
      BitAdd(x, y, e);
    }
  }

  lemma BitsShl(x: bv32)
    ensures Up(Bits(x), 1) == Bits(Shl(x)) + if Top(x) then {32} else {}
  {
    hide Bit, Shl, Top;
    TopIsBit(x);
    NoLowBit(x);
    forall e: nat | e < 31 ensures Bit(Shl(x), e + 1) <==> Bit(x, e) {
      BitShl(x, e);
    }
    forall e: nat ensures e in Up(Bits(x), 1) <==> e in Bits(Shl(x)) || (Top(x) && e == 32) {
      assert e in Up(Bits(x), 1) <==> e >= 1 && e - 1 in Bits(x);
      if 1 <= e < 32 { BitShl(x, e - 1); }
    }
  }

  lemma TopIsBit(x: bv32)
    ensures Bit(x, 31) <==> Top(x)
  {
    hide Mask;
    MaskLast();
    TopMask(x);
  }

  lemma NoLowBit(x: bv32)
    ensures !Bit(Shl(x), 0)
  {
    ShiftUp(x);
  }

  // Multiplying a word by X is multiplying its polynomial, up to one modulus.
  lemma BitsTimes2(x: bv32, irr: bv32)
    ensures Up(Bits(x), 1) == Sum(Bits(Times2(x, irr)), if Top(x) then Modulus(irr) else {})
  {
    hide Bits, Shl, Top, Add;
    BitsShl(x);
    BitsAdd(Shl(x), irr);
    BitsSmall(Shl(x));
    BitsSmall(irr);
  }

  lemma BitsSmall(x: bv32)
    ensures forall e :: e in Bits(x) ==> e < 32
  {
  }

  /* ---------- remainders ---------- */

  // a is a multiple of p plus r.
  ghost predicate LeavesRest(a: set<nat>, p: set<nat>, r: set<nat>) {
    exists q: seq<bool> :: a == Sum(Multiple(q, p), r)
  }

  lemma RestTimes2(a: set<nat>, x: bv32, irr: bv32)
    requires LeavesRest(a, Modulus(irr), Bits(x))
    ensures LeavesRest(Up(a, 1), Modulus(irr), Bits(Times2(x, irr)))
  {
    hide Bits, Times2, Up, Modulus, Top;
    var p := Modulus(irr);
    var q: seq<bool> :| a == Sum(Multiple(q, p), Bits(x));
    var q' := q + [Top(x)];
    assert q'[..|q|] == q;
    UpSum(Multiple(q, p), Bits(x), 1);
    BitsTimes2(x, irr);
    var m, t, y := Up(Multiple(q, p), 1), if Top(x) then p else {}, Bits(Times2(x, irr));
    assert Up(a, 1) == Sum(m, Sum(y, t));
    assert Multiple(q', p) == Sum(m, t);
    Regroup(m, y, t);
  }

  lemma Regroup(m: set<nat>, y: set<nat>, t: set<nat>)
    ensures Sum(m, Sum(y, t)) == Sum(Sum(m, t), y)
  {
  }

  lemma {:induction false} RestTimes(a: set<nat>, x: bv32, k: nat, irr: bv32)
    requires LeavesRest(a, Modulus(irr), Bits(x))
    ensures LeavesRest(Up(a, k), Modulus(irr), Bits(MulX(x, k, irr)))
  {
    hide Bits, Times2, Modulus, LeavesRest;
    if k == 0 {
      assert Up(a, 0) == a;
    } else {
      RestTimes(a, x, k - 1, irr);
      RestTimes2(Up(a, k - 1), MulX(x, k - 1, irr), irr);
      UpTwice(a, k - 1, 1);
    }
  }

  lemma RestAdd(a: set<nat>, x: bv32, b: bv32, irr: bv32)
    requires LeavesRest(a, Modulus(irr), Bits(x))
    ensures LeavesRest(Sum(a, Bits(b)), Modulus(irr), Bits(Add(x, b)))
  {
    hide Bits, Modulus, Add;
    var p := Modulus(irr);
    var q: seq<bool> :| a == Sum(Multiple(q, p), Bits(x));
    BitsAdd(x, b);
    assert Sum(a, Bits(b)) == Sum(Multiple(q, p), Bits(Add(x, b)));
  }

  // The bytes as one polynomial: each byte takes the next eight lower exponents.
  function Message(s: seq<bv8>): set<nat> {
    if s == [] then {} else Sum(Up(Message(s[..|s| - 1]), 8), Bits(s[|s| - 1] as bv32))
  }

  lemma {:induction false} FingerprintIsRest(s: seq<bv8>, irr: bv32)
    ensures LeavesRest(Message(s), Modulus(irr), Bits(Fingerprint(s, irr)))
  {
    hide Bits, Modulus, LeavesRest, Add, MulX;
    if s == [] {
      EmptyRest(irr);
    } else {
      var n := |s| - 1;
      FingerprintIsRest(s[..n], irr);
      RestTimes(Message(s[..n]), Fingerprint(s[..n], irr), 8, irr);
      RestAdd(Up(Message(s[..n]), 8), MulX(Fingerprint(s[..n], irr), 8, irr), s[n] as bv32, irr);
    }
  }

  lemma EmptyRest(irr: bv32)
    ensures LeavesRest({}, Modulus(irr), Bits(0))
  {
    var q: seq<bool> := [];
    NoBits();
    assert {} == Sum(Multiple(q, Modulus(irr)), Bits(0));
  }

  lemma NoBits()
    ensures Bits(0) == {}
  {
    forall e: nat ensures !Bit(0, e) {
      ZeroAnd(Mask(e));
    }
  }

  lemma ZeroAnd(m: bv32)
    ensures 0 & m == 0
  {
  }

  /* ---------- there is only one remainder ---------- */

  lemma {:induction false} MultipleIsBig(q: seq<bool>, irr: bv32)
    ensures Multiple(q, Modulus(irr)) != {} ==> exists e :: e in Multiple(q, Modulus(irr)) && e >= 32
  {
    hide Bits;
    if q != [] {
      var p, n := Modulus(irr), |q| - 1;
      BitsSmall(irr);
      MultipleIsBig(q[..n], irr);
      var m := Multiple(q[..n], p);
      if e :| e in m && e >= 32 {
        assert e + 1 in Up(m, 1);
        assert e + 1 in Multiple(q, p);
      } else if q[n] {
        assert Up(m, 1) == {};
        assert 32 in Multiple(q, p);
      } else {
        assert Up(m, 1) == {};
      }
    }
  }

  lemma {:induction false} MultiplesAdd(q: seq<bool>, r: seq<bool>, p: set<nat>) returns (s: seq<bool>)
    ensures Multiple(s, p) == Sum(Multiple(q, p), Multiple(r, p))
  {
    if q == [] {
      s := r;
    } else if r == [] {
      s := q;
    } else {
      var m, n := |q| - 1, |r| - 1;
      var t := MultiplesAdd(q[..m], r[..n], p);
      s := t + [q[m] != r[n]];
      assert s[..|t|] == t;
      UpSum(Multiple(q[..m], p), Multiple(r[..n], p), 1);
    }
  }

  // A remainder with exponents below 32 is the only one: division by X^32 + irr defines the fingerprint.
  lemma OnlyOneRest(a: set<nat>, irr: bv32, r: set<nat>, s: set<nat>)
    requires LeavesRest(a, Modulus(irr), r) && LeavesRest(a, Modulus(irr), s)
    requires forall e :: e in r || e in s ==> e < 32
    ensures r == s
  {
    hide Modulus, Multiple;
    var p := Modulus(irr);
    var q1: seq<bool> :| a == Sum(Multiple(q1, p), r);
    var q2: seq<bool> :| a == Sum(Multiple(q2, p), s);
    var q := MultiplesAdd(q1, q2, p);
    assert Multiple(q, p) == Sum(r, s);
    MultipleIsBig(q, irr);
    assert Sum(r, s) == {};
    assert forall e :: e in r <==> e in s;
  }

  lemma FingerprintIsTheRest(s: seq<bv8>, irr: bv32, r: set<nat>)
    requires forall e :: e in r ==> e < 32
    ensures LeavesRest(Message(s), Modulus(irr), r) <==> r == Bits(Fingerprint(s, irr))
  {
    hide Modulus, LeavesRest, Bits, Message;
    FingerprintIsRest(s, irr);
    BitsSmall(Fingerprint(s, irr));
    if LeavesRest(Message(s), Modulus(irr), r) {
      OnlyOneRest(Message(s), irr, r, Bits(Fingerprint(s, irr)));
    }
  }
}
