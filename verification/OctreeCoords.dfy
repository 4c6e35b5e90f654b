/**
  Where a body belongs in the octree of barnes: at each level one bit of every
  integer coordinate decides the child, through the index that subindex computes.
 */
module OctreeCoords {
  import opened Numbers

  const NDIM := 3
  const NSUB := 8
  const MAXLEVEL := 62  // the bits of an integer coordinate

  datatype Body = Body(id: nat, x: nat, y: nat, z: nat)

  // The bit of x that is tested at depth d: the highest one at the root.
  predicate BitAt(x: nat, d: nat)
    requires d < MAXLEVEL
  {
    x / Power2(MAXLEVEL - 1 - d) % 2 == 1
  }

  // The child index of three bits, closed form.
  function Index(b0: bool, b1: bool, b2: bool): (r: nat)
    ensures r < NSUB
  {
    (if b0 then 4 else 0) + (if b0 != b1 then 2 else 0) + (if b2 != (b0 != b1) then 1 else 0)
  }

  // subindex: each bit is compared with whether the previous one contributed.
  method SubIndex(bits: seq<bool>) returns (i: nat)
    requires |bits| == NDIM
    ensures i == Index(bits[0], bits[1], bits[2])
  {
    i := 0;
    var yes := false;
    if bits[0] {
      i := i + NSUB / 2;
      yes := true;
    }
    var k := 1;
    while k < NDIM
      invariant 1 <= k <= NDIM
      invariant k == 1 ==> i == (if bits[0] then 4 else 0) && yes == bits[0]
      invariant k == 2 ==> i == (if bits[0] then 4 else 0) + (if bits[0] != bits[1] then 2 else 0)
                             && yes == (bits[0] != bits[1])
      invariant k == 3 ==> i == Index(bits[0], bits[1], bits[2])
    {
      if (bits[k] && !yes) || (!bits[k] && yes) {
        i := i + NSUB / Power2(k + 1);
        yes := true;
      } else {
        yes := false;
      }
      k := k + 1;
    }
  }

  // Different octants have different indices.
  lemma IndexInjective(b0: bool, b1: bool, b2: bool, c0: bool, c1: bool, c2: bool)
    ensures Index(b0, b1, b2) == Index(c0, c1, c2) <==> b0 == c0 && b1 == c1 && b2 == c2
  {
  }

  function Digit(b: Body, d: nat): (r: nat)
    requires d < MAXLEVEL
    ensures r < NSUB
  {
    Index(BitAt(b.x, d), BitAt(b.y, d), BitAt(b.z, d))
  }

  // b lies in the box that the child indices p lead to.
  ghost predicate InBox(p: seq<nat>, b: Body) {
    |p| <= MAXLEVEL && forall d :: 0 <= d < |p| ==> p[d] == Digit(b, d)
  }

  /* ---------- boxes are cubes of coordinates ---------- */

  lemma DivTwice(x: nat, m: nat)
    ensures x / Power2(m + 1) == (x / Power2(m)) / 2
  {
    assert Power2(m + 1) == 2 * Power2(m);
    HalfQuotient(x, Power2(m), x / Power2(m), x % Power2(m));
  }

  lemma HalfQuotient(x: nat, p: nat, q: nat, r: nat)
    requires p > 0 && x == q * p + r && r < p
    ensures x / (2 * p) == q / 2
  {
    var h, e := q / 2, q % 2;
    assert q * p == (2 * h + e) * p == h * (2 * p) + e * p;
    assert e * p <= p;
    DivModUnique(x, 2 * p, h, e * p + r);
  }

  lemma SmallQuotient(x: nat, d: nat)
    requires x < d
    ensures x / d == 0
  {
  }

  // One more equal bit is one more equal halving.
  lemma SameBitSameHalf(x: nat, y: nat, d: nat)
    requires d < MAXLEVEL && x / Power2(MAXLEVEL - d) == y / Power2(MAXLEVEL - d)
    ensures BitAt(x, d) == BitAt(y, d) <==> x / Power2(MAXLEVEL - d - 1) == y / Power2(MAXLEVEL - d - 1)
  {
    hide Power2;
    var m := MAXLEVEL - d - 1;
    DivTwice(x, m);
    DivTwice(y, m);
    var u, v := x / Power2(m), y / Power2(m);
    assert u == 2 * (u / 2) + u % 2 && v == 2 * (v / 2) + v % 2;
  }

  ghost predicate SameCube(b: Body, c: Body, len: nat)
    requires len <= MAXLEVEL
  {
    && b.x / Power2(MAXLEVEL - len) == c.x / Power2(MAXLEVEL - len)
    && b.y / Power2(MAXLEVEL - len) == c.y / Power2(MAXLEVEL - len)
    && b.z / Power2(MAXLEVEL - len) == c.z / Power2(MAXLEVEL - len)
  }

  ghost predicate InSpace(b: Body) {
    b.x < Power2(MAXLEVEL) && b.y < Power2(MAXLEVEL) && b.z < Power2(MAXLEVEL)
  }

  // Two bodies share the box of a path exactly when their coordinates share as many leading bits.
  lemma {:induction false} BoxIsCube(p: seq<nat>, b: Body, c: Body)
    requires InSpace(b) && InSpace(c) && InBox(p, b)
    ensures InBox(p, c) <==> SameCube(b, c, |p|)
  {
    hide Power2, BitAt;
    if p == [] {
      SmallQuotient(b.x, Power2(MAXLEVEL));
      SmallQuotient(b.y, Power2(MAXLEVEL));
      SmallQuotient(b.z, Power2(MAXLEVEL));
      SmallQuotient(c.x, Power2(MAXLEVEL));
      SmallQuotient(c.y, Power2(MAXLEVEL));
      SmallQuotient(c.z, Power2(MAXLEVEL));
    } else {
      var d := |p| - 1;
      BoxIsCube(p[..d], b, c);
      if InBox(p[..d], c) {
        SameBitSameHalf(b.x, c.x, d);
        SameBitSameHalf(b.y, c.y, d);
        SameBitSameHalf(b.z, c.z, d);
        assert InBox(p, c) <==> Digit(c, d) == p[d];
        assert p[d] == Digit(b, d);
      } else {
        CubeShrinks(b, c, d);
      }
    }
  }

  lemma CubeShrinks(b: Body, c: Body, d: nat)
    requires d < MAXLEVEL
    ensures SameCube(b, c, d + 1) ==> SameCube(b, c, d)
  {
    hide Power2;
    var m := MAXLEVEL - d - 1;
    DivTwice(b.x, m);
    DivTwice(c.x, m);
    DivTwice(b.y, m);
    DivTwice(c.y, m);
    DivTwice(b.z, m);
    DivTwice(c.z, m);
  }
}
