/**
  EBML numbers and elements: the byte strings that the Matroska writer produces for
  element IDs, data sizes and integers, and a reader for them that follows sections 4
  to 7 of RFC 8794.
 */
module Ebml {
  import opened Wrappers
  import opened Numbers

  /* ---------- big-endian numbers ---------- */

  // The last k bytes of v, highest first; for a negative v the two's complement.
  function BE(v: int, k: nat): (s: seq<Byte>)
    ensures |s| == k
    decreases k
  {
    if k == 0 then [] else BE(v / 256, k - 1) + [v % 256]
  }

  function ReadBE(s: seq<Byte>): (v: nat) {
    if s == [] then 0 else 256 * ReadBE(s[..|s| - 1]) + s[|s| - 1]
  }

  lemma SplitByte(v: int, p: int)
    requires p > 0
    ensures (v / 256) / p == v / (256 * p)
    ensures v % (256 * p) == 256 * (v / 256 % p) + v % 256
  {
    var q, d := v / 256, v % 256;
    var t, r := q / p, q % p;
    assert v == 256 * (p * t + r) + d;
    assert 256 * (p * t + r) == (256 * p) * t + 256 * r;
    DivModUnique(v, 256 * p, t, 256 * r + d);
  }

  lemma {:induction false} ReadBack(v: int, k: nat)
    ensures ReadBE(BE(v, k)) == v % Pow256(k)
    decreases k
  {
    if k > 0 {
      ReadBack(v / 256, k - 1);
      SplitByte(v, Pow256(k - 1));
      assert BE(v, k)[..k - 1] == BE(v / 256, k - 1);
    }
  }

  lemma ReadBackNat(v: nat, k: nat)
    requires v < Pow256(k)
    ensures ReadBE(BE(v, k)) == v
  {
    ReadBack(v, k);
    DivModUnique(v, Pow256(k), 0, v);
  }

  // Cutting off leading bytes gives the shorter number.
  lemma {:induction false} DropLeading(v: int, k: nat, j: nat)
    requires j <= k
    ensures BE(v, k)[j..] == BE(v, k - j)
    decreases k
  {
    if j < k {
      DropLeading(v / 256, k - 1, j);
      assert BE(v, k)[j..] == BE(v / 256, k - 1)[j..] + [v % 256];
    }
  }

  lemma {:induction false} Leading(v: int, k: nat)
    requires k > 0
    ensures BE(v, k)[0] == v / Pow256(k - 1) % 256
    decreases k
  {
    if k > 1 {
      Leading(v / 256, k - 1);
      SplitByte(v, Pow256(k - 2));
      assert BE(v, k)[0] == BE(v / 256, k - 1)[0];
    }
  }

  lemma FourBytes(v: int)
    ensures BE(v, 4) == [v / 0x1000000 % 256, v / 0x10000 % 256, v / 256 % 256, v % 256]
  {
    assert BE(v, 1) == [v % 256];
    assert BE(v / 256 / 256 / 256, 1) == [v / 0x1000000 % 256];
    assert BE(v / 256 / 256, 2) == [v / 0x1000000 % 256, v / 0x10000 % 256];
    assert BE(v / 256, 3) == [v / 0x1000000 % 256, v / 0x10000 % 256, v / 256 % 256];
  }

  lemma TwoBytes(v: int)
    ensures BE(v, 2) == [v / 256 % 256, v % 256]
  {
    assert BE(v / 256, 1) == [v / 256 % 256];
  }

  /* ---------- the length of a number ---------- */

  // The fewest bytes that hold v, unsigned.
  function UIntLen(v: nat): (k: nat)
    ensures k >= 1
  {
    if v < 256 then 1 else 1 + UIntLen(v / 256)
  }

  lemma {:induction false} UIntLenIsLeast(v: nat)
    ensures v < Pow256(UIntLen(v)) && (UIntLen(v) > 1 ==> v >= Pow256(UIntLen(v) - 1))
  {
    if v < 256 {
      assert Pow256(1) == 256;
    } else {
      UIntLenIsLeast(v / 256);
    }
  }

  lemma {:induction false} PowMonotone(i: nat, j: nat)
    requires i <= j
    ensures Pow256(i) <= Pow256(j)
  {
    if i < j { PowMonotone(i, j - 1); }
  }

  lemma UIntLenIs(v: nat, k: nat)
    requires k >= 1 && v < Pow256(k) && (k > 1 ==> v >= Pow256(k - 1))
    ensures UIntLen(v) == k
  {
    UIntLenIsLeast(v);
    if UIntLen(v) < k { PowMonotone(UIntLen(v), k - 1); }
    if UIntLen(v) > k { PowMonotone(k, UIntLen(v) - 1); }
  }

  // v fits in k bytes of two's complement.
  predicate FitsSigned(v: int, k: nat) {
    k >= 1 && -128 * Pow256(k - 1) <= v < 128 * Pow256(k - 1)
  }

  // The fewest bytes that hold v in two's complement.
  function SIntLen(v: int): (k: nat)
    ensures k >= 1
    decreases if v < 0 then -v else v
  {
    if -128 <= v < 128 then 1 else 1 + SIntLen(v / 256)
  }

  lemma {:induction false} SIntLenIsLeast(v: int)
    ensures FitsSigned(v, SIntLen(v)) && (SIntLen(v) > 1 ==> !FitsSigned(v, SIntLen(v) - 1))
    decreases if v < 0 then -v else v
  {
    if -128 <= v < 128 {
      assert Pow256(0) == 1;
    } else {
      SIntLenIsLeast(v / 256);
      var k := SIntLen(v / 256);
      FitsShift(v, k);
      if k > 1 { FitsShift(v, k - 1); }
      else { assert Pow256(0) == 1; }
    }
  }

  lemma FitsShift(v: int, k: nat)
    requires k >= 1
    ensures FitsSigned(v, k + 1) <==> FitsSigned(v / 256, k)
  {
    var h := 128 * Pow256(k - 1);
    assert Pow256(k) == 256 * Pow256(k - 1);
    assert -256 * h <= v < 256 * h <==> -h <= v / 256 < h;
  }

  lemma SIntLenIs(v: int, k: nat)
    requires FitsSigned(v, k) && (k > 1 ==> !FitsSigned(v, k - 1))
    ensures SIntLen(v) == k
  {
    SIntLenIsLeast(v);
    if SIntLen(v) < k { PowMonotone(SIntLen(v) - 1, k - 2); }
    if SIntLen(v) > k { PowMonotone(k - 1, SIntLen(v) - 2); }
  }

  function ReadSigned(s: seq<Byte>): (v: int)
    requires s != []
  {
    if s[0] >= 128 then ReadBE(s) - Pow256(|s|) else ReadBE(s)
  }

  lemma SignedReadBack(v: int, k: nat)
    requires FitsSigned(v, k)
    ensures ReadSigned(BE(v, k)) == v
  {
    var p := Pow256(k - 1);
    ReadBack(v, k);
    Leading(v, k);
    if v < 0 {
      DivModUnique(v, 256 * p, -1, v + 256 * p);
      assert -128 <= v / p < 0 by { DivBounds(v, p, -128, 0); }
    } else {
      DivModUnique(v, 256 * p, 0, v);
      assert 0 <= v / p < 128 by { DivBounds(v, p, 0, 128); }
    }
  }

  lemma DivBounds(v: int, p: int, lo: int, hi: int)
    requires p > 0 && p * lo <= v < p * hi
    ensures lo <= v / p < hi
  {
    var q, u := v / p, v % p;
    assert v == p * q + u && 0 <= u < p;
    if q < lo { MulMonotone(p, q + 1, lo); }
    if q >= hi { MulMonotone(p, hi, q); }
  }

  /* ---------- element IDs and sizes ---------- */

  // An ID carries its own length in its leading byte (section 5 of RFC 8794).
  predicate ValidId(id: nat) {
    0x80 <= id < 0x100 || 0x4000 <= id < 0x8000 || 0x200000 <= id < 0x400000 || 0x10000000 <= id < 0x20000000
  }

  function EncodeId(id: nat): (s: seq<Byte>) {
    var c := BE(id, 4);
    if c[0] != 0 then c else if c[1] != 0 then c[1..] else if c[2] != 0 then c[2..] else c[3..]
  }

  // The marker bit is clear in the byte it goes to, so setting it is an addition.
  function EncodeSize(size: nat): (s: seq<Byte>) {
    var c := [0x08] + BE(size, 4);
    if size < 0x7f then [size + 0x80]
    else if size < 0x3fff then [size / 256 + 0x40, size % 256]
    else if size < 0x1fffff then [size / 0x10000 + 0x20, size / 256 % 256, size % 256]
    else if size < 0x0fffffff then [size / 0x1000000 + 0x10, size / 0x10000 % 256, size / 256 % 256, size % 256]
    else c
  }

  // mk_ebmlSizeSize
  function SizeSize(s: nat): (k: nat)
    ensures k == |EncodeSize(s)|
  {
    if s < 0x7f then 1 else if s < 0x3fff then 2 else if s < 0x1fffff then 3 else if s < 0x0fffffff then 4 else 5
  }

  // The length announced by the leading byte; 0 for none.
  function VintLength(b: Byte): (k: nat) {
    if b >= 0x80 then 1 else if b >= 0x40 then 2 else if b >= 0x20 then 3 else if b >= 0x10 then 4
    else if b >= 0x08 then 5 else if b >= 0x04 then 6 else if b >= 0x02 then 7 else if b >= 0x01 then 8 else 0
  }

  function Marker(len: nat): nat
    requires 1 <= len <= 8
  {
    [0x80, 0x40, 0x20, 0x10, 0x08, 0x04, 0x02, 0x01][len - 1]
  }

  datatype Size = Unknown | Known(n: nat)

  function ParseId(s: seq<Byte>): (r: Option<(nat, seq<Byte>)>)
    ensures r.Some? ==> |r.value.1| < |s|
  {
    if s == [] then None
    else
      var k := VintLength(s[0]);
      if 1 <= k <= 4 && k <= |s| then Some((ReadBE(s[..k]), s[k..])) else None
  }

  // All value bits set means that the size is not known (section 6.2 of RFC 8794).
  function ParseSize(s: seq<Byte>): (r: Option<(Size, seq<Byte>)>)
    ensures r.Some? ==> |r.value.1| < |s|
  {
    if s == [] then None
    else
      var k := VintLength(s[0]);
      if 1 <= k <= |s| then
        var value := ReadBE([s[0] % Marker(k)] + s[1..k]);
        Some((if value == Marker(k) * Pow256(k - 1) - 1 then Unknown else Known(value), s[k..]))
      else None
  }

  lemma ReadShort(a: Byte, b: Byte, c: Byte, d: Byte, e: Byte)
    ensures ReadBE([a]) == a
    ensures ReadBE([a, b]) == 256 * a + b
    ensures ReadBE([a, b, c]) == 0x10000 * a + 256 * b + c
    ensures ReadBE([a, b, c, d]) == 0x1000000 * a + 0x10000 * b + 256 * c + d
    ensures ReadBE([a, b, c, d, e]) == 0x100000000 * a + 0x1000000 * b + 0x10000 * c + 256 * d + e
  {
    assert [a][..0] == [] && [a, b][..1] == [a] && [a, b, c][..2] == [a, b];
    assert ReadBE([a]) == a;
    assert ReadBE([a, b]) == 256 * a + b;
    assert [a, b, c, d][..3] == [a, b, c] && [a, b, c, d, e][..4] == [a, b, c, d];
  }

  lemma IdReadBack(id: nat, rest: seq<Byte>)
    requires ValidId(id)
    ensures ParseId(EncodeId(id) + rest) == Some((id, rest))
    ensures 1 <= |EncodeId(id)| <= 4
  {
    var s, k := EncodeId(id) + rest, |EncodeId(id)|;
    IdValue(id);
    assert s[..k] == EncodeId(id) && s[k..] == rest;
  }

  lemma ByteOf(v: nat)
    ensures v == 256 * (v / 256) + v % 256
  {
  }

  lemma Digits(v: nat)
    ensures v == 0x1000000 * (v / 0x1000000) + 0x10000 * (v / 0x10000 % 256) + 256 * (v / 256 % 256) + v % 256
    ensures v == 0x10000 * (v / 0x10000) + 256 * (v / 256 % 256) + v % 256
    ensures v == 256 * (v / 256) + v % 256
  {
    ByteOf(v);
    ByteOf(v / 256);
    ByteOf(v / 0x10000);
    SplitByte(v, 0x100);
    SplitByte(v, 0x10000);
    SplitByte(v / 256, 0x100);
  }

  predicate IsId(c: seq<Byte>, id: nat) {
    1 <= |c| <= 4 && VintLength(c[0]) == |c| && ReadBE(c) == id
  }

  lemma ShortId(c2: Byte, c3: Byte, id: nat)
    requires id < 0x8000 && ValidId(id) && id == 256 * c2 + c3
    ensures IsId(if c2 == 0 then [c3] else [c2, c3], id)
  {
    hide ReadBE;
    ReadShort(c3, 0, 0, 0, 0);
    ReadShort(c2, c3, 0, 0, 0);
  }

  lemma LongId(c0: Byte, c1: Byte, c2: Byte, c3: Byte, id: nat)
    requires id >= 0x200000 && ValidId(id) && id == 0x1000000 * c0 + 0x10000 * c1 + 256 * c2 + c3
    ensures IsId(if c0 == 0 then [c1, c2, c3] else [c0, c1, c2, c3], id)
    ensures c0 == 0 ==> c1 != 0
  {
    hide ReadBE;
    ReadShort(c1, c2, c3, 0, 0);
    ReadShort(c0, c1, c2, c3, 0);
  }

  lemma IdValue(id: nat)
    requires ValidId(id)
    ensures IsId(EncodeId(id), id)
  {
    hide BE, ReadBE, IsId;
    FourBytes(id);
    Digits(id);
    var c := BE(id, 4);
    if id < 0x8000 {
      assert c[0] == 0 && c[1] == 0;
      assert EncodeId(id) == if c[2] == 0 then [c[3]] else [c[2], c[3]];
      ShortId(c[2], c[3], id);
    } else {
      LongId(c[0], c[1], c[2], c[3], id);
      assert EncodeId(id) == if c[0] == 0 then [c[1], c[2], c[3]] else [c[0], c[1], c[2], c[3]];
    }
  }

  lemma SizeReadBack(size: nat, rest: seq<Byte>)
    requires size < 0x100000000
    ensures ParseSize(EncodeSize(size) + rest) == Some((Known(size), rest))
    ensures 1 <= |EncodeSize(size)| <= 5
  {
    FourBytes(size);
    var c, s := EncodeSize(size), EncodeSize(size) + rest;
    var k := |c|;
    assert s[..k] == c && s[k..] == rest && s[1..k] == c[1..];
    if size < 0x1fffff { ShortSize(size); } else if size < 0x0fffffff { LongSize(size); } else { FullSize(size); }
    assert Pow256(1) == 256 && Pow256(2) == 0x10000 && Pow256(3) == 0x1000000 && Pow256(4) == 0x100000000;
  }

  // The leading byte tells the length, and the rest of the bits are the size.
  predicate Announces(c: seq<Byte>, size: nat) {
    1 <= |c| <= 5 && VintLength(c[0]) == |c| && ReadBE([c[0] % Marker(|c|)] + c[1..]) == size
  }

  lemma ReadOne(q: nat)
    requires q < 0x7f
    ensures Announces([q + 0x80], q)
  {
    hide ReadBE;
    ReadShort(q, 0, 0, 0, 0);
    assert [(q + 0x80) % 0x80] + [q + 0x80][1..] == [q];
  }

  lemma ReadTwo(q: nat, b1: Byte, size: nat)
    requires q < 0x40 && size == 256 * q + b1
    ensures Announces([q + 0x40, b1], size)
  {
    hide ReadBE;
    ReadShort(q, b1, 0, 0, 0);
    assert [(q + 0x40) % 0x40] + [q + 0x40, b1][1..] == [q, b1];
  }

  lemma ReadThree(q: nat, b1: Byte, b2: Byte, size: nat)
    requires q < 0x20 && size == 0x10000 * q + 256 * b1 + b2
    ensures Announces([q + 0x20, b1, b2], size)
  {
    hide ReadBE;
    ReadShort(q, b1, b2, 0, 0);
    assert [(q + 0x20) % 0x20] + [q + 0x20, b1, b2][1..] == [q, b1, b2];
  }

  lemma ShortSize(size: nat)
    requires size < 0x1fffff
    ensures Announces(EncodeSize(size), size)
  {
    hide BE, ReadBE, Announces;
    Digits(size);
    if size < 0x7f {
      ReadOne(size);
    } else if size < 0x3fff {
      ReadTwo(size / 256, size % 256, size);
    } else {
      ReadThree(size / 0x10000, size / 256 % 256, size % 256, size);
    }
  }

  lemma LongSize(size: nat)
    requires 0x1fffff <= size < 0x0fffffff
    ensures Announces(EncodeSize(size), size)
  {
    hide BE, ReadBE;
    Digits(size);
    var c := EncodeSize(size);
    var q, b1, b2, b3 := size / 0x1000000, size / 0x10000 % 256, size / 256 % 256, size % 256;
    assert q < 0x10 && c == [q + 0x10, b1, b2, b3];
    ReadFour(q, b1, b2, b3, size);
  }

  lemma ReadFour(q: nat, b1: Byte, b2: Byte, b3: Byte, size: nat)
    requires q < 0x10 && size == 0x1000000 * q + 0x10000 * b1 + 256 * b2 + b3
    ensures Announces([q + 0x10, b1, b2, b3], size)
  {
    hide ReadBE;
    ReadShort(q, b1, b2, b3, 0);
    assert [(q + 0x10) % 0x10] + [q + 0x10, b1, b2, b3][1..] == [q, b1, b2, b3];
  }

  lemma FullSize(size: nat)
    requires 0x0fffffff <= size < 0x100000000
    ensures Announces(EncodeSize(size), size)
  {
    hide ReadBE;
    var c, b := EncodeSize(size), BE(size, 4);
    ReadShort(b[0], b[1], b[2], b[3], 0);
    ReadShort(0, b[0], b[1], b[2], b[3]);
    assert b == [b[0], b[1], b[2], b[3]];
    assert Pow256(4) == 0x100000000;
    ReadBackNat(size, 4);
    assert [c[0] % 8] + c[1..] == [0, b[0], b[1], b[2], b[3]];
  }

  /* ---------- elements ---------- */

  datatype Element = Element(id: nat, body: seq<Byte>)

  predicate Writable(e: Element) {
    ValidId(e.id) && |e.body| < 0x100000000
  }

  function Encode(e: Element): (s: seq<Byte>) {
    EncodeId(e.id) + EncodeSize(|e.body|) + e.body
  }

  function EncodeAll(es: seq<Element>): (s: seq<Byte>) {
    if es == [] then [] else EncodeAll(es[..|es| - 1]) + Encode(es[|es| - 1])
  }

  function ParseElement(s: seq<Byte>): (r: Option<(Element, seq<Byte>)>)
    ensures r.Some? ==> |r.value.1| < |s|
  {
    var id := ParseId(s);
    if id.None? then None
    else
      var size := ParseSize(id.value.1);
      if size.None? || size.value.0 == Unknown || size.value.0.n > |size.value.1| then None
      else
        var n := size.value.0.n;
        Some((Element(id.value.0, size.value.1[..n]), size.value.1[n..]))
  }

  // Elements up to the end of the bytes; nothing may be left over.
  function ParseAll(s: seq<Byte>): (r: Option<seq<Element>>)
    decreases |s|
  {
    if s == [] then Some([])
    else
      var e := ParseElement(s);
      if e.None? then None
      else
        var more := ParseAll(e.value.1);
        if more.None? then None else Some([e.value.0] + more.value)
  }

  lemma ElementReadBack(e: Element, rest: seq<Byte>)
    requires Writable(e)
    ensures ParseElement(Encode(e) + rest) == Some((e, rest)) && Encode(e) != []
  {
    hide ParseId, ParseSize, EncodeId, EncodeSize, ValidId;
    var tail := EncodeSize(|e.body|) + (e.body + rest);
    assert Encode(e) + rest == EncodeId(e.id) + tail;
    IdReadBack(e.id, tail);
    SizeReadBack(|e.body|, e.body + rest);
  }

  lemma EncodeSnoc(es: seq<Element>, e: Element)
    ensures EncodeAll(es + [e]) == EncodeAll(es) + Encode(e)
  {
    assert (es + [e])[..|es|] == es;
  }

  lemma {:induction false} EncodeJoin(a: seq<Element>, b: seq<Element>)
    ensures EncodeAll(a + b) == EncodeAll(a) + EncodeAll(b)
  {
    hide Encode, EncodeAll;
    if b == [] {
      assert a + b == a;
      EncodeNone();
    } else {
      var n := |b| - 1;
      EncodeJoin(a, b[..n]);
      assert a + b == (a + b[..n]) + [b[n]];
      EncodeSnoc(a + b[..n], b[n]);
      assert b == b[..n] + [b[n]];
      EncodeSnoc(b[..n], b[n]);
    }
  }

  lemma EncodeNone()
    ensures EncodeAll([]) == []
  {
  }

  lemma EncodeCons(e: Element, es: seq<Element>)
    ensures EncodeAll([e] + es) == Encode(e) + EncodeAll(es)
  {
    hide Encode;
    EncodeJoin([e], es);
    assert EncodeAll([e]) == EncodeAll([]) + Encode(e) by { EncodeSnoc([], e); assert [] + [e] == [e]; }
  }

  lemma {:induction false} AllReadBack(es: seq<Element>)
    requires forall i :: 0 <= i < |es| ==> Writable(es[i])
    ensures ParseAll(EncodeAll(es)) == Some(es)
  {
    if es != [] {
      assert es == [es[0]] + es[1..];
      EncodeCons(es[0], es[1..]);
      ElementReadBack(es[0], EncodeAll(es[1..]));
      AllReadBack(es[1..]);
    }
  }
}
