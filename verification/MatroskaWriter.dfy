/**
  The Matroska writer of x264: nested contexts that are filled first and copied to their
  parent with ID and size when they are closed, and block groups whose sizes are
  computed before their bytes exist.
 */
module MatroskaWriter {
  import opened Wrappers
  import opened Numbers
  import opened Ebml
  import opened MatroskaFormat

  /* ---------- how many leading bytes can go ---------- */

  lemma LeadingZero(v: nat, k: nat)
    requires k > 1 && v < Pow256(k)
    ensures BE(v, k)[0] == 0 <==> v < Pow256(k - 1)
  {
    var p := Pow256(k - 1);
    Leading(v, k);
    DivBounds(v, p, 0, 256);
    if v < p { DivModUnique(v, p, 0, v); }
    else { DivBounds(v, p, 1, 256); }
  }

  // The test of the loops in mk_writeSInt and mk_ebmlSIntSize.
  predicate Redundant(si: int, b0: Byte, b1: Byte) {
    if si < 0 then b0 == 0xff && b1 >= 0x80 else b0 == 0 && b1 < 0x80
  }

  lemma SecondByte(v: int, k: nat)
    requires k > 1
    ensures BE(v, k)[1] == v / Pow256(k - 2) % 256
  {
    DropLeading(v, k, 1);
    Leading(v, k - 1);
  }

  lemma RedundantNegative(v: int, k: nat)
    requires k > 1 && v < 0 && FitsSigned(v, k)
    ensures Redundant(v, BE(v, k)[0], BE(v, k)[1]) <==> FitsSigned(v, k - 1)
  {
    hide BE, Pow256;
    var q: int := Pow256(k - 2);
    var p := 256 * q;
    assert Pow256(k - 1) == p by { PowStep(k - 1); }
    Leading(v, k);
    SecondByte(v, k);
    DivBounds(v, p, -128, 0);
    if v >= -128 * q {
      DivBounds(v, p, -1, 0);
      DivBounds(v, q, -128, 0);
    } else if v >= -p {
      DivBounds(v, q, -256, -128);
    } else {
      DivBounds(v, p, -128, -1);
    }
  }

  lemma PowStep(k: nat)
    requires k > 0
    ensures Pow256(k) == 256 * Pow256(k - 1)
  {
  }

  lemma RedundantPositive(v: int, k: nat)
    requires k > 1 && v >= 0 && FitsSigned(v, k)
    ensures Redundant(v, BE(v, k)[0], BE(v, k)[1]) <==> FitsSigned(v, k - 1)
  {
    hide BE, Pow256;
    var q: int := Pow256(k - 2);
    var p := 256 * q;
    assert Pow256(k - 1) == p by { PowStep(k - 1); }
    Leading(v, k);
    SecondByte(v, k);
    DivBounds(v, p, 0, 128);
    if v < 128 * q {
      DivBounds(v, p, 0, 1);
      DivBounds(v, q, 0, 128);
    } else if v < p {
      DivBounds(v, q, 128, 256);
    } else {
      DivBounds(v, p, 1, 128);
    }
  }

  // mk_ebmlSIntSize: 8 less the redundant leading bytes is the shortest two's complement.
  method SIntSize(si: int) returns (n: nat)
    requires FitsSigned(si, 8)
    ensures n == SIntLen(si) && n <= 8
  {
    hide BE, FitsSigned;
    var c, i := BE(si, 8), 0;
    while i < 7 && Redundant(si, c[i], c[i + 1])
      invariant 0 <= i <= 7 && FitsSigned(si, 8 - i)
    {
      SkipOne(si, i);
      i := i + 1;
    }
    if i < 7 { SkipOne(si, i); }
    n := 8 - i;
    SIntLenIs(si, n) by { assert i == 7 ==> n == 1; }
  }

  lemma SkipOne(si: int, i: nat)
    requires i < 7 && FitsSigned(si, 8 - i)
    ensures Redundant(si, BE(si, 8)[i], BE(si, 8)[i + 1]) <==> FitsSigned(si, 7 - i)
  {
    DropLeading(si, 8, i);
    assert BE(si, 8)[i..][0] == BE(si, 8)[i] && BE(si, 8)[i..][1] == BE(si, 8)[i + 1];
    if si < 0 { RedundantNegative(si, 8 - i); } else { RedundantPositive(si, 8 - i); }
  }

  // mk_writeSize's choice among the bytes of the size.
  lemma SizeBytes(size: nat, b: Byte, c: Byte, d: Byte, e: Byte)
    requires size < 0x100000000 && BE(size, 4) == [b, c, d, e]
    ensures size < 0x7f ==> e + 0x80 < 256 && EncodeSize(size) == [e + 0x80]
    ensures 0x7f <= size < 0x3fff ==> d + 0x40 < 256 && EncodeSize(size) == [d + 0x40, e]
    ensures 0x3fff <= size < 0x1fffff ==> c + 0x20 < 256 && EncodeSize(size) == [c + 0x20, d, e]
    ensures 0x1fffff <= size < 0x0fffffff ==> b + 0x10 < 256 && EncodeSize(size) == [b + 0x10, c, d, e]
    ensures size >= 0x0fffffff ==> EncodeSize(size) == [0x08] + BE(size, 4)
  {
    hide BE;
    FourBytes(size);
    assert size < 0x7f ==> size % 256 == size;
    assert size < 0x3fff ==> size / 256 % 256 == size / 256;
    assert size < 0x1fffff ==> size / 0x10000 % 256 == size / 0x10000;
    assert size < 0x0fffffff ==> size / 0x1000000 % 256 == size / 0x1000000;
  }

  /* ---------- contexts ---------- */

  class Context {
    var id: nat
    var parent: Context?
    var data: seq<Byte>

    constructor ()
      ensures id == 0 && parent == null && data == []
    {
      id, parent, data := 0, null, [];
    }

    // mk_appendContextData
    method Append(bytes: seq<Byte>)
      modifies this`data
      ensures data == old(data) + bytes
    {
      data := data + bytes;
    }

    method WriteID(id: nat)
      modifies this`data
      ensures data == old(data) + EncodeId(id)
    {
      var c := BE(id, 4);
      if c[0] != 0 { Append(c); }
      else if c[1] != 0 { Append(c[1..]); }
      else if c[2] != 0 { Append(c[2..]); }
      else { Append(c[3..]); }
    }

    method WriteSize(size: nat)
      requires size < 0x100000000
      modifies this`data
      ensures data == old(data) + EncodeSize(size)
    {
      hide BE, EncodeSize;
      var c := [0x08] + BE(size, 4);
      SizeBytes(size, BE(size, 4)[0], BE(size, 4)[1], BE(size, 4)[2], BE(size, 4)[3]);
      if size < 0x7f { Append([c[4] + 0x80]); }
      else if size < 0x3fff { Append([c[3] + 0x40, c[4]]); }
      else if size < 0x1fffff { Append([c[2] + 0x20, c[3], c[4]]); }
      else if size < 0x0fffffff { Append([c[1] + 0x10, c[2], c[3], c[4]]); }
      else { Append(c); }
    }

    // mk_writeStr and mk_writeBin
    method WriteBin(id: nat, bytes: seq<Byte>)
      requires |bytes| < 0x100000000
      modifies this`data
      ensures data == old(data) + Encode(Element(id, bytes))
    {
      hide EncodeId, EncodeSize;
      WriteID(id);
      WriteSize(|bytes|);
      Append(bytes);
      assert data == old(data) + (EncodeId(id) + EncodeSize(|bytes|) + bytes);
    }

    method WriteUInt(id: nat, ui: nat)
      requires ui < Pow256(8)
      modifies this`data
      ensures data == old(data) + Encode(UInt(id, ui))
    {
      hide BE, Pow256;
      var c, i := BE(ui, 8), 0;
      WriteID(id);
      while i < 7 && c[i] == 0
        invariant 0 <= i <= 7 && ui < Pow256(8 - i) && data == old(data) + EncodeId(id)
      {
        DropLeading(ui, 8, i);
        LeadingZero(ui, 8 - i);
        i := i + 1;
      }
      DropLeading(ui, 8, i);
      if i < 7 { LeadingZero(ui, 8 - i); }
      UIntLenIs(ui, 8 - i);
      assert c[i..] == UInt(id, ui).body;
      WriteSize(8 - i);
      Append(c[i..]);
      assert data == old(data) + (EncodeId(id) + EncodeSize(8 - i) + c[i..]);
    }

    method WriteSInt(id: nat, si: int)
      requires FitsSigned(si, 8)
      modifies this`data
      ensures data == old(data) + Encode(SInt(id, si))
    {
      hide BE;
      WriteID(id);
      var n := SIntSize(si);
      DropLeading(si, 8, 8 - n);
      WriteSize(n);
      Append(BE(si, 8)[8 - n..]);
    }

    // The children that mk_writeHeader gives each of its contexts.
    method FillEbml()
      requires data == []
      modifies this`data
      ensures data == EncodeAll(EbmlChildren())
    {
      hide Encode, EncodeAll, UInt, Pow256;
      EncodeNone();
      SmallFits(8);
      ghost var es := EbmlChildren();
      WriteUInt(0x4286, 1);
      Extend(es, 0);
      WriteUInt(0x42f7, 1);
      Extend(es, 1);
      WriteUInt(0x42f2, 4);
      Extend(es, 2);
      WriteUInt(0x42f3, 8);
      Extend(es, 3);
      WriteBin(0x4282, DOCTYPE);
      Extend(es, 4);
      WriteUInt(0x4287, 1);
      Extend(es, 5);
      WriteUInt(0x4285, 1);
      Extend(es, 6);
    }

    // Up to the four bytes of the duration.
    method FillInfo(h: Header)
      requires data == [] && HeaderOk(h)
      modifies this`data
      ensures data == EncodeAll(InfoChildren(h, [0, 0, 0, 0]))
    {
      hide Encode, EncodeAll, UInt, Pow256;
      EncodeNone();
      ghost var es := InfoChildren(h, [0, 0, 0, 0]);
      WriteBin(0x4d80, MUXER);
      Extend(es, 0);
      WriteBin(0x5741, h.app);
      Extend(es, 1);
      WriteUInt(0x2ad7b1, h.timescale);
      Extend(es, 2);
      WriteBin(0x4489, [0, 0, 0, 0]);
      Extend(es, 3);
    }

    method FillVideo(h: Header)
      requires data == [] && HeaderOk(h)
      modifies this`data
      ensures data == EncodeAll(VideoChildren(h))
    {
      hide Encode, EncodeAll, UInt, Pow256;
      EncodeNone();
      ghost var es := VideoChildren(h);
      WriteUInt(0xb0, h.width);
      Extend(es, 0);
      WriteUInt(0xba, h.height);
      Extend(es, 1);
      WriteUInt(0x54b0, h.displayWidth);
      Extend(es, 2);
      WriteUInt(0x54ba, h.displayHeight);
      Extend(es, 3);
    }

    // The track entry, up to the Video element that follows.
    method FillTrack(h: Header)
      requires data == [] && HeaderOk(h)
      modifies this`data
      ensures data == EncodeAll(TrackChildren(h)[..|TrackChildren(h)| - 1])
    {
      hide Encode, EncodeAll, UInt, Pow256, VideoChildren;
      EncodeNone();
      SmallFits(1);
      ghost var es, n := TrackChildren(h), 5;
      WriteUInt(0xd7, 1);
      Extend(es, 0);
      WriteUInt(0x73c5, 1);
      Extend(es, 1);
      WriteUInt(0x83, 1);
      Extend(es, 2);
      WriteUInt(0x9c, 0);
      Extend(es, 3);
      WriteBin(0x86, h.codec);
      Extend(es, 4);
      if h.codecPrivate != [] {
        WriteBin(0x63a2, h.codecPrivate);
        Extend(es, n);
        n := n + 1;
      }
      if h.frameDuration != 0 {
        WriteUInt(0x23e383, h.frameDuration);
        Extend(es, n);
      }
    }
  }

  lemma SmallFits(v: nat)
    requires v < 256
    ensures v < Pow256(8)
  {
  }

  lemma Extend(es: seq<Element>, k: nat)
    requires k < |es|
    ensures EncodeAll(es[..k + 1]) == EncodeAll(es[..k]) + Encode(es[k])
    ensures es[..0] == [] && es[..|es|] == es
  {
    assert es[..k + 1] == es[..k] + [es[k]];
    EncodeSnoc(es[..k], es[k]);
  }

  /* ---------- what a flushed frame adds ---------- */

  const CLSIZE := 1048576

  // Times are int64_t.
  const TIMELIMIT: nat := 0x8000000000000000

  lemma LimitIs()
    ensures TIMELIMIT == 128 * Pow256(7) && Pow256(8) == 2 * TIMELIMIT
  {
  }

  lemma ScaledDown(tc: nat, timescale: nat)
    requires timescale > 0
    ensures 0 <= tc / timescale <= tc
  {
    var q := tc / timescale;
    if q > 0 { MulMonotone(q, 1, timescale); }
  }

  // Integer division of a time by the time scale.
  function Scaled(tc: nat, timescale: nat): (r: nat)
    requires timescale > 0
    ensures r <= tc
  {
    ScaledDown(tc, timescale);
    tc / timescale
  }

  function Blocks(c: Cluster, b: Block): Cluster {
    c.(blocks := c.blocks + [b])
  }

  // bgsize, as mk_flushFrame computes it from the length of the data and the reference.
  function GroupSize(fsize: nat, ref: Option<int>): nat {
    fsize + 4 + SizeSize(fsize + 4) + 1 + if ref.Some? then 1 + 1 + SIntLen(ref.value) else 0
  }

  // The declared size of the block group is the size of its children.
  lemma GroupSizeIsRight(b: Block)
    requires BlockOk(b)
    ensures GroupSize(|b.data|, b.ref) == |EncodeAll(BlockChildren(b))| < 0x100000000
    ensures EncodeAll(BlockChildren(b)) ==
      EncodeId(0xa1) + EncodeSize(|b.data| + 4) + BlockBody(b) + if b.ref.Some? then Encode(SInt(0xfb, b.ref.value)) else []
  {
    hide EncodeAll, SIntLen, EncodeSize, BE, BlockBody;
    var block := Element(0xa1, BlockBody(b));
    EncodeOne(block);
    assert |EncodeId(0xa1)| == 1 && |EncodeId(0xfb)| == 1 by { FourBytes(0xa1); FourBytes(0xfb); }
    if b.ref.Some? {
      var ref := SInt(0xfb, b.ref.value);
      SIntWritable(0xfb, b.ref.value);
      assert SizeSize(SIntLen(b.ref.value)) == 1;
      EncodeSnoc([block], ref);
      assert BlockChildren(b) == [block] + [ref];
    } else {
      assert BlockChildren(b) == [block];
    }
    BlockFits(b);
  }

  lemma OneMoreBlock(c: Cluster, b: Block)
    ensures EncodeAll(ClusterChildren(Blocks(c, b))) == EncodeAll(ClusterChildren(c)) + Encode(BlockElement(b))
    ensures ClusterFrames(Blocks(c, b)) == ClusterFrames(c) + [FrameOf(c.time, b)]
  {
    hide EncodeAll, Encode, BlockElement;
    assert ClusterChildren(Blocks(c, b)) == ClusterChildren(c) + [BlockElement(b)];
    EncodeSnoc(ClusterChildren(c), BlockElement(b));
  }

  lemma LastCluster(closed: seq<Cluster>, c: Cluster)
    ensures AllFrames(closed + [c]) == AllFrames(closed) + ClusterFrames(c)
  {
    assert (closed + [c])[..|closed|] == closed;
  }

  lemma OneMoreFrame(closed: seq<Cluster>, c: Cluster, b: Block)
    ensures AllFrames(closed + [Blocks(c, b)]) == AllFrames(closed + [c]) + [FrameOf(c.time, b)]
  {
    hide ClusterFrames, FrameOf, Blocks, AllFrames, ClusterChildren, EncodeAll, Encode, BlockElement;
    OneMoreBlock(c, b);
    LastCluster(closed, c);
    LastCluster(closed, Blocks(c, b));
  }

  lemma EmptyCluster(closed: seq<Cluster>, time: nat)
    ensures AllFrames(closed + [Cluster(time, [])]) == AllFrames(closed)
    ensures EncodeAll(ClusterChildren(Cluster(time, []))) == Encode(UInt(0xe7, time))
  {
    hide Encode;
    var c := Cluster(time, []);
    assert (closed + [c])[..|closed|] == closed;
    assert ClusterChildren(c) == [UInt(0xe7, time)];
    EncodeOne(UInt(0xe7, time));
  }

  lemma OneMoreCluster(closed: seq<Cluster>, c: Cluster)
    ensures EncodeAll(ClusterElements(closed + [c])) == EncodeAll(ClusterElements(closed)) + Encode(ClusterElement(c))
  {
    hide Encode, EncodeAll, ClusterElement;
    assert ClusterElements(closed + [c]) == ClusterElements(closed) + [ClusterElement(c)];
    EncodeSnoc(ClusterElements(closed), ClusterElement(c));
  }

  // The file: the clusters that came before the header, the header, and the others.
  ghost function Layout(head: seq<Byte>, closed: seq<Cluster>, before: nat): seq<Byte>
    requires before <= |closed|
  {
    EncodeAll(ClusterElements(closed[..before])) + head + EncodeAll(ClusterElements(closed[before..]))
  }

  lemma LayoutOneMore(head: seq<Byte>, closed: seq<Cluster>, before: nat, c: Cluster)
    requires before <= |closed|
    ensures Layout(head, closed + [c], before) == Layout(head, closed, before) + Encode(ClusterElement(c))
  {
    hide Encode, EncodeAll, ClusterElement, ClusterElements;
    OneMoreCluster(closed[before..], c);
    assert (closed + [c])[..before] == closed[..before] && (closed + [c])[before..] == closed[before..] + [c];
  }

  lemma LayoutPlain(head: seq<Byte>, closed: seq<Cluster>)
    ensures Layout(head, closed, 0) == head + EncodeAll(ClusterElements(closed))
    ensures Layout([], closed, 0) + head == Layout(head, closed, |closed|)
  {
    hide EncodeAll, ClusterElements;
    NoClusters();
    assert closed[..0] == [] && closed[|closed|..] == [] && closed[0..] == closed && closed[..|closed|] == closed;
  }

  lemma NoClusters()
    ensures EncodeAll(ClusterElements([])) == []
  {
    assert ClusterElements([]) == [];
  }

  lemma FirstCluster(closed: seq<Cluster>) returns (rest: seq<Byte>)
    requires closed != []
    ensures EncodeAll(ClusterElements(closed)) == EncodeId(0x1f43b675) + rest
  {
    hide EncodeAll, EncodeId, EncodeSize;
    var e := ClusterElement(closed[0]);
    assert ClusterElements(closed) == [e] + ClusterElements(closed[1..]);
    EncodeJoin([e], ClusterElements(closed[1..]));
    EncodeOne(e);
    rest := EncodeSize(|e.body|) + e.body + EncodeAll(ClusterElements(closed[1..]));
  }

  lemma ClusterIsNoHead(rest: seq<Byte>)
    ensures Decode(EncodeId(0x1f43b675) + rest) == None
  {
    hide ParseId, ParseSize, EncodeId, Find, Children, DecodeSegment;
    IdReadBack(0x1f43b675, rest);
  }

  lemma LongId(id: nat)
    requires 0x1000000 <= id < 0x100000000
    ensures |EncodeId(id)| == 4
  {
    hide BE;
    FourBytes(id);
  }

  lemma DurationPtrFar(h: Header)
    ensures DurationPtr(h) >= 4
  {
    hide InfoSize, Encode, SegmentStart, EncodeSize;
    InfoEndsWithDuration(h, [0, 0, 0, 0]);
    LongId(0x1549a966);
  }

  // With a cluster in front of the header, the duration lands elsewhere and the file does not begin as a document.
  lemma LateHeaderIsLost(h: Header, closed: seq<Cluster>, before: nat, bits: seq<Byte>)
    requires 0 < before <= |closed| && |bits| == 4
    ensures var p, s := DurationPtr(h), Layout(HeaderBytes(h, [0, 0, 0, 0]), closed, before);
      0 <= p && p + 4 <= |s| && Decode(s[..p] + bits + s[p + 4..]) == None
  {
    hide HeaderBytes, ClusterElements, EncodeAll, EncodeId, DurationPtr, Decode;
    var p, s := DurationPtr(h), Layout(HeaderBytes(h, [0, 0, 0, 0]), closed, before);
    DurationIsThere(h, bits, []);
    DurationPtrFar(h);
    var rest := FirstCluster(closed[..before]);
    var id := EncodeId(0x1f43b675);
    LongId(0x1f43b675);
    assert HeaderBytes(h, [0, 0, 0, 0]) + [] == HeaderBytes(h, [0, 0, 0, 0]);
    assert s == id + (rest + HeaderBytes(h, [0, 0, 0, 0]) + EncodeAll(ClusterElements(closed[before..])));
    ClusterIsNoHead(s[4..p] + bits + s[p + 4..]);
    assert s[..p] == id + s[4..p];
    assert s[..p] + bits + s[p + 4..] == id + (s[4..p] + bits + s[p + 4..]);
  }

  /* ---------- what is being recorded ---------- */

  datatype Call = Start | Flags(time: nat, keyframe: bool) | Data(bytes: seq<Byte>)

  // The frames finished so far, and the one being put together if inFrame.
  datatype Tape = Tape(frames: seq<Frame>, inFrame: bool, time: nat, keyframe: bool, data: seq<Byte>, latest: nat)

  // A frame that is no key frame refers to the time of the frame before it.
  function Finish(t: Tape, timescale: nat): Tape
    requires timescale > 0
  {
    if !t.inFrame then t
    else
      var before := if t.frames == [] then 0 else t.frames[|t.frames| - 1].time;
      t.(frames := t.frames + [Frame(Scaled(t.time, timescale), if t.keyframe then None else Some(before), t.data)],
         inFrame := false, data := [])
  }

  function Play(t: Tape, c: Call, timescale: nat): Tape
    requires timescale > 0
  {
    match c
    case Start => Finish(t, timescale).(inFrame := true, keyframe := false)
    case Flags(time, keyframe) =>
      if t.inFrame then t.(time := time, keyframe := keyframe, latest := if t.latest < time then time else t.latest) else t
    case Data(bytes) => if t.inFrame then t.(data := t.data + bytes) else t
  }

  /* ---------- the writer ---------- */

  // What stands in the header until the writer is closed.
  const NODURATION: seq<Byte> := [0, 0, 0, 0]

  class Writer {
    var file: seq<Byte>
    var pos: nat
    var durationPtr: nat
    var root: Context
    var cluster: Context?
    var frame: Context?
    var freelist: seq<Context>
    var defDuration: nat
    var timescale: nat
    var clusterTc: nat
    var frameTc: nat
    var prevTc: nat
    var maxTc: nat
    var wroteHeader: bool
    var inFrame: bool
    var keyframe: bool
    ghost var header: Header
    ghost var closed: seq<Cluster>
    ghost var before: nat  // how many of them were in the file when the header came
    ghost var open: Cluster

    // Contexts that wait to be used again are empty and different.
    ghost predicate FreeOk()
      reads this, freelist
    {
      && (forall c :: c in Spare() ==> c.data == [])
      && (forall i, j :: 0 <= i < j < |freelist| ==> freelist[i] != freelist[j])
    }

    ghost function Spare(): set<Context>
      reads this
    {
      set x | x in freelist
    }

    static ghost function Only(c: Context?): set<Context> {
      if c == null then {} else var it: Context := c; {it}
    }

    // All contexts of the writer.
    ghost function Footprint(): set<Context>
      reads this
    {
      Spare() + {root} + Only(cluster) + Only(frame)
    }

    ghost predicate Apart()
      reads this
    {
      && root !in Spare() && root != cluster && root != frame
      && (cluster != null ==> cluster !in Spare() && cluster != frame)
      && (frame != null ==> frame !in Spare())
    }

    ghost function Head(): seq<Byte>
      reads this
    {
      if wroteHeader then HeaderBytes(header, [0, 0, 0, 0]) else []
    }

    ghost function Clusters(): seq<Cluster>
      reads this
    {
      if cluster == null then closed else closed + [open]
    }

    ghost function Frames(): seq<Frame>
      reads this
    {
      AllFrames(Clusters())
    }

    // The frame that is being put together.
    ghost function Pending(): Frame
      requires timescale > 0
      reads this, frame
    {
      Frame(Scaled(frameTc, timescale), if keyframe then None else Some(prevTc), if frame == null then [] else frame.data)
    }

    ghost predicate OpenOk()
      reads this, cluster
    {
      cluster != null ==>
        && cluster.parent == root && cluster.id == 0x1f43b675 && cluster.data == EncodeAll(ClusterChildren(open))
        && ClusterOk(open) && open.time == clusterTc
    }

    ghost predicate FileOk()
      reads this
    {
      && before <= |closed| && (!wroteHeader ==> before == 0)
      && file == Layout(Head(), closed, before) && pos == |file|
      && (forall i :: 0 <= i < |closed| ==> ClusterOk(closed[i]))
      && (wroteHeader ==> HeaderOk(header) && durationPtr == DurationPtr(header))
    }

    ghost predicate TimesOk()
      reads this, frame
    {
      && timescale >= 1 && frameTc < TIMELIMIT && prevTc < TIMELIMIT && clusterTc < TIMELIMIT
      && prevTc == (if Frames() == [] then 0 else Frames()[|Frames()| - 1].time)
      && (frame != null ==> |frame.data| < DATALIMIT)
      && (!inFrame && frame != null ==> frame.data == [])
    }

    // Everything that holds inside a call too.
    ghost predicate Core()
      reads this, root, cluster, frame, freelist
    {
      FreeOk() && Apart() && root.data == [] && root.id == 0 && root.parent == null && OpenOk() && FileOk() && TimesOk()
    }

    ghost predicate Valid()
      reads this, root, cluster, frame, freelist
    {
      Core() && (cluster != null ==> |cluster.data| <= CLSIZE)
    }

    // mk_createWriter
    constructor ()
      ensures Valid() && !wroteHeader && !inFrame && closed == [] && cluster == null && file == [] && before == 0
      ensures Recorded() == BLANK && fresh(Footprint()) && timescale == 1000000
    {
      root := new Context();
      file, pos, durationPtr, cluster, frame, freelist := [], 0, 0, null, null, [];
      defDuration, timescale, clusterTc, frameTc, prevTc, maxTc := 0, 1000000, 0, 0, 0, 0;
      wroteHeader, inFrame, keyframe, closed, before := false, false, false, [], 0;
      new;
      LayoutPlain([], []);
    }

    method CreateContext(parent: Context?, id: nat) returns (c: Context)
      requires FreeOk()
      modifies this`freelist, Spare()
      ensures FreeOk() && c !in Spare() && c.data == [] && c.id == id && c.parent == parent
      ensures c in old(Spare()) || fresh(c)
      ensures Spare() <= old(Spare())
    {
      if freelist != [] {
        assert freelist[0] in Spare();
        c := freelist[0];
        freelist := freelist[1..];
      } else {
        c := new Context();
      }
      c.parent, c.id := parent, id;
    }

    // fwrite at the current position.
    method Put(bytes: seq<Byte>)
      requires pos <= |file|
      modifies this`file, this`pos
      ensures pos == old(pos) + |bytes| <= |file|
      ensures file == old(file)[..old(pos)] + bytes + if pos <= old(|file|) then old(file)[pos..] else []
      ensures old(pos) == |old(file)| ==> file == old(file) + bytes
    {
      file := file[..pos] + bytes + if pos + |bytes| <= |file| then file[pos + |bytes|..] else [];
      pos := pos + |bytes|;
    }

    // mk_flushContextData on the root: into the file.
    method FlushRoot()
      requires pos <= |file|
      modifies this`file, this`pos, root`data
      ensures root.data == [] && pos == old(pos) + |old(root.data)| <= |file|
      ensures file == old(file)[..old(pos)] + old(root.data) + if pos <= old(|file|) then old(file)[pos..] else []
      ensures old(pos) == |old(file)| ==> file == old(file) + old(root.data)
    {
      Put(root.data);
      root.data := [];
    }

    // mk_closeContext; at is where the data starts in the parent.
    method CloseContext(c: Context) returns (at: nat)
      requires FreeOk() && c !in Spare() && c.parent != null && c.parent != c && c.parent !in Spare()
      requires |c.data| < 0x100000000
      modifies this`freelist, c, c.parent`data
      ensures Spare() == old(Spare()) + {c}
      ensures FreeOk() && freelist == [c] + old(freelist) && c.data == []
      ensures old(c.parent).data == old(c.parent.data) + if old(c.id) != 0 then Encode(Element(old(c.id), old(c.data))) else old(c.data)
      ensures at + |old(c.data)| == |old(c.parent).data|
    {
      hide EncodeId, EncodeSize;
      if c.id != 0 {
        c.parent.WriteID(c.id);
        c.parent.WriteSize(|c.data|);
      }
      at := |c.parent.data|;
      c.parent.Append(c.data);
      assert old(c.id) != 0 ==>
        c.parent.data == old(c.parent.data) + (EncodeId(old(c.id)) + EncodeSize(|old(c.data)|) + old(c.data));
      c.data := [];
      freelist := [c] + freelist;
    }

    method TakeCluster()
      requires FreeOk() && Apart() && root.data == [] && OpenOk() && cluster != null
      modifies this`cluster, this`freelist, cluster, root`data
      ensures FreeOk() && Apart() && cluster == null && root.data == Encode(ClusterElement(open))
      ensures Spare() == old(Spare()) + {old(cluster)}
    {
      hide ClusterOk, ClusterElement, ClusterChildren, EncodeAll, Encode;
      BodyFits(open);
      var at := CloseContext(cluster);
      cluster := null;
    }

    method CloseCluster()
      requires Core()
      modifies this`cluster, this`freelist, this`closed, this`file, this`pos, cluster, root`data
      ensures Valid() && cluster == null
      ensures closed == old(Clusters()) && Frames() == old(Frames())
      ensures Spare() == if old(cluster) == null then old(Spare()) else old(Spare()) + {old(cluster)}
    {
      hide Layout, ClusterOk, HeaderBytes, ClusterElement, ClusterElements, AllFrames, EncodeAll, Encode, DurationPtr, HeaderOk;
      if cluster == null { return; }
      TakeCluster();
      FileCluster();
    }

    // The closed cluster, in the root's buffer, goes to the file.
    method FileCluster()
      requires FreeOk() && Apart() && cluster == null && root.id == 0 && root.parent == null
      requires root.data == Encode(ClusterElement(open)) && FileOk() && ClusterOk(open)
      modifies this`closed, this`file, this`pos, root`data
      ensures FreeOk() && FileOk() && root.data == [] && closed == old(closed) + [open]
    {
      hide Layout, ClusterOk, HeaderBytes, ClusterElement, ClusterElements, EncodeAll, Encode, DurationPtr, HeaderOk;
      LayoutOneMore(Head(), closed, before, open);
      closed := closed + [open];
      FlushRoot();
    }

    method StartCluster(time: nat)
      requires FreeOk() && Apart() && cluster == null && time < Pow256(8)
      modifies this`cluster, this`freelist, Spare()
      ensures FreeOk() && Apart() && cluster != null && cluster.parent == root && cluster.id == 0x1f43b675
      ensures cluster.data == Encode(UInt(0xe7, time))
      ensures cluster in old(Spare()) || fresh(cluster)
      ensures Spare() <= old(Spare())
    {
      cluster := CreateContext(root, 0x1f43b675);
      cluster.WriteUInt(0xe7, time);
    }

    // The pending frame is too far from the open cluster for a 16-bit distance.
    ghost predicate Far()
      requires timescale > 0
      reads this
    {
      cluster != null && !(-32768 <= Scaled(frameTc, timescale) - clusterTc <= 32767)
    }

    // mk_flushFrame, when there is no open cluster.
    method OpenCluster()
      requires Core() && cluster == null
      modifies this`cluster, this`clusterTc, this`open, this`freelist, Spare()
      ensures Valid() && cluster != null && Frames() == old(Frames()) && clusterTc == Scaled(frameTc, timescale)
      ensures cluster in old(Spare()) || fresh(cluster)
      ensures Spare() <= old(Spare())
    {
      hide Layout, HeaderBytes, ClusterElements, AllFrames, EncodeAll, Encode, DurationPtr, HeaderOk, ClusterChildren, Scaled, Pow256;
      clusterTc := Scaled(frameTc, timescale);
      open := Cluster(clusterTc, []);
      EmptyCluster(closed, clusterTc);
      TimeFits(clusterTc);
      StartCluster(clusterTc);
    }

    // The block of the pending frame.
    ghost function NextBlock(delta: int): Block
      reads this, frame
    {
      Block(delta, if keyframe then None else Some(prevTc - clusterTc - delta), if frame == null then [] else frame.data)
    }

    // The block group of mk_flushFrame.
    method WriteBlock(delta: int)
      requires cluster != null && cluster != frame && BlockOk(NextBlock(delta))
      modifies cluster`data, frame
      ensures cluster.data == old(cluster.data) + Encode(BlockElement(old(NextBlock(delta))))
      ensures frame != null ==> frame.data == []
    {
      hide BE, EncodeAll, FitsSigned, EncodeSize, EncodeId, BlockChildren;
      ghost var b, was := NextBlock(delta), cluster.data;
      var ref, fsize := 0, if frame == null then 0 else |frame.data|;
      var bgsize := fsize + 4 + SizeSize(fsize + 4) + 1;
      if !keyframe {
        ref := prevTc - clusterTc - delta;
        var n := SIntSize(ref);
        bgsize := bgsize + 1 + 1 + n;
      }
      GroupSizeIsRight(b);
      cluster.WriteID(0xa0);
      cluster.WriteSize(bgsize);
      cluster.WriteID(0xa1);
      cluster.WriteSize(fsize + 4);
      WriteBody(delta);
      if !keyframe { cluster.WriteSInt(0xfb, ref); }
      GroupBytes(was, b);
      assert bgsize == GroupSize(|b.data|, b.ref);
    }

    // The Block's body: track number, time, flags and data.
    method WriteBody(delta: int)
      requires cluster != null && cluster != frame
      modifies cluster`data, frame
      ensures cluster.data == old(cluster.data) + BlockBody(old(NextBlock(delta)))
      ensures frame != null ==> frame.data == []
    {
      hide EncodeSize;
      TwoBytes(delta);
      cluster.WriteSize(1);
      cluster.Append([delta / 256 % 256, delta % 256, 0]);
      ghost var b := NextBlock(delta);
      assert [delta / 256 % 256, delta % 256, 0] == BE(delta, 2) + [0];
      assert cluster.data + b.data == old(cluster.data) + (EncodeSize(1) + BE(delta, 2) + [0] + b.data);
      if frame != null {
        cluster.Append(frame.data);
        frame.data := [];
      }
    }

    method PutFrame(delta: int)
      requires Core() && cluster != null && |cluster.data| <= CLSIZE && inFrame
      requires -32768 <= delta <= 32767 && clusterTc + delta == Scaled(frameTc, timescale)
      modifies cluster`data, frame, this`open, this`inFrame, this`prevTc
      ensures Core() && !inFrame && Frames() == old(Frames()) + [old(Pending())]
    {
      hide Layout, HeaderBytes, ClusterElements, AllFrames, EncodeAll, Encode, DurationPtr, HeaderOk, ClusterChildren, Scaled, Pow256,
        BlockOk, ClusterOk, BlockElement, Blocks, FitsSigned;
      ghost var b := NextBlock(delta);
      BlockIsOk(b);
      WriteBlock(delta);
      StaysOk(open, b);
      OneMoreBlock(open, b);
      OneMoreFrame(closed, open, b);
      open := Blocks(open, b);
      inFrame := false;
      prevTc := clusterTc + delta;
    }

    // A cluster that is near enough for a 16-bit distance; the distance.
    method NearCluster() returns (delta: int)
      requires Valid()
      modifies this`cluster, this`freelist, this`closed, this`file, this`pos, this`clusterTc, this`open
      modifies cluster, root`data, Spare()
      ensures Valid() && cluster != null && Frames() == old(Frames()) && (forall x :: x in Footprint() ==> x in old(Footprint()) || fresh(x))
      ensures cluster == old(cluster) || cluster in old(Spare()) || fresh(cluster)
      ensures -32768 <= delta <= 32767 && clusterTc + delta == Scaled(frameTc, timescale)
      ensures closed == (if old(Far()) then old(closed) + [old(open)] else old(closed))
      ensures old(cluster) == null ==> clusterTc == Scaled(frameTc, timescale)
    {
      hide Layout, HeaderBytes, ClusterElements, AllFrames, EncodeAll, Encode, DurationPtr, HeaderOk, ClusterChildren, Scaled, Pow256, ClusterOk;
      delta := Scaled(frameTc, timescale) - clusterTc;
      if delta > 32767 || delta < -32768 { CloseCluster(); }
      if cluster == null {
        OpenCluster();
        delta := 0;
      }
    }

    method FlushFrame()
      requires Valid()
      modifies this`cluster, this`freelist, this`closed, this`file, this`pos, this`clusterTc, this`open, this`inFrame, this`prevTc
      modifies cluster, root`data, frame, Spare()
      ensures Valid() && !inFrame && (forall x :: x in Footprint() ==> x in old(Footprint()) || fresh(x))
      ensures Frames() == if old(inFrame) then old(Frames()) + [old(Pending())] else old(Frames())
      ensures |closed| >= |old(closed)| + if old(inFrame && Far()) then 1 else 0
      ensures old(inFrame && cluster == null) ==> |closed| > |old(closed)| || (cluster != null && clusterTc == Scaled(frameTc, timescale))
      ensures !old(inFrame) ==> cluster == old(cluster)
    {
      hide Layout, HeaderBytes, ClusterElements, AllFrames, EncodeAll, Encode, DurationPtr, HeaderOk, ClusterChildren, Scaled, Pow256, ClusterOk,
        FileOk, OpenOk, TimesOk;
      if !inFrame { return; }
      TimesPositive();
      var delta := NearCluster();
      PutFrame(delta);
      if |cluster.data| > CLSIZE { CloseCluster(); }
    }

    lemma TimesPositive()
      requires Valid()
      ensures timescale >= 1
    {
    }

    /* ---------- the header ---------- */

    method HeadEbml()
      requires FreeOk() && Apart()
      modifies this`freelist, Spare(), root`data
      ensures FreeOk() && Apart() && root.data == old(root.data) + Encode(EbmlElement())
      ensures fresh(Spare() - old(Spare()))
    {
      hide Encode, EncodeAll, EbmlChildren;
      EbmlFits();
      var c := CreateContext(root, 0x1a45dfa3);
      c.FillEbml();
      var at := CloseContext(c);
    }

    // The segment's context is closed empty; only its ID and an unknown size go out.
    method HeadSegment()
      requires FreeOk() && Apart()
      modifies this`freelist, Spare(), root`data
      ensures FreeOk() && Apart() && root.data == old(root.data) + SegmentStart()
      ensures fresh(Spare() - old(Spare()))
    {
      hide EncodeId;
      var c := CreateContext(root, 0x18538067);
      // mk_flushContextID
      root.WriteID(c.id);
      root.Append([0xff]);
      c.id := 0;
      var at := CloseContext(c);
    }

    method HeadInfo(h: Header)
      requires FreeOk() && Apart() && HeaderOk(h)
      modifies this`freelist, this`durationPtr, Spare(), root`data
      ensures FreeOk() && Apart() && root.data == old(root.data) + Encode(InfoElement(h, [0, 0, 0, 0]))
      ensures fresh(Spare() - old(Spare()))
      ensures durationPtr + 4 == old(|root.data|) + |EncodeId(0x1549a966)| + |EncodeSize(InfoSize(h))| + InfoSize(h)
    {
      hide EncodeAll, EncodeId, EncodeSize, InfoChildren;
      InfoFits(h, [0, 0, 0, 0]);
      InfoEndsWithDuration(h, [0, 0, 0, 0]);
      var c := CreateContext(root, 0x1549a966);
      c.FillInfo(h);
      durationPtr := |c.data| - 4;
      var at := CloseContext(c);
      durationPtr := durationPtr + at;
    }

    method HeadTracks(h: Header)
      requires FreeOk() && Apart() && HeaderOk(h)
      modifies this`freelist, Spare(), root`data
      ensures FreeOk() && Apart() && root.data == old(root.data) + Encode(TracksElement(h))
      ensures fresh(Spare() - old(Spare()))
    {
      hide Encode, EncodeAll, EncodeId, EncodeSize, TrackChildren;
      TrackFits(h);
      var c := CreateContext(root, 0x1654ae6b);
      FillTracks(h, c);
      var at := CloseContext(c);
    }

    method FillTracks(h: Header, c: Context)
      requires FreeOk() && c !in Spare() && c.data == [] && HeaderOk(h)
      modifies this`freelist, Spare(), c`data
      ensures FreeOk() && c !in Spare() && c.data == EncodeAll([Element(0xae, EncodeAll(TrackChildren(h)))])
      ensures fresh(Spare() - old(Spare()))
    {
      hide Encode, EncodeAll, EncodeId, EncodeSize, TrackChildren;
      TrackFits(h);
      var ti := CreateContext(c, 0xae);
      HeadEntry(h, ti);
      EncodeOne(Element(0xae, EncodeAll(TrackChildren(h))));
      var at := CloseContext(ti);
    }

    // The track entry with the Video element in it.
    method HeadEntry(h: Header, ti: Context)
      requires FreeOk() && ti !in Spare() && ti.data == [] && HeaderOk(h)
      modifies this`freelist, Spare(), ti`data
      ensures FreeOk() && ti.data == EncodeAll(TrackChildren(h))
      ensures fresh(Spare() - old(Spare()))
    {
      hide Encode, EncodeAll, EncodeId, EncodeSize, VideoChildren;
      VideoFits(h);
      ti.FillTrack(h);
      var v := CreateContext(ti, 0xe0);
      v.FillVideo(h);
      var at := CloseContext(v);
      Extend(TrackChildren(h), |TrackChildren(h)| - 1);
    }

    // mk_writeHeader
    method WriteHeader(h: Header) returns (ok: bool)
      requires Valid() && HeaderOk(h) && h.timescale >= 1
      modifies this`freelist, this`durationPtr, this`timescale, this`defDuration, this`wroteHeader, this`header, this`before, this`file, this`pos
      modifies Spare(), root`data
      ensures Valid() && ok == !old(wroteHeader) && wroteHeader && Recorded() == old(Recorded())
      ensures forall x :: x in Footprint() ==> x in old(Footprint()) || fresh(x)
      ensures ok ==> header == h && timescale == h.timescale && defDuration == h.frameDuration
      ensures ok ==> file == old(file) + HeaderBytes(h, NODURATION) && before == |closed|
      ensures !ok ==> file == old(file) && header == old(header) && timescale == old(timescale) && before == old(before)
    {
      hide Layout, HeaderOk, AllFrames, ClusterElements, EncodeAll, ClusterOk, ClusterChildren, HeaderBytes, DurationPtr, Scaled, Pow256;
      if wroteHeader { return false; }
      timescale := h.timescale;
      defDuration := h.frameDuration;
      FirstHeader(h);
      ok := true;
    }

    method FirstHeader(h: Header)
      requires FreeOk() && Apart() && root.data == [] && HeaderOk(h) && FileOk() && !wroteHeader
      modifies this`freelist, this`durationPtr, this`wroteHeader, this`header, this`before, this`file, this`pos, Spare(), root`data
      ensures FreeOk() && Apart() && root.data == [] && FileOk() && wroteHeader && header == h && before == |closed|
      ensures file == old(file) + HeaderBytes(h, NODURATION)
      ensures fresh(Spare() - old(Spare()))
    {
      hide Layout, EncodeAll, HeaderBytes, HeaderOk, ClusterOk, DurationPtr;
      LayoutPlain(HeaderBytes(h, [0, 0, 0, 0]), closed);
      HeadBytes(h);
      FlushRoot();
      before := |closed|;
      wroteHeader := true;
      header := h;
    }

    method HeadBytes(h: Header)
      requires FreeOk() && Apart() && HeaderOk(h) && root.data == []
      modifies this`freelist, this`durationPtr, Spare(), root`data
      ensures FreeOk() && Apart() && root.data == HeaderBytes(h, [0, 0, 0, 0])
      ensures durationPtr == DurationPtr(h) && fresh(Spare() - old(Spare()))
    {
      hide Encode, EncodeAll, EbmlElement, SegmentStart, InfoElement, TracksElement, HeaderOk, EncodeId, EncodeSize, InfoSize;
      HeadEbml();
      HeadSegment();
      HeadInfo(h);
      HeadTracks(h);
    }

    /* ---------- recording ---------- */

    // The calls so far, as a user of the writer sees them.
    ghost function Recorded(): Tape
      reads this, frame
    {
      Tape(Frames(), inFrame, frameTc, keyframe, if frame == null then [] else frame.data, maxTc)
    }

    lemma Owns()
      ensures root in Footprint() && Spare() <= Footprint()
      ensures (cluster != null ==> cluster in Footprint()) && (frame != null ==> frame in Footprint())
    {
    }

    lemma FarIs()
      requires timescale > 0
      ensures Far() <==> cluster != null && !(-32768 <= Scaled(frameTc, timescale) - clusterTc <= 32767)
    {
    }

    lemma RecordedIs()
      ensures Recorded().inFrame == inFrame && Recorded().time == frameTc
      ensures forall t: Tape, ts: nat :: ts > 0 ==> Play(t, Start, ts).inFrame
      ensures forall t: Tape, ts: nat, time: nat :: ts > 0 && t.inFrame ==>
        Play(t, Flags(time, true), ts).inFrame && Play(t, Flags(time, true), ts).time == time
    {
    }

    lemma LatestIsMax()
      ensures Recorded().latest == maxTc
    {
    }

    method StartFrame()
      requires Valid()
      modifies this`cluster, this`freelist, this`closed, this`file, this`pos, this`clusterTc, this`open, this`inFrame, this`prevTc, this`keyframe
      modifies cluster, root`data, frame, Spare()
      ensures Valid() && Recorded() == Play(old(Recorded()), Start, timescale)
      ensures forall x :: x in Footprint() ==> x in old(Footprint()) || fresh(x)
      ensures |closed| >= |old(closed)| + if old(inFrame && Far()) then 1 else 0
      ensures old(inFrame && cluster == null) ==> |closed| > |old(closed)| || (cluster != null && clusterTc == Scaled(frameTc, timescale))
      ensures !old(inFrame) ==> cluster == old(cluster)
    {
      hide Layout, HeaderBytes, ClusterElements, AllFrames, EncodeAll, Encode, DurationPtr, HeaderOk, ClusterChildren, Scaled, Pow256, ClusterOk;
      FlushFrame();
      Begin();
    }

    method Begin()
      requires Valid() && !inFrame
      modifies this`inFrame, this`keyframe
      ensures Valid() && Footprint() == old(Footprint()) && Frames() == old(Frames()) && inFrame && !keyframe
    {
      hide Layout, HeaderBytes, ClusterElements, AllFrames, EncodeAll, DurationPtr, HeaderOk, ClusterChildren, ClusterOk;
      inFrame := true;
      keyframe := false;
    }

    method SetFlags(timestamp: nat, key: bool)
      requires Valid() && timestamp < TIMELIMIT
      modifies this`frameTc, this`keyframe, this`maxTc
      ensures Valid() && Footprint() == old(Footprint()) && Frames() == old(Frames())
      ensures frameTc == timestamp && keyframe == key && maxTc == if old(maxTc) < timestamp then timestamp else old(maxTc)
    {
      hide Layout, HeaderBytes, ClusterElements, AllFrames, EncodeAll, DurationPtr, HeaderOk, ClusterChildren, ClusterOk;
      frameTc := timestamp;
      keyframe := key;
      maxTc := if maxTc < timestamp then timestamp else maxTc;
    }

    method SetFrameFlags(timestamp: nat, key: bool) returns (ok: bool)
      requires Valid() && timestamp < TIMELIMIT
      modifies this`frameTc, this`keyframe, this`maxTc
      ensures Valid() && ok == inFrame && Recorded() == Play(old(Recorded()), Flags(timestamp, key), timescale)
      ensures Footprint() == old(Footprint())
    {
      hide FreeOk, Apart, OpenOk, FileOk, TimesOk, Frames, Footprint, Finish;
      if !inFrame { return false; }
      TimesPositive();
      SetFlags(timestamp, key);
      ok := true;
    }

    method AddFrameData(bytes: seq<Byte>) returns (ok: bool)
      requires Valid() && |Recorded().data| + |bytes| < DATALIMIT
      modifies this`frame, this`freelist, frame, Spare()
      ensures Valid() && ok == inFrame && Recorded() == Play(old(Recorded()), Data(bytes), timescale)
      ensures forall x :: x in Footprint() ==> x in old(Footprint()) || fresh(x)
    {
      hide Layout, HeaderBytes, ClusterElements, AllFrames, EncodeAll, Encode, DurationPtr, HeaderOk, ClusterChildren, Scaled, Pow256, ClusterOk;
      if !inFrame { return false; }
      if frame == null { frame := CreateContext(null, 0); }
      frame.Append(bytes);
      ok := true;
    }

    // mk_close.  bitsOf stands for the conversion of a duration to the four bytes of a float.
    method Close(bitsOf: real -> seq<Byte>) returns (ghost movie: Movie)
      requires Valid() && forall x :: |bitsOf(x)| == 4
      modifies this`cluster, this`freelist, this`closed, this`file, this`pos, this`clusterTc, this`open, this`inFrame, this`prevTc
      modifies cluster, root`data, frame, Spare()
      ensures AllFrames(movie.clusters) == Finish(old(Recorded()), timescale).frames
      ensures movie.header == header && movie.duration == bitsOf((maxTc + defDuration) as real / timescale as real)
      ensures wroteHeader && before == 0 ==> file == MovieBytes(movie)
      ensures wroteHeader ==> (Decode(file) == Some(movie) <==> before == 0)
      ensures wroteHeader && before > 0 ==> Decode(file) == None
      ensures !wroteHeader ==> file == EncodeAll(ClusterElements(movie.clusters))
    {
      hide Layout, HeaderBytes, ClusterElements, AllFrames, EncodeAll, Encode, DurationPtr, HeaderOk, ClusterChildren, Scaled, Pow256, ClusterOk, Decode;
      FlushFrame();
      Owns();
      CloseCluster();
      var bits := bitsOf((maxTc + defDuration) as real / timescale as real);
      movie := Movie(header, bits, closed);
      LayoutPlain([], closed);
      if wroteHeader { PatchDuration(bits, movie); }
    }

    // The place of the duration is counted from the start of the header but sought from the start of the file.
    method PatchDuration(bits: seq<Byte>, ghost movie: Movie)
      requires FileOk() && root.data == [] && wroteHeader && movie == Movie(header, bits, closed) && |bits| == 4
      modifies this`file, this`pos, root`data
      ensures before == 0 ==> file == MovieBytes(movie) && Decode(file) == Some(movie)
      ensures before > 0 ==> Decode(file) == None
    {
      hide Layout, HeaderBytes, ClusterElements, EncodeAll, Encode, DurationPtr, HeaderOk, ClusterChildren, ClusterOk, Decode;
      DurationIsThere(header, bits, EncodeAll(ClusterElements(closed)));
      LayoutPlain(Head(), closed);
      MovieReadBack(movie);
      if before > 0 { LateHeaderIsLost(header, closed, before, bits); }
      ghost var s, p := file, durationPtr;
      pos := durationPtr;
      root.Append(bits);
      FlushRoot();
      assert file == s[..p] + bits + s[p + 4..];
    }
  }

  lemma BlockIsOk(b: Block)
    requires -32768 <= b.delta <= 32767 && |b.data| < DATALIMIT
    requires b.ref.Some? ==> -(TIMELIMIT as int) <= b.ref.value < TIMELIMIT
    ensures BlockOk(b)
  {
    LimitIs();
    assert Pow256(1) == 256;
  }

  lemma StaysOk(c: Cluster, b: Block)
    requires ClusterOk(c) && BlockOk(b) && |EncodeAll(ClusterChildren(c))| <= CLSIZE
    ensures ClusterOk(Blocks(c, b)) && Blocks(c, b).time == c.time
  {
    hide EncodeAll, ClusterChildren, BlockOk, BlockElement;
    OneMoreBlock(c, b);
    BlockFits(b);
    BlockSmall(b);
  }

  lemma BlockSmall(b: Block)
    requires BlockOk(b)
    ensures |b.data| < DATALIMIT
  {
  }

  lemma GroupBytes(s: seq<Byte>, b: Block)
    requires BlockOk(b)
    ensures s + EncodeId(0xa0) + EncodeSize(GroupSize(|b.data|, b.ref)) + EncodeId(0xa1) + EncodeSize(|b.data| + 4) + BlockBody(b)
      + (if b.ref.Some? then Encode(SInt(0xfb, b.ref.value)) else []) == s + Encode(BlockElement(b))
  {
    hide BE, EncodeAll, FitsSigned, EncodeSize, EncodeId, BlockChildren, BlockBody, SInt, GroupSize;
    GroupSizeIsRight(b);
  }

  lemma BodyFits(c: Cluster)
    requires ClusterOk(c)
    ensures |EncodeAll(ClusterChildren(c))| < 0x100000000
    ensures Encode(ClusterElement(c)) == Encode(Element(0x1f43b675, EncodeAll(ClusterChildren(c))))
  {
  }

  lemma TimeFits(time: nat)
    requires time < TIMELIMIT
    ensures time < Pow256(8) && |Encode(UInt(0xe7, time))| <= 17
  {
    LimitIs();
    UIntWritable(0xe7, time);
    EncodedLength(UInt(0xe7, time));
  }

  /* ---------- whole runs ---------- */

  const BLANK := Tape([], false, 0, false, [], 0)

  function PlayAll(calls: seq<Call>, timescale: nat): (t: Tape)
    requires timescale > 0
  {
    if calls == [] then BLANK else Play(PlayAll(calls[..|calls| - 1], timescale), calls[|calls| - 1], timescale)
  }

  // Times are int64_t and the data of one frame fits its size field.
  predicate Legal(calls: seq<Call>, timescale: nat)
    requires timescale > 0
  {
    forall k :: 0 <= k < |calls| ==> LegalAt(calls, k, timescale)
  }

  predicate LegalAt(calls: seq<Call>, k: nat, timescale: nat)
    requires timescale > 0 && k < |calls|
  {
    match calls[k]
    case Start => true
    case Flags(time, _) => time < TIMELIMIT
    case Data(bytes) => |PlayAll(calls[..k], timescale).data| + |bytes| < DATALIMIT
  }

  // Header, any sequence of calls, close: the file decodes to exactly what was recorded.
  method Record(h: Header, calls: seq<Call>, bitsOf: real -> seq<Byte>) returns (file: seq<Byte>)
    requires HeaderOk(h) && h.timescale >= 1 && Legal(calls, h.timescale) && forall x :: |bitsOf(x)| == 4
    ensures var m, t := Decode(file), PlayAll(calls, h.timescale);
      && m.Some? && m.value.header == h && AllFrames(m.value.clusters) == Finish(t, h.timescale).frames
      && m.value.duration == bitsOf((t.latest + h.frameDuration) as real / h.timescale as real)
  {
    hide *;
    var w := new Writer();
    PlayNone(calls, h.timescale);
    w.Owns();
    var ok := w.WriteHeader(h);
    var k := 0;
    while k < |calls|
      invariant 0 <= k <= |calls|
      invariant fresh(w) && (forall x :: x in w.Footprint() ==> fresh(x)) && w.Valid()
      invariant w.wroteHeader && w.before == 0 && w.header == h && w.timescale == h.timescale && w.defDuration == h.frameDuration
      invariant w.Recorded() == PlayAll(calls[..k], h.timescale)
    {
      LegalNext(calls, k, h.timescale);
      Step(w, calls, k, h.timescale);
      k := k + 1;
    }
    assert calls[..k] == calls;
    w.LatestIsMax();
    w.Owns();
    ghost var movie := w.Close(bitsOf);
    file := w.file;
  }

  // A header that comes late.  From the public calls alone: two frames that lie too far apart for one
  // cluster bring the first cluster into the file, and then nothing can be decoded from it any more.
  method RecordLate(h: Header, t1: nat, t2: nat, bitsOf: real -> seq<Byte>) returns (file: seq<Byte>)
    requires HeaderOk(h) && h.timescale >= 1 && t1 < TIMELIMIT && t2 < TIMELIMIT && forall x :: |bitsOf(x)| == 4
    requires !(-32768 <= Scaled(t2, 1000000) - Scaled(t1, 1000000) <= 32767)
    ensures Decode(file) == None
  {
    hide *;
    var w := new Writer();
    w.Owns();
    FrameAt(w, t1);
    FrameAt(w, t2);
    w.Owns();
    w.FarIs();
    w.StartFrame();
    w.Owns();
    var ok := w.WriteHeader(h);
    w.Owns();
    ghost var movie := w.Close(bitsOf);
    file := w.file;
  }

  // A key frame without data.
  method FrameAt(w: Writer, time: nat)
    requires w.Valid() && time < TIMELIMIT
    modifies w, w.Footprint()
    ensures w.Valid() && w.inFrame && w.frameTc == time && w.timescale == old(w.timescale) && w.wroteHeader == old(w.wroteHeader)
    ensures forall x :: x in w.Footprint() ==> x in old(w.Footprint()) || fresh(x)
    ensures w.timescale > 0
    ensures |w.closed| >= |old(w.closed)|
    ensures old(w.inFrame && w.cluster == null && w.timescale > 0) ==>
      |w.closed| > |old(w.closed)| || (w.cluster != null && w.clusterTc == Scaled(old(w.frameTc), w.timescale))
    ensures !old(w.inFrame) ==> w.cluster == old(w.cluster)
  {
    hide *;
    w.Owns();
    w.TimesPositive();
    w.StartFrame();
    w.RecordedIs();
    var ok := w.SetFrameFlags(time, true);
    w.RecordedIs();
  }

  lemma PlayNone(calls: seq<Call>, timescale: nat)
    requires timescale > 0
    ensures PlayAll(calls[..0], timescale) == BLANK
  {
  }

  lemma LegalMeans(calls: seq<Call>, k: nat, timescale: nat)
    requires timescale > 0 && k < |calls| && LegalAt(calls, k, timescale)
    ensures calls[k].Flags? ==> calls[k].time < TIMELIMIT
    ensures calls[k].Data? ==> |PlayAll(calls[..k], timescale).data| + |calls[k].bytes| < DATALIMIT
  {
  }

  lemma LegalNext(calls: seq<Call>, k: nat, timescale: nat)
    requires timescale > 0 && Legal(calls, timescale) && k < |calls|
    ensures LegalAt(calls, k, timescale)
    ensures PlayAll(calls[..k + 1], timescale) == Play(PlayAll(calls[..k], timescale), calls[k], timescale)
  {
    hide LegalAt, Play;
    assert calls[..k + 1][..k] == calls[..k];
  }

  method Step(w: Writer, calls: seq<Call>, k: nat, ghost timescale: nat)
    requires k < |calls| && timescale > 0 && w.timescale == timescale && LegalAt(calls, k, timescale)
    requires w.Valid() && w.Recorded() == PlayAll(calls[..k], timescale)
    modifies w, w.Footprint()
    ensures w.Valid() && w.Recorded() == Play(PlayAll(calls[..k], timescale), calls[k], timescale)
    ensures w.wroteHeader == old(w.wroteHeader) && w.before == old(w.before) && w.header == old(w.header) && w.timescale == timescale && w.defDuration == old(w.defDuration)
    ensures forall x :: x in w.Footprint() ==> x in old(w.Footprint()) || fresh(x)
  {
    hide *;
    LegalMeans(calls, k, timescale);
    w.Owns();
    match calls[k]
    case Start => w.StartFrame();
    case Flags(time, keyframe) => var ok := w.SetFrameFlags(time, keyframe);
    case Data(bytes) => var ok := w.AddFrameData(bytes);
  }

  // Every frame that is no key frame refers to the frame before it.
  predicate RefersBack(frames: seq<Frame>, i: nat)
    requires i < |frames|
  {
    frames[i].refTime.None? || frames[i].refTime.value == (if i == 0 then 0 else frames[i - 1].time)
  }

  ghost predicate Chained(frames: seq<Frame>) {
    forall i :: 0 <= i < |frames| ==> RefersBack(frames, i)
  }

  lemma FinishChained(t: Tape, timescale: nat)
    requires timescale > 0
    ensures Chained(t.frames) ==> Chained(Finish(t, timescale).frames)
  {
    var n, after := |t.frames|, Finish(t, timescale).frames;
    if Chained(t.frames) {
      forall i | 0 <= i < |after| ensures RefersBack(after, i) {
        if i < n {
          assert RefersBack(t.frames, i);
          assert after[i] == t.frames[i] && (i > 0 ==> after[i - 1] == t.frames[i - 1]);
        } else {
          assert i == n && (n > 0 ==> after[n - 1] == t.frames[n - 1]);
        }
      }
    }
  }

  lemma {:induction false} AlwaysChained(calls: seq<Call>, timescale: nat)
    requires timescale > 0
    ensures Chained(PlayAll(calls, timescale).frames) && Chained(Finish(PlayAll(calls, timescale), timescale).frames)
  {
    if calls != [] { AlwaysChained(calls[..|calls| - 1], timescale); }
    FinishChained(PlayAll(calls, timescale), timescale);
  }
}
