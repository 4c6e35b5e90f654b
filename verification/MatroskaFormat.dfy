/**
  The Matroska files that x264's writer makes, as documents: a header, then clusters of
  blocks.  Encoding follows the element order of the writer; the decoder is written from
  RFC 8794 and RFC 9559 and reads nothing but the bytes.
 */
module MatroskaFormat {
  import opened Wrappers
  import opened Numbers
  import opened Ebml

  datatype Block = Block(delta: int, ref: Option<int>, data: seq<Byte>)

  datatype Cluster = Cluster(time: nat, blocks: seq<Block>)

  datatype Header = Header(
    app: seq<Byte>, codec: seq<Byte>, codecPrivate: seq<Byte>,
    frameDuration: nat, timescale: nat, width: nat, height: nat, displayWidth: nat, displayHeight: nat)

  datatype Movie = Movie(header: Header, duration: seq<Byte>, clusters: seq<Cluster>)

  // What a player shows: when, what it builds on (nothing for a key frame), and the coded picture.
  datatype Frame = Frame(time: int, refTime: Option<int>, data: seq<Byte>)

  /* ---------- frames of a document ---------- */

  function FrameOf(time: nat, b: Block): Frame {
    Frame(time + b.delta, if b.ref.Some? then Some(time + b.delta + b.ref.value) else None, b.data)
  }

  function ClusterFrames(c: Cluster): (r: seq<Frame>)
    ensures |r| == |c.blocks|
  {
    seq(|c.blocks|, i requires 0 <= i < |c.blocks| => FrameOf(c.time, c.blocks[i]))
  }

  function AllFrames(cs: seq<Cluster>): (r: seq<Frame>) {
    if cs == [] then [] else AllFrames(cs[..|cs| - 1]) + ClusterFrames(cs[|cs| - 1])
  }

  /* ---------- encoding ---------- */

  function UInt(id: nat, v: nat): Element {
    Element(id, BE(v, UIntLen(v)))
  }

  function SInt(id: nat, v: int): Element {
    Element(id, BE(v, SIntLen(v)))
  }

  // Track 1, the time relative to the cluster, no flags, the data.
  function BlockBody(b: Block): (s: seq<Byte>)
    ensures |s| == |b.data| + 4
  {
    EncodeSize(1) + BE(b.delta, 2) + [0] + b.data
  }

  function BlockChildren(b: Block): (es: seq<Element>)
    ensures 1 <= |es| <= 2
  {
    [Element(0xa1, BlockBody(b))] + if b.ref.Some? then [SInt(0xfb, b.ref.value)] else []
  }

  function BlockElement(b: Block): Element {
    Element(0xa0, EncodeAll(BlockChildren(b)))
  }

  function BlockElements(bs: seq<Block>): (es: seq<Element>)
    ensures |es| == |bs|
  {
    seq(|bs|, i requires 0 <= i < |bs| => BlockElement(bs[i]))
  }

  function ClusterChildren(c: Cluster): (es: seq<Element>)
    ensures |es| == |c.blocks| + 1
  {
    [UInt(0xe7, c.time)] + BlockElements(c.blocks)
  }

  function ClusterElement(c: Cluster): Element {
    Element(0x1f43b675, EncodeAll(ClusterChildren(c)))
  }

  function ClusterElements(cs: seq<Cluster>): (es: seq<Element>)
    ensures |es| == |cs|
  {
    seq(|cs|, i requires 0 <= i < |cs| => ClusterElement(cs[i]))
  }

  const DOCTYPE: seq<Byte> := [0x6d, 0x61, 0x74, 0x72, 0x6f, 0x73, 0x6b, 0x61]
  const MUXER: seq<Byte> := [0x48, 0x61, 0x61, 0x6c, 0x69, 0x20, 0x4d, 0x61, 0x74, 0x72, 0x6f, 0x73, 0x6b, 0x61,
                             0x20, 0x57, 0x72, 0x69, 0x74, 0x65, 0x72, 0x20, 0x62, 0x30]

  function EbmlChildren(): seq<Element> {
    [UInt(0x4286, 1), UInt(0x42f7, 1), UInt(0x42f2, 4), UInt(0x42f3, 8),
     Element(0x4282, DOCTYPE), UInt(0x4287, 1), UInt(0x4285, 1)]
  }

  function InfoStart(h: Header): seq<Element> {
    [Element(0x4d80, MUXER), Element(0x5741, h.app), UInt(0x2ad7b1, h.timescale)]
  }

  // The duration comes last, so it can be patched.
  function InfoChildren(h: Header, duration: seq<Byte>): seq<Element> {
    InfoStart(h) + [Element(0x4489, duration)]
  }

  function VideoChildren(h: Header): seq<Element> {
    [UInt(0xb0, h.width), UInt(0xba, h.height), UInt(0x54b0, h.displayWidth), UInt(0x54ba, h.displayHeight)]
  }

  function TrackStart(h: Header): seq<Element> {
    [UInt(0xd7, 1), UInt(0x73c5, 1), UInt(0x83, 1), UInt(0x9c, 0), Element(0x86, h.codec)]
  }

  function TrackChildren(h: Header): seq<Element> {
    TrackStart(h)
    + (if h.codecPrivate != [] then [Element(0x63a2, h.codecPrivate)] else [])
    + (if h.frameDuration != 0 then [UInt(0x23e383, h.frameDuration)] else [])
    + [Element(0xe0, EncodeAll(VideoChildren(h)))]
  }

  function EbmlElement(): Element {
    Element(0x1a45dfa3, EncodeAll(EbmlChildren()))
  }

  function InfoElement(h: Header, duration: seq<Byte>): Element {
    Element(0x1549a966, EncodeAll(InfoChildren(h, duration)))
  }

  function TracksElement(h: Header): Element {
    Element(0x1654ae6b, EncodeAll([Element(0xae, EncodeAll(TrackChildren(h)))]))
  }

  // The segment has no size: it runs to the end of the file.
  function SegmentStart(): seq<Byte> {
    EncodeId(0x18538067) + [0xff]
  }

  function HeaderBytes(h: Header, duration: seq<Byte>): seq<Byte> {
    Encode(EbmlElement()) + SegmentStart() + Encode(InfoElement(h, duration)) + Encode(TracksElement(h))
  }

  function MovieBytes(m: Movie): seq<Byte> {
    HeaderBytes(m.header, m.duration) + EncodeAll(ClusterElements(m.clusters))
  }

  /* ---------- decoding ---------- */

  // A block must belong to the track whose entry was read, and must not be laced.
  function DecodeBody(s: seq<Byte>, number: nat): (r: Option<(int, seq<Byte>)>) {
    var track := ParseSize(s);
    if track.None? || track.value.0 != Known(number) || |track.value.1| < 3 || track.value.1[2] != 0 then None
    else Some((ReadSigned(track.value.1[..2]), track.value.1[3..]))
  }

  function DecodeBlock(e: Element, number: nat): (r: Option<Block>) {
    var kids := ParseAll(e.body);
    if e.id != 0xa0 || kids.None? || !(1 <= |kids.value| <= 2) || kids.value[0].id != 0xa1 then None
    else
      var body := DecodeBody(kids.value[0].body, number);
      if body.None? then None
      else if |kids.value| == 1 then Some(Block(body.value.0, None, body.value.1))
      else if kids.value[1].id != 0xfb || kids.value[1].body == [] then None
      else Some(Block(body.value.0, Some(ReadSigned(kids.value[1].body)), body.value.1))
  }

  function DecodeBlocks(es: seq<Element>, number: nat): (r: Option<seq<Block>>) {
    if es == [] then Some([])
    else
      var before, b := DecodeBlocks(es[..|es| - 1], number), DecodeBlock(es[|es| - 1], number);
      if before.None? || b.None? then None else Some(before.value + [b.value])
  }

  function DecodeCluster(e: Element, number: nat): (r: Option<Cluster>) {
    var kids := ParseAll(e.body);
    if e.id != 0x1f43b675 || kids.None? || kids.value == [] || kids.value[0].id != 0xe7 then None
    else
      var blocks := DecodeBlocks(kids.value[1..], number);
      if blocks.None? then None else Some(Cluster(ReadBE(kids.value[0].body), blocks.value))
  }

  function DecodeClusters(es: seq<Element>, number: nat): (r: Option<seq<Cluster>>) {
    if es == [] then Some([])
    else
      var before, c := DecodeClusters(es[..|es| - 1], number), DecodeCluster(es[|es| - 1], number);
      if before.None? || c.None? then None else Some(before.value + [c.value])
  }

  // The body of the first element with this ID; missing elements count as empty.
  function Find(es: seq<Element>, id: nat): seq<Byte> {
    if es == [] then [] else if es[0].id == id then es[0].body else Find(es[1..], id)
  }

  function Children(s: seq<Byte>): seq<Element> {
    var es := ParseAll(s);
    if es.None? then [] else es.value
  }

  // An unsigned integer with the default that stands for a missing element.
  function UIntAt(es: seq<Element>, id: nat, default: nat): nat {
    if Find(es, id) == [] then default else ReadBE(Find(es, id))
  }

  function Ascii(text: string): (s: seq<Byte>)
    requires forall i :: 0 <= i < |text| ==> text[i] < 128 as char
    ensures |s| == |text|
  {
    seq(|text|, i requires 0 <= i < |text| => text[i] as int)
  }

  // A reader of version 1 can read the file: sections 11.2.2 to 11.2.8 of RFC 8794.
  predicate CanRead(head: seq<Element>) {
    && Find(head, 0x4282) == Ascii("matroska")
    && UIntAt(head, 0x42f7, 1) == 1 <= UIntAt(head, 0x4286, 1)
    && UIntAt(head, 0x4285, 1) == 1 <= UIntAt(head, 0x4287, 1)
    && UIntAt(head, 0x42f2, 4) >= 4 && UIntAt(head, 0x42f3, 8) >= 8
  }

  // An unlaced video track with a number and a UID: section 5.1.4.1 of RFC 9559.
  predicate IsVideo(track: seq<Element>) {
    UIntAt(track, 0xd7, 0) > 0 && UIntAt(track, 0x73c5, 0) > 0 && UIntAt(track, 0x83, 0) == 1 && UIntAt(track, 0x9c, 1) == 0
  }

  function DecodeHeader(info: seq<Element>, track: seq<Element>, video: seq<Element>): Header {
    Header(Find(info, 0x5741), Find(track, 0x86), Find(track, 0x63a2),
           ReadBE(Find(track, 0x23e383)), ReadBE(Find(info, 0x2ad7b1)),
           ReadBE(Find(video, 0xb0)), ReadBE(Find(video, 0xba)), ReadBE(Find(video, 0x54b0)), ReadBE(Find(video, 0x54ba)))
  }

  function DecodeSegment(s: seq<Byte>): (r: Option<Movie>) {
    var es := ParseAll(s);
    if es.None? || |es.value| < 2 || es.value[0].id != 0x1549a966 || es.value[1].id != 0x1654ae6b then None
    else
      var info := Children(es.value[0].body);
      var track := Children(Find(Children(es.value[1].body), 0xae));
      var clusters := DecodeClusters(es.value[2..], UIntAt(track, 0xd7, 0));
      if clusters.None? || !IsVideo(track) then None
      else
        Some(Movie(DecodeHeader(info, track, Children(Find(track, 0xe0))), Find(info, 0x4489), clusters.value))
  }

  function Decode(s: seq<Byte>): (r: Option<Movie>) {
    var head := ParseElement(s);
    if head.None? || head.value.0.id != 0x1a45dfa3 || !CanRead(Children(head.value.0.body)) then None
    else
      var id := ParseId(head.value.1);
      if id.None? || id.value.0 != 0x18538067 then None
      else
        var size := ParseSize(id.value.1);
        if size.None? || size.value.0 != Unknown then None else DecodeSegment(size.value.1)
  }

  /* ---------- what the writer can be asked to write ---------- */

  // Frame data that leaves room for the cluster it ends up in below 2^32.
  const DATALIMIT: nat := 0xf0000000

  // delta fits its 16 bits, the reference 64, the data its size field.
  predicate BlockOk(b: Block) {
    FitsSigned(b.delta, 2) && (b.ref.Some? ==> FitsSigned(b.ref.value, 8)) && |b.data| < DATALIMIT
  }

  predicate ClusterOk(c: Cluster) {
    c.time < Pow256(8) && |EncodeAll(ClusterChildren(c))| < 0x100000000 && forall i :: 0 <= i < |c.blocks| ==> BlockOk(c.blocks[i])
  }

  predicate HeaderOk(h: Header) {
    && |h.app| < 0x10000000 && |h.codec| < 0x10000000 && |h.codecPrivate| < 0x10000000
    && h.frameDuration < Pow256(8) && h.timescale < Pow256(8)
    && h.width < Pow256(8) && h.height < Pow256(8) && h.displayWidth < Pow256(8) && h.displayHeight < Pow256(8)
  }

  /* ---------- sizes ---------- */

  lemma EncodedLength(e: Element)
    requires Writable(e)
    ensures |e.body| + 2 <= |Encode(e)| <= |e.body| + 9
  {
    IdReadBack(e.id, []);
    SizeReadBack(|e.body|, []);
  }

  lemma UIntWritable(id: nat, v: nat)
    requires ValidId(id) && v < Pow256(8)
    ensures Writable(UInt(id, v)) && |UInt(id, v).body| <= 8 && ReadBE(UInt(id, v).body) == v
  {
    UIntLenIsLeast(v);
    if UIntLen(v) > 8 { PowMonotone(8, UIntLen(v) - 1); }
    ReadBackNat(v, UIntLen(v));
  }

  lemma SIntWritable(id: nat, v: int)
    requires ValidId(id) && FitsSigned(v, 8)
    ensures Writable(SInt(id, v)) && 1 <= |SInt(id, v).body| <= 8 && ReadSigned(SInt(id, v).body) == v
  {
    SIntLenIsLeast(v);
    if SIntLen(v) > 8 { PowMonotone(7, SIntLen(v) - 2); }
    SignedReadBack(v, SIntLen(v));
  }

  lemma BlockChildrenFit(b: Block)
    requires BlockOk(b)
    ensures forall i :: 0 <= i < |BlockChildren(b)| ==> Writable(BlockChildren(b)[i])
  {
    if b.ref.Some? { SIntWritable(0xfb, b.ref.value); }
  }

  lemma BlockFits(b: Block)
    requires BlockOk(b)
    ensures Writable(BlockElement(b)) && |Encode(BlockElement(b))| <= |b.data| + 64
  {
    hide Encode, EncodeAll, SInt, BlockBody, SIntLen, FitsSigned;
    BlockChildrenFit(b);
    var es := BlockChildren(b);
    EncodedLength(es[0]);
    EncodeOne(es[0]);
    if b.ref.Some? {
      SIntWritable(0xfb, b.ref.value);
      EncodedLength(es[1]);
      EncodeSnoc([es[0]], es[1]);
      assert es == [es[0]] + [es[1]];
    } else {
      assert es == [es[0]];
    }
    EncodedLength(BlockElement(b));
  }

  lemma EncodeOne(e: Element)
    ensures EncodeAll([e]) == Encode(e)
  {
    assert [] + [e] == [e];
    EncodeSnoc([], e);
    EncodeNone();
  }

  /* ---------- round trips ---------- */

  lemma BodyReadBack(b: Block)
    requires BlockOk(b)
    ensures DecodeBody(BlockBody(b), 1) == Some((b.delta, b.data))
  {
    var rest := BE(b.delta, 2) + [0] + b.data;
    assert BlockBody(b) == EncodeSize(1) + rest;
    SizeReadBack(1, rest);
    assert rest[..2] == BE(b.delta, 2) && rest[3..] == b.data;
    SignedReadBack(b.delta, 2);
  }

  lemma BlockReadBack(b: Block)
    requires BlockOk(b)
    ensures DecodeBlock(BlockElement(b), 1) == Some(b)
  {
    BlockChildrenFit(b);
    AllReadBack(BlockChildren(b));
    BodyReadBack(b);
    if b.ref.Some? { SIntWritable(0xfb, b.ref.value); }
  }

  lemma {:induction false} BlocksReadBack(bs: seq<Block>)
    requires forall i :: 0 <= i < |bs| ==> BlockOk(bs[i])
    ensures DecodeBlocks(BlockElements(bs), 1) == Some(bs)
  {
    hide DecodeBlock, BlockElement, BlockOk;
    if bs != [] {
      var n := |bs| - 1;
      BlocksReadBack(bs[..n]);
      BlockReadBack(bs[n]);
      assert BlockElements(bs)[..n] == BlockElements(bs[..n]);
      assert BlockElements(bs)[n] == BlockElement(bs[n]);
      assert bs == bs[..n] + [bs[n]];
    }
  }

  lemma ClusterChildrenFit(c: Cluster)
    requires ClusterOk(c)
    ensures forall i :: 0 <= i < |ClusterChildren(c)| ==> Writable(ClusterChildren(c)[i])
    ensures Writable(ClusterElement(c))
  {
    hide BlockOk, Encode, EncodeAll, BlockElement, UInt;
    var es := ClusterChildren(c);
    UIntWritable(0xe7, c.time);
    forall i | 0 <= i < |es| ensures Writable(es[i]) {
      if i > 0 { BlockFits(c.blocks[i - 1]); }
    }
  }

  lemma ClusterReadBack(c: Cluster)
    requires ClusterOk(c)
    ensures DecodeCluster(ClusterElement(c), 1) == Some(c) && Writable(ClusterElement(c))
  {
    hide BlockOk, Encode, EncodeAll, BlockElements, BlockElement, DecodeBlocks, ParseAll, Writable, ReadBE, BE, UIntLen, Pow256;
    var es := ClusterChildren(c);
    ClusterChildrenFit(c);
    UIntWritable(0xe7, c.time);
    AllReadBack(es);
    BlocksReadBack(c.blocks);
    assert es[1..] == BlockElements(c.blocks);
  }

  lemma {:induction false} ClustersReadBack(cs: seq<Cluster>)
    requires forall i :: 0 <= i < |cs| ==> ClusterOk(cs[i])
    ensures DecodeClusters(ClusterElements(cs), 1) == Some(cs)
    ensures forall i :: 0 <= i < |cs| ==> Writable(ClusterElements(cs)[i])
  {
    hide DecodeCluster, ClusterElement, ClusterOk, Writable;
    if cs != [] {
      var n := |cs| - 1;
      ClustersReadBack(cs[..n]);
      ClusterReadBack(cs[n]);
      assert ClusterElements(cs)[..n] == ClusterElements(cs[..n]);
      assert ClusterElements(cs)[n] == ClusterElement(cs[n]);
      assert cs == cs[..n] + [cs[n]];
      forall i | 0 <= i < |cs| ensures Writable(ClusterElements(cs)[i]) {
        assert i < n ==> ClusterElements(cs)[i] == ClusterElements(cs[..n])[i];
      }
    }
  }

  /* ---------- the header ---------- */

  ghost predicate AllWritable(es: seq<Element>) {
    forall i :: 0 <= i < |es| ==> Writable(es[i])
  }

  lemma Distribute(n: nat, x: nat)
    ensures (n + 1) * x == n * x + x
  {
  }

  lemma {:induction false} LengthBound(es: seq<Element>, each: nat)
    requires AllWritable(es) && forall i :: 0 <= i < |es| ==> |es[i].body| <= each
    ensures |EncodeAll(es)| <= |es| * (each + 9)
  {
    hide Encode, Writable;
    if es != [] {
      var n := |es| - 1;
      LengthBound(es[..n], each);
      EncodedLength(es[n]);
      Distribute(n, each + 9);
    }
  }

  lemma ChildrenReadBack(es: seq<Element>)
    requires AllWritable(es)
    ensures Children(EncodeAll(es)) == es
  {
    AllReadBack(es);
  }

  lemma {:induction false} FindAt(es: seq<Element>, k: nat)
    requires k < |es| && forall i :: 0 <= i < k ==> es[i].id != es[k].id
    ensures Find(es, es[k].id) == es[k].body
  {
    if k > 0 { FindAt(es[1..], k - 1); }
  }

  lemma {:induction false} FindNone(es: seq<Element>, id: nat)
    requires forall i :: 0 <= i < |es| ==> es[i].id != id
    ensures Find(es, id) == []
  {
    if es != [] { FindNone(es[1..], id); }
  }

  lemma InfoFits(h: Header, duration: seq<Byte>)
    requires HeaderOk(h) && |duration| == 4
    ensures AllWritable(InfoChildren(h, duration)) && Writable(InfoElement(h, duration))
  {
    hide EncodeAll, UInt;
    UIntWritable(0x2ad7b1, h.timescale);
    var es := InfoChildren(h, duration);
    forall i | 0 <= i < |es| ensures Writable(es[i]) && |es[i].body| <= 0x10000000 {
      assert i == 0 || i == 1 || i == 2 || i == 3;
    }
    LengthBound(es, 0x10000000);
  }

  lemma VideoFits(h: Header)
    requires HeaderOk(h)
    ensures AllWritable(VideoChildren(h)) && |EncodeAll(VideoChildren(h))| <= 0x100
  {
    hide EncodeAll, UInt;
    var es := VideoChildren(h);
    UIntWritable(0xb0, h.width);
    UIntWritable(0xba, h.height);
    UIntWritable(0x54b0, h.displayWidth);
    UIntWritable(0x54ba, h.displayHeight);
    forall i | 0 <= i < |es| ensures Writable(es[i]) && |es[i].body| <= 8 {
      assert i == 0 || i == 1 || i == 2 || i == 3;
    }
    LengthBound(es, 8);
  }

  lemma TrackStartFits(h: Header)
    requires HeaderOk(h)
    ensures AllWritable(TrackStart(h)) && forall i :: 0 <= i < 5 ==> |TrackStart(h)[i].body| <= 0x10000000
  {
    hide UInt;
    UIntWritable(0xd7, 1);
    UIntWritable(0x73c5, 1);
    UIntWritable(0x83, 1);
    UIntWritable(0x9c, 0);
  }

  lemma TrackFits(h: Header)
    requires HeaderOk(h)
    ensures AllWritable(TrackChildren(h)) && Writable(Element(0xae, EncodeAll(TrackChildren(h))))
    ensures Writable(TracksElement(h))
  {
    hide EncodeAll, UInt, VideoChildren, Encode;
    TrackStartFits(h);
    VideoFits(h);
    UIntWritable(0x23e383, h.frameDuration);
    var es := TrackChildren(h);
    LengthBound(es, 0x10000000);
    var entry := Element(0xae, EncodeAll(es));
    EncodeOne(entry);
    EncodedLength(entry);
  }

  lemma EbmlFits()
    ensures AllWritable(EbmlChildren()) && Writable(EbmlElement())
  {
    hide EncodeAll, UInt;
    var es := EbmlChildren();
    UIntWritable(0x4286, 1);
    UIntWritable(0x42f7, 1);
    UIntWritable(0x42f2, 4);
    UIntWritable(0x42f3, 8);
    UIntWritable(0x4287, 1);
    UIntWritable(0x4285, 1);
    forall i | 0 <= i < |es| ensures Writable(es[i]) && |es[i].body| <= 8 {
      assert i == 0 || i == 1 || i == 2 || i == 3 || i == 4 || i == 5 || i == 6;
    }
    LengthBound(es, 8);
  }

  // Every header field is found again under its ID.
  lemma InfoFound(h: Header, duration: seq<Byte>)
    requires HeaderOk(h)
    ensures var es := InfoChildren(h, duration);
      Find(es, 0x5741) == h.app && ReadBE(Find(es, 0x2ad7b1)) == h.timescale && Find(es, 0x4489) == duration
  {
    hide Find, ReadBE;
    var es := InfoChildren(h, duration);
    FindAt(es, 1);
    FindAt(es, 2);
    FindAt(es, 3);
    UIntWritable(0x2ad7b1, h.timescale);
  }

  lemma VideoFound(h: Header)
    requires HeaderOk(h)
    ensures var es := VideoChildren(h);
      && ReadBE(Find(es, 0xb0)) == h.width && ReadBE(Find(es, 0xba)) == h.height
      && ReadBE(Find(es, 0x54b0)) == h.displayWidth && ReadBE(Find(es, 0x54ba)) == h.displayHeight
  {
    hide Find, ReadBE;
    var es := VideoChildren(h);
    FindAt(es, 0);
    FindAt(es, 1);
    FindAt(es, 2);
    FindAt(es, 3);
    UIntWritable(0xb0, h.width);
    UIntWritable(0xba, h.height);
    UIntWritable(0x54b0, h.displayWidth);
    UIntWritable(0x54ba, h.displayHeight);
  }

  lemma TrackFound(h: Header)
    requires HeaderOk(h)
    ensures var es := TrackChildren(h);
      && Find(es, 0x86) == h.codec && Find(es, 0x63a2) == h.codecPrivate
      && ReadBE(Find(es, 0x23e383)) == h.frameDuration && Find(es, 0xe0) == EncodeAll(VideoChildren(h))
  {
    hide Find, EncodeAll, VideoChildren, BE, UIntLen;
    var es := TrackChildren(h);
    FindAt(es, 4);
    FindAt(es, |es| - 1);
    if h.codecPrivate != [] { FindAt(es, 5); } else { FindNone(es, 0x63a2); }
    if h.frameDuration != 0 {
      UIntWritable(0x23e383, h.frameDuration);
      FindAt(es, |es| - 2);
    } else {
      FindNone(es, 0x23e383);
      assert ReadBE([]) == 0;
    }
  }

  // The blocks' track is the one declared, and it is a video track.
  lemma TrackIsVideo(h: Header)
    requires HeaderOk(h)
    ensures IsVideo(TrackChildren(h)) && UIntAt(TrackChildren(h), 0xd7, 0) == 1
  {
    hide Find, ReadBE, UInt;
    var es := TrackChildren(h);
    ByteFound(0xd7, 1);
    ByteFound(0x73c5, 1);
    ByteFound(0x83, 1);
    ZeroFound(0x9c);
    FindAt(es, 0);
    FindAt(es, 1);
    FindAt(es, 2);
    FindAt(es, 3);
  }

  lemma ByteFound(id: nat, v: nat)
    requires ValidId(id) && 0 < v < 256
    ensures UInt(id, v).id == id && UInt(id, v).body != [] && ReadBE(UInt(id, v).body) == v
  {
    assert v < Pow256(8) && ReadBE([]) == 0;
    hide ReadBE;
    UIntWritable(id, v);
  }

  lemma ZeroFound(id: nat)
    requires ValidId(id)
    ensures UInt(id, 0).id == id && UInt(id, 0).body == [0] && ReadBE([0]) == 0
  {
    assert [0][..0] == [];
  }

  lemma HeaderFound(h: Header, duration: seq<Byte>)
    requires HeaderOk(h)
    ensures DecodeHeader(InfoChildren(h, duration), TrackChildren(h), VideoChildren(h)) == h
  {
    hide Find, ReadBE, InfoChildren, TrackChildren, VideoChildren;
    InfoFound(h, duration);
    TrackFound(h);
    VideoFound(h);
  }

  predicate MovieOk(m: Movie) {
    HeaderOk(m.header) && |m.duration| == 4 && forall i :: 0 <= i < |m.clusters| ==> ClusterOk(m.clusters[i])
  }

  function SegmentElements(m: Movie): seq<Element> {
    [InfoElement(m.header, m.duration), TracksElement(m.header)] + ClusterElements(m.clusters)
  }

  lemma SegmentReadBack(m: Movie)
    requires MovieOk(m)
    ensures DecodeSegment(EncodeAll(SegmentElements(m))) == Some(m)
  {
    hide DecodeHeader, ClusterElements, DecodeClusters, Find, IsVideo, UIntAt, InfoChildren, TrackChildren, VideoChildren, ParseAll, EncodeAll, Writable, ClusterOk, HeaderOk;
    var es := SegmentElements(m);
    InfoFits(m.header, m.duration);
    TrackFits(m.header);
    ClustersReadBack(m.clusters);
    AllReadBack(es);
    assert es[2..] == ClusterElements(m.clusters);
    HeaderParts(m.header, m.duration);
    TrackIsVideo(m.header);
  }

  lemma HeaderParts(h: Header, duration: seq<Byte>)
    requires HeaderOk(h) && |duration| == 4
    ensures Children(InfoElement(h, duration).body) == InfoChildren(h, duration)
    ensures Children(Find(Children(TracksElement(h).body), 0xae)) == TrackChildren(h)
    ensures Children(Find(TrackChildren(h), 0xe0)) == VideoChildren(h)
    ensures DecodeHeader(InfoChildren(h, duration), TrackChildren(h), VideoChildren(h)) == h
    ensures Find(InfoChildren(h, duration), 0x4489) == duration
  {
    hide DecodeHeader, InfoChildren, TrackChildren, VideoChildren, EncodeAll, ParseAll, Writable, HeaderOk, Find, ReadBE, Children;
    InfoFits(h, duration);
    TrackFits(h);
    VideoFits(h);
    ChildrenReadBack(InfoChildren(h, duration));
    ChildrenReadBack(TrackChildren(h));
    ChildrenReadBack(VideoChildren(h));
    var entry := [Element(0xae, EncodeAll(TrackChildren(h)))];
    ChildrenReadBack(entry);
    FindAt(entry, 0);
    TrackFound(h);
    InfoFound(h, duration);
    HeaderFound(h, duration);
  }

  lemma SegmentBytes(m: Movie)
    ensures MovieBytes(m) == Encode(EbmlElement()) + (EncodeId(0x18538067) + ([0xff] + EncodeAll(SegmentElements(m))))
  {
    hide Encode, EncodeAll, EncodeId, InfoElement, TracksElement, ClusterElements, EbmlElement;
    var info, tracks, cs := InfoElement(m.header, m.duration), TracksElement(m.header), ClusterElements(m.clusters);
    EncodeJoin([info, tracks], cs);
    assert [info, tracks] == [info] + [tracks];
    EncodeSnoc([info], tracks);
    EncodeOne(info);
    var a, b, c, d, e := Encode(EbmlElement()), SegmentStart(), Encode(info), Encode(tracks), EncodeAll(cs);
    assert a + b + c + d + e == a + (b + ((c + d) + e));
    assert b + ((c + d) + e) == EncodeId(0x18538067) + ([0xff] + ((c + d) + e));
  }

  lemma SegmentIsOpen(rest: seq<Byte>)
    ensures ParseId(EncodeId(0x18538067) + ([0xff] + rest)) == Some((0x18538067, [0xff] + rest))
    ensures ParseSize([0xff] + rest) == Some((Unknown, rest))
  {
    IdReadBack(0x18538067, [0xff] + rest);
    assert ([0xff] + rest)[1..] == rest;
    assert [0xff % 0x80] + ([0xff] + rest)[1..1] == [0x7f];
    ReadShort(0x7f, 0, 0, 0, 0);
    assert Pow256(0) == 1;
  }

  // The reader recovers the whole document from the bytes.
  lemma MovieReadBack(m: Movie)
    requires MovieOk(m)
    ensures Decode(MovieBytes(m)) == Some(m)
  {
    hide Encode, EncodeAll, EncodeId, SegmentElements, ParseElement, ParseId, ParseSize, DecodeSegment, MovieBytes, Writable, EbmlChildren, MovieOk, Children, Find, CanRead;
    var tail := EncodeAll(SegmentElements(m));
    SegmentBytes(m);
    EbmlFits();
    ElementReadBack(EbmlElement(), EncodeId(0x18538067) + ([0xff] + tail));
    ChildrenReadBack(EbmlChildren());
    EbmlIsReadable();
    SegmentIsOpen(tail);
    SegmentReadBack(m);
  }

  lemma EbmlIsReadable()
    ensures CanRead(EbmlChildren())
  {
    hide Find, ReadBE, UInt;
    var es := EbmlChildren();
    ByteFound(0x4286, 1);
    ByteFound(0x42f7, 1);
    ByteFound(0x42f2, 4);
    ByteFound(0x42f3, 8);
    ByteFound(0x4287, 1);
    ByteFound(0x4285, 1);
    FindAt(es, 0);
    FindAt(es, 1);
    FindAt(es, 2);
    FindAt(es, 3);
    FindAt(es, 4);
    FindAt(es, 5);
    FindAt(es, 6);
    DocTypeIs();
  }

  lemma MuxerIs()
    ensures MUXER == Ascii("Haali Matroska Writer b0")
  {
    var text := "Haali Matroska Writer b0";
    assert |text| == 24;
    assert text[0] == 'H' && text[1] == 'a' && text[2] == 'a' && text[3] == 'l' && text[4] == 'i' && text[5] == ' ';
    assert text[6] == 'M' && text[7] == 'a' && text[8] == 't' && text[9] == 'r' && text[10] == 'o' && text[11] == 's'
      && text[12] == 'k' && text[13] == 'a' && text[14] == ' ';
    assert text[15] == 'W' && text[16] == 'r' && text[17] == 'i' && text[18] == 't' && text[19] == 'e' && text[20] == 'r'
      && text[21] == ' ' && text[22] == 'b' && text[23] == '0';
  }

  lemma DocTypeIs()
    ensures DOCTYPE == Ascii("matroska")
  {
    var text := "matroska";
    assert text[0] == 'm' && text[1] == 'a' && text[2] == 't' && text[3] == 'r'
      && text[4] == 'o' && text[5] == 's' && text[6] == 'k' && text[7] == 'a';
    assert |text| == 8;
  }

  /* ---------- the duration field ---------- */

  function InfoSize(h: Header): nat {
    |EncodeAll(InfoChildren(h, [0, 0, 0, 0]))|
  }

  // Where mk_writeHeader says the four bytes of the duration are.
  function DurationPtr(h: Header): (p: int) {
    |Encode(EbmlElement())| + |SegmentStart()| + |EncodeId(0x1549a966)| + |EncodeSize(InfoSize(h))| + InfoSize(h) - 4
  }

  lemma InfoEndsWithDuration(h: Header, d: seq<Byte>)
    requires |d| == 4
    ensures EncodeAll(InfoChildren(h, d)) == EncodeAll(InfoStart(h)) + (EncodeId(0x4489) + EncodeSize(4)) + d
    ensures |EncodeAll(InfoChildren(h, d))| == InfoSize(h) >= 4
  {
    hide EncodeAll, EncodeId, EncodeSize, InfoStart;
    EncodeSnoc(InfoStart(h), Element(0x4489, d));
    EncodeSnoc(InfoStart(h), Element(0x4489, [0, 0, 0, 0]));
  }

  // Overwriting those four bytes changes the duration and nothing else.
  lemma DurationIsThere(h: Header, d: seq<Byte>, tail: seq<Byte>)
    requires |d| == 4
    ensures var p, s := DurationPtr(h), HeaderBytes(h, [0, 0, 0, 0]) + tail;
      0 <= p && p + 4 <= |s| && s[p..p + 4] == [0, 0, 0, 0] && s[..p] + d + s[p + 4..] == HeaderBytes(h, d) + tail
  {
    hide Encode, EncodeAll, EncodeId, EncodeSize, InfoStart, InfoChildren, EbmlElement, SegmentStart, TracksElement, InfoSize;
    var zero: seq<Byte> := [0, 0, 0, 0];
    InfoEndsWithDuration(h, d);
    InfoEndsWithDuration(h, zero);
    var before := Encode(EbmlElement()) + SegmentStart() + (EncodeId(0x1549a966) + EncodeSize(InfoSize(h)))
      + (EncodeAll(InfoStart(h)) + (EncodeId(0x4489) + EncodeSize(4)));
    var after := Encode(TracksElement(h)) + tail;
    HeaderSplits(h, d, tail);
    HeaderSplits(h, zero, tail);
    assert |before| == DurationPtr(h);
  }

  lemma HeaderSplits(h: Header, d: seq<Byte>, tail: seq<Byte>)
    requires |d| == 4
    ensures HeaderBytes(h, d) + tail ==
      (Encode(EbmlElement()) + SegmentStart() + (EncodeId(0x1549a966) + EncodeSize(InfoSize(h)))
       + (EncodeAll(InfoStart(h)) + (EncodeId(0x4489) + EncodeSize(4)))) + d + (Encode(TracksElement(h)) + tail)
  {
    hide EncodeAll, EncodeId, EncodeSize, InfoStart, InfoChildren, EbmlElement, SegmentStart, TracksElement, InfoSize;
    InfoEndsWithDuration(h, d);
    var i, j := EncodeAll(InfoStart(h)), EncodeId(0x4489) + EncodeSize(4);
    InfoBytes(h, d);
    hide Encode;
    var a, b, c, t := Encode(EbmlElement()), SegmentStart(), EncodeId(0x1549a966) + EncodeSize(InfoSize(h)), Encode(TracksElement(h));
    assert Encode(InfoElement(h, d)) == c + ((i + j) + d);
    assert a + b + (c + ((i + j) + d)) + t + tail == (a + b + c + (i + j)) + d + (t + tail);
  }

  lemma InfoBytes(h: Header, d: seq<Byte>)
    requires |d| == 4
    ensures Encode(InfoElement(h, d)) == EncodeId(0x1549a966) + EncodeSize(InfoSize(h)) + EncodeAll(InfoChildren(h, d))
  {
    hide EncodeAll, EncodeId, EncodeSize, InfoStart, InfoChildren;
    InfoEndsWithDuration(h, d);
  }
}
