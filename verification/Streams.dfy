/** The byte streams that stand for an icon state in the duplicate index, and what equal
    streams mean (src/spaceman/dmi.rs). A stream is the sequence of its frames' sizes and
    pixel records; the sizes make it readable back, so streams are equal only when the
    frames, or the frames up to one numbering of colours, are. */
module Streams {
  import opened Basics
  import opened Frames
  import opened Comparison

  // ------------------------------------------------------------ byte streams

  const TWO32: nat := 0x1_0000_0000

  /** The four little-endian bytes of the low 32 bits. */
  function Le32(n: nat): (b: seq<Byte>)
    ensures |b| == 4
  {
    [n % 256, n / 0x100 % 256, n / 0x1_0000 % 256, n / 0x100_0000 % 256]
  }

  function Decode32(b: seq<Byte>): nat
    requires |b| == 4
  {
    (b[0] as int) + 0x100 * (b[1] as int) + 0x1_0000 * (b[2] as int) + 0x100_0000 * (b[3] as int)
  }

  lemma Le32RoundTrip(n: nat)
    requires n < TWO32
    ensures Decode32(Le32(n)) == n
  {
    var q1 := n / 0x100;
    var q2 := q1 / 0x100;
    assert n / 0x1_0000 == q2;
    assert n / 0x100_0000 == q2 / 0x100;
  }

  lemma Le32Injective(a: nat, b: nat)
    requires a < TWO32 && b < TWO32 && Le32(a) == Le32(b)
    ensures a == b
  {
    Le32RoundTrip(a);
    Le32RoundTrip(b);
  }

  /** One frame's share of a stream: an empty marker, or a size and one record per pixel. */
  datatype Block = Empty | Filled(w: nat, h: nat, records: seq<seq<Byte>>)

  function BlockBytes(b: Block): seq<Byte> {
    match b
    case Empty => Le32(0)
    case Filled(w, h, records) => Le32(w) + Le32(h) + Flatten(records)
  }

  function Stream(blocks: seq<Block>): seq<Byte> {
    if blocks == [] then [] else BlockBytes(blocks[0]) + Stream(blocks[1..])
  }

  ghost predicate BlockOk(b: Block, k: nat) {
    match b
    case Empty => true
    case Filled(w, h, records) =>
      && 0 < w < TWO32 && h < TWO32 && |records| == w * h
      && forall i :: 0 <= i < |records| ==> |records[i]| == k
  }

  lemma SplitEqual<T>(a: seq<T>, x: seq<T>, b: seq<T>, y: seq<T>)
    requires |a| == |b| && a + x == b + y
    ensures a == b && x == y
  {
    assert a == (a + x)[..|a|] && b == (b + y)[..|b|];
    assert x == (a + x)[|a|..] && y == (b + y)[|b|..];
  }

  lemma {:induction false} FlattenInjective(a: seq<seq<Byte>>, x: seq<Byte>, b: seq<seq<Byte>>, y: seq<Byte>, k: nat)
    requires |a| == |b| && Flatten(a) + x == Flatten(b) + y
    requires forall i :: 0 <= i < |a| ==> |a[i]| == k && |b[i]| == k
    ensures a == b && x == y
    decreases |a|
  {
    if |a| > 0 {
      assert Flatten(a) + x == a[0] + (Flatten(a[1..]) + x);
      assert Flatten(b) + y == b[0] + (Flatten(b[1..]) + y);
      SplitEqual(a[0], Flatten(a[1..]) + x, b[0], Flatten(b[1..]) + y);
      FlattenInjective(a[1..], x, b[1..], y, k);
      assert a == [a[0]] + a[1..] && b == [b[0]] + b[1..];
    } else {
      assert Flatten(a) + x == x && Flatten(b) + y == y;
    }
  }

  lemma BlockInjective(a: Block, x: seq<Byte>, b: Block, y: seq<Byte>, k: nat)
    requires BlockOk(a, k) && BlockOk(b, k) && BlockBytes(a) + x == BlockBytes(b) + y
    ensures a == b && x == y
  {
    hide Flatten, Le32;
    var wa, wb := if a.Empty? then 0 else a.w, if b.Empty? then 0 else b.w;
    var ra, rb := AfterWidth(a, x), AfterWidth(b, y);
    WidthFirst(a, x);
    WidthFirst(b, y);
    SplitEqual(Le32(wa), ra, Le32(wb), rb);
    Le32Injective(wa, wb);
    if a.Filled? {
      SplitEqual(Le32(a.h), Flatten(a.records) + x, Le32(b.h), Flatten(b.records) + y);
      Le32Injective(a.h, b.h);
      FlattenInjective(a.records, x, b.records, y, k);
    }
  }

  function AfterWidth(b: Block, x: seq<Byte>): seq<Byte> {
    match b
    case Empty => x
    case Filled(w, h, records) => Le32(h) + (Flatten(records) + x)
  }

  lemma WidthFirst(b: Block, x: seq<Byte>)
    ensures BlockBytes(b) + x == Le32(if b.Empty? then 0 else b.w) + AfterWidth(b, x)
  {
    hide Flatten, Le32;
    if b.Filled? {
      Associative(Le32(b.w) + Le32(b.h), Flatten(b.records), x);
      Associative(Le32(b.w), Le32(b.h), Flatten(b.records) + x);
    }
  }

  lemma Associative<T>(a: seq<T>, b: seq<T>, c: seq<T>)
    ensures (a + b) + c == a + (b + c)
  {
  }

  lemma StreamEmpty(blocks: seq<Block>)
    ensures |Stream(blocks)| == 0 <==> blocks == []
  {
    if blocks != [] {
      assert |BlockBytes(blocks[0])| >= 4;
    }
  }

  /** A stream determines its blocks, however many they are. */
  lemma {:induction false} StreamInjective(a: seq<Block>, b: seq<Block>, k: nat)
    requires Stream(a) == Stream(b)
    requires forall i :: 0 <= i < |a| ==> BlockOk(a[i], k)
    requires forall i :: 0 <= i < |b| ==> BlockOk(b[i], k)
    ensures a == b
    decreases |a|
  {
    StreamEmpty(a);
    StreamEmpty(b);
    if |a| > 0 {
      BlockInjective(a[0], Stream(a[1..]), b[0], Stream(b[1..]), k);
      StreamInjective(a[1..], b[1..], k);
      assert a == [a[0]] + a[1..] && b == [b[0]] + b[1..];
    }
  }

  lemma {:induction false} StreamSnoc(blocks: seq<Block>, b: Block)
    ensures Stream(blocks + [b]) == Stream(blocks) + BlockBytes(b)
  {
    hide BlockBytes;
    if blocks == [] {
      assert blocks + [b] == [b];
      assert Stream([]) + BlockBytes(b) == BlockBytes(b) + Stream([]);
    } else {
      StreamSnoc(blocks[1..], b);
      Associative(BlockBytes(blocks[0]), Stream(blocks[1..]), BlockBytes(b));
      assert (blocks + [b])[1..] == blocks[1..] + [b];
    }
  }

  // ---------------------------------------------------------- cropped streams

  function PixelBytes(p: Pixel): seq<Byte> {
    [p.r, p.g, p.b, p.a]
  }

  function PixelRecords(px: seq<Pixel>): seq<seq<Byte>> {
    seq(|px|, i requires 0 <= i < |px| => PixelBytes(px[i]))
  }

  function CroppedBlock(c: Option<Grid>): Block {
    match c
    case None => Empty
    case Some(g) => Filled(g.w, g.h, PixelRecords(g.px))
  }

  function CroppedBlocks(cs: seq<Option<Grid>>): seq<Block> {
    seq(|cs|, i requires 0 <= i < |cs| => CroppedBlock(cs[i]))
  }

  function CroppedStream(cs: seq<Option<Grid>>): seq<Byte> {
    Stream(CroppedBlocks(cs))
  }

  /** Grids whose sides fit the 32-bit sizes of the image format. */
  ghost predicate Fits(c: Option<Grid>) {
    c.Some? ==> Sized(c.value) && 0 < c.value.w < TWO32 && c.value.h < TWO32
  }

  ghost predicate AllFit(cs: seq<Option<Grid>>) {
    forall i :: 0 <= i < |cs| ==> Fits(cs[i])
  }

  lemma CroppedBlockInjective(a: Option<Grid>, b: Option<Grid>)
    requires CroppedBlock(a) == CroppedBlock(b)
    ensures a == b
  {
    if a.Some? {
      var x, y := a.value.px, b.value.px;
      assert |PixelRecords(x)| == |PixelRecords(y)|;
      forall i | 0 <= i < |x|
        ensures x[i] == y[i]
      {
        assert PixelRecords(x)[i] == PixelRecords(y)[i];
        assert PixelBytes(x[i])[0] == PixelBytes(y[i])[0] && PixelBytes(x[i])[1] == PixelBytes(y[i])[1];
        assert PixelBytes(x[i])[2] == PixelBytes(y[i])[2] && PixelBytes(x[i])[3] == PixelBytes(y[i])[3];
      }
      assert x == y;
    }
  }

  /** Two cropped streams are equal exactly when every crop is. */
  lemma CroppedStreamsEqual(a: seq<Option<Grid>>, b: seq<Option<Grid>>)
    requires AllFit(a) && AllFit(b)
    ensures CroppedStream(a) == CroppedStream(b) <==> a == b
  {
    if CroppedStream(a) == CroppedStream(b) {
      StreamInjective(CroppedBlocks(a), CroppedBlocks(b), 4);
      forall i | 0 <= i < |a|
        ensures a[i] == b[i]
      {
        assert CroppedBlocks(a)[i] == CroppedBlocks(b)[i];
        CroppedBlockInjective(a[i], b[i]);
      }
    }
  }

  // ---------------------------------------------------------- palette streams

  /** The visible colours of all frames of a state, in scan order. */
  function Colours(cs: seq<Option<Grid>>): seq<Pixel> {
    if cs == [] then []
    else (if cs[0].Some? then cs[0].value.px else []) + Colours(cs[1..])
  }

  /** A colour number and the alpha of the pixel. */
  function PaletteRecord(all: seq<Pixel>, i: nat): (r: seq<Byte>)
    requires i < |all|
    ensures |r| == 5
  {
    Le32(CodeAt(all, i)) + [all[i].a]
  }

  function PaletteRecords(all: seq<Pixel>, from: nat, n: nat): seq<seq<Byte>>
    requires from + n <= |all|
  {
    seq(n, i requires 0 <= i < n => PaletteRecord(all, from + i))
  }

  function PixelCount(c: Option<Grid>): nat {
    if c.Some? then |c.value.px| else 0
  }

  function PaletteBlock(c: Option<Grid>, all: seq<Pixel>, from: nat): Block
    requires from + PixelCount(c) <= |all|
  {
    match c
    case None => Empty
    case Some(g) => Filled(g.w, g.h, PaletteRecords(all, from, |g.px|))
  }

  /** The blocks of frames whose pixels start at `all[from]`; numbers run on across frames. */
  function PaletteBlocks(cs: seq<Option<Grid>>, all: seq<Pixel>, from: nat): seq<Block>
    requires from + |Colours(cs)| <= |all|
    decreases |cs|
  {
    if cs == [] then []
    else
      [PaletteBlock(cs[0], all, from)] + PaletteBlocks(cs[1..], all, from + PixelCount(cs[0]))
  }

  function PaletteStream(cs: seq<Option<Grid>>): seq<Byte> {
    Stream(PaletteBlocks(cs, Colours(cs), 0))
  }

  ghost predicate SameShape(a: Option<Grid>, b: Option<Grid>) {
    (a.None? && b.None?) || (a.Some? && b.Some? && a.value.w == b.value.w && a.value.h == b.value.h)
  }

  ghost predicate SameShapes(a: seq<Option<Grid>>, b: seq<Option<Grid>>) {
    |a| == |b| && forall i :: 0 <= i < |a| ==> SameShape(a[i], b[i])
  }

  /** One alpha-preserving colour bijection turns every frame into the other state's. */
  ghost predicate StateRecoloured(a: seq<Option<Grid>>, b: seq<Option<Grid>>) {
    && SameShapes(a, b)
    && |Colours(a)| == |Colours(b)|
    && exists m :: Recolours(m, Colours(a), Colours(b))
  }

  lemma {:induction false} SameShapesCount(a: seq<Option<Grid>>, b: seq<Option<Grid>>)
    requires SameShapes(a, b) && AllFit(a) && AllFit(b)
    ensures |Colours(a)| == |Colours(b)|
    decreases |a|
  {
    if a != [] {
      assert SameShape(a[0], b[0]) && Fits(a[0]) && Fits(b[0]);
      SameShapesCount(a[1..], b[1..]);
    }
  }

  /** The place of a colour among all colours. */
  function ColourPlace(p: Pixel): (n: nat)
    ensures n < TWO32
  {
    Decode32(PixelBytes(p))
  }

  lemma LowByte(a: Byte, x: int, b: Byte, y: int)
    requires a + 0x100 * x == b + 0x100 * y
    ensures a == b && x == y
  {
  }

  lemma ColourPlaceInjective(p: Pixel, q: Pixel)
    requires ColourPlace(p) == ColourPlace(q)
    ensures p == q
  {
    LowByte(p.r, p.g + 0x100 * p.b + 0x1_0000 * p.a, q.r, q.g + 0x100 * q.b + 0x1_0000 * q.a);
    LowByte(p.g, p.b + 0x100 * p.a, q.g, q.b + 0x100 * q.a);
    LowByte(p.b, p.a, q.b, q.a);
  }

  lemma {:induction false} BelowCount(places: set<nat>, n: nat)
    requires forall k :: k in places ==> k < n
    ensures |places| <= n
  {
    if n == 0 {
      assert places == {};
    } else {
      BelowCount(places - {n - 1}, n - 1);
    }
  }

  lemma {:induction false} PlacesCount(colours: set<Pixel>)
    ensures |set p | p in colours :: ColourPlace(p)| == |colours|
    decreases colours
  {
    hide ColourPlace;
    var places := set p | p in colours :: ColourPlace(p);
    if p :| p in colours {
      PlacesCount(colours - {p});
      forall q | q in colours && ColourPlace(q) == ColourPlace(p)
        ensures q == p
      {
        ColourPlaceInjective(p, q);
      }
      assert (set q | q in colours - {p} :: ColourPlace(q)) == places - {ColourPlace(p)};
    } else {
      assert places == {};
    }
  }

  /** There are no more colours than 32-bit numbers. */
  lemma CodeSmall(s: seq<Pixel>, i: nat)
    requires i < |s|
    ensures CodeAt(s, i) < TWO32
  {
    hide ColourPlace;
    var m := Numbering(s, i + 1);
    NumberingShape(s, i + 1, s[i], s[i]);
    PlacesCount(m.Keys);
    BelowCount(set p | p in m.Keys :: ColourPlace(p), TWO32);
    assert |m| == |m.Keys|;
  }

  lemma PaletteRecordInjective(x: seq<Pixel>, y: seq<Pixel>, i: nat)
    requires i < |x| == |y| && PaletteRecord(x, i) == PaletteRecord(y, i)
    ensures CodeAt(x, i) == CodeAt(y, i) && x[i].a == y[i].a
  {
    CodeSmall(x, i);
    CodeSmall(y, i);
    SplitEqual(Le32(CodeAt(x, i)), [x[i].a], Le32(CodeAt(y, i)), [y[i].a]);
    Le32Injective(CodeAt(x, i), CodeAt(y, i));
    assert [x[i].a][0] == [y[i].a][0];
  }

  lemma PaletteBlockOk(c: Option<Grid>, all: seq<Pixel>, from: nat)
    requires Fits(c) && from + PixelCount(c) <= |all|
    ensures BlockOk(PaletteBlock(c, all, from), 5)
  {
    hide PaletteRecord;
    if c.Some? {
      var records := PaletteRecords(all, from, PixelCount(c));
      forall i | 0 <= i < |records|
        ensures |records[i]| == 5
      {
        assert records[i] == PaletteRecord(all, from + i);
      }
    }
  }

  lemma {:induction false} PaletteBlocksOk(cs: seq<Option<Grid>>, all: seq<Pixel>, from: nat)
    requires from + |Colours(cs)| <= |all| && AllFit(cs)
    ensures |PaletteBlocks(cs, all, from)| == |cs|
    ensures forall i :: 0 <= i < |cs| ==> BlockOk(PaletteBlocks(cs, all, from)[i], 5)
    decreases |cs|
  {
    if cs != [] {
      PaletteBlockOk(cs[0], all, from);
      hide PaletteBlock, BlockOk, Fits;
      PaletteBlocksOk(cs[1..], all, from + PixelCount(cs[0]));
    }
  }

  ghost predicate SameRecordsIn(x: seq<Pixel>, y: seq<Pixel>, from: nat, to: nat)
    requires from <= to <= |x| && to <= |y|
  {
    forall i :: from <= i < to ==> PaletteRecord(x, i) == PaletteRecord(y, i)
  }

  lemma PaletteBlockEqual(a: Option<Grid>, b: Option<Grid>, x: seq<Pixel>, y: seq<Pixel>, from: nat)
    requires Fits(a) && Fits(b) && from + PixelCount(a) <= |x| && from + PixelCount(b) <= |y|
    ensures SameShape(a, b) ==> PixelCount(a) == PixelCount(b)
    ensures PaletteBlock(a, x, from) == PaletteBlock(b, y, from)
       <==> SameShape(a, b) && from + PixelCount(a) <= |y| && SameRecordsIn(x, y, from, from + PixelCount(a))
  {
    hide PaletteRecord;
    if a.Some? && SameShape(a, b) {
      var n := PixelCount(a);
      var p, q := PaletteRecords(x, from, n), PaletteRecords(y, from, n);
      if p == q {
        forall i | from <= i < from + n
          ensures PaletteRecord(x, i) == PaletteRecord(y, i)
        {
          assert p[i - from] == q[i - from];
        }
      }
      if SameRecordsIn(x, y, from, from + n) {
        assert p == q;
      }
    }
  }

  lemma ConsEqual<T>(a: T, s: seq<T>, b: T, r: seq<T>)
    ensures [a] + s == [b] + r <==> a == b && s == r
  {
    if [a] + s == [b] + r {
      SplitEqual([a], s, [b], r);
      assert [a][0] == [b][0];
    }
  }

  /** Block lists agree exactly when the shapes and the records agree. */
  lemma {:induction false} PaletteBlocksEqual(a: seq<Option<Grid>>, b: seq<Option<Grid>>,
                                              x: seq<Pixel>, y: seq<Pixel>, from: nat)
    requires |a| == |b| && AllFit(a) && AllFit(b)
    requires |x| == from + |Colours(a)| && |y| == from + |Colours(b)|
    ensures PaletteBlocks(a, x, from) == PaletteBlocks(b, y, from)
       <==> SameShapes(a, b) && |x| == |y| && SameRecordsIn(x, y, from, |x|)
    decreases |a|
  {
    if a != [] {
      assert Fits(a[0]) && Fits(b[0]);
      SameShapesCons(a, b);
      PaletteBlockEqual(a[0], b[0], x, y, from);
      var n, k := PixelCount(a[0]), PixelCount(b[0]);
      assert |x| == from + n + |Colours(a[1..])| && |y| == from + k + |Colours(b[1..])|;
      hide PaletteRecord, PaletteBlock, SameShapes, SameShape, Fits, Colours, PixelCount;
      ConsEqual(PaletteBlock(a[0], x, from), PaletteBlocks(a[1..], x, from + n),
                PaletteBlock(b[0], y, from), PaletteBlocks(b[1..], y, from + k));
      if SameShape(a[0], b[0]) {
        PaletteBlocksEqual(a[1..], b[1..], x, y, from + n);
      }
    }
  }

  lemma SameShapesCons(a: seq<Option<Grid>>, b: seq<Option<Grid>>)
    requires |a| == |b| > 0
    ensures SameShapes(a, b) <==> SameShape(a[0], b[0]) && SameShapes(a[1..], b[1..])
  {
    if SameShape(a[0], b[0]) && SameShapes(a[1..], b[1..]) {
      forall i | 0 <= i < |a|
        ensures SameShape(a[i], b[i])
      {
        if i > 0 {
          assert SameShape(a[1..][i - 1], b[1..][i - 1]);
        }
      }
    }
  }

  /** Two palette streams are equal exactly when one alpha-preserving colour bijection,
      valid across all frames, relates the states. */
  lemma PaletteStreamsEqual(a: seq<Option<Grid>>, b: seq<Option<Grid>>)
    requires AllFit(a) && AllFit(b)
    ensures PaletteStream(a) == PaletteStream(b) <==> StateRecoloured(a, b)
  {
    var x, y := Colours(a), Colours(b);
    PaletteBlocksOk(a, x, 0);
    PaletteBlocksOk(b, y, 0);
    if PaletteStream(a) == PaletteStream(b) {
      StreamInjective(PaletteBlocks(a, x, 0), PaletteBlocks(b, y, 0), 5);
    }
    if |a| == |b| {
      PaletteBlocksEqual(a, b, x, y, 0);
      if SameShapes(a, b) {
        SameShapesCount(a, b);
        RecordsIffRecoloured(x, y);
      }
    }
  }

  lemma RecordsIffRecoloured(x: seq<Pixel>, y: seq<Pixel>)
    requires |x| == |y|
    ensures SameRecordsIn(x, y, 0, |x|) <==> exists m :: Recolours(m, x, y)
  {
    if SameRecordsIn(x, y, 0, |x|) {
      forall i | 0 <= i < |x|
        ensures CodeAt(x, i) == CodeAt(y, i) && x[i].a == y[i].a
      {
        PaletteRecordInjective(x, y, i);
      }
    }
    CodesIffPattern(x, y);
    PaletteIffRecolouring(x, y);
  }
}
