/** The loops that feed a state's images to the digests (src/spaceman/dmi.rs). One pass over
    the transformed images appends to the exact, cropped and palette streams, numbering
    colours across the whole state, and folds the sampled word; what comes out is what the
    definitions of the streams and signatures say. */
module Digests {
  import opened Basics
  import opened Frames
  import opened Comparison
  import opened Streams
  import opened Candidates

  // -------------------------------------------------------- computing signatures

  lemma {:induction false} ColoursAppend(a: seq<Option<Grid>>, b: seq<Option<Grid>>)
    ensures Colours(a + b) == Colours(a) + Colours(b)
  {
    if a == [] {
      assert a + b == b;
    } else {
      assert (a + b)[1..] == a[1..] + b;
      ColoursAppend(a[1..], b);
    }
  }

  lemma ColoursAt(cs: seq<Option<Grid>>, i: nat)
    requires i < |cs|
    ensures var o, all := |Colours(cs[..i])|, Colours(cs);
            && o + PixelCount(cs[i]) <= |all|
            && |Colours(cs[..i + 1])| == o + PixelCount(cs[i])
            && (cs[i].Some? ==> all[o..o + PixelCount(cs[i])] == cs[i].value.px)
  {
    assert cs == cs[..i] + cs[i..] && cs[..i + 1] == cs[..i] + [cs[i]];
    ColoursAppend(cs[..i], cs[i..]);
    ColoursAppend(cs[..i], [cs[i]]);
    assert [cs[i]][1..] == [];
    assert Colours([cs[i]]) == (if cs[i].Some? then cs[i].value.px else []) + Colours([]);
    ColoursSplit(cs[i..]);
    var o := |Colours(cs[..i])|;
    assert Colours(cs)[o..] == Colours(cs[i..]);
  }

  lemma {:induction false} PaletteBlocksSnoc(cs: seq<Option<Grid>>, c: Option<Grid>, all: seq<Pixel>, from: nat)
    requires from + |Colours(cs)| + PixelCount(c) <= |all|
    ensures |Colours(cs + [c])| == |Colours(cs)| + PixelCount(c)
    ensures PaletteBlocks(cs + [c], all, from)
         == PaletteBlocks(cs, all, from) + [PaletteBlock(c, all, from + |Colours(cs)|)]
    decreases |cs|
  {
    ColoursAppend(cs, [c]);
    assert [c][1..] == [];
    if cs == [] {
      assert cs + [c] == [c];
    } else {
      assert (cs + [c])[1..] == cs[1..] + [c];
      PaletteBlocksSnoc(cs[1..], c, all, from + PixelCount(cs[0]));
    }
  }

  /** What hashing a crop knows after `k` of its pixels, `from` pixels into the state. */
  ghost predicate HashedUpTo(px: seq<Pixel>, all: seq<Pixel>, from: nat, k: nat,
                             cropped: seq<Byte>, palette: seq<Byte>, numbers: map<Pixel, nat>)
  {
    && k <= |px| && from + |px| <= |all| && all[from..from + |px|] == px
    && cropped == Flatten(PixelRecords(px[..k]))
    && palette == Flatten(PaletteRecords(all, from, k))
    && numbers == Numbering(all, from + k)
  }

  lemma HashStep(px: seq<Pixel>, all: seq<Pixel>, from: nat, k: nat,
                 cropped: seq<Byte>, palette: seq<Byte>, numbers: map<Pixel, nat>)
    requires k < |px| && HashedUpTo(px, all, from, k, cropped, palette, numbers)
    ensures var p := px[k];
            HashedUpTo(px, all, from, k + 1, cropped + PixelBytes(p),
                       palette + Le32(Entry(numbers, p)[p]) + [p.a], Entry(numbers, p))
  {
    hide Le32, PixelBytes;
    var p := px[k];
    assert all[from..from + |px|][k] == all[from + k] == p;
    FlattenSnoc(PixelRecords(px[..k]), PixelBytes(p));
    assert PixelRecords(px[..k + 1]) == PixelRecords(px[..k]) + [PixelBytes(p)];
    FlattenSnoc(PaletteRecords(all, from, k), PaletteRecord(all, from + k));
    assert PaletteRecords(all, from, k + 1) == PaletteRecords(all, from, k) + [PaletteRecord(all, from + k)];
    assert Numbering(all, from + k + 1) == Entry(numbers, p);
    Associative(palette, Le32(Entry(numbers, p)[p]), [p.a]);
  }

  lemma HashStart(px: seq<Pixel>, all: seq<Pixel>, from: nat)
    requires from + |px| <= |all| && all[from..from + |px|] == px
    ensures HashedUpTo(px, all, from, 0, [], [], Numbering(all, from))
  {
  }

  lemma HashEnd(px: seq<Pixel>, all: seq<Pixel>, from: nat,
                cropped: seq<Byte>, palette: seq<Byte>, numbers: map<Pixel, nat>)
    requires HashedUpTo(px, all, from, |px|, cropped, palette, numbers)
    ensures cropped == Flatten(PixelRecords(px))
    ensures palette == Flatten(PaletteRecords(all, from, |px|))
    ensures numbers == Numbering(all, from + |px|)
  {
    assert px[..|px|] == px;
  }

  /** Feeds the visible pixels of one frame to the cropped and palette digests. */
  method HashCrop(f: Frame, known: map<Pixel, nat>, ghost all: seq<Pixel>, ghost from: nat)
    returns (cropped: seq<Byte>, palette: seq<Byte>, numbers: map<Pixel, nat>)
    requires Normal(f) && f.bounds.Some?
    requires from + |Crop(f).value.px| <= |all|
    requires all[from..from + |Crop(f).value.px|] == Crop(f).value.px
    requires known == Numbering(all, from)
    ensures cropped == Flatten(PixelRecords(Crop(f).value.px))
    ensures palette == Flatten(PaletteRecords(all, from, |Crop(f).value.px|))
    ensures numbers == Numbering(all, from + |Crop(f).value.px|)
  {
    hide Index, At, CropGrid, Touching, HashedUpTo, Le32, PixelBytes, Entry, Numbering;
    ghost var px := Crop(f).value.px;
    var v := f.bounds.value;
    var w, h := BoundsW(v), BoundsH(v);
    cropped, palette, numbers := [], [], known;
    HashStart(px, all, from);
    ScanOrder(w, h, 0, 0);
    BoundsInside(f);
    var y := 0;
    while y < h
      invariant 0 <= y <= h
      invariant HashedUpTo(px, all, from, Index(w, 0, y), cropped, palette, numbers)
    {
      var x := 0;
      while x < w
        invariant 0 <= x <= w
        invariant HashedUpTo(px, all, from, Index(w, x, y), cropped, palette, numbers)
      {
        CropCell(f, x, y);
        HashStep(px, all, from, Index(w, x, y), cropped, palette, numbers);
        ScanOrder(w, h, x, y);
        var pixel := At(f.grid, v.minX + x, v.minY + y);
        cropped := cropped + PixelBytes(pixel);
        numbers := Entry(numbers, pixel);
        palette := palette + Le32(numbers[pixel]) + [pixel.a];
        x := x + 1;
      }
      ScanOrder(w, h, x, y);
      y := y + 1;
    }
    HashEnd(px, all, from, cropped, palette, numbers);
  }

  lemma BoundsInside(f: Frame)
    requires Normal(f) && f.bounds.Some?
    ensures var v := f.bounds.value; v.minX <= v.maxX < f.grid.w && v.minY <= v.maxY < f.grid.h
  {
  }

  lemma CroppedSnoc(cs: seq<Option<Grid>>, i: nat)
    requires i < |cs|
    ensures CroppedStream(cs[..i + 1]) == CroppedStream(cs[..i]) + BlockBytes(CroppedBlock(cs[i]))
  {
    hide CroppedBlock, BlockBytes;
    assert CroppedBlocks(cs[..i + 1]) == CroppedBlocks(cs[..i]) + [CroppedBlock(cs[i])];
    StreamSnoc(CroppedBlocks(cs[..i]), CroppedBlock(cs[i]));
  }

  lemma PaletteSnoc(cs: seq<Option<Grid>>, all: seq<Pixel>, i: nat)
    requires i < |cs| && all == Colours(cs)
    ensures |Colours(cs[..i + 1])| <= |all|
    ensures |Colours(cs[..i])| + PixelCount(cs[i]) == |Colours(cs[..i + 1])|
    ensures Stream(PaletteBlocks(cs[..i + 1], all, 0))
         == Stream(PaletteBlocks(cs[..i], all, 0)) + BlockBytes(PaletteBlock(cs[i], all, |Colours(cs[..i])|))
  {
    hide PaletteBlock, BlockBytes, PixelCount;
    ColoursAt(cs, i);
    assert cs[..i + 1] == cs[..i] + [cs[i]];
    PaletteBlocksSnoc(cs[..i], cs[i], all, 0);
    StreamSnoc(PaletteBlocks(cs[..i], all, 0), PaletteBlock(cs[i], all, |Colours(cs[..i])|));
  }

  lemma ExactSnoc(frames: seq<Frame>, i: nat)
    requires i < |frames| && Hashable(frames)
    ensures Hashable(frames[..i]) && Hashable(frames[..i + 1]) && Normal(frames[i])
    ensures Sized(frames[i].grid) && frames[i].grid.w > 0 && frames[i].grid.h > 0
    ensures ExactStream(frames[..i + 1]) == ExactStream(frames[..i]) + ExactBytes(frames[i].grid)
    ensures Perceptual(frames[..i + 1]) == Xor(RotateLeft7(Perceptual(frames[..i])), PerceptualWord(frames[i].grid))
  {
    hide ExactBytes, PerceptualWord, Tight;
    assert frames[..i + 1][..i] == frames[..i];
  }

  /** One frame's share of the cropped and palette digests. */
  method HashFrame(f: Frame, known: map<Pixel, nat>, ghost all: seq<Pixel>, ghost from: nat)
    returns (cropped: seq<Byte>, palette: seq<Byte>, numbers: map<Pixel, nat>)
    requires Normal(f) && from + PixelCount(Crop(f)) <= |all| && known == Numbering(all, from)
    requires f.bounds.Some? ==> all[from..from + PixelCount(Crop(f))] == Crop(f).value.px
    ensures cropped == BlockBytes(CroppedBlock(Crop(f)))
    ensures palette == BlockBytes(PaletteBlock(Crop(f), all, from))
    ensures numbers == Numbering(all, from + PixelCount(Crop(f)))
  {
    hide CropGrid, Tight, Flatten, Le32, Numbering, PaletteRecords, PixelRecords;
    match f.bounds {
      case Some(v) =>
        var pixels, colours, next := HashCrop(f, known, all, from);
        cropped := Le32(BoundsW(v)) + Le32(BoundsH(v)) + pixels;
        palette := Le32(BoundsW(v)) + Le32(BoundsH(v)) + colours;
        numbers := next;
      case None =>
        cropped, palette, numbers := Le32(0), Le32(0), known;
    }
  }

  lemma FramesNormal(frames: seq<Frame>)
    requires Hashable(frames)
    ensures forall i :: 0 <= i < |frames| ==> Normal(frames[i])
  {
  }

  /** Feeds the images of one transformed state to the four digests. */
  method HashFrames(frames: seq<Frame>)
    returns (exact: seq<Byte>, cropped: seq<Byte>, palette: seq<Byte>, word: Word)
    requires Hashable(frames)
    ensures SignatureBundle(exact, cropped, palette, word) == BundleOf(frames)
  {
    hide ExactBytes, PerceptualWord, Normal, Crop, ExactStream, Perceptual, PaletteBlocks, CroppedStream,
         Numbering, Colours, Hashable, SignatureBundle, BlockBytes, CroppedBlock, PaletteBlock, PixelCount;
    exact, cropped, palette, word := [], [], [], seq(64, _ => false);
    var numbers: map<Pixel, nat> := map[];
    FramesNormal(frames);
    ghost var cs := Crops(frames);
    ghost var all := Colours(cs);
    HashNothing(frames, all);
    var i := 0;
    while i < |frames|
      invariant 0 <= i <= |frames| && |Colours(cs[..i])| <= |all|
      invariant Hashable(frames[..i])
      invariant exact == ExactStream(frames[..i])
      invariant cropped == CroppedStream(cs[..i])
      invariant palette == Stream(PaletteBlocks(cs[..i], all, 0))
      invariant word == Perceptual(frames[..i])
      invariant numbers == Numbering(all, |Colours(cs[..i])|)
    {
      var frame := frames[i];
      ExactSnoc(frames, i);
      CroppedSnoc(cs, i);
      PaletteSnoc(cs, all, i);
      ColoursAt(cs, i);
      exact := exact + ExactBytes(frame.grid);
      var croppedBytes, paletteBytes, known := HashFrame(frame, numbers, all, |Colours(cs[..i])|);
      cropped := cropped + croppedBytes;
      palette := palette + paletteBytes;
      numbers := known;
      word := Xor(RotateLeft7(word), PerceptualWord(frame.grid));
      i := i + 1;
    }
    assert frames[..i] == frames && cs[..i] == cs;
    assert exact == ExactStream(frames);
    assert cropped == CroppedStream(Crops(frames));
    assert palette == PaletteStream(Crops(frames));
    assert word == Perceptual(frames);
  }

  lemma HashNothing(frames: seq<Frame>, all: seq<Pixel>)
    requires Hashable(frames)
    ensures Hashable(frames[..0]) && |Colours(Crops(frames)[..0])| == 0
    ensures ExactStream(frames[..0]) == [] && CroppedStream(Crops(frames)[..0]) == []
    ensures Stream(PaletteBlocks(Crops(frames)[..0], all, 0)) == []
    ensures Perceptual(frames[..0]) == seq(64, _ => false)
    ensures Numbering(all, 0) == map[]
  {
  }

  /** `row` holds the images of the first `k` directions of frame `f`. */
  ghost predicate ShownRow(s: IconState, t: Transform, f: nat, row: seq<Frame>, k: nat)
    requires ValidState(s) && f < |s.images|
  {
    && k == |row| <= |OrderedDirs(s.dirs)|
    && forall j :: 0 <= j < k ==>
         && OrderedDirs(s.dirs)[j] in OrderedDirs(s.dirs)
         && SourceDir(s.dirs, t, OrderedDirs(s.dirs)[j]).Some?
         && row[j] == Turned(s.images[f][SourceDir(s.dirs, t, OrderedDirs(s.dirs)[j]).value], t)
  }

  lemma ShownRowStep(s: IconState, t: Transform, f: nat, row: seq<Frame>, k: nat)
    requires ValidState(s) && f < |s.images| && k < |OrderedDirs(s.dirs)| && ShownRow(s, t, f, row, k)
    ensures var source := SourceDir(s.dirs, t, OrderedDirs(s.dirs)[k]);
            && (source.None? ==> !Covers(s.dirs, t))
            && (source.Some? ==>
                  && source.value in s.images[f] && Normal(s.images[f][source.value])
                  && ShownRow(s, t, f, row + [Turned(s.images[f][source.value], t)], k + 1))
  {
    hide OrderedDirs, SourceDir, Turned, Normal;
    assert OrderedDirs(s.dirs)[k] in OrderedDirs(s.dirs);
  }

  lemma ShownRowStart(s: IconState, t: Transform, f: nat)
    requires ValidState(s) && f < |s.images|
    ensures ShownRow(s, t, f, [], 0)
  {
  }

  lemma ShownRowExtends(s: IconState, t: Transform, f: nat, row: seq<Frame>)
    requires ValidState(s) && f < |s.images| && ShownRow(s, t, f, row, |OrderedDirs(s.dirs)|)
    ensures Covers(s.dirs, t)
    ensures var m, all := |OrderedDirs(s.dirs)|, ShownList(s, t);
            && Index(m, 0, f) <= Index(m, 0, f + 1) <= |all|
            && all[..Index(m, 0, f)] + row == all[..Index(m, 0, f + 1)]
  {
    hide OrderedDirs, SourceDir, Index, Turned, ShownAt, Normal;
    var m := |OrderedDirs(s.dirs)|;
    forall d | d in OrderedDirs(s.dirs)
      ensures SourceDir(s.dirs, t, d).Some?
    {
      var j :| 0 <= j < m && OrderedDirs(s.dirs)[j] == d;
      assert row[j] == row[j];
    }
    var all := ShownList(s, t);
    IndexRow(m, f, |s.images|);
    forall j | 0 <= j < m
      ensures Index(m, 0, f) + j < |all| && all[Index(m, 0, f) + j] == row[j]
    {
      ShownListAt(s, t, f, j);
      IndexColumn(m, f, j);
    }
  }

  /** Transforms every image of the state; `valid` is false when a direction has no source. */
  method ShowAll(s: IconState, t: Transform) returns (valid: bool, frames: seq<Frame>)
    requires HashableState(s)
    ensures valid <==> Usable(s, t)
    ensures valid ==> frames == ShownOf(s, t)
  {
    hide Index, OrderedDirs, Covers, ShownRow, ShownAt, Normal, Turned, SourceDir, ShownList;
    ghost var m := |OrderedDirs(s.dirs)|;
    frames := [];
    IndexRow(m, 0, |s.images|);
    var f := 0;
    while f < |s.images|
      invariant 0 <= f <= |s.images|
      invariant f == 0 ==> frames == []
      invariant f > 0 ==> Covers(s.dirs, t)
      invariant f > 0 ==> Index(m, 0, f) <= |ShownList(s, t)|
      invariant f > 0 ==> frames == ShownList(s, t)[..Index(m, 0, f)]
    {
      var dirs := OrderedDirs(s.dirs);
      var row: seq<Frame> := [];
      ShownRowStart(s, t, f);
      var k := 0;
      while k < |dirs|
        invariant 0 <= k <= |dirs|
        invariant ShownRow(s, t, f, row, k)
      {
        ShownRowStep(s, t, f, row, k);
        var source := SourceDir(s.dirs, t, dirs[k]);
        if source.None? {
          return false, frames;
        }
        var shown := TransformFrame(s.images[f][source.value], t);
        row := row + [shown];
        k := k + 1;
      }
      ShownRowExtends(s, t, f, row);
      frames := frames + row;
      f := f + 1;
    }
    valid := true;
    if |s.images| > 0 {
      ghost var all := ShownList(s, t);
      assert all[..|all|] == all;
    }
  }

  /** The candidate signatures of a state: seven for each usable transform. */
  method StateCandidateSignatures(s: IconState) returns (signatures: set<Signature>)
    requires HashableState(s)
    ensures signatures == Signatures(s)
  {
    hide HashableState, Usable, ShownOf, BundleOf;
    signatures := {};
    var n := 0;
    while n < |TRANSFORMS|
      invariant 0 <= n <= |TRANSFORMS|
      invariant signatures == SignaturesUpTo(s, n)
    {
      var valid, frames := ShowAll(s, TRANSFORMS[n]);
      if valid {
        var exact, cropped, palette, word := HashFrames(frames);
        signatures := signatures + SignatureBundle(exact, cropped, palette, word);
      }
      n := n + 1;
    }
  }
}
