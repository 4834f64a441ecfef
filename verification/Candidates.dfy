/** Which states share a stream or a signature, and which matches they are therefore
    guaranteed to have (src/spaceman/dmi.rs, src/tools/dmi.rs). */
module Candidates {
  import opened Basics
  import opened Frames
  import opened Comparison
  import opened Streams

  // ------------------------------------------------------- states and their crops

  /** The image of frame `f` seen in the `k`th direction once the state is transformed. */
  ghost function Shown(s: IconState, t: Transform, f: nat, k: nat): (r: Frame)
    requires ValidState(s) && Covers(s.dirs, t) && f < |s.images| && k < |OrderedDirs(s.dirs)|
    ensures Normal(r)
  {
    var d := OrderedDirs(s.dirs)[k];
    assert d in OrderedDirs(s.dirs);
    Turned(s.images[f][SourceDir(s.dirs, t, d).value], t)
  }

  ghost function ShownAt(s: IconState, t: Transform, i: nat): (r: Frame)
    requires ValidState(s) && Covers(s.dirs, t) && i < |OrderedDirs(s.dirs)| * |s.images|
    ensures Normal(r)
  {
    var m := |OrderedDirs(s.dirs)|;
    CellIndex(m, |s.images|, i);
    Shown(s, t, i / m, i % m)
  }

  /** All images of the transformed state, frame by frame. */
  ghost function ShownList(s: IconState, t: Transform): (r: seq<Frame>)
    requires ValidState(s) && Covers(s.dirs, t)
    ensures |r| == |OrderedDirs(s.dirs)| * |s.images|
    ensures forall i :: 0 <= i < |r| ==> Normal(r[i])
  {
    var n := |OrderedDirs(s.dirs)| * |s.images|;
    seq(n, i requires 0 <= i < n => ShownAt(s, t, i))
  }

  ghost function Crops(frames: seq<Frame>): (cs: seq<Option<Grid>>)
    requires forall i :: 0 <= i < |frames| ==> Normal(frames[i])
    ensures |cs| == |frames|
  {
    seq(|frames|, i requires 0 <= i < |frames| => Crop(frames[i]))
  }

  /** Sides of at most 32 bits, as the image header stores them. */
  ghost predicate SmallState(s: IconState) {
    && ValidState(s)
    && forall f, d :: 0 <= f < |s.images| && d in OrderedDirs(s.dirs)
         ==> s.images[f][d].grid.w < TWO32 && s.images[f][d].grid.h < TWO32
  }

  lemma PlaceOf(m: nat, n: nat, i: nat) returns (f: nat, k: nat)
    requires i < m * n
    ensures f < n && k < m && i == Index(m, k, f)
  {
    CellIndex(m, n, i);
    f, k := i / m, i % m;
  }

  lemma ShownListAt(s: IconState, t: Transform, f: nat, k: nat)
    requires ValidState(s) && Covers(s.dirs, t) && f < |s.images| && k < |OrderedDirs(s.dirs)|
    ensures var i := Index(|OrderedDirs(s.dirs)|, k, f);
            && i < |ShownList(s, t)|
            && ShownList(s, t)[i] == Shown(s, t, f, k)
  {
    hide Shown, ValidState, Covers, OrderedDirs;
    IndexInRange(|OrderedDirs(s.dirs)|, |s.images|, k, f);
    IndexCell(|OrderedDirs(s.dirs)|, k, f);
  }

  lemma ShownFits(s: IconState, t: Transform)
    requires SmallState(s) && Covers(s.dirs, t)
    ensures AllFit(Crops(ShownList(s, t)))
  {
    hide ShownList, Covers, OrderedDirs, Fits, Crop, Index, Normal, SourceDir;
    var frames := ShownList(s, t);
    forall i | 0 <= i < |frames|
      ensures Fits(Crops(frames)[i])
    {
      var f, k := PlaceOf(|OrderedDirs(s.dirs)|, |s.images|, i);
      ShownListAt(s, t, f, k);
      var r := SourceOf(s.dirs, t, k);
      CropFits(s.images[f][r], t);
    }
  }

  lemma SourceOf(dirs: Dirs, t: Transform, k: nat) returns (r: Dir)
    requires Covers(dirs, t) && k < |OrderedDirs(dirs)|
    ensures SourceDir(dirs, t, OrderedDirs(dirs)[k]) == Some(r) && r in OrderedDirs(dirs)
    ensures OrderedDirs(dirs)[k] in OrderedDirs(dirs)
  {
    hide OrderedDirs, SourceDir;
    assert OrderedDirs(dirs)[k] in OrderedDirs(dirs);
    r := SourceDir(dirs, t, OrderedDirs(dirs)[k]).value;
  }

  lemma CropFits(f: Frame, t: Transform)
    requires Normal(f) && f.grid.w < TWO32 && f.grid.h < TWO32
    ensures Fits(Crop(Turned(f, t)))
  {
    CropTurned(f, t);
  }

  lemma CropIdentity(f: Frame)
    requires Normal(f)
    ensures Crop(Turned(f, Identity)) == Crop(f)
  {
    CropTurned(f, Identity);
    if f.bounds.Some? {
      IdentityTurns(Crop(f).value);
    }
  }

  lemma IdentityTurns(g: Grid)
    requires Sized(g)
    ensures Turn(g, Identity) == g
  {
    forall i | 0 <= i < |g.px|
      ensures Turn(g, Identity).px[i] == g.px[i]
    {
      CellIndex(g.w, g.h, i);
    }
  }

  // --------------------------------------------- what the cropped stream finds

  ghost predicate Unchanged(k: MatchKind) {
    k == Exact || k == Transformed || k == Padded
  }

  /** An aligned comparison finds no changed pixel exactly when the crops are equal. */
  lemma UnchangedIffCrops(left: Frame, right: Frame, t: Transform, threshold: real)
    requires Normal(left) && Normal(right)
    ensures Unchanged(Promote(Aligned(left, right, t), threshold).kind) <==> Crop(left) == Crop(right)
  {
    hide PaletteEqual, CropGrid, PairDelta, PairChanged, Tight;
    var a, b := Crop(left), Crop(right);
    if a.Some? && b.Some? && a.value.w == b.value.w && a.value.h == b.value.h {
      UnchangedIffEqual(a.value.px, b.value.px);
    }
  }

  lemma CellUnchanged(ls: IconState, rs: IconState, t: Transform, threshold: real, f: nat, k: nat)
    requires Comparable(ls, rs) && Covers(ls.dirs, t) && Covers(ls.dirs, Identity)
    requires f < |ls.images| && k < |OrderedDirs(ls.dirs)|
    ensures OrderedDirs(ls.dirs)[k] in OrderedDirs(ls.dirs)
    ensures Unchanged(Cell(ls, rs, t, threshold, f, OrderedDirs(ls.dirs)[k]).kind)
       <==> Crop(Shown(ls, Identity, f, k)) == Crop(Shown(rs, t, f, k))
  {
    var d := OrderedDirs(ls.dirs)[k];
    var r := SourceOf(rs.dirs, t, k);
    IdentitySource(ls.dirs, d);
    assert Normal(ls.images[f][d]) && Normal(rs.images[f][r]);
    hide Aligned, Turned, Promote, OrderedDirs, Crop, SourceDir, Normal, Unchanged, Covers;
    CropIdentity(ls.images[f][d]);
    UnchangedIffCrops(ls.images[f][d], Turned(rs.images[f][r], t), t, threshold);
  }

  /** The same, at place `i` of the lists. */
  lemma PlaceUnchanged(ls: IconState, rs: IconState, t: Transform, threshold: real, i: nat)
    requires Comparable(ls, rs) && Covers(ls.dirs, t) && Covers(ls.dirs, Identity)
    requires i < |CellList(ls, rs, t, threshold)|
    ensures MatchRank(CellList(ls, rs, t, threshold)[i].kind) <= 2
       <==> Crops(ShownList(ls, Identity))[i] == Crops(ShownList(rs, t))[i]
  {
    hide Cell, Shown, OrderedDirs, Crop, Normal, Index, Covers, MatchRank, ShownAt, CellAt;
    var f, k := PlaceOf(|OrderedDirs(ls.dirs)|, |ls.images|, i);
    CellListAt(ls, rs, t, threshold, f, k);
    ShownListAt(ls, Identity, f, k);
    ShownListAt(rs, t, f, k);
    CellUnchanged(ls, rs, t, threshold, f, k);
    UnchangedRank(CellList(ls, rs, t, threshold)[i].kind);
  }

  lemma IdentitySource(dirs: Dirs, d: Dir)
    requires d in OrderedDirs(dirs)
    ensures SourceDir(dirs, Identity, d) == Some(d)
  {
  }

  lemma UnchangedRank(k: MatchKind)
    ensures Unchanged(k) <==> MatchRank(k) <= 2
  {
  }

  /** Under one transform, every frame is unchanged exactly when the cropped streams of
      the two states are equal. */
  lemma UnchangedIffStreams(ls: IconState, rs: IconState, t: Transform, threshold: real)
    requires Comparable(ls, rs) && SmallState(ls) && SmallState(rs) && |ls.images| > 0
    requires Covers(ls.dirs, t) && Covers(ls.dirs, Identity)
    ensures WorstRank(CellList(ls, rs, t, threshold)) <= 2
       <==> CroppedStream(Crops(ShownList(ls, Identity))) == CroppedStream(Crops(ShownList(rs, t)))
  {
    hide CellAt, ShownAt, CroppedStream, OrderedDirs, Covers, ValidState, SmallState, MatchRank, Crop;
    var c := CellList(ls, rs, t, threshold);
    var a, b := Crops(ShownList(ls, Identity)), Crops(ShownList(rs, t));
    ShownFits(ls, Identity);
    ShownFits(rs, t);
    CroppedStreamsEqual(a, b);
    ListNonEmpty(ls);
    WorstRankMeaning(c);
    forall i | 0 <= i < |c|
      ensures MatchRank(c[i].kind) <= 2 <==> a[i] == b[i]
    {
      PlaceUnchanged(ls, rs, t, threshold, i);
    }
    if WorstRank(c) <= 2 {
      assert forall i :: 0 <= i < |c| ==> MatchRank(c[i].kind) <= 2;
      assert a == b;
    }
  }

  lemma ListNonEmpty(s: IconState)
    requires |s.images| > 0
    ensures |OrderedDirs(s.dirs)| * |s.images| > 0
  {
  }

  ghost function CropStreamOf(s: IconState, t: Transform): seq<Byte>
    requires ValidState(s) && Covers(s.dirs, t)
  {
    CroppedStream(Crops(ShownList(s, t)))
  }

  ghost function PaletteStreamOf(s: IconState, t: Transform): seq<Byte>
    requires ValidState(s) && Covers(s.dirs, t)
  {
    PaletteStream(Crops(ShownList(s, t)))
  }

  /** The index misses no match whose pixels are unchanged, and a shared cropped stream
      means nothing else: two states are classified exact, transformed or padded exactly
      when the left state's own cropped stream is one of the right state's. */
  lemma UnchangedIffShared(ls: IconState, rs: IconState, minimum: real)
    requires Comparable(ls, rs) && SmallState(ls) && SmallState(rs) && |ls.images| > 0
    ensures Covers(ls.dirs, Identity)
    ensures Unchanged(ImageMatch(ls, rs, minimum))
       <==> exists t :: Covers(ls.dirs, t) && CropStreamOf(ls, Identity) == CropStreamOf(rs, t)
  {
    hide Covers, ValidState, SmallState, CellList, WorstRank, ImageMatch, ShownList, CroppedStream;
    CoversMeaning(ls.dirs, Identity);
    UnchangedRank(ImageMatch(ls, rs, minimum));
    var threshold := Threshold(minimum);
    if Unchanged(ImageMatch(ls, rs, minimum)) {
      var t := ImageMatchReached(ls, rs, minimum);
      UnchangedIffStreams(ls, rs, t, threshold);
    }
    if t :| Covers(ls.dirs, t) && CropStreamOf(ls, Identity) == CropStreamOf(rs, t) {
      UnchangedIffStreams(ls, rs, t, threshold);
      ImageMatchAtMost(ls, rs, minimum, t);
    }
  }

  // --------------------------------------------- what the palette stream finds

  /** A recolouring of the whole state recolours each frame. */
  lemma {:induction false} FrameRecoloured(a: seq<Option<Grid>>, b: seq<Option<Grid>>, i: nat)
    requires SameShapes(a, b) && AllFit(a) && AllFit(b) && i < |a|
    requires |Colours(a)| == |Colours(b)| && PaletteEqual(Colours(a), Colours(b))
    ensures SameShape(a[i], b[i]) && Fits(a[i]) && Fits(b[i])
    ensures a[i].Some? ==> PaletteEqual(a[i].value.px, b[i].value.px)
    decreases |a|
  {
    assert SameShape(a[0], b[0]) && Fits(a[0]) && Fits(b[0]);
    SameShapesCons(a, b);
    SameShapesCount(a[1..], b[1..]);
    var n := PixelCount(a[0]);
    var x, y := Colours(a), Colours(b);
    ColoursSplit(a);
    ColoursSplit(b);
    assert PixelCount(b[0]) == n;
    if i == 0 {
      PaletteSlice(x, y, 0, n);
    } else {
      PaletteSlice(x, y, n, |x|);
      hide PaletteEqual, SameShapes, Colours, PixelCount;
      FrameRecoloured(a[1..], b[1..], i - 1);
    }
  }

  lemma ColoursSplit(cs: seq<Option<Grid>>)
    requires cs != []
    ensures PixelCount(cs[0]) <= |Colours(cs)|
    ensures var n, x := PixelCount(cs[0]), Colours(cs);
            && x[n..|x|] == Colours(cs[1..])
            && (cs[0].Some? ==> x[0..n] == cs[0].value.px)
  {
  }

  lemma PaletteSlice(x: seq<Pixel>, y: seq<Pixel>, lo: nat, hi: nat)
    requires |x| == |y| && lo <= hi <= |x| && PaletteEqual(x, y)
    ensures PaletteEqual(x[lo..hi], y[lo..hi])
  {
  }

  lemma RecolouredRank(left: Frame, right: Frame, t: Transform, threshold: real)
    requires Normal(left) && Normal(right) && SameShape(Crop(left), Crop(right))
    requires Crop(left).Some? ==> |Crop(left).value.px| == |Crop(right).value.px|
    requires Crop(left).Some? ==> PaletteEqual(Crop(left).value.px, Crop(right).value.px)
    ensures MatchRank(Promote(Aligned(left, right, t), threshold).kind) <= 3
  {
    hide PaletteEqual, CropGrid, PairDelta, PairChanged, Tight;
  }

  /** States sharing a palette stream are classified palette or better: a stream shared
      under a transform comes from one bijection for the whole state, and that
      recolours every frame. */
  lemma SharedPaletteIsMatch(ls: IconState, rs: IconState, minimum: real, t: Transform)
    requires Comparable(ls, rs) && SmallState(ls) && SmallState(rs) && |ls.images| > 0
    requires Covers(ls.dirs, t) && Covers(ls.dirs, Identity)
    requires PaletteStreamOf(ls, Identity) == PaletteStreamOf(rs, t)
    ensures MatchRank(ImageMatch(ls, rs, minimum)) <= 3
  {
    hide Covers, ValidState, SmallState, CellAt, ImageMatch, ShownAt, PaletteStream, Crop, MatchRank;
    var a, b := Crops(ShownList(ls, Identity)), Crops(ShownList(rs, t));
    ShownFits(ls, Identity);
    ShownFits(rs, t);
    PaletteStreamsEqual(a, b);
    PaletteIffRecolouring(Colours(a), Colours(b));
    var threshold := Threshold(minimum);
    var c := CellList(ls, rs, t, threshold);
    ListNonEmpty(ls);
    WorstRankMeaning(c);
    forall i | 0 <= i < |c|
      ensures MatchRank(c[i].kind) <= 3
    {
      FrameRecoloured(a, b, i);
      PlaceRecoloured(ls, rs, t, threshold, i);
    }
    ImageMatchAtMost(ls, rs, minimum, t);
  }

  lemma PlaceRecoloured(ls: IconState, rs: IconState, t: Transform, threshold: real, i: nat)
    requires Comparable(ls, rs) && Covers(ls.dirs, t) && Covers(ls.dirs, Identity)
    requires i < |CellList(ls, rs, t, threshold)|
    requires var a, b := Crops(ShownList(ls, Identity))[i], Crops(ShownList(rs, t))[i];
             && SameShape(a, b) && Fits(a) && Fits(b)
             && (a.Some? ==> PaletteEqual(a.value.px, b.value.px))
    ensures MatchRank(CellList(ls, rs, t, threshold)[i].kind) <= 3
  {
    hide Cell, Shown, OrderedDirs, Crop, Normal, Index, Covers, MatchRank, ShownAt, CellAt, PaletteEqual;
    var f, k := PlaceOf(|OrderedDirs(ls.dirs)|, |ls.images|, i);
    CellListAt(ls, rs, t, threshold, f, k);
    ShownListAt(ls, Identity, f, k);
    ShownListAt(rs, t, f, k);
    CellRecoloured(ls, rs, t, threshold, f, k);
  }

  lemma CellRecoloured(ls: IconState, rs: IconState, t: Transform, threshold: real, f: nat, k: nat)
    requires Comparable(ls, rs) && Covers(ls.dirs, t) && Covers(ls.dirs, Identity)
    requires f < |ls.images| && k < |OrderedDirs(ls.dirs)|
    requires var a, b := Crop(Shown(ls, Identity, f, k)), Crop(Shown(rs, t, f, k));
             && SameShape(a, b) && Fits(a) && Fits(b)
             && (a.Some? ==> PaletteEqual(a.value.px, b.value.px))
    ensures OrderedDirs(ls.dirs)[k] in OrderedDirs(ls.dirs)
    ensures MatchRank(Cell(ls, rs, t, threshold, f, OrderedDirs(ls.dirs)[k]).kind) <= 3
  {
    var d := OrderedDirs(ls.dirs)[k];
    var r := SourceOf(rs.dirs, t, k);
    IdentitySource(ls.dirs, d);
    assert Normal(ls.images[f][d]) && Normal(rs.images[f][r]);
    hide Aligned, Turned, Promote, OrderedDirs, Crop, SourceDir, Normal, Covers, PaletteEqual, MatchRank;
    CropIdentity(ls.images[f][d]);
    RecolouredRank(ls.images[f][d], Turned(rs.images[f][r], t), t, threshold);
  }

  // --------------------------------------------------------- candidate signatures

  /** A 64-bit word, lowest bit first. */
  type Word = w: seq<bool> | |w| == 64 witness seq(64, _ => false)

  /** Digests are taken to tell different streams apart. */
  datatype Signature =
    | ExactSignature(exact: seq<Byte>)
    | CroppedSignature(cropped: seq<Byte>)
    | PaletteSignature(palette: seq<Byte>)
    | PerceptualSignature(band: nat, bits: seq<bool>)

  function RotateLeft7(w: Word): Word {
    w[57..] + w[..57]
  }

  /** Every bit moves seven places up, the uppermost ones to the bottom. */
  lemma RotateMeaning(w: Word, i: nat)
    requires i < 64
    ensures RotateLeft7(w)[(i + 7) % 64] == w[i]
  {
  }

  function Xor(a: Word, b: Word): Word {
    seq(64, i requires 0 <= i < 64 => a[i] != b[i])
  }

  function SampleCoordinate(sample: nat, size: nat): (c: nat)
    requires size > 0
    ensures c < size
  {
    Min(sample * size / 8, size - 1)
  }

  /** Whether the sampled pixel is visible and not black. */
  function Sample(g: Grid, i: nat): bool
    requires Sized(g) && g.w > 0 && g.h > 0
  {
    var p := At(g, SampleCoordinate(i % 8, g.w), SampleCoordinate(i / 8, g.h));
    p.a != 0 && p.r * 54 + p.g * 183 + p.b * 19 != 0
  }

  /** Each of eight by eight samples asks whether the pixel there is neither invisible nor
      black. */
  lemma SampleMeaning(g: Grid, x: nat, y: nat)
    requires Sized(g) && g.w > 0 && g.h > 0 && x < 8 && y < 8
    ensures x * g.w / 8 < g.w && y * g.h / 8 < g.h
    ensures var p := At(g, x * g.w / 8, y * g.h / 8);
            Sample(g, y * 8 + x) <==> p.a != 0 && (p.r != 0 || p.g != 0 || p.b != 0)
  {
    hide At;
    InEighth(x, g.w);
    InEighth(y, g.h);
    var p := At(g, x * g.w / 8, y * g.h / 8);
    assert p.r * 54 + p.g * 183 + p.b * 19 == 0 <==> p.r == 0 && p.g == 0 && p.b == 0;
  }

  lemma InEighth(k: nat, size: nat)
    requires k < 8 && size > 0
    ensures k * size / 8 < size && SampleCoordinate(k, size) == k * size / 8
  {
    assert k * size <= 7 * size;
  }

  function PerceptualWord(g: Grid): Word
    requires Sized(g) && g.w > 0 && g.h > 0
  {
    seq(64, i requires 0 <= i < 64 => Sample(g, i))
  }

  ghost predicate Hashable(frames: seq<Frame>) {
    forall i :: 0 <= i < |frames| ==>
      && Normal(frames[i]) && 0 < frames[i].grid.w < TWO32 && 0 < frames[i].grid.h < TWO32
  }

  function ExactBytes(g: Grid): seq<Byte> {
    Le32(g.w) + Le32(g.h) + Flatten(PixelRecords(g.px))
  }

  ghost function ExactStream(frames: seq<Frame>): seq<Byte> {
    if frames == [] then []
    else ExactStream(frames[..|frames| - 1]) + ExactBytes(frames[|frames| - 1].grid)
  }

  ghost function Perceptual(frames: seq<Frame>): Word
    requires Hashable(frames)
  {
    if frames == [] then seq(64, _ => false)
    else Xor(RotateLeft7(Perceptual(frames[..|frames| - 1])), PerceptualWord(frames[|frames| - 1].grid))
  }

  /** The images that flip bit `i` of the combined word. */
  ghost function Setting(frames: seq<Frame>, i: nat): (r: set<nat>)
    requires Hashable(frames)
    ensures forall k :: k in r ==> k < |frames|
  {
    set k: nat | k < |frames| && Sample(frames[k].grid, (i - 7 * (|frames| - 1 - k)) % 64)
  }

  lemma Turned64(i: nat, x: nat)
    requires i < 64
    ensures ((i + 57) % 64 - x) % 64 == (i - 7 - x) % 64
  {
  }

  lemma SettingSnoc(frames: seq<Frame>, i: nat)
    requires Hashable(frames) && frames != [] && i < 64
    ensures var n := |frames| - 1;
            Setting(frames, i) == Setting(frames[..n], (i + 57) % 64) + if Sample(frames[n].grid, i) then {n} else {}
  {
    hide Sample;
    var n := |frames| - 1;
    var rest := frames[..n];
    forall k: nat | k < n
      ensures Sample(rest[k].grid, ((i + 57) % 64 - 7 * (n - 1 - k)) % 64) <==> Sample(frames[k].grid, (i - 7 * (n - k)) % 64)
    {
      Turned64(i, 7 * (n - 1 - k));
    }
  }

  /** A bit of the combined word is set when an odd number of images set it, each seven
      places further down than the next. */
  lemma {:induction false} PerceptualMeaning(frames: seq<Frame>, i: nat)
    requires Hashable(frames) && i < 64
    ensures Perceptual(frames)[i] <==> |Setting(frames, i)| % 2 == 1
    decreases |frames|
  {
    hide Sample, Perceptual, Hashable, Setting;
    if frames == [] {
      NothingSet(frames, i);
    } else {
      var init := frames[..|frames| - 1];
      InitHashable(frames);
      PerceptualMeaning(init, (i + 57) % 64);
      SettingSnoc(frames, i);
      PerceptualSnoc(frames, i);
    }
  }

  lemma NothingSet(frames: seq<Frame>, i: nat)
    requires frames == [] && i < 64
    ensures Hashable(frames) && Setting(frames, i) == {} && !Perceptual(frames)[i]
  {
  }

  lemma PerceptualSnoc(frames: seq<Frame>, i: nat)
    requires Hashable(frames) && frames != [] && i < 64
    ensures Hashable(frames[..|frames| - 1]) && Sized(frames[|frames| - 1].grid)
    ensures frames[|frames| - 1].grid.w > 0 && frames[|frames| - 1].grid.h > 0
    ensures Perceptual(frames)[i]
       <==> Perceptual(frames[..|frames| - 1])[(i + 57) % 64] != Sample(frames[|frames| - 1].grid, i)
  {
    hide Sample, RotateLeft7, PerceptualWord, Xor, Hashable, Sized, Perceptual;
    InitHashable(frames);
    PerceptualStep(frames);
    var w, v := Perceptual(frames[..|frames| - 1]), PerceptualWord(frames[|frames| - 1].grid);
    RotateMeaning(w, (i + 57) % 64);
    WordBit(frames[|frames| - 1].grid, i);
    XorBit(RotateLeft7(w), v, i);
  }

  lemma PerceptualStep(frames: seq<Frame>)
    requires Hashable(frames) && frames != []
    ensures Hashable(frames[..|frames| - 1]) && Sized(frames[|frames| - 1].grid)
    ensures frames[|frames| - 1].grid.w > 0 && frames[|frames| - 1].grid.h > 0
    ensures Perceptual(frames)
         == Xor(RotateLeft7(Perceptual(frames[..|frames| - 1])), PerceptualWord(frames[|frames| - 1].grid))
  {
    hide RotateLeft7, PerceptualWord, Xor, Hashable;
    InitHashable(frames);
  }

  lemma XorBit(a: Word, b: Word, i: nat)
    requires i < 64
    ensures Xor(a, b)[i] <==> a[i] != b[i]
  {
  }

  lemma WordBit(g: Grid, i: nat)
    requires Sized(g) && g.w > 0 && g.h > 0 && i < 64
    ensures PerceptualWord(g)[i] == Sample(g, i)
  {
    hide Sample;
  }

  lemma InitHashable(frames: seq<Frame>)
    requires Hashable(frames) && frames != []
    ensures Hashable(frames[..|frames| - 1]) && Sized(frames[|frames| - 1].grid)
    ensures frames[|frames| - 1].grid.w > 0 && frames[|frames| - 1].grid.h > 0
  {
  }

  function Band(w: Word, band: nat): seq<bool>
    requires band < 4
  {
    w[band * 16..band * 16 + 16]
  }

  function SignatureBundle(exact: seq<Byte>, cropped: seq<Byte>, palette: seq<Byte>, word: Word): set<Signature> {
    {ExactSignature(exact), CroppedSignature(cropped), PaletteSignature(palette),
     PerceptualSignature(0, Band(word, 0)), PerceptualSignature(1, Band(word, 1)),
     PerceptualSignature(2, Band(word, 2)), PerceptualSignature(3, Band(word, 3))}
  }

  ghost function BundleOf(frames: seq<Frame>): set<Signature>
    requires Hashable(frames)
  {
    SignatureBundle(ExactStream(frames), CroppedStream(Crops(frames)), PaletteStream(Crops(frames)), Perceptual(frames))
  }

  /** A state whose images have positive sides of at most 32 bits. */
  ghost predicate HashableState(s: IconState) {
    && SmallState(s)
    && forall f, d :: 0 <= f < |s.images| && d in OrderedDirs(s.dirs)
         ==> s.images[f][d].grid.w > 0 && s.images[f][d].grid.h > 0
  }

  lemma ShownHashable(s: IconState, t: Transform)
    requires HashableState(s) && Covers(s.dirs, t)
    ensures Hashable(ShownList(s, t))
  {
    hide ShownList, Covers, OrderedDirs, Index, Normal, SourceDir;
    var frames := ShownList(s, t);
    forall i | 0 <= i < |frames|
      ensures Normal(frames[i]) && 0 < frames[i].grid.w < TWO32 && 0 < frames[i].grid.h < TWO32
    {
      var f, k := PlaceOf(|OrderedDirs(s.dirs)|, |s.images|, i);
      ShownListAt(s, t, f, k);
      var r := SourceOf(s.dirs, t, k);
      assert frames[i] == Turned(s.images[f][r], t);
    }
  }

  ghost function ShownOf(s: IconState, t: Transform): (frames: seq<Frame>)
    requires HashableState(s) && Usable(s, t)
    ensures Hashable(frames)
  {
    if |s.images| == 0 then []
    else
      ShownHashable(s, t);
      ShownList(s, t)
  }

  /** The signatures of a state under the first `n` transforms. */
  ghost function SignaturesUpTo(s: IconState, n: nat): set<Signature>
    requires HashableState(s) && n <= |TRANSFORMS|
  {
    if n == 0 then {}
    else
      SignaturesUpTo(s, n - 1)
        + if Usable(s, TRANSFORMS[n - 1]) then BundleOf(ShownOf(s, TRANSFORMS[n - 1])) else {}
  }

  ghost function Signatures(s: IconState): set<Signature>
    requires HashableState(s)
  {
    SignaturesUpTo(s, |TRANSFORMS|)
  }

  /** `g` is a signature of the state under the `k`th transform. */
  ghost predicate SignedBy(s: IconState, k: nat, g: Signature)
    requires HashableState(s)
  {
    k < |TRANSFORMS| && Usable(s, TRANSFORMS[k]) && g in BundleOf(ShownOf(s, TRANSFORMS[k]))
  }

  lemma SignaturesStep(s: IconState, n: nat, g: Signature)
    requires HashableState(s) && 0 < n <= |TRANSFORMS|
    ensures g in SignaturesUpTo(s, n) <==> g in SignaturesUpTo(s, n - 1) || SignedBy(s, n - 1, g)
  {
    hide BundleOf, ShownOf, Usable;
  }

  lemma {:induction false} SignaturesMeaning(s: IconState, n: nat, g: Signature)
    requires HashableState(s) && n <= |TRANSFORMS|
    ensures g in SignaturesUpTo(s, n) <==> exists k: nat :: k < n && SignedBy(s, k, g)
  {
    hide SignedBy, HashableState;
    if n > 0 {
      SignaturesStep(s, n, g);
      SignaturesMeaning(s, n - 1, g);
      hide SignaturesUpTo;
      if k: nat :| k < n && SignedBy(s, k, g) {
        assert k < n - 1 || k == n - 1;
      }
    }
  }

  // ------------------------------------------- when a palette signature is shared

  /** Under the two transforms, one alpha-preserving bijection of colours, the same for all
      frames and directions, turns what one state shows into what the other shows. */
  ghost predicate RecolouredUnder(ls: IconState, rs: IconState, t: Transform, u: Transform)
    requires HashableState(ls) && HashableState(rs) && Usable(ls, t) && Usable(rs, u)
  {
    StateRecoloured(Crops(ShownOf(ls, t)), Crops(ShownOf(rs, u)))
  }

  ghost predicate SomeRecolouring(ls: IconState, rs: IconState)
    requires HashableState(ls) && HashableState(rs)
  {
    exists t, u :: Usable(ls, t) && Usable(rs, u) && RecolouredUnder(ls, rs, t, u)
  }

  ghost predicate SharesPalette(ls: IconState, rs: IconState)
    requires HashableState(ls) && HashableState(rs)
  {
    exists p :: PaletteSignature(p) in Signatures(ls) && PaletteSignature(p) in Signatures(rs)
  }

  lemma ShownOfFits(s: IconState, t: Transform)
    requires HashableState(s) && Usable(s, t)
    ensures AllFit(Crops(ShownOf(s, t)))
  {
    hide ShownList, Crop, Covers;
    if |s.images| > 0 {
      ShownFits(s, t);
    }
  }

  /** The palette signatures of a state are its palette streams under its usable transforms. */
  lemma PaletteSigned(s: IconState, p: seq<Byte>)
    requires HashableState(s)
    ensures PaletteSignature(p) in Signatures(s)
       <==> exists t :: Usable(s, t) && p == PaletteStream(Crops(ShownOf(s, t)))
  {
    hide SignaturesUpTo, HashableState, Usable, ShownOf, PaletteStream, ExactStream, CroppedStream, Perceptual;
    var g := PaletteSignature(p);
    SignaturesMeaning(s, |TRANSFORMS|, g);
    if g in Signatures(s) {
      var k: nat :| k < |TRANSFORMS| && SignedBy(s, k, g);
      assert p == PaletteStream(Crops(ShownOf(s, TRANSFORMS[k])));
    }
    if t :| Usable(s, t) && p == PaletteStream(Crops(ShownOf(s, t))) {
      var k := TransformListed(t);
      assert SignedBy(s, k, g);
    }
  }

  /** Two states share a palette signature exactly when, under some pair of transforms, one
      colour bijection valid across all their frames relates them. */
  lemma PaletteSharedIff(ls: IconState, rs: IconState)
    requires HashableState(ls) && HashableState(rs)
    ensures SharesPalette(ls, rs) <==> SomeRecolouring(ls, rs)
  {
    hide Signatures, HashableState, Usable, ShownOf, PaletteStream, StateRecoloured, AllFit, Crops;
    if p :| PaletteSignature(p) in Signatures(ls) && PaletteSignature(p) in Signatures(rs) {
      PaletteSigned(ls, p);
      PaletteSigned(rs, p);
      var t :| Usable(ls, t) && p == PaletteStream(Crops(ShownOf(ls, t)));
      var u :| Usable(rs, u) && p == PaletteStream(Crops(ShownOf(rs, u)));
      PaletteStreamsAgree(ls, rs, t, u);
    }
    if t, u :| Usable(ls, t) && Usable(rs, u) && RecolouredUnder(ls, rs, t, u) {
      PaletteStreamsAgree(ls, rs, t, u);
      var p := PaletteStream(Crops(ShownOf(ls, t)));
      PaletteSigned(ls, p);
      PaletteSigned(rs, p);
    }
  }

  lemma PaletteStreamsAgree(ls: IconState, rs: IconState, t: Transform, u: Transform)
    requires HashableState(ls) && HashableState(rs) && Usable(ls, t) && Usable(rs, u)
    ensures PaletteStream(Crops(ShownOf(ls, t))) == PaletteStream(Crops(ShownOf(rs, u)))
       <==> RecolouredUnder(ls, rs, t, u)
  {
    hide HashableState, Usable, ShownOf, PaletteStream, StateRecoloured, AllFit, Crops;
    ShownOfFits(ls, t);
    ShownOfFits(rs, u);
    PaletteStreamsEqual(Crops(ShownOf(ls, t)), Crops(ShownOf(rs, u)));
  }

  // ------------------------------------ when an exact or a cropped signature is shared

  function GridsOf(frames: seq<Frame>): seq<Grid> {
    seq(|frames|, i requires 0 <= i < |frames| => frames[i].grid)
  }

  function ExactBlocks(grids: seq<Grid>): seq<Block> {
    seq(|grids|, i requires 0 <= i < |grids| => Filled(grids[i].w, grids[i].h, PixelRecords(grids[i].px)))
  }

  lemma {:induction false} ExactIsStream(frames: seq<Frame>)
    ensures ExactStream(frames) == Stream(ExactBlocks(GridsOf(frames)))
  {
    hide PixelRecords, Le32;
    if frames != [] {
      var n := |frames| - 1;
      ExactIsStream(frames[..n]);
      var g := frames[n].grid;
      var blocks := ExactBlocks(GridsOf(frames[..n]));
      StreamSnoc(blocks, Filled(g.w, g.h, PixelRecords(g.px)));
      assert ExactBlocks(GridsOf(frames)) == blocks + [Filled(g.w, g.h, PixelRecords(g.px))];
    }
  }

  lemma ExactBlocksOk(frames: seq<Frame>)
    requires Hashable(frames)
    ensures forall i :: 0 <= i < |frames| ==> BlockOk(ExactBlocks(GridsOf(frames))[i], 4)
  {
    hide Tight;
  }

  lemma ExactBlocksEqual(a: seq<Grid>, b: seq<Grid>)
    requires ExactBlocks(a) == ExactBlocks(b)
    ensures a == b
  {
    hide PixelRecords;
    assert |a| == |ExactBlocks(a)| == |ExactBlocks(b)| == |b|;
    forall i | 0 <= i < |a|
      ensures a[i] == b[i]
    {
      assert ExactBlocks(a)[i] == ExactBlocks(b)[i];
      CroppedBlockInjective(Some(a[i]), Some(b[i]));
    }
  }

  /** Two exact streams are equal exactly when all images are. */
  lemma ExactStreamsEqual(a: seq<Frame>, b: seq<Frame>)
    requires Hashable(a) && Hashable(b)
    ensures ExactStream(a) == ExactStream(b) <==> GridsOf(a) == GridsOf(b)
  {
    hide Hashable, ExactStream;
    ExactIsStream(a);
    ExactIsStream(b);
    if ExactStream(a) == ExactStream(b) {
      ExactBlocksOk(a);
      ExactBlocksOk(b);
      StreamInjective(ExactBlocks(GridsOf(a)), ExactBlocks(GridsOf(b)), 4);
      ExactBlocksEqual(GridsOf(a), GridsOf(b));
    }
  }

  /** Under the two transforms the states show the same images. */
  ghost predicate SameUnder(ls: IconState, rs: IconState, t: Transform, u: Transform)
    requires HashableState(ls) && HashableState(rs) && Usable(ls, t) && Usable(rs, u)
  {
    GridsOf(ShownOf(ls, t)) == GridsOf(ShownOf(rs, u))
  }

  /** Under the two transforms the visible parts that the states show are the same. */
  ghost predicate SameCropsUnder(ls: IconState, rs: IconState, t: Transform, u: Transform)
    requires HashableState(ls) && HashableState(rs) && Usable(ls, t) && Usable(rs, u)
  {
    Crops(ShownOf(ls, t)) == Crops(ShownOf(rs, u))
  }

  lemma ExactSigned(s: IconState, e: seq<Byte>)
    requires HashableState(s)
    ensures ExactSignature(e) in Signatures(s) <==> exists t :: Usable(s, t) && e == ExactStream(ShownOf(s, t))
    ensures CroppedSignature(e) in Signatures(s) <==> exists t :: Usable(s, t) && e == CroppedStream(Crops(ShownOf(s, t)))
  {
    hide SignaturesUpTo, HashableState, Usable, ShownOf, PaletteStream, ExactStream, CroppedStream, Perceptual;
    SignaturesMeaning(s, |TRANSFORMS|, ExactSignature(e));
    SignaturesMeaning(s, |TRANSFORMS|, CroppedSignature(e));
    if t :| Usable(s, t) && e == ExactStream(ShownOf(s, t)) {
      var k := TransformListed(t);
      assert SignedBy(s, k, ExactSignature(e));
    }
    if t :| Usable(s, t) && e == CroppedStream(Crops(ShownOf(s, t))) {
      var k := TransformListed(t);
      assert SignedBy(s, k, CroppedSignature(e));
    }
  }

  ghost predicate SharesExact(ls: IconState, rs: IconState)
    requires HashableState(ls) && HashableState(rs)
  {
    exists e :: ExactSignature(e) in Signatures(ls) && ExactSignature(e) in Signatures(rs)
  }

  ghost predicate SharesCropped(ls: IconState, rs: IconState)
    requires HashableState(ls) && HashableState(rs)
  {
    exists e :: CroppedSignature(e) in Signatures(ls) && CroppedSignature(e) in Signatures(rs)
  }

  /** Two states share an exact signature exactly when, under some pair of transforms, they
      show the same images. */
  lemma ExactSharedIff(ls: IconState, rs: IconState)
    requires HashableState(ls) && HashableState(rs)
    ensures SharesExact(ls, rs) <==> exists t, u :: Usable(ls, t) && Usable(rs, u) && SameUnder(ls, rs, t, u)
  {
    hide Signatures, HashableState, Usable, ShownOf, ExactStream, CroppedStream, Crops, GridsOf;
    if e :| ExactSignature(e) in Signatures(ls) && ExactSignature(e) in Signatures(rs) {
      ExactSigned(ls, e);
      ExactSigned(rs, e);
      var t :| Usable(ls, t) && e == ExactStream(ShownOf(ls, t));
      var u :| Usable(rs, u) && e == ExactStream(ShownOf(rs, u));
      ExactStreamsEqual(ShownOf(ls, t), ShownOf(rs, u));
      assert SameUnder(ls, rs, t, u);
    }
    if t, u :| Usable(ls, t) && Usable(rs, u) && SameUnder(ls, rs, t, u) {
      ExactStreamsEqual(ShownOf(ls, t), ShownOf(rs, u));
      var e := ExactStream(ShownOf(ls, t));
      ExactSigned(ls, e);
      ExactSigned(rs, e);
    }
  }

  /** And a cropped signature exactly when they show the same visible parts. */
  lemma CroppedSharedIff(ls: IconState, rs: IconState)
    requires HashableState(ls) && HashableState(rs)
    ensures SharesCropped(ls, rs) <==> exists t, u :: Usable(ls, t) && Usable(rs, u) && SameCropsUnder(ls, rs, t, u)
  {
    hide Signatures, HashableState, Usable, ShownOf, ExactStream, CroppedStream, Crops, AllFit;
    if e :| CroppedSignature(e) in Signatures(ls) && CroppedSignature(e) in Signatures(rs) {
      ExactSigned(ls, e);
      ExactSigned(rs, e);
      var t :| Usable(ls, t) && e == CroppedStream(Crops(ShownOf(ls, t)));
      var u :| Usable(rs, u) && e == CroppedStream(Crops(ShownOf(rs, u)));
      ShownOfFits(ls, t);
      ShownOfFits(rs, u);
      CroppedStreamsEqual(Crops(ShownOf(ls, t)), Crops(ShownOf(rs, u)));
      assert SameCropsUnder(ls, rs, t, u);
    }
    if t, u :| Usable(ls, t) && Usable(rs, u) && SameCropsUnder(ls, rs, t, u) {
      var e := CroppedStream(Crops(ShownOf(ls, t)));
      ExactSigned(ls, e);
      ExactSigned(rs, e);
    }
  }

  ghost predicate SharesBand(ls: IconState, rs: IconState)
    requires HashableState(ls) && HashableState(rs)
  {
    exists b, bits :: PerceptualSignature(b, bits) in Signatures(ls) && PerceptualSignature(b, bits) in Signatures(rs)
  }

  /** The words agree in one of their quarters. */
  predicate AgreeIn(v: Word, w: Word, b: nat) {
    b < 4 && forall i :: b * 16 <= i < b * 16 + 16 ==> v[i] == w[i]
  }

  ghost predicate AgreeUnder(ls: IconState, rs: IconState, t: Transform, u: Transform, b: nat)
    requires HashableState(ls) && HashableState(rs) && Usable(ls, t) && Usable(rs, u)
  {
    AgreeIn(Perceptual(ShownOf(ls, t)), Perceptual(ShownOf(rs, u)), b)
  }

  lemma BandsAgree(v: Word, w: Word, b: nat)
    requires b < 4
    ensures Band(v, b) == Band(w, b) <==> AgreeIn(v, w, b)
  {
    assert forall i :: 0 <= i < 16 ==> Band(v, b)[i] == v[b * 16 + i] && Band(w, b)[i] == w[b * 16 + i];
    if AgreeIn(v, w, b) {
      assert Band(v, b) == Band(w, b);
    }
    if Band(v, b) == Band(w, b) {
      forall i | b * 16 <= i < b * 16 + 16 ensures v[i] == w[i] {
        assert Band(v, b)[i - b * 16] == Band(w, b)[i - b * 16];
      }
    }
  }

  lemma BandIn(exact: seq<Byte>, cropped: seq<Byte>, palette: seq<Byte>, w: Word, b: nat, bits: seq<bool>)
    ensures PerceptualSignature(b, bits) in SignatureBundle(exact, cropped, palette, w) <==> b < 4 && bits == Band(w, b)
  {
  }

  lemma BandSigned(s: IconState, b: nat, bits: seq<bool>)
    requires HashableState(s)
    ensures PerceptualSignature(b, bits) in Signatures(s)
       <==> b < 4 && exists t :: Usable(s, t) && bits == Band(Perceptual(ShownOf(s, t)), b)
  {
    hide SignaturesUpTo, HashableState, Usable, ShownOf, PaletteStream, ExactStream, CroppedStream, Perceptual, Band;
    hide SignatureBundle;
    var g := PerceptualSignature(b, bits);
    SignaturesMeaning(s, |TRANSFORMS|, g);
    if g in Signatures(s) {
      var k: nat :| k < |TRANSFORMS| && SignedBy(s, k, g);
      var frames := ShownOf(s, TRANSFORMS[k]);
      BandIn(ExactStream(frames), CroppedStream(Crops(frames)), PaletteStream(Crops(frames)), Perceptual(frames), b, bits);
    }
    if t :| b < 4 && Usable(s, t) && bits == Band(Perceptual(ShownOf(s, t)), b) {
      var k := TransformListed(t);
      var frames := ShownOf(s, t);
      BandIn(ExactStream(frames), CroppedStream(Crops(frames)), PaletteStream(Crops(frames)), Perceptual(frames), b, bits);
      assert SignedBy(s, k, g);
    }
  }

  /** And one of the four sampled signatures exactly when a quarter of their words agrees. */
  lemma BandSharedIff(ls: IconState, rs: IconState)
    requires HashableState(ls) && HashableState(rs)
    ensures SharesBand(ls, rs)
       <==> exists t, u, b :: Usable(ls, t) && Usable(rs, u) && AgreeUnder(ls, rs, t, u, b)
  {
    hide Signatures, HashableState, Usable, ShownOf, Perceptual, Band, AgreeIn;
    if b, bits :| PerceptualSignature(b, bits) in Signatures(ls) && PerceptualSignature(b, bits) in Signatures(rs) {
      BandSigned(ls, b, bits);
      BandSigned(rs, b, bits);
      var t :| Usable(ls, t) && bits == Band(Perceptual(ShownOf(ls, t)), b);
      var u :| Usable(rs, u) && bits == Band(Perceptual(ShownOf(rs, u)), b);
      BandsAgree(Perceptual(ShownOf(ls, t)), Perceptual(ShownOf(rs, u)), b);
      assert AgreeUnder(ls, rs, t, u, b);
    }
    if t, u, b :| Usable(ls, t) && Usable(rs, u) && AgreeUnder(ls, rs, t, u, b) {
      QuarterBound(Perceptual(ShownOf(ls, t)), Perceptual(ShownOf(rs, u)), b);
      BandsAgree(Perceptual(ShownOf(ls, t)), Perceptual(ShownOf(rs, u)), b);
      var bits := Band(Perceptual(ShownOf(ls, t)), b);
      BandSigned(ls, b, bits);
      BandSigned(rs, b, bits);
    }
  }

  lemma QuarterBound(v: Word, w: Word, b: nat)
    requires AgreeIn(v, w, b)
    ensures b < 4
  {
  }

  /** Two states whose pixels match unchanged share a signature. */
  lemma UnchangedShareSignature(ls: IconState, rs: IconState, minimum: real)
    requires Comparable(ls, rs) && HashableState(ls) && HashableState(rs)
    requires Unchanged(ImageMatch(ls, rs, minimum))
    ensures Signatures(ls) * Signatures(rs) != {}
  {
    hide ImageMatch, Covers, ShownList, CroppedStream, SignaturesUpTo, WorstRank, Threshold;
    if |ls.images| == 0 {
      var t := ImageMatchReached(ls, rs, minimum);
      UnchangedRank(ImageMatch(ls, rs, minimum));
      EmptyRank();
      assert false;
    } else {
      UnchangedIffShared(ls, rs, minimum);
      var t :| Covers(ls.dirs, t) && CropStreamOf(ls, Identity) == CropStreamOf(rs, t);
      var g := CroppedSignature(CropStreamOf(ls, Identity));
      var i := TransformListed(Identity);
      var j := TransformListed(t);
      assert SignedBy(ls, i, g) && SignedBy(rs, j, g);
      SignaturesMeaning(ls, |TRANSFORMS|, g);
      SignaturesMeaning(rs, |TRANSFORMS|, g);
      assert g in Signatures(ls) * Signatures(rs);
    }
  }

  lemma EmptyRank()
    ensures WorstRank([]) == 5
  {
  }
}
