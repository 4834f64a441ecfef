/** A palette match that the duplicate index does not find (src/spaceman/dmi.rs). The index
    numbers the colours of a state once for all its images, while comparison numbers them
    anew for every pair of frames; recolouring one animation frame of a one-pixel state is
    therefore classified as a palette match although no signature is shared. */
module MissedPalette {
  import opened Basics
  import opened Frames
  import opened Comparison
  import opened Streams
  import opened Candidates

  // -------------------------------------------------- a match the index misses

  const RED := Pixel(255, 0, 0, 255)
  const BLACK := Pixel(0, 0, 0, 255)

  function Dot(p: Pixel): Frame {
    Frame(Grid(1, 1, [p]), Some(Bounds(0, 0, 0, 0)))
  }

  /** A one-direction state whose two animation frames are single opaque pixels. */
  function Blink(p: Pixel, q: Pixel): IconState {
    IconState(One, [map[South := Dot(p)], map[South := Dot(q)]])
  }

  lemma DotNormal(p: Pixel)
    requires p.a == 255
    ensures Normal(Dot(p))
  {
    var g := Dot(p).grid;
    assert g.px[0] == p && At(g, 0, 0) == p;
    assert Visible(g, 0, 0);
    assert TouchesX(g, 0) && TouchesY(g, 0);
  }

  lemma DotTurn(p: Pixel, t: Transform)
    ensures Turn(Grid(1, 1, [p]), t) == Grid(1, 1, [p])
  {
    hide SourceIndex;
    var r := Turn(Grid(1, 1, [p]), t);
    assert |r.px| == 1;
    assert r.px[0] == [p][SourceIndex(t, 1, 1, 0)];
    assert r.px == [p];
  }

  lemma DotCrop(p: Pixel)
    ensures CropGrid(Grid(1, 1, [p]), Bounds(0, 0, 0, 0)) == Grid(1, 1, [p])
  {
    var g, v := Grid(1, 1, [p]), Bounds(0, 0, 0, 0);
    CropAt(g, v, 0, 0);
    hide CropGrid;
    var c := CropGrid(g, v);
    assert |c.px| == 1 && c.px[0] == p;
    assert c.px == [p];
  }

  lemma DotTurned(p: Pixel, t: Transform)
    requires p.a == 255
    ensures Normal(Dot(p)) && Turned(Dot(p), t) == Dot(p)
    ensures Crop(Dot(p)) == Some(Grid(1, 1, [p]))
  {
    hide Normal, Turn, CropGrid;
    DotNormal(p);
    DotTurn(p, t);
    DotCrop(p);
  }

  lemma BlinkValid(p: Pixel, q: Pixel)
    requires p.a == 255 && q.a == 255
    ensures HashableState(Blink(p, q))
  {
    DotNormal(p);
    DotNormal(q);
    hide Normal;
    assert OrderedDirs(One) == [South];
  }

  lemma SouthSource(t: Transform)
    requires Covers(One, t)
    ensures SourceDir(One, t, South) == Some(South)
  {
    assert OrderedDirs(One)[0] == South;
    assert South in OrderedDirs(One);
  }

  lemma BlinkUsable(t: Transform)
    requires t == Identity || t == MirrorHorizontal
    ensures Covers(One, t) && SourceDir(One, t, South) == Some(South)
    ensures |OrderedDirs(One)| == 1 && OrderedDirs(One)[0] == South
  {
    CoversMeaning(One, t);
    SouthSource(t);
  }

  lemma ShownIs(s: IconState, t: Transform, f: nat, k: nat, r: Dir)
    requires ValidState(s) && Covers(s.dirs, t) && f < |s.images| && k < |OrderedDirs(s.dirs)|
    requires SourceDir(s.dirs, t, OrderedDirs(s.dirs)[k]) == Some(r)
    ensures r in s.images[f] && Normal(s.images[f][r])
    ensures Shown(s, t, f, k) == Turned(s.images[f][r], t)
  {
    hide OrderedDirs, Covers, SourceDir, Turned, Normal;
    assert OrderedDirs(s.dirs)[k] in OrderedDirs(s.dirs);
  }

  lemma TwoImages(s: IconState, t: Transform)
    requires ValidState(s) && Covers(s.dirs, t) && |s.images| == 2 && |OrderedDirs(s.dirs)| == 1
    ensures ShownList(s, t) == [Shown(s, t, 0, 0), Shown(s, t, 1, 0)]
  {
    hide Shown, ShownList, Covers, ValidState, OrderedDirs;
    ShownListAt(s, t, 0, 0);
    ShownListAt(s, t, 1, 0);
    assert Index(1, 0, 0) == 0 && Index(1, 0, 1) == 1;
    var list := ShownList(s, t);
    assert |list| == 2;
    assert list == [list[0], list[1]];
  }

  lemma BlinkShown(p: Pixel, q: Pixel, t: Transform)
    requires p.a == 255 && q.a == 255 && (t == Identity || t == MirrorHorizontal)
    ensures HashableState(Blink(p, q)) && Usable(Blink(p, q), t)
    ensures ShownOf(Blink(p, q), t) == [Dot(p), Dot(q)]
  {
    hide Turned, Normal, Covers, SourceDir, OrderedDirs, Shown, ShownList, Dot;
    BlinkUsable(t);
    BlinkValid(p, q);
    var s := Blink(p, q);
    hide HashableState, SmallState, ValidState;
    BlinkStateFacts(p, q);
    ShownIs(s, t, 0, 0, South);
    ShownIs(s, t, 1, 0, South);
    DotTurned(p, t);
    DotTurned(q, t);
    TwoImages(s, t);
  }

  lemma BlinkStateFacts(p: Pixel, q: Pixel)
    requires HashableState(Blink(p, q))
    ensures ValidState(Blink(p, q)) && |Blink(p, q).images| == 2
  {
  }

  lemma OneByOne(p: Pixel, q: Pixel)
    ensures PaletteEqual([p], [q]) <==> p.a == q.a
    ensures SumOf(Zip([p], [q]), PairChanged) == 0 <==> p == q
  {
    UnchangedIffEqual([p], [q]);
    assert [p][0] == p && [q][0] == q;
  }

  lemma AlignedDots(p: Pixel, q: Pixel, t: Transform)
    requires p.a == 255 && q.a == 255
    ensures Normal(Dot(p)) && Normal(Dot(q))
    ensures Aligned(Dot(p), Dot(q), t).kind
         == if p != q then Palette else if t != Identity then Transformed else Exact
  {
    hide Normal, Turned, Crop, PaletteEqual, PairChanged, PairDelta, PairMax, Similarity, SumOf, MaxDelta, Zip;
    DotTurned(p, t);
    DotTurned(q, t);
    OneByOne(p, q);
  }

  lemma BlinkCell(p: Pixel, q: Pixel, t: Transform, threshold: real, f: nat)
    requires p.a == 255 && q.a == 255 && f < 2 && (t == Identity || t == MirrorHorizontal)
    ensures Comparable(Blink(p, p), Blink(p, q)) && Covers(One, t)
    ensures South in OrderedDirs(One)
    ensures MatchRank(Cell(Blink(p, p), Blink(p, q), t, threshold, f, South).kind)
         == if f == 1 && p != q then 3 else if t == Identity then 0 else 1
  {
    hide Aligned, Turned, Normal, Covers, SourceDir, OrderedDirs, Dot, HashableState, SmallState;
    BlinkUsable(t);
    BlinkValid(p, p);
    BlinkValid(p, q);
    BlinkStateFacts(p, p);
    BlinkStateFacts(p, q);
    hide ValidState;
    DotTurned(p, t);
    DotTurned(q, t);
    AlignedDots(p, p, t);
    AlignedDots(p, q, t);
  }

  lemma BlinkRank(p: Pixel, q: Pixel, t: Transform, threshold: real)
    requires p.a == 255 && q.a == 255 && p != q && Usable(Blink(p, p), t)
    ensures Comparable(Blink(p, p), Blink(p, q))
    ensures WorstRank(Listing(Blink(p, p), Blink(p, q), t, threshold)) == 3
  {
    hide Cell, CellAt, MatchRank, ValidState, OrderedDirs, Index;
    var ls, rs := Blink(p, p), Blink(p, q);
    CoversMeaning(One, t);
    BlinkUsable(t);
    BlinkCell(p, q, t, threshold, 0);
    BlinkCell(p, q, t, threshold, 1);
    CellListAt(ls, rs, t, threshold, 0, 0);
    CellListAt(ls, rs, t, threshold, 1, 0);
    ScanOrder(1, 1, 0, 0);
    WorstRankMeaning(CellList(ls, rs, t, threshold));
    var i :| 0 <= i < |CellList(ls, rs, t, threshold)|
      && MatchRank(CellList(ls, rs, t, threshold)[i].kind) == WorstRank(CellList(ls, rs, t, threshold));
    assert i == 0 || i == 1;
  }

  /** Changing the colour of a pixel in one animation frame only is a palette match. */
  lemma BlinkMatch(p: Pixel, q: Pixel, minimum: real)
    requires p.a == 255 && q.a == 255 && p != q
    ensures ValidState(Blink(p, p)) && ValidState(Blink(p, q))
    ensures ImageMatch(Blink(p, p), Blink(p, q), minimum) == Palette
  {
    hide Listing, WorstRank, HashableState, Usable, ImageMatch;
    BlinkValid(p, p);
    BlinkValid(p, q);
    BlinkStates(p, q);
    var t := ImageMatchReached(Blink(p, p), Blink(p, q), minimum);
    BlinkRank(p, q, t, Threshold(minimum));
  }

  lemma BlinkStates(p: Pixel, q: Pixel)
    requires HashableState(Blink(p, p)) && HashableState(Blink(p, q))
    ensures Comparable(Blink(p, p), Blink(p, q))
  {
  }

  function Lit(p: Pixel): bool {
    p.a != 0 && p.r * 54 + p.g * 183 + p.b * 19 != 0
  }

  lemma DotWord(p: Pixel)
    ensures PerceptualWord(Dot(p).grid) == seq(64, _ => Lit(p))
  {
  }

  lemma BlinkWord(p: Pixel, q: Pixel)
    requires Hashable([Dot(p), Dot(q)])
    ensures Perceptual([Dot(p), Dot(q)]) == seq(64, _ => Lit(p) != Lit(q))
  {
    hide Hashable, PerceptualWord, Normal, Lit;
    var frames := [Dot(p), Dot(q)];
    assert frames[..1] == [Dot(p)] && frames[..1][..0] == [];
    assert Hashable([Dot(p)]) && Hashable([]) by {
      HashablePrefix(frames, 1);
      HashablePrefix(frames, 0);
    }
    DotWord(p);
    DotWord(q);
    var zero: Word := seq(64, _ => false);
    assert Perceptual([Dot(p)]) == Xor(RotateLeft7(zero), PerceptualWord(Dot(p).grid));
    assert Perceptual([Dot(p)]) == seq(64, _ => Lit(p));
  }

  lemma HashablePrefix(frames: seq<Frame>, k: nat)
    requires Hashable(frames) && k <= |frames|
    ensures Hashable(frames[..k])
  {
  }

  lemma BlinkExact(p: Pixel, q: Pixel, r: Pixel)
    requires q.r != r.r
    ensures ExactStream([Dot(p), Dot(q)]) != ExactStream([Dot(p), Dot(r)])
  {
    hide Le32;
    assert [Dot(p), Dot(q)][..1] == [Dot(p)] == [Dot(p), Dot(r)][..1];
    var x := ExactStream([Dot(p)]);
    var y, z := ExactBytes(Dot(q).grid), ExactBytes(Dot(r).grid);
    DotBytes(q);
    DotBytes(r);
    assert (x + y)[|x| + 8] == q.r && (x + z)[|x| + 8] == r.r;
  }

  lemma DotBytes(p: Pixel)
    ensures |ExactBytes(Dot(p).grid)| == 12 && ExactBytes(Dot(p).grid)[8] == p.r
  {
    hide Le32;
    assert PixelRecords([p]) == [PixelBytes(p)];
    assert Flatten([PixelBytes(p)]) == PixelBytes(p) + Flatten([]);
  }

  lemma BlinkCrops(p: Pixel, q: Pixel)
    requires p.a == 255 && q.a == 255
    ensures Normal(Dot(p)) && Normal(Dot(q))
    ensures Crops([Dot(p), Dot(q)]) == [Some(Grid(1, 1, [p])), Some(Grid(1, 1, [q]))]
    ensures Colours(Crops([Dot(p), Dot(q)])) == [p, q]
    ensures AllFit(Crops([Dot(p), Dot(q)]))
  {
    hide Crop, Normal;
    DotTurned(p, Identity);
    DotTurned(q, Identity);
    var frames := [Dot(p), Dot(q)];
    assert frames[0] == Dot(p) && frames[1] == Dot(q);
    var cs := Crops(frames);
    assert cs[0] == Crop(Dot(p)) && cs[1] == Crop(Dot(q));
    assert cs == [Some(Grid(1, 1, [p])), Some(Grid(1, 1, [q]))];
    assert cs[1..] == [Some(Grid(1, 1, [q]))] && cs[1..][1..] == [];
    assert Colours([]) == [];
    assert Colours(cs[1..]) == [q] + Colours(cs[1..][1..]) == [q];
    assert Colours(cs) == [p] + Colours(cs[1..]) == [p, q];
    assert Fits(cs[0]) && Fits(cs[1]);
  }

  lemma BlinkStreams(p: Pixel, q: Pixel)
    requires p.a == 255 && q.a == 255 && p != q
    ensures Normal(Dot(p)) && Normal(Dot(q))
    ensures CroppedStream(Crops([Dot(p), Dot(p)])) != CroppedStream(Crops([Dot(p), Dot(q)]))
    ensures PaletteStream(Crops([Dot(p), Dot(p)])) != PaletteStream(Crops([Dot(p), Dot(q)]))
  {
    hide CroppedStream, PaletteStream, Crops, Colours, Normal, AllFit, SameShapes;
    BlinkCrops(p, p);
    BlinkCrops(p, q);
    var a, b := Crops([Dot(p), Dot(p)]), Crops([Dot(p), Dot(q)]);
    CroppedStreamsEqual(a, b);
    assert a[1] != b[1];
    PaletteStreamsEqual(a, b);
    forall m
      ensures !Recolours(m, [p, p], [p, q])
    {
      assert [p, p][0] == [p, p][1] && [p, q][0] != [p, q][1];
    }
  }

  lemma BundlesDisjoint(e: seq<Byte>, c: seq<Byte>, p: seq<Byte>, v: Word,
                        e': seq<Byte>, c': seq<Byte>, p': seq<Byte>, w: Word)
    requires e != e' && c != c' && p != p'
    requires forall i :: 0 <= i < 64 ==> v[i] != w[i]
    ensures SignatureBundle(e, c, p, v) * SignatureBundle(e', c', p', w) == {}
  {
    assert Band(v, 0)[0] != Band(w, 0)[0] && Band(v, 1)[0] != Band(w, 1)[0];
    assert Band(v, 2)[0] != Band(w, 2)[0] && Band(v, 3)[0] != Band(w, 3)[0];
    hide Band;
  }

  lemma DotsHashable(p: Pixel, q: Pixel)
    requires p.a == 255 && q.a == 255
    ensures Hashable([Dot(p), Dot(q)])
  {
    hide Normal;
    DotTurned(p, Identity);
    DotTurned(q, Identity);
  }

  lemma BlinkBundles()
    ensures Hashable([Dot(RED), Dot(RED)]) && Hashable([Dot(RED), Dot(BLACK)])
    ensures BundleOf([Dot(RED), Dot(RED)]) * BundleOf([Dot(RED), Dot(BLACK)]) == {}
  {
    hide ExactStream, CroppedStream, PaletteStream, Perceptual, Dot, Crops, Hashable, Normal, SignatureBundle;
    DotsHashable(RED, RED);
    DotsHashable(RED, BLACK);
    BlinkStreams(RED, BLACK);
    BlinkExact(RED, RED, BLACK);
    BlinkWord(RED, RED);
    BlinkWord(RED, BLACK);
    var a, b := [Dot(RED), Dot(RED)], [Dot(RED), Dot(BLACK)];
    BundlesDisjoint(ExactStream(a), CroppedStream(Crops(a)), PaletteStream(Crops(a)), Perceptual(a),
                    ExactStream(b), CroppedStream(Crops(b)), PaletteStream(Crops(b)), Perceptual(b));
  }

  /** The index misses a palette match: recolouring a single animation frame to black is
      classified palette under every threshold, yet no signature is shared, because
      comparison numbers colours per frame and the index numbers them per state. */
  lemma PaletteMatchMissed(minimum: real)
    ensures var ls, rs := Blink(RED, RED), Blink(RED, BLACK);
            && HashableState(ls) && HashableState(rs)
            && ImageMatch(ls, rs, minimum) == Palette
            && Signatures(ls) * Signatures(rs) == {}
            && !SomeRecolouring(ls, rs)
  {
    hide BundleOf, ShownOf, HashableState, ValidState, ImageMatch, SignaturesUpTo, SomeRecolouring;
    var ls, rs := Blink(RED, RED), Blink(RED, BLACK);
    BlinkValid(RED, RED);
    BlinkValid(RED, BLACK);
    BlinkMatch(RED, BLACK, minimum);
    BlinkBundles();
    var a, b := BundleOf([Dot(RED), Dot(RED)]), BundleOf([Dot(RED), Dot(BLACK)]);
    assert forall g :: g in a && g in b ==> g in a * b;
    forall g | g in Signatures(ls) && g in Signatures(rs)
      ensures false
    {
      BlinkSigned(RED, RED, g);
      BlinkSigned(RED, BLACK, g);
    }
    PaletteSharedIff(ls, rs);
  }

  lemma BlinkSigned(p: Pixel, q: Pixel, g: Signature)
    requires p.a == 255 && q.a == 255 && HashableState(Blink(p, q)) && g in Signatures(Blink(p, q))
    ensures Hashable([Dot(p), Dot(q)]) && g in BundleOf([Dot(p), Dot(q)])
  {
    hide BundleOf, Hashable, SignaturesUpTo, HashableState, Dot;
    SignaturesMeaning(Blink(p, q), |TRANSFORMS|, g);
    var k: nat :| k < |TRANSFORMS| && SignedBy(Blink(p, q), k, g);
    CoversMeaning(One, TRANSFORMS[k]);
    BlinkShown(p, q, TRANSFORMS[k]);
  }
}
