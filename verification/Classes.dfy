/** What each class of a state comparison means, in terms of the images alone
    (src/spaceman/dmi.rs). */
module Classes {
  import opened Basics
  import opened Frames
  import opened Comparison
  import opened Streams
  import opened Candidates

  // ------------------------------------------------------------- single images

  ghost predicate Blank(g: Grid)
    requires Sized(g)
  {
    forall x: nat, y: nat :: x < g.w && y < g.h ==> !Visible(g, x, y)
  }

  /** Every visible pixel of `a` is found, moved by the offset, in `b`. */
  ghost predicate Found(a: Grid, b: Grid, dx: int, dy: int)
    requires Sized(a) && Sized(b)
  {
    forall x: nat, y: nat :: x < a.w && y < a.h && Visible(a, x, y) ==>
      && 0 <= x + dx < b.w && 0 <= y + dy < b.h && At(b, x + dx, y + dy) == At(a, x, y)
  }

  /** The visible parts are the same up to a shift, whatever surrounds them. */
  ghost predicate SameSprite(a: Grid, b: Grid)
    requires Sized(a) && Sized(b)
  {
    exists dx, dy :: Found(a, b, dx, dy) && Found(b, a, -dx, -dy)
  }

  lemma BlankIff(f: Frame)
    requires Normal(f)
    ensures Blank(f.grid) <==> f.bounds.None?
  {
    if f.bounds.Some? {
      assert TouchesX(f.grid, f.bounds.value.minX);
    }
  }

  /** A visible pixel lies where the crop of its frame holds it. */
  lemma InCrop(f: Frame, x: nat, y: nat)
    requires Normal(f) && x < f.grid.w && y < f.grid.h && Visible(f.grid, x, y)
    ensures f.bounds.Some?
    ensures var v := f.bounds.value;
            && Inside(v, x, y) && x - v.minX < BoundsW(v) && y - v.minY < BoundsH(v)
            && At(CropGrid(f.grid, v), x - v.minX, y - v.minY) == At(f.grid, x, y)
  {
    hide At, CropGrid, CropPixel;
    var v := f.bounds.value;
    CropAt(f.grid, v, x - v.minX, y - v.minY);
  }

  lemma CropFound(l: Frame, r: Frame)
    requires Normal(l) && Normal(r) && Crop(l) == Crop(r) && l.bounds.Some?
    ensures r.bounds.Some?
    ensures Found(l.grid, r.grid, r.bounds.value.minX - l.bounds.value.minX, r.bounds.value.minY - l.bounds.value.minY)
  {
    hide At, CropGrid, CropPixel, Tight;
    var a, b := l.bounds.value, r.bounds.value;
    forall x: nat, y: nat | x < l.grid.w && y < l.grid.h && Visible(l.grid, x, y)
      ensures 0 <= x + (b.minX - a.minX) < r.grid.w && 0 <= y + (b.minY - a.minY) < r.grid.h
      ensures At(r.grid, x + (b.minX - a.minX), y + (b.minY - a.minY)) == At(l.grid, x, y)
    {
      InCrop(l, x, y);
      TightInGrid(r);
      CropAt(r.grid, b, x - a.minX, y - a.minY);
    }
  }

  lemma TightInGrid(f: Frame)
    requires Normal(f) && f.bounds.Some?
    ensures var v := f.bounds.value; v.minX <= v.maxX < f.grid.w && v.minY <= v.maxY < f.grid.h
  {
  }

  lemma FoundBounds(l: Frame, r: Frame, dx: int, dy: int)
    requires Normal(l) && Normal(r) && Found(l.grid, r.grid, dx, dy) && l.bounds.Some?
    ensures r.bounds.Some?
    ensures var a, b := l.bounds.value, r.bounds.value;
            && b.minX <= a.minX + dx && a.maxX + dx <= b.maxX
            && b.minY <= a.minY + dy && a.maxY + dy <= b.maxY
  {
    hide At;
    var v := l.bounds.value;
    var y0: nat :| y0 < l.grid.h && Visible(l.grid, v.minX, y0);
    var y1: nat :| y1 < l.grid.h && Visible(l.grid, v.maxX, y1);
    var x0: nat :| x0 < l.grid.w && Visible(l.grid, x0, v.minY);
    var x1: nat :| x1 < l.grid.w && Visible(l.grid, x1, v.maxY);
    assert Visible(r.grid, v.minX + dx, y0 + dy) && Visible(r.grid, v.maxX + dx, y1 + dy);
    assert Visible(r.grid, x0 + dx, v.minY + dy) && Visible(r.grid, x1 + dx, v.maxY + dy);
  }

  /** Images found in each other have their bounds at that offset. */
  lemma FoundShift(l: Frame, r: Frame, dx: int, dy: int)
    requires Normal(l) && Normal(r) && Found(l.grid, r.grid, dx, dy) && Found(r.grid, l.grid, -dx, -dy)
    requires l.bounds.Some?
    ensures r.bounds.Some?
    ensures var a, b := l.bounds.value, r.bounds.value;
            b == Bounds(a.minX + dx, a.minY + dy, a.maxX + dx, a.maxY + dy)
  {
    hide Found, Tight;
    FoundBounds(l, r, dx, dy);
    FoundBounds(r, l, -dx, -dy);
  }

  lemma FoundCrop(l: Frame, r: Frame, dx: int, dy: int)
    requires Normal(l) && Normal(r) && Found(l.grid, r.grid, dx, dy) && Found(r.grid, l.grid, -dx, -dy)
    requires l.bounds.Some?
    ensures Crop(l) == Crop(r)
  {
    hide Found, CropGrid, CropPixel, Tight, At;
    FoundShift(l, r, dx, dy);
    TightInGrid(l);
    TightInGrid(r);
    var a, b := l.bounds.value, r.bounds.value;
    var c, d := CropGrid(l.grid, a), CropGrid(r.grid, b);
    forall x: nat, y: nat | x < c.w && y < c.h
      ensures At(c, x, y) == At(d, x, y)
    {
      CropAt(l.grid, a, x, y);
      CropAt(r.grid, b, x, y);
      ShiftedPixel(l, r, dx, dy, a.minX + x, a.minY + y);
    }
    GridsEqual(c, d);
  }

  lemma ShiftedPixel(l: Frame, r: Frame, dx: int, dy: int, x: nat, y: nat)
    requires Normal(l) && Normal(r) && Found(l.grid, r.grid, dx, dy) && Found(r.grid, l.grid, -dx, -dy)
    requires x < l.grid.w && y < l.grid.h && 0 <= x + dx < r.grid.w && 0 <= y + dy < r.grid.h
    ensures At(r.grid, x + dx, y + dy) == At(l.grid, x, y)
  {
    ClearedAt(l, x, y);
    ClearedAt(r, x + dx, y + dy);
    hide At;
  }

  lemma ClearedAt(f: Frame, x: nat, y: nat)
    requires Normal(f) && x < f.grid.w && y < f.grid.h
    ensures !Visible(f.grid, x, y) ==> At(f.grid, x, y) == CLEAR
  {
    IndexInRange(f.grid.w, f.grid.h, x, y);
  }

  /** Two crops are equal exactly when the visible parts are the same up to a shift. */
  lemma CropsEqualIff(l: Frame, r: Frame)
    requires Normal(l) && Normal(r)
    ensures Crop(l) == Crop(r) <==> SameSprite(l.grid, r.grid)
  {
    hide Crop, Found, Tight;
    BlankIff(l);
    BlankIff(r);
    CropNone(l);
    CropNone(r);
    if Crop(l) == Crop(r) {
      if l.bounds.Some? {
        CropFound(l, r);
        CropFound(r, l);
        var dx, dy := r.bounds.value.minX - l.bounds.value.minX, r.bounds.value.minY - l.bounds.value.minY;
        assert Found(l.grid, r.grid, dx, dy) && Found(r.grid, l.grid, -dx, -dy);
      } else {
        BlankFound(l.grid, r.grid);
        BlankFound(r.grid, l.grid);
        assert Found(l.grid, r.grid, 0, 0) && Found(r.grid, l.grid, -0, -0);
      }
    }
    if dx, dy :| Found(l.grid, r.grid, dx, dy) && Found(r.grid, l.grid, -dx, -dy) {
      if l.bounds.Some? {
        FoundCrop(l, r, dx, dy);
      } else if r.bounds.Some? {
        FoundBounds(r, l, -dx, -dy);
        assert false;
      }
    }
  }

  lemma CropNone(f: Frame)
    requires Normal(f)
    ensures Crop(f).None? <==> f.bounds.None?
  {
  }

  lemma BlankFound(a: Grid, b: Grid)
    requires Sized(a) && Sized(b) && Blank(a)
    ensures Found(a, b, 0, 0)
  {
  }

  /** With the same bounds in sheets of the same size, equal crops are equal images. */
  lemma GridsEqualIff(l: Frame, r: Frame)
    requires Normal(l) && Normal(r) && l.bounds.Some? && r.bounds.Some?
    ensures l.grid == r.grid <==>
              && Crop(l) == Crop(r) && l.grid.w == r.grid.w && l.grid.h == r.grid.h
              && l.bounds.value.minX == r.bounds.value.minX && l.bounds.value.minY == r.bounds.value.minY
  {
    hide Tight, Crop;
    if l.grid == r.grid {
      TightIsUnique(l.grid, l.bounds, r.bounds);
      SameCrop(l, r);
    }
    if && Crop(l) == Crop(r) && l.grid.w == r.grid.w && l.grid.h == r.grid.h
       && l.bounds.value.minX == r.bounds.value.minX && l.bounds.value.minY == r.bounds.value.minY {
      SameGrid(l, r);
    }
  }

  lemma SameGrid(l: Frame, r: Frame)
    requires Normal(l) && Normal(r) && l.bounds.Some? && r.bounds.Some?
    requires Crop(l) == Crop(r) && l.grid.w == r.grid.w && l.grid.h == r.grid.h
    requires l.bounds.value.minX == r.bounds.value.minX && l.bounds.value.minY == r.bounds.value.minY
    ensures l.grid == r.grid
  {
    hide Tight, Crop, Found, At;
    CropFound(l, r);
    CropFound(r, l);
    forall x: nat, y: nat | x < l.grid.w && y < l.grid.h
      ensures At(l.grid, x, y) == At(r.grid, x, y)
    {
      ShiftedPixel(l, r, 0, 0, x, y);
    }
    GridsEqual(l.grid, r.grid);
  }

  lemma SameCrop(l: Frame, r: Frame)
    requires Normal(l) && Normal(r) && l.grid == r.grid && l.bounds == r.bounds
    ensures Crop(l) == Crop(r)
  {
  }

  // ------------------------------------------------------- classes of two images

  ghost predicate BothBlank(l: Frame, r: Frame)
    requires Normal(l) && Normal(r)
  {
    Blank(l.grid) && Blank(r.grid)
  }

  /** One colour bijection turns the visible part of one image into that of the other. */
  ghost predicate Recoloured(l: Frame, r: Frame)
    requires Normal(l) && Normal(r)
  {
    var a, b := Crop(l), Crop(r);
    || BothBlank(l, r)
    || (a.Some? && b.Some? && a.value.w == b.value.w && a.value.h == b.value.h && |a.value.px| == |b.value.px|
        && exists m :: Recolours(m, a.value.px, b.value.px))
  }

  /** How far two byte strings of one length are apart, byte by byte. */
  function Distance(x: seq<Byte>, y: seq<Byte>): nat
    requires |x| == |y|
  {
    if x == [] then 0
    else
      var n := |x| - 1;
      Distance(x[..n], y[..n]) + if x[n] <= y[n] then y[n] - x[n] else x[n] - y[n]
  }

  /** The pixels as the file holds them: red, green, blue and alpha of each. */
  function Bytes(px: seq<Pixel>): (b: seq<Byte>)
    ensures |b| == 4 * |px|
  {
    if px == [] then [] else Bytes(px[..|px| - 1]) + PixelBytes(px[|px| - 1])
  }

  lemma {:induction false} DistanceJoin(a: seq<Byte>, b: seq<Byte>, x: seq<Byte>, y: seq<Byte>)
    requires |a| == |b| && |x| == |y|
    ensures Distance(a + x, b + y) == Distance(a, b) + Distance(x, y)
  {
    if x == [] {
      assert a + x == a && b + y == b;
    } else {
      var n := |x| - 1;
      DistanceJoin(a, b, x[..n], y[..n]);
      assert (a + x)[..|a| + n] == a + x[..n];
      assert (b + y)[..|b| + n] == b + y[..n];
    }
  }

  lemma ByteDistance(x: Byte, y: Byte)
    ensures Distance([x], [y]) == AbsDiff(x, y)
  {
    assert [x][..0] == [] && [y][..0] == [];
  }

  lemma PixelDistance(p: Pixel, q: Pixel)
    ensures Distance(PixelBytes(p), PixelBytes(q)) == PairDelta((p, q))
  {
    hide Distance, AbsDiff;
    ByteDistance(p.r, q.r);
    ByteDistance(p.g, q.g);
    ByteDistance(p.b, q.b);
    ByteDistance(p.a, q.a);
    DistanceJoin([p.r], [q.r], [p.g], [q.g]);
    DistanceJoin([p.r, p.g], [q.r, q.g], [p.b], [q.b]);
    DistanceJoin([p.r, p.g, p.b], [q.r, q.g, q.b], [p.a], [q.a]);
    assert [p.r] + [p.g] == [p.r, p.g] && [q.r] + [q.g] == [q.r, q.g];
    assert [p.r, p.g] + [p.b] == [p.r, p.g, p.b] && [q.r, q.g] + [q.b] == [q.r, q.g, q.b];
    assert [p.r, p.g, p.b] + [p.a] == PixelBytes(p) && [q.r, q.g, q.b] + [q.a] == PixelBytes(q);
  }

  /** The total of the scan is the distance of the bytes. */
  lemma {:induction false} DeltaIsDistance(a: seq<Pixel>, b: seq<Pixel>)
    requires |a| == |b|
    ensures SumOf(Zip(a, b), PairDelta) == Distance(Bytes(a), Bytes(b))
    decreases |a|
  {
    hide PairDelta, Distance;
    if a == [] {
      NoDistance();
      assert b == [];
    } else {
      var n := |a| - 1;
      DeltaIsDistance(a[..n], b[..n]);
      assert Zip(a, b)[..n] == Zip(a[..n], b[..n]);
      DistanceJoin(Bytes(a[..n]), Bytes(b[..n]), PixelBytes(a[n]), PixelBytes(b[n]));
      PixelDistance(a[n], b[n]);
    }
  }

  lemma NoDistance()
    ensures Distance([], []) == 0
  {
  }

  /** The bytes of the visible parts differ in all by at most the given share of what they
      could. */
  ghost predicate Close(l: Frame, r: Frame, share: real)
    requires Normal(l) && Normal(r)
  {
    var a, b := Crop(l), Crop(r);
    || BothBlank(l, r)
    || (a.Some? && b.Some? && a.value.w == b.value.w && a.value.h == b.value.h && |a.value.px| == |b.value.px|
        && Distance(Bytes(a.value.px), Bytes(b.value.px)) as real <= share * 255.0 * |Bytes(a.value.px)| as real)
  }

  /** What being in the `k`th class or a better one means for two images under `t`. */
  ghost predicate InClass(l: Frame, r: Frame, t: Transform, threshold: real, k: nat)
    requires Normal(l) && Normal(r)
  {
    match k
    case 0 => BothBlank(l, r) || (t == Identity && l.grid == r.grid)
    case 1 => BothBlank(l, r) || (if t == Identity then l.grid == r.grid else SameSprite(l.grid, r.grid))
    case 2 => SameSprite(l.grid, r.grid)
    case 3 => Recoloured(l, r)
    case 4 => Recoloured(l, r) || Close(l, r, 1.0 - threshold)
    case _ => true
  }

  lemma BlankClass(l: Frame, r: Frame, t: Transform, threshold: real, k: nat)
    requires Normal(l) && Normal(r) && l.bounds.None? && r.bounds.None?
    ensures MatchRank(Promote(Aligned(l, r, t), threshold).kind) <= k <==> InClass(l, r, t, threshold, k)
  {
    hide Tight, Blank, SameSprite;
    BlankIff(l);
    BlankIff(r);
    CropsEqualIff(l, r);
  }

  lemma HalfBlankClass(l: Frame, r: Frame, t: Transform, threshold: real, k: nat)
    requires Normal(l) && Normal(r) && (l.bounds.None? <==> r.bounds.Some?) && threshold > 0.0
    ensures MatchRank(Promote(Aligned(l, r, t), threshold).kind) <= k <==> InClass(l, r, t, threshold, k)
  {
    hide Tight, Blank, SameSprite;
    BlankIff(l);
    BlankIff(r);
    CropsEqualIff(l, r);
    assert l.grid != r.grid;
  }

  lemma ShareOfDelta(delta: nat, cells: nat, threshold: real)
    requires cells > 0
    ensures Similarity(delta, cells) >= threshold <==> delta as real <= (1.0 - threshold) * 255.0 * (4 * cells) as real
  {
    var most := cells as real * 4.0 * 255.0;
    assert most == 255.0 * (4 * cells) as real;
    var part := delta as real / most;
    assert part * most == delta as real;
    ScaledBy(part, 1.0 - threshold, most);
  }

  lemma ScaledBy(x: real, y: real, c: real)
    requires c > 0.0
    ensures x <= y <==> x * c <= y * c
  {
  }

  lemma SameShapeClass(l: Frame, r: Frame, t: Transform, threshold: real, k: nat)
    requires Normal(l) && Normal(r) && l.bounds.Some? && r.bounds.Some?
    requires var a, b := Crop(l).value, Crop(r).value; a.w == b.w && a.h == b.h
    ensures MatchRank(Promote(Aligned(l, r, t), threshold).kind) <= k <==> InClass(l, r, t, threshold, k)
  {
    hide Tight, Blank, SameSprite, PaletteEqual, PairDelta, PairChanged, CropGrid, Recolours, Similarity, SumOf, Zip, Distance, Bytes;
    BlankIff(l);
    CropsEqualIff(l, r);
    GridsEqualIff(l, r);
    var a, b := Crop(l).value, Crop(r).value;
    UnchangedIffEqual(a.px, b.px);
    PaletteIffRecolouring(a.px, b.px);
    if a.px == b.px {
      SamePalette(a.px);
    }
    DeltaIsDistance(a.px, b.px);
    ShareOfDelta(SumOf(Zip(a.px, b.px), PairDelta), |a.px|, threshold);
  }

  lemma SamePalette(a: seq<Pixel>)
    ensures PaletteEqual(a, a)
  {
  }

  lemma VisibleClass(l: Frame, r: Frame, t: Transform, threshold: real, k: nat)
    requires Normal(l) && Normal(r) && l.bounds.Some? && r.bounds.Some? && threshold > 0.0
    ensures MatchRank(Promote(Aligned(l, r, t), threshold).kind) <= k <==> InClass(l, r, t, threshold, k)
  {
    hide Tight, Blank, SameSprite, PaletteEqual, PairDelta, PairChanged, CropGrid, Recolours, ClassifyCrops;
    var a, b := Crop(l).value, Crop(r).value;
    if a.w == b.w && a.h == b.h {
      SameShapeClass(l, r, t, threshold, k);
    } else {
      BlankIff(l);
      CropsEqualIff(l, r);
      GridsEqualIff(l, r);
    }
  }

  lemma ClassOf(l: Frame, r: Frame, t: Transform, threshold: real, k: nat)
    requires Normal(l) && Normal(r) && threshold > 0.0
    ensures MatchRank(Promote(Aligned(l, r, t), threshold).kind) <= k <==> InClass(l, r, t, threshold, k)
  {
    hide Normal, Aligned, Promote, InClass;
    if l.bounds.None? && r.bounds.None? {
      BlankClass(l, r, t, threshold, k);
    } else if l.bounds.Some? && r.bounds.Some? {
      VisibleClass(l, r, t, threshold, k);
    } else {
      HalfBlankClass(l, r, t, threshold, k);
    }
  }

  // ------------------------------------------------------- classes of two states

  /** The image of the right state that is compared with direction `d` under `t`. */
  ghost function Opposite(rs: IconState, t: Transform, f: nat, d: Dir): (r: Frame)
    requires ValidState(rs) && Covers(rs.dirs, t) && f < |rs.images| && d in OrderedDirs(rs.dirs)
    ensures Normal(r)
  {
    Turned(rs.images[f][SourceDir(rs.dirs, t, d).value], t)
  }

  ghost predicate AllInClass(ls: IconState, rs: IconState, t: Transform, threshold: real, k: nat)
    requires Comparable(ls, rs) && Covers(ls.dirs, t)
  {
    forall f, d :: 0 <= f < |ls.images| && d in OrderedDirs(ls.dirs) ==>
      InClass(ls.images[f][d], Opposite(rs, t, f, d), t, threshold, k)
  }

  lemma NormalImage(s: IconState, f: nat, d: Dir)
    requires ValidState(s) && f < |s.images| && d in OrderedDirs(s.dirs)
    ensures d in s.images[f] && Normal(s.images[f][d])
  {
  }

  lemma CellClass(ls: IconState, rs: IconState, t: Transform, threshold: real, k: nat, f: nat, d: Dir)
    requires Comparable(ls, rs) && Covers(ls.dirs, t) && threshold > 0.0
    requires f < |ls.images| && d in OrderedDirs(ls.dirs)
    ensures MatchRank(Cell(ls, rs, t, threshold, f, d).kind) <= k
       <==> InClass(ls.images[f][d], Opposite(rs, t, f, d), t, threshold, k)
  {
    hide Aligned, Promote, InClass, Normal, Turned, OrderedDirs, SourceDir;
    NormalImage(ls, f, d);
    ClassOf(ls.images[f][d], Opposite(rs, t, f, d), t, threshold, k);
  }

  lemma ListClass(ls: IconState, rs: IconState, t: Transform, threshold: real, k: nat)
    requires Comparable(ls, rs) && Covers(ls.dirs, t) && threshold > 0.0 && |ls.images| > 0
    ensures WorstRank(CellList(ls, rs, t, threshold)) <= k <==> AllInClass(ls, rs, t, threshold, k)
  {
    hide Cell, CellAt, InClass, Opposite, OrderedDirs, Covers, Normal, Index, WorstRank, MatchRank;
    var c := CellList(ls, rs, t, threshold);
    ListNonEmpty(ls);
    WorstRankMeaning(c);
    if WorstRank(c) <= k {
      forall f, d | 0 <= f < |ls.images| && d in OrderedDirs(ls.dirs)
        ensures InClass(ls.images[f][d], Opposite(rs, t, f, d), t, threshold, k)
      {
        var j :| 0 <= j < |OrderedDirs(ls.dirs)| && OrderedDirs(ls.dirs)[j] == d;
        CellListAt(ls, rs, t, threshold, f, j);
        CellClass(ls, rs, t, threshold, k, f, d);
      }
    }
    if AllInClass(ls, rs, t, threshold, k) {
      var i :| 0 <= i < |c| && MatchRank(c[i].kind) == WorstRank(c);
      var f, j := CellListPlace(ls, rs, t, threshold, i);
      var d := OrderedDirs(ls.dirs)[j];
      assert d in OrderedDirs(ls.dirs);
      CellClass(ls, rs, t, threshold, k, f, d);
    }
  }

  /** Two states are in a class or a better one exactly when, under one transform that keeps
      their directions, all their images are. */
  lemma StateClass(ls: IconState, rs: IconState, minimum: real, k: nat)
    requires Comparable(ls, rs) && |ls.images| > 0
    ensures MatchRank(ImageMatch(ls, rs, minimum)) <= k
       <==> exists t :: Covers(ls.dirs, t) && AllInClass(ls, rs, t, Threshold(minimum), k)
  {
    hide ImageMatch, CellList, WorstRank, MatchRank, Covers, AllInClass, ValidState, Threshold;
    var threshold := Threshold(minimum);
    ThresholdPositive(minimum);
    if MatchRank(ImageMatch(ls, rs, minimum)) <= k {
      var t := ImageMatchReached(ls, rs, minimum);
      ListClass(ls, rs, t, threshold, k);
    }
    if t :| Covers(ls.dirs, t) && AllInClass(ls, rs, t, threshold, k) {
      ListClass(ls, rs, t, threshold, k);
      ImageMatchAtMost(ls, rs, minimum, t);
    }
  }

  lemma ThresholdPositive(minimum: real)
    ensures 0.9 <= Threshold(minimum) <= 1.0
  {
  }

  /** In every frame and direction both images are invisible, or they are the same. */
  ghost predicate SameImages(ls: IconState, rs: IconState)
    requires Comparable(ls, rs)
  {
    forall f, d :: 0 <= f < |ls.images| && d in OrderedDirs(ls.dirs) ==>
      var l, r := ls.images[f][d], rs.images[f][d];
      BothBlank(l, r) || l.grid == r.grid
  }

  /** In every frame and direction the visible part is that of the transformed image. */
  ghost predicate SameSprites(ls: IconState, rs: IconState, t: Transform)
    requires Comparable(ls, rs) && Covers(ls.dirs, t)
  {
    forall f, d :: 0 <= f < |ls.images| && d in OrderedDirs(ls.dirs) ==>
      SameSprite(ls.images[f][d].grid, Opposite(rs, t, f, d).grid)
  }

  /** In every frame and direction some bijection recolours the visible part. */
  ghost predicate AllRecoloured(ls: IconState, rs: IconState, t: Transform)
    requires Comparable(ls, rs) && Covers(ls.dirs, t)
  {
    forall f, d :: 0 <= f < |ls.images| && d in OrderedDirs(ls.dirs) ==>
      Recoloured(ls.images[f][d], Opposite(rs, t, f, d))
  }

  /** In every frame and direction the visible part is recoloured or almost the same. */
  ghost predicate AllClose(ls: IconState, rs: IconState, t: Transform, share: real)
    requires Comparable(ls, rs) && Covers(ls.dirs, t)
  {
    forall f, d :: 0 <= f < |ls.images| && d in OrderedDirs(ls.dirs) ==>
      Recoloured(ls.images[f][d], Opposite(rs, t, f, d)) || Close(ls.images[f][d], Opposite(rs, t, f, d), share)
  }

  lemma IdentityOpposite(rs: IconState, f: nat, d: Dir)
    requires ValidState(rs) && f < |rs.images| && d in OrderedDirs(rs.dirs) && Covers(rs.dirs, Identity)
    ensures Opposite(rs, Identity, f, d).grid == rs.images[f][d].grid
    ensures Normal(rs.images[f][d])
  {
    IdentitySource(rs.dirs, d);
    IdentityTurns(rs.images[f][d].grid);
  }

  lemma BlankTurned(f: Frame, t: Transform)
    requires Normal(f)
    ensures Blank(Turned(f, t).grid) <==> Blank(f.grid)
  {
    hide Tight, Turn, Blank;
    BlankIff(f);
    BlankIff(Turned(f, t));
  }

  /** Every image of the right state is compared with some direction. */
  lemma OppositeHit(rs: IconState, t: Transform, f: nat, d: Dir) returns (e: Dir)
    requires ValidState(rs) && Covers(rs.dirs, t) && f < |rs.images| && d in OrderedDirs(rs.dirs)
    ensures e in OrderedDirs(rs.dirs) && Normal(rs.images[f][d]) && Opposite(rs, t, f, e) == Turned(rs.images[f][d], t)
  {
    hide OrderedDirs, SourceDir, Turned, Normal, Covers;
    CoversMeaning(rs.dirs, t);
    CoversMeaning(rs.dirs, Inverse(t));
    CoveredSource(rs.dirs, Inverse(t), d);
    SourceDirInverse(rs.dirs, Inverse(t), d);
    NormalImage(rs, f, d);
    e := SourceDir(rs.dirs, Inverse(t), d).value;
  }

  lemma CoveredSource(dirs: Dirs, t: Transform, d: Dir)
    requires Covers(dirs, t) && d in OrderedDirs(dirs)
    ensures SourceDir(dirs, t, d).Some?
  {
  }

  lemma AllBlank(ls: IconState, rs: IconState, t: Transform, threshold: real)
    requires Comparable(ls, rs) && Covers(ls.dirs, t) && t != Identity && AllInClass(ls, rs, t, threshold, 0)
    ensures SameImages(ls, rs)
  {
    hide Covers, OrderedDirs, Turned, Normal, Blank, Opposite;
    forall f, d | 0 <= f < |ls.images| && d in OrderedDirs(ls.dirs)
      ensures Normal(ls.images[f][d]) && Normal(rs.images[f][d]) && BothBlank(ls.images[f][d], rs.images[f][d])
    {
      assert InClass(ls.images[f][d], Opposite(rs, t, f, d), t, threshold, 0);
      var e := OppositeHit(rs, t, f, d);
      assert InClass(ls.images[f][e], Opposite(rs, t, f, e), t, threshold, 0);
      BlankTurned(rs.images[f][d], t);
    }
  }

  /** Under the identity, the first two classes say that the images are the same. */
  lemma IdentityClass(ls: IconState, rs: IconState, threshold: real, k: nat)
    requires Comparable(ls, rs) && Covers(ls.dirs, Identity) && k <= 1
    ensures AllInClass(ls, rs, Identity, threshold, k) <==> SameImages(ls, rs)
  {
    hide Covers, OrderedDirs, Turned, Normal, Blank, Opposite;
    forall f, d | 0 <= f < |ls.images| && d in OrderedDirs(ls.dirs)
      ensures Normal(ls.images[f][d]) && Normal(rs.images[f][d])
      ensures InClass(ls.images[f][d], Opposite(rs, Identity, f, d), Identity, threshold, k)
         <==> BothBlank(ls.images[f][d], rs.images[f][d]) || ls.images[f][d].grid == rs.images[f][d].grid
    {
      IdentityOpposite(rs, f, d);
    }
  }

  /** Exact: the images are the same, frame by frame and direction by direction. */
  lemma ExactIff(ls: IconState, rs: IconState, minimum: real)
    requires Comparable(ls, rs) && |ls.images| > 0
    ensures ImageMatch(ls, rs, minimum) == Exact <==> SameImages(ls, rs)
  {
    hide ImageMatch, Covers, AllInClass, SameImages, ValidState, Threshold;
    var threshold := Threshold(minimum);
    CoversMeaning(ls.dirs, Identity);
    StateClass(ls, rs, minimum, 0);
    IdentityClass(ls, rs, threshold, 0);
    if t :| Covers(ls.dirs, t) && AllInClass(ls, rs, t, threshold, 0) {
      if t != Identity {
        AllBlank(ls, rs, t, threshold);
      }
    }
  }

  ghost predicate SomeTransformed(ls: IconState, rs: IconState)
    requires Comparable(ls, rs)
  {
    exists t :: t != Identity && Covers(ls.dirs, t) && SameSprites(ls, rs, t)
  }

  /** Two blank images have the same visible part. */
  lemma BlankSprites(l: Frame, r: Frame)
    requires Normal(l) && Normal(r) && BothBlank(l, r)
    ensures SameSprite(l.grid, r.grid)
  {
    hide Blank;
    BlankIff(l);
    BlankIff(r);
    CropNone(l);
    CropNone(r);
    CropsEqualIff(l, r);
  }

  lemma SpriteClass(ls: IconState, rs: IconState, t: Transform, threshold: real)
    requires Comparable(ls, rs) && Covers(ls.dirs, t)
    ensures t != Identity ==> (AllInClass(ls, rs, t, threshold, 1) <==> SameSprites(ls, rs, t))
    ensures AllInClass(ls, rs, t, threshold, 2) <==> SameSprites(ls, rs, t)
  {
    hide Covers, OrderedDirs, Tight, Blank, Opposite, SameSprite;
    forall f, d | 0 <= f < |ls.images| && d in OrderedDirs(ls.dirs)
      ensures Normal(ls.images[f][d])
      ensures BothBlank(ls.images[f][d], Opposite(rs, t, f, d)) ==> SameSprite(ls.images[f][d].grid, Opposite(rs, t, f, d).grid)
    {
      NormalImage(ls, f, d);
      if BothBlank(ls.images[f][d], Opposite(rs, t, f, d)) {
        BlankSprites(ls.images[f][d], Opposite(rs, t, f, d));
      }
    }
  }

  /** Transformed: not the same images, but the same visible parts under a mirroring or a
      rotation. */
  lemma TransformedIff(ls: IconState, rs: IconState, minimum: real)
    requires Comparable(ls, rs) && |ls.images| > 0
    ensures ImageMatch(ls, rs, minimum) == Transformed <==> !SameImages(ls, rs) && SomeTransformed(ls, rs)
  {
    hide ImageMatch, Covers, AllInClass, SameImages, SameSprites, ValidState, Threshold;
    var threshold := Threshold(minimum);
    CoversMeaning(ls.dirs, Identity);
    ExactIff(ls, rs, minimum);
    StateClass(ls, rs, minimum, 1);
    IdentityClass(ls, rs, threshold, 1);
    forall t | Covers(ls.dirs, t)
      ensures t != Identity ==> (AllInClass(ls, rs, t, threshold, 1) <==> SameSprites(ls, rs, t))
    {
      SpriteClass(ls, rs, t, threshold);
    }
    RankOne(ImageMatch(ls, rs, minimum));
  }

  lemma RankOne(k: MatchKind)
    ensures (MatchRank(k) <= 1 <==> k == Exact || k == Transformed) && (MatchRank(k) <= 2 <==> k == Padded || MatchRank(k) <= 1)
    ensures (MatchRank(k) <= 3 <==> k == Palette || MatchRank(k) <= 2) && (MatchRank(k) <= 4 <==> k == Near || MatchRank(k) <= 3)
  {
  }

  /** Padded: the same visible parts in the same orientation, somewhere placed or surrounded
      differently, and no mirroring or rotation does it too. */
  lemma PaddedIff(ls: IconState, rs: IconState, minimum: real)
    requires Comparable(ls, rs) && |ls.images| > 0
    ensures Covers(ls.dirs, Identity)
    ensures ImageMatch(ls, rs, minimum) == Padded
       <==> !SameImages(ls, rs) && !SomeTransformed(ls, rs) && SameSprites(ls, rs, Identity)
  {
    hide ImageMatch, Covers, AllInClass, SameImages, SameSprites, ValidState, Threshold;
    var threshold := Threshold(minimum);
    CoversMeaning(ls.dirs, Identity);
    ExactIff(ls, rs, minimum);
    TransformedIff(ls, rs, minimum);
    StateClass(ls, rs, minimum, 2);
    forall t | Covers(ls.dirs, t)
      ensures AllInClass(ls, rs, t, threshold, 2) <==> SameSprites(ls, rs, t)
    {
      SpriteClass(ls, rs, t, threshold);
    }
    RankOne(ImageMatch(ls, rs, minimum));
  }

  ghost predicate SomeSprites(ls: IconState, rs: IconState)
    requires Comparable(ls, rs)
  {
    exists t :: Covers(ls.dirs, t) && SameSprites(ls, rs, t)
  }

  ghost predicate SomeRecoloured(ls: IconState, rs: IconState)
    requires Comparable(ls, rs)
  {
    exists t :: Covers(ls.dirs, t) && AllRecoloured(ls, rs, t)
  }

  ghost predicate SomeClose(ls: IconState, rs: IconState, share: real)
    requires Comparable(ls, rs)
  {
    exists t :: Covers(ls.dirs, t) && AllClose(ls, rs, t, share)
  }

  /** Palette: not the same visible parts under any transform, but recoloured ones. Near: not
      even that, but almost the same ones. */
  lemma PaletteNearIff(ls: IconState, rs: IconState, minimum: real)
    requires Comparable(ls, rs) && |ls.images| > 0
    ensures ImageMatch(ls, rs, minimum) == Palette <==> !SomeSprites(ls, rs) && SomeRecoloured(ls, rs)
    ensures ImageMatch(ls, rs, minimum) == Near
       <==> !SomeSprites(ls, rs) && !SomeRecoloured(ls, rs) && SomeClose(ls, rs, 1.0 - Threshold(minimum))
  {
    hide ImageMatch, Covers, AllInClass, SameSprites, AllRecoloured, AllClose, ValidState, Threshold;
    var threshold := Threshold(minimum);
    StateClass(ls, rs, minimum, 2);
    StateClass(ls, rs, minimum, 3);
    StateClass(ls, rs, minimum, 4);
    forall t | Covers(ls.dirs, t)
      ensures AllInClass(ls, rs, t, threshold, 2) <==> SameSprites(ls, rs, t)
      ensures AllInClass(ls, rs, t, threshold, 3) <==> AllRecoloured(ls, rs, t)
      ensures AllInClass(ls, rs, t, threshold, 4) <==> AllClose(ls, rs, t, 1.0 - threshold)
    {
      SpriteClass(ls, rs, t, threshold);
      LooserClass(ls, rs, t, threshold);
    }
    RankOne(ImageMatch(ls, rs, minimum));
  }

  lemma LooserClass(ls: IconState, rs: IconState, t: Transform, threshold: real)
    requires Comparable(ls, rs) && Covers(ls.dirs, t)
    ensures AllInClass(ls, rs, t, threshold, 3) <==> AllRecoloured(ls, rs, t)
    ensures AllInClass(ls, rs, t, threshold, 4) <==> AllClose(ls, rs, t, 1.0 - threshold)
  {
    hide Covers, OrderedDirs, Normal, Opposite, Recoloured, Close;
  }

  // ---------------------------------------------------------- what is reported

  /** Where the visible parts are the same, the reported offset is the shift between them. */
  lemma OffsetIsShift(l: Frame, r: Frame, t: Transform)
    requires Normal(l) && Normal(r) && l.bounds.Some? && SameSprite(l.grid, r.grid)
    ensures var offset := Aligned(l, r, t).offset;
            Found(l.grid, r.grid, offset.0, offset.1) && Found(r.grid, l.grid, -offset.0, -offset.1)
  {
    hide Tight, Found, CropGrid, ClassifyCrops, Similarity, SumOf, MaxDelta, Zip;
    CropsEqualIff(l, r);
    CropFound(l, r);
    CropFound(r, l);
  }

  /** The similarity is what is left of one after the share that the bytes are apart. */
  lemma SimilarityIsShare(l: Frame, r: Frame, t: Transform)
    requires Normal(l) && Normal(r) && l.bounds.Some? && r.bounds.Some?
    requires var a, b := Crop(l).value, Crop(r).value; a.w == b.w && a.h == b.h
    ensures var a, b := Bytes(Crop(l).value.px), Bytes(Crop(r).value.px);
            && |a| == |b| > 0
            && Aligned(l, r, t).similarity == 1.0 - Distance(a, b) as real / (255.0 * |a| as real)
  {
    hide CropGrid, ClassifyCrops, SumOf, MaxDelta, Zip, Bytes, Distance, PairDelta;
    var a, b := Crop(l).value, Crop(r).value;
    DeltaIsDistance(a.px, b.px);
    assert |a.px| as real * 4.0 * 255.0 == 255.0 * |Bytes(a.px)| as real;
  }

  /** The largest channel difference is one of some pixel pair, and none is larger. */
  lemma {:induction false} MaxDeltaIsLargest(z: seq<PixelPair>)
    ensures forall i :: 0 <= i < |z| ==>
              && AbsDiff(z[i].0.r, z[i].1.r) <= MaxDelta(z) && AbsDiff(z[i].0.g, z[i].1.g) <= MaxDelta(z)
              && AbsDiff(z[i].0.b, z[i].1.b) <= MaxDelta(z) && AbsDiff(z[i].0.a, z[i].1.a) <= MaxDelta(z)
    ensures MaxDelta(z) > 0 ==> exists i :: 0 <= i < |z| && SomeDelta(z[i], MaxDelta(z))
  {
    hide AbsDiff;
    if z != [] {
      var n := |z| - 1;
      MaxDeltaIsLargest(z[..n]);
      PairMaxIsLargest(z[n]);
      if MaxDelta(z[..n]) > PairMax(z[n]) {
        var i :| 0 <= i < n && SomeDelta(z[..n][i], MaxDelta(z[..n]));
        assert SomeDelta(z[i], MaxDelta(z));
      }
    }
  }

  lemma PairMaxIsLargest(p: PixelPair)
    ensures SomeDelta(p, PairMax(p))
    ensures AbsDiff(p.0.r, p.1.r) <= PairMax(p) && AbsDiff(p.0.g, p.1.g) <= PairMax(p)
    ensures AbsDiff(p.0.b, p.1.b) <= PairMax(p) && AbsDiff(p.0.a, p.1.a) <= PairMax(p)
  {
    hide AbsDiff;
  }

  ghost predicate SomeDelta(p: PixelPair, d: nat) {
    || d == AbsDiff(p.0.r, p.1.r) || d == AbsDiff(p.0.g, p.1.g)
    || d == AbsDiff(p.0.b, p.1.b) || d == AbsDiff(p.0.a, p.1.a)
  }

  /** Under `t` the comparisons are less sure, or as sure and less similar, or equal to those
      chosen in both. */
  ghost predicate NoBetter(ls: IconState, rs: IconState, threshold: real, t: Transform, chosen: seq<FrameComparison>)
    requires Comparable(ls, rs) && Usable(ls, t)
  {
    var c := Listing(ls, rs, t, threshold);
    || WorstRank(c) > WorstRank(chosen)
    || (WorstRank(c) == WorstRank(chosen) && MeanSimilarity(c) <= MeanSimilarity(chosen))
  }

  ghost predicate Chosen(ls: IconState, rs: IconState, threshold: real, n: nat, best: Option<Candidate>)
    requires Comparable(ls, rs) && n <= |TRANSFORMS|
  {
    && (best.None? ==> forall j :: 0 <= j < n ==> !Usable(ls, TRANSFORMS[j]))
    && (best.Some? ==>
          && best.value == CandidateOf(best.value.comparisons)
          && (exists k :: 0 <= k < n && Usable(ls, TRANSFORMS[k]) && best.value.comparisons == Listing(ls, rs, TRANSFORMS[k], threshold))
          && (forall j :: 0 <= j < n && Usable(ls, TRANSFORMS[j]) ==>
                NoBetter(ls, rs, threshold, TRANSFORMS[j], best.value.comparisons)))
  }

  lemma {:induction false} BestIsChosen(ls: IconState, rs: IconState, threshold: real, n: nat)
    requires Comparable(ls, rs) && n <= |TRANSFORMS|
    ensures Chosen(ls, rs, threshold, n, BestUpTo(ls, rs, threshold, n))
  {
    hide Usable, Listing, Comparable, WorstRank, MeanSimilarity;
    if n > 0 {
      BestIsChosen(ls, rs, threshold, n - 1);
    }
  }

  /** The comparisons reported are those under one usable transform, and no other is surer,
      or as sure and more similar on the average. */
  lemma ReportedIsBest(ls: IconState, rs: IconState, minimum: real)
    requires Comparable(ls, rs)
    ensures var chosen := BestOf(ls, rs, minimum).comparisons;
            && (exists t :: Usable(ls, t) && chosen == Listing(ls, rs, t, Threshold(minimum)))
            && (forall t :: Usable(ls, t) ==> NoBetter(ls, rs, Threshold(minimum), t, chosen))
  {
    hide Usable, Listing, Comparable, NoBetter, CandidateOf;
    BestIsChosen(ls, rs, Threshold(minimum), |TRANSFORMS|);
    IdentityUsable(ls);
    var k0 := TransformListed(Identity);
    forall t | Usable(ls, t)
      ensures NoBetter(ls, rs, Threshold(minimum), t, BestOf(ls, rs, minimum).comparisons)
    {
      var k := TransformListed(t);
    }
  }

  lemma {:induction false} TotalWithin(c: seq<FrameComparison>, lo: real, hi: real)
    requires c != [] && forall x <- c :: lo <= x.similarity <= hi
    ensures lo * |c| as real <= TotalSimilarity(c) <= hi * |c| as real
  {
    var n := |c| - 1;
    assert c == c[..n] + [c[n]];
    assert c[n] in c;
    assert |c| as real == n as real + 1.0;
    if n > 0 {
      TotalWithin(c[..n], lo, hi);
    }
  }

  /** The mean lies between the least and the greatest similarity. */
  lemma MeanWithin(c: seq<FrameComparison>, lo: real, hi: real)
    requires c != [] && forall x <- c :: lo <= x.similarity <= hi
    ensures lo <= MeanSimilarity(c) <= hi
  {
    TotalWithin(c, lo, hi);
    var n := |c| as real;
    assert MeanSimilarity(c) * n == TotalSimilarity(c);
    if MeanSimilarity(c) < lo {
      Scaled(MeanSimilarity(c), lo, n);
    }
    if MeanSimilarity(c) > hi {
      Scaled(hi, MeanSimilarity(c), n);
    }
  }

  lemma Scaled(x: real, y: real, c: real)
    requires x < y && c > 0.0
    ensures x * c < y * c
  {
  }
}
