/** Icon frames: normalised RGBA grids, their visible bounds and the six geometric
    transforms (src/spaceman/dmi.rs). A transform is a permutation of row-major indexes
    undone by its inverse, it moves the visible bounds with the pixels, and cropping
    commutes with it; eight compass directions are flipped and turned along. */
module Frames {
  import opened Basics

  datatype Pixel = Pixel(r: Byte, g: Byte, b: Byte, a: Byte)

  const CLEAR := Pixel(0, 0, 0, 0)

  /** A row-major grid of pixels. */
  datatype Grid = Grid(w: nat, h: nat, px: seq<Pixel>)

  datatype Bounds = Bounds(minX: nat, minY: nat, maxX: nat, maxY: nat)

  datatype PixelCounts = PixelCounts(opaquePixels: nat, translucent: nat, transparent: nat)

  /** A frame as comparisons see it: invisible pixels are black and `bounds` is tight. */
  datatype Frame = Frame(grid: Grid, bounds: Option<Bounds>)

  datatype Transform =
    | Identity | MirrorHorizontal | MirrorVertical | Rotate90 | Rotate180 | Rotate270

  datatype Dir =
    | North | South | East | West | Northeast | Northwest | Southeast | Southwest

  // ------------------------------------------------------- row-major indexing

  function Index(w: nat, x: nat, y: nat): nat {
    y * w + x
  }

  predicate Sized(g: Grid) {
    |g.px| == g.w * g.h
  }

  lemma MulMono(a: int, b: int, w: nat)
    ensures a <= b ==> a * w <= b * w
    ensures (a + 1) * w == a * w + w
  {
  }

  /** Scanning row by row visits the positions in order. */
  lemma ScanOrder(w: nat, h: nat, x: nat, y: nat)
    ensures Index(w, 0, 0) == 0 && Index(w, 0, h) == w * h
    ensures Index(w, x, y) + 1 == Index(w, x + 1, y)
    ensures Index(w, w, y) == Index(w, 0, y + 1)
    ensures x <= w && y < h ==> Index(w, x, y) <= w * h
  {
    MulMono(y + 1, h, w);
  }

  lemma IndexInRange(w: nat, h: nat, x: nat, y: nat)
    requires x < w && y < h
    ensures Index(w, x, y) < w * h
  {
    assert (y + 1) * w <= h * w;
  }

  lemma IndexCell(w: nat, x: nat, y: nat)
    requires x < w
    ensures Index(w, x, y) % w == x && Index(w, x, y) / w == y
  {
    var i := Index(w, x, y);
    assert i == (i / w) * w + i % w;
    OneQuotient(i / w, i % w, y, x, w);
  }

  lemma OneQuotient(q: nat, r: nat, y: nat, x: nat, w: nat)
    requires r < w && x < w && q * w + r == y * w + x
    ensures q == y && r == x
  {
    MulMono(q + 1, y, w);
    MulMono(q, q, w);
    MulMono(y + 1, q, w);
    MulMono(y, y, w);
  }

  lemma CellIndex(w: nat, h: nat, i: nat)
    requires i < w * h
    ensures w > 0 && i % w < w && i / w < h
    ensures Index(w, i % w, i / w) == i
  {
    assert w > 0;
    assert i == (i / w) * w + i % w;
    MulMono(h, i / w, w);
  }

  function At(g: Grid, x: nat, y: nat): Pixel
    requires Sized(g) && x < g.w && y < g.h
  {
    IndexInRange(g.w, g.h, x, y);
    g.px[Index(g.w, x, y)]
  }

  lemma GridsEqual(a: Grid, b: Grid)
    requires Sized(a) && Sized(b) && a.w == b.w && a.h == b.h
    requires forall x: nat, y: nat :: x < a.w && y < a.h ==> At(a, x, y) == At(b, x, y)
    ensures a == b
  {
    forall i | 0 <= i < |a.px|
      ensures a.px[i] == b.px[i]
    {
      CellIndex(a.w, a.h, i);
      assert At(a, i % a.w, i / a.w) == At(b, i % a.w, i / a.w);
    }
  }

  // ------------------------------------------------------------ visible bounds

  predicate Visible(g: Grid, x: nat, y: nat)
    requires Sized(g) && x < g.w && y < g.h
  {
    At(g, x, y).a != 0
  }

  /** Column `x` holds a visible pixel. */
  ghost predicate TouchesX(g: Grid, x: nat)
    requires Sized(g)
  {
    x < g.w && exists y: nat :: y < g.h && Visible(g, x, y)
  }

  /** Row `y` holds a visible pixel. */
  ghost predicate TouchesY(g: Grid, y: nat)
    requires Sized(g)
  {
    y < g.h && exists x: nat :: x < g.w && Visible(g, x, y)
  }

  ghost predicate Inside(v: Bounds, x: nat, y: nat) {
    v.minX <= x <= v.maxX && v.minY <= y <= v.maxY
  }

  /** Each side of `v` touches a visible pixel. */
  ghost predicate Touching(g: Grid, v: Bounds)
    requires Sized(g)
  {
    && v.minX <= v.maxX < g.w && v.minY <= v.maxY < g.h
    && TouchesX(g, v.minX) && TouchesX(g, v.maxX) && TouchesY(g, v.minY) && TouchesY(g, v.maxY)
  }

  /** `b` is the smallest rectangle around the visible pixels, `None` without one. */
  ghost predicate Tight(g: Grid, b: Option<Bounds>)
    requires Sized(g)
  {
    && (b.Some? ==> Touching(g, b.value))
    && (forall x: nat, y: nat :: x < g.w && y < g.h && Visible(g, x, y)
          ==> b.Some? && Inside(b.value, x, y))
  }

  /** The same, looking only at the first `upTo` cells of the scan. */
  ghost predicate TightUpTo(g: Grid, upTo: nat, b: Option<Bounds>)
    requires Sized(g)
  {
    && (b.Some? ==> Touching(g, b.value))
    && (forall x: nat, y: nat :: x < g.w && y < g.h && Index(g.w, x, y) < upTo && Visible(g, x, y)
          ==> b.Some? && Inside(b.value, x, y))
  }

  lemma TightAtEnd(g: Grid, b: Option<Bounds>)
    requires Sized(g) && TightUpTo(g, |g.px|, b)
    ensures Tight(g, b)
  {
    forall x: nat, y: nat | x < g.w && y < g.h && Visible(g, x, y)
      ensures b.Some? && Inside(b.value, x, y)
    {
      IndexInRange(g.w, g.h, x, y);
    }
  }

  lemma TightIsUnique(g: Grid, b: Option<Bounds>, c: Option<Bounds>)
    requires Sized(g) && Tight(g, b) && Tight(g, c)
    ensures b == c
  {
    if b.Some? {
      TightWithin(g, b.value, c);
    }
    if c.Some? {
      TightWithin(g, c.value, b);
    }
  }

  lemma TightWithin(g: Grid, v: Bounds, c: Option<Bounds>)
    requires Sized(g) && Tight(g, Some(v)) && Tight(g, c)
    ensures c.Some? && c.value.minX <= v.minX && v.maxX <= c.value.maxX
    ensures c.value.minY <= v.minY && v.maxY <= c.value.maxY
  {
    var y0: nat :| y0 < g.h && Visible(g, v.minX, y0);
    var y1: nat :| y1 < g.h && Visible(g, v.maxX, y1);
    var x0: nat :| x0 < g.w && Visible(g, x0, v.minY);
    var x1: nat :| x1 < g.w && Visible(g, x1, v.maxY);
  }

  function OpaqueUnit(p: Pixel): nat {
    if p.a == 255 then 1 else 0
  }

  function TransparentUnit(p: Pixel): nat {
    if p.a == 0 then 1 else 0
  }

  function TranslucentUnit(p: Pixel): nat {
    if 0 < p.a < 255 then 1 else 0
  }

  ghost predicate CountsOf(px: seq<Pixel>, c: PixelCounts) {
    && c.opaquePixels == SumOf(px, OpaqueUnit)
    && c.translucent == SumOf(px, TranslucentUnit)
    && c.transparent == SumOf(px, TransparentUnit)
  }

  lemma CountsSnoc(px: seq<Pixel>, k: nat)
    requires k < |px|
    ensures SumOf(px[..k + 1], OpaqueUnit) == SumOf(px[..k], OpaqueUnit) + OpaqueUnit(px[k])
    ensures SumOf(px[..k + 1], TranslucentUnit)
         == SumOf(px[..k], TranslucentUnit) + TranslucentUnit(px[k])
    ensures SumOf(px[..k + 1], TransparentUnit)
         == SumOf(px[..k], TransparentUnit) + TransparentUnit(px[k])
  {
    SumOfSnoc(px, k, OpaqueUnit);
    SumOfSnoc(px, k, TranslucentUnit);
    SumOfSnoc(px, k, TransparentUnit);
  }

  function Grow(b: Option<Bounds>, x: nat, y: nat): Bounds {
    match b
    case None => Bounds(x, y, x, y)
    case Some(seen) =>
      Bounds(Min(seen.minX, x), Min(seen.minY, y), Max(seen.maxX, x), Max(seen.maxY, y))
  }

  lemma TightStep(g: Grid, b: Option<Bounds>, x: nat, y: nat)
    requires Sized(g) && x < g.w && y < g.h && TightUpTo(g, Index(g.w, x, y), b)
    ensures TightUpTo(g, Index(g.w, x, y) + 1, if Visible(g, x, y) then Some(Grow(b, x, y)) else b)
  {
    forall x': nat, y': nat | x' < g.w && y' < g.h
      ensures Index(g.w, x', y') == Index(g.w, x, y) ==> x' == x && y' == y
    {
      IndexCell(g.w, x', y');
      IndexCell(g.w, x, y);
    }
    if Visible(g, x, y) {
      assert TouchesX(g, x) && TouchesY(g, y);
    }
  }

  /** What the scan knows after the first `k` cells. */
  ghost predicate StatsUpTo(g: Grid, k: nat, counts: PixelCounts, bounds: Option<Bounds>)
    requires Sized(g) && k <= |g.px|
  {
    CountsOf(g.px[..k], counts) && TightUpTo(g, k, bounds)
  }

  function CountPixel(c: PixelCounts, p: Pixel): PixelCounts {
    if p.a == 0 then c.(transparent := c.transparent + 1)
    else if p.a == 255 then c.(opaquePixels := c.opaquePixels + 1)
    else c.(translucent := c.translucent + 1)
  }

  lemma StatsStart(g: Grid)
    requires Sized(g)
    ensures StatsUpTo(g, 0, PixelCounts(0, 0, 0), None)
  {
  }

  lemma StatsStep(g: Grid, x: nat, y: nat, counts: PixelCounts, bounds: Option<Bounds>)
    requires Sized(g) && x < g.w && y < g.h
    requires Index(g.w, x, y) < |g.px| && StatsUpTo(g, Index(g.w, x, y), counts, bounds)
    ensures StatsUpTo(g, Index(g.w, x, y) + 1, CountPixel(counts, At(g, x, y)),
                      if Visible(g, x, y) then Some(Grow(bounds, x, y)) else bounds)
  {
    CountsSnoc(g.px, Index(g.w, x, y));
    TightStep(g, bounds, x, y);
  }

  /** One scan over the cells classifies the pixels and finds the visible bounds. */
  method PixelStats(g: Grid) returns (counts: PixelCounts, bounds: Option<Bounds>)
    requires Sized(g)
    ensures CountsOf(g.px, counts)
    ensures Tight(g, bounds)
  {
    counts := PixelCounts(0, 0, 0);
    bounds := None;
    hide Index, TightUpTo;
    var y := 0;
    StatsStart(g);
    ScanOrder(g.w, g.h, 0, 0);
    while y < g.h
      invariant 0 <= y <= g.h && Index(g.w, 0, y) <= |g.px|
      invariant StatsUpTo(g, Index(g.w, 0, y), counts, bounds)
    {
      var x := 0;
      while x < g.w
        invariant 0 <= x <= g.w && Index(g.w, x, y) <= |g.px|
        invariant StatsUpTo(g, Index(g.w, x, y), counts, bounds)
      {
        IndexInRange(g.w, g.h, x, y);
        ScanOrder(g.w, g.h, x, y);
        StatsStep(g, x, y, counts, bounds);
        var pixel := At(g, x, y);
        counts := CountPixel(counts, pixel);
        if pixel.a != 0 {
          bounds := Some(Grow(bounds, x, y));
        }
        x := x + 1;
      }
      ScanOrder(g.w, g.h, x, y);
      y := y + 1;
    }
    assert g.px[..|g.px|] == g.px;
    TightAtEnd(g, bounds);
  }

  // ------------------------------------------------------------- normalisation

  function Cleared(p: Pixel): Pixel {
    if p.a == 0 then CLEAR else p
  }

  ghost predicate Normal(f: Frame) {
    && Sized(f.grid)
    && (forall i :: 0 <= i < |f.grid.px| ==> Cleared(f.grid.px[i]) == f.grid.px[i])
    && Tight(f.grid, f.bounds)
  }

  method NormalizeFrame(w: nat, h: nat, px: seq<Pixel>) returns (f: Frame)
    requires |px| == w * h
    ensures Normal(f) && f.grid.w == w && f.grid.h == h
    ensures forall i :: 0 <= i < |px| ==> f.grid.px[i] == Cleared(px[i])
  {
    var g := Grid(w, h, seq(|px|, i requires 0 <= i < |px| => Cleared(px[i])));
    var _, bounds := PixelStats(g);
    f := Frame(g, bounds);
  }

  // ---------------------------------------------------------------- transforms

  function Inverse(t: Transform): Transform {
    match t
    case Rotate90 => Rotate270
    case Rotate270 => Rotate90
    case _ => t
  }

  function TurnedW(t: Transform, w: nat, h: nat): nat {
    if t == Rotate90 || t == Rotate270 then h else w
  }

  function TurnedH(t: Transform, w: nat, h: nat): nat {
    if t == Rotate90 || t == Rotate270 then w else h
  }

  /** Where the pixel at `(x, y)` of a `w` by `h` frame goes. */
  function MapPoint(t: Transform, w: nat, h: nat, x: nat, y: nat): (p: (nat, nat))
    requires x < w && y < h
    ensures p.0 < TurnedW(t, w, h) && p.1 < TurnedH(t, w, h)
    ensures MapBack(t, w, h, p) == (x, y)
  {
    match t
    case Identity => (x, y)
    case MirrorHorizontal => (w - 1 - x, y)
    case MirrorVertical => (x, h - 1 - y)
    case Rotate90 => (h - 1 - y, x)
    case Rotate180 => (w - 1 - x, h - 1 - y)
    case Rotate270 => (y, w - 1 - x)
  }

  /** The cell a pixel of the transformed `w` by `h` frame came from. */
  function MapBack(t: Transform, w: nat, h: nat, p: (nat, nat)): (int, int) {
    match t
    case Identity => p
    case MirrorHorizontal => (w - 1 - p.0, p.1)
    case MirrorVertical => (p.0, h - 1 - p.1)
    case Rotate90 => (p.1, h - 1 - p.0)
    case Rotate180 => (w - 1 - p.0, h - 1 - p.1)
    case Rotate270 => (w - 1 - p.1, p.0)
  }

  lemma InverseUndoes(t: Transform, w: nat, h: nat, x: nat, y: nat)
    requires x < w && y < h
    ensures var p := MapPoint(t, w, h, x, y);
            MapPoint(Inverse(t), TurnedW(t, w, h), TurnedH(t, w, h), p.0, p.1) == (x, y)
    ensures Inverse(Inverse(t)) == t
    ensures TurnedW(Inverse(t), TurnedW(t, w, h), TurnedH(t, w, h)) == w
    ensures TurnedH(Inverse(t), TurnedW(t, w, h), TurnedH(t, w, h)) == h
  {
  }

  lemma AreaKept(t: Transform, w: nat, h: nat)
    ensures TurnedW(t, w, h) * TurnedH(t, w, h) == w * h
  {
  }

  /** The position in the transformed frame of the pixel stored at position `i`. */
  function TargetIndex(t: Transform, w: nat, h: nat, i: nat): (j: nat)
    requires i < w * h
    ensures j < w * h
  {
    CellIndex(w, h, i);
    AreaKept(t, w, h);
    var p := MapPoint(t, w, h, i % w, i / w);
    IndexInRange(TurnedW(t, w, h), TurnedH(t, w, h), p.0, p.1);
    Index(TurnedW(t, w, h), p.0, p.1)
  }

  function SourceIndex(t: Transform, w: nat, h: nat, j: nat): (i: nat)
    requires j < w * h
    ensures i < w * h
  {
    AreaKept(t, w, h);
    TargetIndex(Inverse(t), TurnedW(t, w, h), TurnedH(t, w, h), j)
  }

  /** A transform permutes the positions of a frame and its inverse undoes it. */
  lemma TargetThenSource(t: Transform, w: nat, h: nat, i: nat)
    requires i < w * h
    ensures SourceIndex(t, w, h, TargetIndex(t, w, h, i)) == i
    ensures TargetIndex(t, w, h, SourceIndex(t, w, h, i)) == i
  {
    AreaKept(t, w, h);
    TargetRoundTrip(t, w, h, i);
    TargetRoundTrip(Inverse(t), TurnedW(t, w, h), TurnedH(t, w, h), i);
  }

  lemma TargetRoundTrip(t: Transform, w: nat, h: nat, i: nat)
    requires i < w * h && TurnedW(t, w, h) * TurnedH(t, w, h) == w * h
    ensures TargetIndex(Inverse(t), TurnedW(t, w, h), TurnedH(t, w, h), TargetIndex(t, w, h, i)) == i
  {
    CellIndex(w, h, i);
    var p := MapPoint(t, w, h, i % w, i / w);
    IndexCell(TurnedW(t, w, h), p.0, p.1);
    InverseUndoes(t, w, h, i % w, i / w);
  }

  /** The grid with every pixel moved by the transform. */
  function Turn(g: Grid, t: Transform): (r: Grid)
    requires Sized(g)
    ensures Sized(r) && r.w == TurnedW(t, g.w, g.h) && r.h == TurnedH(t, g.w, g.h)
  {
    AreaKept(t, g.w, g.h);
    Grid(TurnedW(t, g.w, g.h), TurnedH(t, g.w, g.h),
         seq(g.w * g.h, j requires 0 <= j < g.w * g.h => g.px[SourceIndex(t, g.w, g.h, j)]))
  }

  /** Reading the transformed grid at a mapped point reads the original pixel. */
  lemma TurnAt(g: Grid, t: Transform, x: nat, y: nat)
    requires Sized(g) && x < g.w && y < g.h
    ensures var p := MapPoint(t, g.w, g.h, x, y); At(Turn(g, t), p.0, p.1) == At(g, x, y)
  {
    IndexInRange(g.w, g.h, x, y);
    IndexCell(g.w, x, y);
    TargetThenSource(t, g.w, g.h, Index(g.w, x, y));
    var p := MapPoint(t, g.w, g.h, x, y);
    assert TargetIndex(t, g.w, g.h, Index(g.w, x, y)) == Index(TurnedW(t, g.w, g.h), p.0, p.1);
  }

  lemma TurnAtBack(g: Grid, t: Transform, x: nat, y: nat)
    requires Sized(g) && x < TurnedW(t, g.w, g.h) && y < TurnedH(t, g.w, g.h)
    ensures var q := MapPoint(Inverse(t), TurnedW(t, g.w, g.h), TurnedH(t, g.w, g.h), x, y);
            && q.0 < g.w && q.1 < g.h
            && MapPoint(t, g.w, g.h, q.0, q.1) == (x, y)
            && At(Turn(g, t), x, y) == At(g, q.0, q.1)
  {
    var q := MapPoint(Inverse(t), TurnedW(t, g.w, g.h), TurnedH(t, g.w, g.h), x, y);
    TurnAt(g, t, q.0, q.1);
  }

  /** Applying a transform and then its inverse gives back every pixel. */
  lemma TurnInverse(g: Grid, t: Transform)
    requires Sized(g)
    ensures Turn(Turn(g, t), Inverse(t)) == g
  {
    var r := Turn(Turn(g, t), Inverse(t));
    forall x: nat, y: nat | x < g.w && y < g.h
      ensures At(r, x, y) == At(g, x, y)
    {
      TurnAt(g, t, x, y);
      var p := MapPoint(t, g.w, g.h, x, y);
      TurnAt(Turn(g, t), Inverse(t), p.0, p.1);
      InverseUndoes(t, g.w, g.h, x, y);
    }
    GridsEqual(r, g);
  }

  function TurnBounds(t: Transform, w: nat, h: nat, v: Bounds): Bounds
    requires v.minX <= v.maxX < w && v.minY <= v.maxY < h
  {
    var p := MapPoint(t, w, h, v.minX, v.minY);
    var q := MapPoint(t, w, h, v.maxX, v.maxY);
    Bounds(Min(p.0, q.0), Min(p.1, q.1), Max(p.0, q.0), Max(p.1, q.1))
  }

  lemma TurnVisible(g: Grid, t: Transform, x: nat, y: nat)
    requires Sized(g) && x < g.w && y < g.h && Visible(g, x, y)
    ensures var p := MapPoint(t, g.w, g.h, x, y); Visible(Turn(g, t), p.0, p.1)
  {
    TurnAt(g, t, x, y);
  }

  /** Every visible pixel of the transformed grid lies inside the moved bounds. */
  lemma TurnCovered(g: Grid, t: Transform, b: Option<Bounds>, x: nat, y: nat)
    requires Sized(g) && Tight(g, b)
    requires x < TurnedW(t, g.w, g.h) && y < TurnedH(t, g.w, g.h) && Visible(Turn(g, t), x, y)
    ensures b.Some? && Inside(TurnBounds(t, g.w, g.h, b.value), x, y)
  {
    TurnAtBack(g, t, x, y);
    var q := MapPoint(Inverse(t), TurnedW(t, g.w, g.h), TurnedH(t, g.w, g.h), x, y);
    assert Visible(g, q.0, q.1);
  }

  lemma TurnTouchesX(g: Grid, t: Transform, x: nat)
    requires Sized(g) && TouchesX(g, x)
    ensures match t
            case Identity => TouchesX(Turn(g, t), x)
            case MirrorVertical => TouchesX(Turn(g, t), x)
            case MirrorHorizontal => TouchesX(Turn(g, t), g.w - 1 - x)
            case Rotate180 => TouchesX(Turn(g, t), g.w - 1 - x)
            case Rotate90 => TouchesY(Turn(g, t), x)
            case Rotate270 => TouchesY(Turn(g, t), g.w - 1 - x)
  {
    var y: nat :| y < g.h && Visible(g, x, y);
    TurnVisible(g, t, x, y);
  }

  lemma TurnTouchesY(g: Grid, t: Transform, y: nat)
    requires Sized(g) && TouchesY(g, y)
    ensures match t
            case Identity => TouchesY(Turn(g, t), y)
            case MirrorHorizontal => TouchesY(Turn(g, t), y)
            case MirrorVertical => TouchesY(Turn(g, t), g.h - 1 - y)
            case Rotate180 => TouchesY(Turn(g, t), g.h - 1 - y)
            case Rotate90 => TouchesX(Turn(g, t), g.h - 1 - y)
            case Rotate270 => TouchesX(Turn(g, t), y)
  {
    var x: nat :| x < g.w && Visible(g, x, y);
    TurnVisible(g, t, x, y);
  }

  lemma TurnTouching(g: Grid, t: Transform, b: Bounds)
    requires Sized(g) && Touching(g, b)
    ensures Touching(Turn(g, t), TurnBounds(t, g.w, g.h, b))
  {
    hide At, Index, Turn, TouchesX, TouchesY;
    TurnTouchesX(g, t, b.minX);
    TurnTouchesX(g, t, b.maxX);
    TurnTouchesY(g, t, b.minY);
    TurnTouchesY(g, t, b.maxY);
  }

  /** The visible bounds move with the pixels. */
  lemma TurnTight(g: Grid, t: Transform, b: Option<Bounds>)
    requires Sized(g) && Tight(g, b)
    ensures Tight(Turn(g, t), if b.None? then None else Some(TurnBounds(t, g.w, g.h, b.value)))
  {
    if b.Some? {
      TurnTouching(g, t, b.value);
    }
    forall x: nat, y: nat | x < TurnedW(t, g.w, g.h) && y < TurnedH(t, g.w, g.h) && Visible(Turn(g, t), x, y)
      ensures b.Some? && Inside(TurnBounds(t, g.w, g.h, b.value), x, y)
    {
      TurnCovered(g, t, b, x, y);
    }
  }

  function Turned(f: Frame, t: Transform): (r: Frame)
    requires Normal(f)
    ensures Normal(r)
  {
    TurnTight(f.grid, t, f.bounds);
    Frame(Turn(f.grid, t),
          if f.bounds.None? then None else Some(TurnBounds(t, f.grid.w, f.grid.h, f.bounds.value)))
  }

  /** The buffer holds the pixels of the first `k` source cells at their new places. */
  ghost predicate Placed(g: Grid, t: Transform, out: seq<Pixel>, k: nat)
    requires Sized(g) && |out| == |g.px|
  {
    forall j :: 0 <= j < |out| && SourceIndex(t, g.w, g.h, j) < k
      ==> out[j] == g.px[SourceIndex(t, g.w, g.h, j)]
  }

  lemma PlaceStep(g: Grid, t: Transform, out: seq<Pixel>, x: nat, y: nat)
    requires Sized(g) && |out| == |g.px| && x < g.w && y < g.h
    requires Placed(g, t, out, Index(g.w, x, y))
    ensures var p := MapPoint(t, g.w, g.h, x, y);
            var j := Index(TurnedW(t, g.w, g.h), p.0, p.1);
            && j < |out| && Index(g.w, x, y) < |out|
            && Placed(g, t, out[j := At(g, x, y)], Index(g.w, x, y) + 1)
  {
    var i := Index(g.w, x, y);
    IndexInRange(g.w, g.h, x, y);
    IndexCell(g.w, x, y);
    var j := TargetIndex(t, g.w, g.h, i);
    var out' := out[j := At(g, x, y)];
    forall k | 0 <= k < |out| && SourceIndex(t, g.w, g.h, k) < i + 1
      ensures out'[k] == g.px[SourceIndex(t, g.w, g.h, k)]
    {
      TargetThenSource(t, g.w, g.h, k);
      TargetThenSource(t, g.w, g.h, i);
    }
  }

  lemma PlacedAll(g: Grid, t: Transform, out: seq<Pixel>)
    requires Sized(g) && |out| == |g.px| && Placed(g, t, out, |g.px|)
    ensures out == Turn(g, t).px
  {
  }

  /** Writes every source pixel to its mapped place of a fresh buffer. */
  method TransformFrame(f: Frame, t: Transform) returns (r: Frame)
    requires Normal(f)
    ensures r == Turned(f, t)
  {
    hide Index, SourceIndex, Turn, Tight;
    var g := f.grid;
    AreaKept(t, g.w, g.h);
    var width, height := TurnedW(t, g.w, g.h), TurnedH(t, g.w, g.h);
    var out := new Pixel[width * height](_ => CLEAR);
    var y := 0;
    ScanOrder(g.w, g.h, 0, 0);
    while y < g.h
      invariant 0 <= y <= g.h
      invariant Placed(g, t, out[..], Index(g.w, 0, y))
    {
      var x := 0;
      while x < g.w
        invariant 0 <= x <= g.w
        invariant Placed(g, t, out[..], Index(g.w, x, y))
      {
        var p := MapPoint(t, g.w, g.h, x, y);
        PlaceStep(g, t, out[..], x, y);
        ghost var before := out[..];
        out[Index(width, p.0, p.1)] := At(g, x, y);
        assert out[..] == before[Index(width, p.0, p.1) := At(g, x, y)];
        ScanOrder(g.w, g.h, x, y);
        x := x + 1;
      }
      ScanOrder(g.w, g.h, x, y);
      y := y + 1;
    }
    PlacedAll(g, t, out[..]);
    r := NormalizeFrame(width, height, out[..]);
    assert r.grid.px == Turn(g, t).px;
    TightIsUnique(r.grid, r.bounds, Turned(f, t).bounds);
  }

  // -------------------------------------------------------------------- crops

  function BoundsW(v: Bounds): nat
    requires v.minX <= v.maxX
  {
    v.maxX - v.minX + 1
  }

  function BoundsH(v: Bounds): nat
    requires v.minY <= v.maxY
  {
    v.maxY - v.minY + 1
  }

  /** The visible part of a frame, `None` when nothing is visible. */
  function Crop(f: Frame): (c: Option<Grid>)
    requires Normal(f)
    ensures c.None? <==> f.bounds.None?
    ensures c.Some? ==> Sized(c.value) && |c.value.px| > 0
    ensures c.Some? ==> c.value.w == BoundsW(f.bounds.value) && c.value.h == BoundsH(f.bounds.value)
  {
    match f.bounds
    case None => None
    case Some(v) => Some(CropGrid(f.grid, v))
  }

  function CropPixel(g: Grid, v: Bounds, i: nat): Pixel
    requires Sized(g) && v.minX <= v.maxX < g.w && v.minY <= v.maxY < g.h
    requires i < BoundsW(v) * BoundsH(v)
  {
    CellIndex(BoundsW(v), BoundsH(v), i);
    At(g, v.minX + i % BoundsW(v), v.minY + i / BoundsW(v))
  }

  function CropGrid(g: Grid, v: Bounds): (c: Grid)
    requires Sized(g) && v.minX <= v.maxX < g.w && v.minY <= v.maxY < g.h
    ensures Sized(c) && c.w == BoundsW(v) && c.h == BoundsH(v) && |c.px| > 0
  {
    MulMono(1, BoundsW(v), BoundsH(v));
    var n := BoundsW(v) * BoundsH(v);
    Grid(BoundsW(v), BoundsH(v), seq(n, i requires 0 <= i < n => CropPixel(g, v, i)))
  }

  lemma CropAt(g: Grid, v: Bounds, x: nat, y: nat)
    requires Sized(g) && v.minX <= v.maxX < g.w && v.minY <= v.maxY < g.h
    requires x < BoundsW(v) && y < BoundsH(v)
    ensures At(CropGrid(g, v), x, y) == At(g, v.minX + x, v.minY + y)
  {
    IndexInRange(BoundsW(v), BoundsH(v), x, y);
    IndexCell(BoundsW(v), x, y);
  }

  /** The offset inside the moved bounds is the moved offset inside the bounds. */
  lemma BoundsPoint(t: Transform, w: nat, h: nat, v: Bounds, x: nat, y: nat)
    requires v.minX <= v.maxX < w && v.minY <= v.maxY < h && x < BoundsW(v) && y < BoundsH(v)
    ensures var p := MapPoint(t, BoundsW(v), BoundsH(v), x, y);
            var v' := TurnBounds(t, w, h, v);
            MapPoint(t, w, h, v.minX + x, v.minY + y) == (v'.minX + p.0, v'.minY + p.1)
  {
  }

  lemma BoundsTurned(t: Transform, w: nat, h: nat, v: Bounds)
    requires v.minX <= v.maxX < w && v.minY <= v.maxY < h
    ensures var v' := TurnBounds(t, w, h, v);
            && v'.minX <= v'.maxX < TurnedW(t, w, h) && v'.minY <= v'.maxY < TurnedH(t, w, h)
            && BoundsW(v') == TurnedW(t, BoundsW(v), BoundsH(v)) && BoundsH(v') == TurnedH(t, BoundsW(v), BoundsH(v))
  {
  }

  lemma CropTurnedAt(g: Grid, v: Bounds, t: Transform, x: nat, y: nat)
    requires Sized(g) && v.minX <= v.maxX < g.w && v.minY <= v.maxY < g.h
    requires x < BoundsW(v) && y < BoundsH(v)
    ensures var p := MapPoint(t, BoundsW(v), BoundsH(v), x, y);
            && var v' := TurnBounds(t, g.w, g.h, v);
            && v'.minX <= v'.maxX < Turn(g, t).w && v'.minY <= v'.maxY < Turn(g, t).h
            && p.0 < BoundsW(v') && p.1 < BoundsH(v')
            && At(CropGrid(Turn(g, t), v'), p.0, p.1) == At(Turn(CropGrid(g, v), t), p.0, p.1)
  {
    hide At, CropGrid, CropPixel, Index, Turn, TurnBounds, MapPoint, MapBack, Sized;
    var p := MapPoint(t, BoundsW(v), BoundsH(v), x, y);
    BoundsTurned(t, g.w, g.h, v);
    BoundsPoint(t, g.w, g.h, v, x, y);
    CropAt(Turn(g, t), TurnBounds(t, g.w, g.h, v), p.0, p.1);
    TurnAt(g, t, v.minX + x, v.minY + y);
    TurnAt(CropGrid(g, v), t, x, y);
    CropAt(g, v, x, y);
  }

  lemma CropGridTurned(g: Grid, v: Bounds, t: Transform)
    requires Sized(g) && v.minX <= v.maxX < g.w && v.minY <= v.maxY < g.h
    ensures CropGrid(Turn(g, t), TurnBounds(t, g.w, g.h, v)) == Turn(CropGrid(g, v), t)
  {
    hide At, CropGrid, CropPixel, Index, Turn;
    var a, b := CropGrid(Turn(g, t), TurnBounds(t, g.w, g.h, v)), Turn(CropGrid(g, v), t);
    forall x: nat, y: nat | x < a.w && y < a.h
      ensures At(a, x, y) == At(b, x, y)
    {
      var q := MapPoint(Inverse(t), a.w, a.h, x, y);
      InverseUndoes(Inverse(t), a.w, a.h, x, y);
      CropTurnedAt(g, v, t, q.0, q.1);
    }
    GridsEqual(a, b);
  }

  /** Cropping commutes with every transform. */
  lemma CropTurned(f: Frame, t: Transform)
    requires Normal(f)
    ensures Crop(Turned(f, t)).Some? <==> Crop(f).Some?
    ensures Crop(f).Some? ==> Crop(Turned(f, t)).value == Turn(Crop(f).value, t)
  {
    if f.bounds.Some? {
      CropGridTurned(f.grid, f.bounds.value, t);
    }
  }

  // --------------------------------------------------------------- directions

  function FlipEw(d: Dir): Dir {
    match d
    case East => West
    case West => East
    case Northeast => Northwest
    case Northwest => Northeast
    case Southeast => Southwest
    case Southwest => Southeast
    case _ => d
  }

  function FlipNs(d: Dir): Dir {
    match d
    case North => South
    case South => North
    case Northeast => Southeast
    case Southeast => Northeast
    case Northwest => Southwest
    case Southwest => Northwest
    case _ => d
  }

  function TransformDirection(d: Dir, t: Transform): Dir {
    match t
    case Identity => d
    case MirrorHorizontal => FlipEw(d)
    case MirrorVertical => FlipNs(d)
    case Rotate90 =>
      (match d
       case North => East
       case East => South
       case South => West
       case West => North
       case Northeast => Southeast
       case Southeast => Southwest
       case Southwest => Northwest
       case Northwest => Northeast)
    case Rotate180 => FlipNs(FlipEw(d))
    case Rotate270 =>
      (match d
       case North => West
       case West => South
       case South => East
       case East => North
       case Northeast => Northwest
       case Northwest => Southwest
       case Southwest => Southeast
       case Southeast => Northeast)
  }

  /** The neighbour that a direction points to; rows run downwards. */
  function Towards(d: Dir): (int, int) {
    match d
    case North => (0, -1)
    case South => (0, 1)
    case East => (1, 0)
    case West => (-1, 0)
    case Northeast => (1, -1)
    case Northwest => (-1, -1)
    case Southeast => (1, 1)
    case Southwest => (-1, 1)
  }

  /** Directions turn with the pixels: the neighbour in a direction becomes the neighbour in
      the transformed direction. */
  lemma DirectionsFollowPixels(t: Transform, w: nat, h: nat, x: nat, y: nat, d: Dir)
    requires x < w && y < h && 0 <= x + Towards(d).0 < w && 0 <= y + Towards(d).1 < h
    ensures var p := MapPoint(t, w, h, x, y);
            var q := MapPoint(t, w, h, x + Towards(d).0, y + Towards(d).1);
            (q.0 - p.0, q.1 - p.1) == Towards(TransformDirection(d, t))
  {
  }

  /** Where the first pixel and its right neighbour go: this tells the transforms apart. */
  lemma CornerGoes(t: Transform, w: nat, h: nat)
    requires w > 1 && h > 1
    ensures var corner, next := MapPoint(t, w, h, 0, 0), MapPoint(t, w, h, 1, 0);
            match t
            case Identity => corner == (0, 0) && next == (1, 0)
            case MirrorHorizontal => corner == (w - 1, 0) && next == (w - 2, 0)
            case MirrorVertical => corner == (0, h - 1) && next == (1, h - 1)
            case Rotate90 => corner == (h - 1, 0) && next == (h - 1, 1)
            case Rotate180 => corner == (w - 1, h - 1) && next == (w - 2, h - 1)
            case Rotate270 => corner == (0, w - 1) && next == (0, w - 2)
  {
  }

  lemma DirectionInverse(d: Dir, t: Transform)
    ensures TransformDirection(TransformDirection(d, t), Inverse(t)) == d
    ensures TransformDirection(TransformDirection(d, Inverse(t)), t) == d
  {
  }
}
