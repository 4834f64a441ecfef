/** Aligned frame comparison, classification of icon states, and the theorem that the
    class does not depend on the order of the two arguments (src/spaceman/dmi.rs). */
module Comparison {
  import opened Basics
  import opened Frames

  datatype MatchKind = Exact | Transformed | Padded | Palette | Near | Different

  function MatchRank(k: MatchKind): nat {
    match k
    case Exact => 0
    case Transformed => 1
    case Padded => 2
    case Palette => 3
    case Near => 4
    case Different => 5
  }

  /** `similarity` is exact; the source rounds it to single precision. */
  datatype FrameComparison = FrameComparison(
    kind: MatchKind,
    transform: Transform,
    offset: (int, int),
    similarity: real,
    changedPixels: nat,
    maxChannelDelta: nat)

  // -------------------------------------------------------- pixel-pair measures

  type PixelPair = (Pixel, Pixel)

  function AbsDiff(a: Byte, b: Byte): nat {
    if a <= b then b - a else a - b
  }

  function PairDelta(p: PixelPair): nat {
    AbsDiff(p.0.r, p.1.r) + AbsDiff(p.0.g, p.1.g) + AbsDiff(p.0.b, p.1.b) + AbsDiff(p.0.a, p.1.a)
  }

  function PairChanged(p: PixelPair): nat {
    if p.0 != p.1 then 1 else 0
  }

  function PairMax(p: PixelPair): nat {
    Max(Max(AbsDiff(p.0.r, p.1.r), AbsDiff(p.0.g, p.1.g)),
        Max(AbsDiff(p.0.b, p.1.b), AbsDiff(p.0.a, p.1.a)))
  }

  function MaxDelta(s: seq<PixelPair>): nat {
    if s == [] then 0 else Max(MaxDelta(s[..|s| - 1]), PairMax(s[|s| - 1]))
  }

  function Zip(a: seq<Pixel>, b: seq<Pixel>): (z: seq<PixelPair>)
    requires |a| == |b|
    ensures |z| == |a|
    ensures forall i :: 0 <= i < |z| ==> z[i] == (a[i], b[i])
  {
    seq(|a|, i requires 0 <= i < |a| => (a[i], b[i]))
  }

  /** No pixel differs exactly when the two pixel sequences are equal. */
  lemma {:induction false} UnchangedIffEqual(a: seq<Pixel>, b: seq<Pixel>)
    requires |a| == |b|
    ensures SumOf(Zip(a, b), PairChanged) == 0 <==> a == b
    decreases |a|
  {
    if |a| > 0 {
      var n := |a| - 1;
      assert Zip(a, b)[..n] == Zip(a[..n], b[..n]);
      UnchangedIffEqual(a[..n], b[..n]);
      assert a == a[..n] + [a[n]] && b == b[..n] + [b[n]];
    }
  }

  // -------------------------------------------------------------- recolouring

  ghost predicate AlphaKept(a: seq<Pixel>, b: seq<Pixel>)
    requires |a| == |b|
  {
    forall i :: 0 <= i < |a| ==> a[i].a == b[i].a
  }

  /** What the palette scan decides. */
  ghost predicate PaletteEqual(a: seq<Pixel>, b: seq<Pixel>)
    requires |a| == |b|
  {
    SamePattern(a, b) && AlphaKept(a, b)
  }

  /** `m` is a bijection from the colours of `a` to the colours of `b` that keeps
      alpha and turns `a` into `b` pixel by pixel. */
  ghost predicate Recolours(m: map<Pixel, Pixel>, a: seq<Pixel>, b: seq<Pixel>)
    requires |a| == |b|
  {
    && (forall x :: x in m ==> x in a)
    && (forall x, y :: x in m && y in m && m[x] == m[y] ==> x == y)
    && (forall x :: x in m ==> m[x].a == x.a)
    && (forall i :: 0 <= i < |a| ==> a[i] in m && m[a[i]] == b[i])
  }

  lemma {:induction false} PatternGivesMap(a: seq<Pixel>, b: seq<Pixel>) returns (m: map<Pixel, Pixel>)
    requires |a| == |b| && PaletteEqual(a, b)
    ensures Recolours(m, a, b)
    decreases |a|
  {
    if |a| == 0 {
      m := map[];
    } else {
      var n := |a| - 1;
      var m' := PatternGivesMap(a[..n], b[..n]);
      m := m'[a[n] := b[n]];
      forall x | x in m' && m'[x] == b[n]
        ensures x == a[n]
      {
        var i :| 0 <= i < n && a[..n][i] == x;
        assert b[..n][i] == b[n];
        assert a[i] == a[n];
      }
      forall i | 0 <= i < |a|
        ensures a[i] in m && m[a[i]] == b[i]
      {
        if i < n {
          assert a[..n][i] == a[i] && b[..n][i] == b[i];
        }
      }
    }
  }

  /** The palette test holds exactly when one alpha-preserving colour bijection maps
      the left crop to the right crop. */
  lemma PaletteIffRecolouring(a: seq<Pixel>, b: seq<Pixel>)
    requires |a| == |b|
    ensures PaletteEqual(a, b) <==> exists m :: Recolours(m, a, b)
  {
    if PaletteEqual(a, b) {
      var m := PatternGivesMap(a, b);
    }
    if m :| Recolours(m, a, b) {
      forall i, j | 0 <= i < |a| && 0 <= j < |a|
        ensures a[i] == a[j] <==> b[i] == b[j]
      {
        assert m[a[i]] == b[i] && m[a[j]] == b[j];
      }
    }
  }

  // ------------------------------------------------------- aligned comparison

  function Similarity(delta: nat, cells: nat): real
    requires cells > 0
  {
    1.0 - delta as real / (cells as real * 4.0 * 255.0)
  }

  predicate PaddingDiffers(left: Frame, right: Frame, lb: Bounds, rb: Bounds) {
    || lb.minX != rb.minX || lb.minY != rb.minY
    || left.grid.w != right.grid.w || left.grid.h != right.grid.h
  }

  ghost function ClassifyCrops(left: Frame, right: Frame, t: Transform, a: Grid, b: Grid): MatchKind
    requires |a.px| == |b.px| && left.bounds.Some? && right.bounds.Some?
  {
    if SumOf(Zip(a.px, b.px), PairChanged) == 0 then
      if t != Identity then Transformed
      else if PaddingDiffers(left, right, left.bounds.value, right.bounds.value) then Padded
      else Exact
    else if PaletteEqual(a.px, b.px) then Palette
    else Different
  }

  /** What comparing `left` with the already transformed `right` must report. */
  ghost function Aligned(left: Frame, right: Frame, t: Transform): FrameComparison
    requires Normal(left) && Normal(right)
  {
    var ca, cb := Crop(left), Crop(right);
    if ca.None? && cb.None? then FrameComparison(Exact, t, (0, 0), 1.0, 0, 0)
    else if ca.None? || cb.None? then FrameComparison(Different, t, (0, 0), 0.0, 1, 255)
    else
      var lb, rb := left.bounds.value, right.bounds.value;
      var a, b := ca.value, cb.value;
      var offset := (rb.minX - lb.minX, rb.minY - lb.minY);
      if a.w != b.w || a.h != b.h then
        FrameComparison(Different, t, offset, 0.0, |a.px|, 255)
      else
        var z := Zip(a.px, b.px);
        FrameComparison(ClassifyCrops(left, right, t, a, b), t, offset,
                        Similarity(SumOf(z, PairDelta), |z|),
                        SumOf(z, PairChanged), MaxDelta(z))
  }

  /** The running totals and the two palettes of the pixel scan. */
  datatype Scan = Scan(delta: nat, changed: nat, maxDelta: nat,
                       left: map<Pixel, nat>, right: map<Pixel, nat>, paletteEqual: bool)

  /** The number of a colour, taken from the palette or appended to it. */
  function Entry(palette: map<Pixel, nat>, p: Pixel): (m: map<Pixel, nat>)
    ensures p in m
  {
    if p in palette then palette else palette[p := |palette|]
  }

  function ScanPair(s: Scan, p: Pixel, q: Pixel): Scan {
    var left, right := Entry(s.left, p), Entry(s.right, q);
    Scan(s.delta + PairDelta((p, q)),
         if p != q then s.changed + 1 else s.changed,
         Max(s.maxDelta, PairMax((p, q))),
         left, right,
         s.paletteEqual && left[p] == right[q] && p.a == q.a)
  }

  ghost predicate CodesAndAlpha(a: seq<Pixel>, b: seq<Pixel>, k: nat)
    requires |a| == |b| && k <= |a|
  {
    SameCodes(a, b, k) && forall i :: 0 <= i < k ==> a[i].a == b[i].a
  }

  /** What the scan knows after `k` pairs. */
  ghost predicate ScanUpTo(a: seq<Pixel>, b: seq<Pixel>, k: nat, s: Scan) {
    && |a| == |b| && k <= |a|
    && s.delta == SumOf(Zip(a, b)[..k], PairDelta)
    && s.changed == SumOf(Zip(a, b)[..k], PairChanged)
    && s.maxDelta == MaxDelta(Zip(a, b)[..k])
    && s.left == Numbering(a, k) && s.right == Numbering(b, k)
    && (s.paletteEqual <==> CodesAndAlpha(a, b, k))
  }

  lemma ScanStart(a: seq<Pixel>, b: seq<Pixel>)
    requires |a| == |b|
    ensures ScanUpTo(a, b, 0, Scan(0, 0, 0, map[], map[], true))
  {
  }

  lemma ScanSums(a: seq<Pixel>, b: seq<Pixel>, k: nat)
    requires |a| == |b| && k < |a|
    ensures SumOf(Zip(a, b)[..k + 1], PairDelta)
         == SumOf(Zip(a, b)[..k], PairDelta) + PairDelta((a[k], b[k]))
    ensures SumOf(Zip(a, b)[..k + 1], PairChanged)
         == SumOf(Zip(a, b)[..k], PairChanged) + PairChanged((a[k], b[k]))
    ensures MaxDelta(Zip(a, b)[..k + 1]) == Max(MaxDelta(Zip(a, b)[..k]), PairMax((a[k], b[k])))
  {
    SumOfSnoc(Zip(a, b), k, PairDelta);
    SumOfSnoc(Zip(a, b), k, PairChanged);
    assert Zip(a, b)[..k + 1][..k] == Zip(a, b)[..k];
  }

  lemma ScanCodes(a: seq<Pixel>, b: seq<Pixel>, k: nat)
    requires |a| == |b| && k < |a|
    ensures CodesAndAlpha(a, b, k + 1)
       <==> CodesAndAlpha(a, b, k) && CodeAt(a, k) == CodeAt(b, k) && a[k].a == b[k].a
  {
    hide Numbering;
  }

  lemma ScanStep(a: seq<Pixel>, b: seq<Pixel>, k: nat, s: Scan)
    requires |a| == |b| && k < |a| && ScanUpTo(a, b, k, s)
    ensures ScanUpTo(a, b, k + 1, ScanPair(s, a[k], b[k]))
  {
    hide PairDelta, PairMax, CodesAndAlpha, Zip;
    ScanSums(a, b, k);
    ScanCodes(a, b, k);
  }

  lemma ScanEnd(a: seq<Pixel>, b: seq<Pixel>)
    requires |a| == |b|
    ensures Zip(a, b)[..|a|] == Zip(a, b)
    ensures PaletteEqual(a, b) <==> CodesAndAlpha(a, b, |a|)
  {
    CodesIffPattern(a, b);
  }

  lemma CropCell(f: Frame, x: nat, y: nat)
    requires Normal(f) && f.bounds.Some?
    requires x < BoundsW(f.bounds.value) && y < BoundsH(f.bounds.value)
    ensures var v, c := f.bounds.value, Crop(f).value;
            && v.minX + x < f.grid.w && v.minY + y < f.grid.h
            && Index(c.w, x, y) < |c.px|
            && c.px[Index(c.w, x, y)] == At(f.grid, v.minX + x, v.minY + y)
  {
    CropAt(f.grid, f.bounds.value, x, y);
    IndexInRange(Crop(f).value.w, Crop(f).value.h, x, y);
  }

  method CompareAligned(left: Frame, right: Frame, t: Transform) returns (c: FrameComparison)
    requires Normal(left) && Normal(right)
    ensures c == Aligned(left, right, t)
  {
    hide CropGrid, PaletteEqual, PairDelta, PairChanged, TouchesX, TouchesY;
    if left.bounds.None? || right.bounds.None? {
      var same := left.bounds.None? && right.bounds.None?;
      c := FrameComparison(if same then Exact else Different, t, (0, 0),
                           if same then 1.0 else 0.0, if same then 0 else 1, if same then 0 else 255);
      return;
    }
    var lb, rb := left.bounds.value, right.bounds.value;
    var lw, lh, rw, rh := BoundsW(lb), BoundsH(lb), BoundsW(rb), BoundsH(rb);
    var offset := (rb.minX - lb.minX, rb.minY - lb.minY);
    if lw != rw || lh != rh {
      c := FrameComparison(Different, t, offset, 0.0, lw * lh, 255);
      return;
    }
    var scan := ScanCrops(left, right, lw, lh);
    var kind :=
      if scan.changed == 0 then
        if t != Identity then Transformed
        else if PaddingDiffers(left, right, lb, rb) then Padded
        else Exact
      else if scan.paletteEqual then Palette
      else Different;
    ghost var a, b := Crop(left).value, Crop(right).value;
    ScanEnd(a.px, b.px);
    assert |Zip(a.px, b.px)| == lw * lh;
    c := FrameComparison(kind, t, offset, Similarity(scan.delta, lw * lh), scan.changed, scan.maxDelta);
  }

  /** The pixel scan over two crops of equal size. */
  method ScanCrops(left: Frame, right: Frame, w: nat, h: nat) returns (scan: Scan)
    requires Normal(left) && Normal(right) && left.bounds.Some? && right.bounds.Some?
    requires w == BoundsW(left.bounds.value) == BoundsW(right.bounds.value)
    requires h == BoundsH(left.bounds.value) == BoundsH(right.bounds.value)
    ensures ScanUpTo(Crop(left).value.px, Crop(right).value.px, w * h, scan)
  {
    hide Index, At, Crop, ScanPair, ScanUpTo, Touching;
    var lb, rb := left.bounds.value, right.bounds.value;
    ghost var a, b := Crop(left).value.px, Crop(right).value.px;
    scan := Scan(0, 0, 0, map[], map[], true);
    ScanStart(a, b);
    ScanOrder(w, h, 0, 0);
    var y := 0;
    while y < h
      invariant 0 <= y <= h
      invariant ScanUpTo(a, b, Index(w, 0, y), scan)
    {
      var x := 0;
      while x < w
        invariant 0 <= x <= w
        invariant ScanUpTo(a, b, Index(w, x, y), scan)
      {
        CropCell(left, x, y);
        CropCell(right, x, y);
        ScanStep(a, b, Index(w, x, y), scan);
        ScanOrder(w, h, x, y);
        scan := ScanPair(scan, At(left.grid, lb.minX + x, lb.minY + y),
                               At(right.grid, rb.minX + x, rb.minY + y));
        x := x + 1;
      }
      ScanOrder(w, h, x, y);
      y := y + 1;
    }
  }

  // ------------------------------------------- one aligned pair, looked at backwards

  /** The pixel pairs seen when the right frame is transformed are, rearranged and with
      sides exchanged, the pairs seen when the left frame is transformed back. */
  lemma PairsMoved(a: Grid, b: Grid, t: Transform, i: nat)
    requires Sized(a) && Sized(b) && a.w == TurnedW(t, b.w, b.h) && a.h == TurnedH(t, b.w, b.h)
    requires i < |a.px|
    ensures |a.px| == |b.px|
    ensures var s := SourceIndex(t, b.w, b.h, i);
            && Turn(b, t).px[i] == b.px[s]
            && Turn(a, Inverse(t)).px[s] == a.px[i]
    ensures TargetIndex(t, b.w, b.h, SourceIndex(t, b.w, b.h, i)) == i
  {
    AreaKept(t, b.w, b.h);
    InverseDims(t, b.w, b.h);
    TargetThenSource(t, b.w, b.h, i);
  }

  lemma InverseDims(t: Transform, w: nat, h: nat)
    ensures Inverse(Inverse(t)) == t
    ensures TurnedW(Inverse(t), TurnedW(t, w, h), TurnedH(t, w, h)) == w
    ensures TurnedH(Inverse(t), TurnedW(t, w, h), TurnedH(t, w, h)) == h
    ensures TurnedW(t, w, h) * TurnedH(t, w, h) == w * h
  {
  }

  lemma MeasuresSymmetric(p: Pixel, q: Pixel)
    ensures PairDelta((p, q)) == PairDelta((q, p)) && PairChanged((p, q)) == PairChanged((q, p))
  {
  }

  lemma {:induction false} SumFlipped(z: seq<PixelPair>, y: seq<PixelPair>)
    requires |z| == |y| && forall i :: 0 <= i < |z| ==> y[i] == (z[i].1, z[i].0)
    ensures SumOf(z, PairDelta) == SumOf(y, PairDelta)
    ensures SumOf(z, PairChanged) == SumOf(y, PairChanged)
    decreases |z|
  {
    if |z| > 0 {
      hide PairDelta, PairChanged;
      var n := |z| - 1;
      MeasuresSymmetric(z[n].0, z[n].1);
      SumFlipped(z[..n], y[..n]);
    }
  }

  /** Changed pixels, total delta and the palette test survive exchanging the crops and
      inverting the transform. */
  lemma MeasuresMoved(a: Grid, b: Grid, t: Transform)
    requires Sized(a) && Sized(b) && a.w == TurnedW(t, b.w, b.h) && a.h == TurnedH(t, b.w, b.h)
    ensures |a.px| == |b.px|
    ensures var z, y := Zip(a.px, Turn(b, t).px), Zip(b.px, Turn(a, Inverse(t)).px);
            && SumOf(z, PairDelta) == SumOf(y, PairDelta)
            && SumOf(z, PairChanged) == SumOf(y, PairChanged)
  {
    InverseDims(t, b.w, b.h);
    hide SourceIndex, TargetIndex, Turn, PairDelta, PairChanged;
    var z, y := Zip(a.px, Turn(b, t).px), Zip(b.px, Turn(a, Inverse(t)).px);
    var f := seq(|y|, i requires 0 <= i < |y| => (y[i].1, y[i].0));
    SumFlipped(y, f);
    var p := seq(|z|, i requires 0 <= i < |z| => SourceIndex(t, b.w, b.h, i));
    forall i | 0 <= i < |p|
      ensures p[i] < |f| && z[i] == f[p[i]] && TargetIndex(t, b.w, b.h, p[i]) == i
    {
      PairsMoved(a, b, t, i);
    }
    assert Rearranges(f, z, p);
    SumOfRearranged(f, z, p, PairDelta);
    SumOfRearranged(f, z, p, PairChanged);
  }

  lemma PaletteMovedOneWay(a: Grid, b: Grid, t: Transform)
    requires Sized(a) && Sized(b) && a.w == TurnedW(t, b.w, b.h) && a.h == TurnedH(t, b.w, b.h)
    requires |a.px| == |b.px| && |Turn(a, Inverse(t)).px| == |b.px|
    requires PaletteEqual(b.px, Turn(a, Inverse(t)).px)
    ensures PaletteEqual(a.px, Turn(b, t).px)
  {
    hide SourceIndex, TargetIndex, Turn;
    forall i, j | 0 <= i < |a.px| && 0 <= j < |a.px|
      ensures a.px[i] == a.px[j] <==> Turn(b, t).px[i] == Turn(b, t).px[j]
      ensures a.px[i].a == Turn(b, t).px[i].a
    {
      PairsMoved(a, b, t, i);
      PairsMoved(a, b, t, j);
    }
  }

  lemma PaletteMoved(a: Grid, b: Grid, t: Transform)
    requires Sized(a) && Sized(b) && a.w == TurnedW(t, b.w, b.h) && a.h == TurnedH(t, b.w, b.h)
    ensures |a.px| == |b.px|
    ensures PaletteEqual(a.px, Turn(b, t).px) <==> PaletteEqual(b.px, Turn(a, Inverse(t)).px)
  {
    InverseDims(t, b.w, b.h);
    hide PaletteEqual, Turn;
    if PaletteEqual(a.px, Turn(b, t).px) {
      PaletteMovedOneWay(b, a, Inverse(t));
    }
    if PaletteEqual(b.px, Turn(a, Inverse(t)).px) {
      PaletteMovedOneWay(a, b, t);
    }
  }

  lemma PaddingSwap(left: Frame, right: Frame)
    requires Normal(left) && Normal(right) && left.bounds.Some? && right.bounds.Some?
    ensures PaddingDiffers(left, Turned(right, Identity), left.bounds.value, Turned(right, Identity).bounds.value)
       <==> PaddingDiffers(right, Turned(left, Identity), right.bounds.value, Turned(left, Identity).bounds.value)
  {
  }

  lemma ClassSwap(left: Frame, right: Frame, t: Transform)
    requires Normal(left) && Normal(right) && left.bounds.Some? && right.bounds.Some?
    requires var a, b := Crop(left).value, Crop(right).value;
             a.w == TurnedW(t, b.w, b.h) && a.h == TurnedH(t, b.w, b.h)
    ensures var a, b := Crop(left).value, Crop(right).value;
            var a', b' := Turn(a, Inverse(t)), Turn(b, t);
            && |a.px| == |b'.px| && |b.px| == |a'.px|
            && ClassifyCrops(left, Turned(right, t), t, a, b')
            == ClassifyCrops(right, Turned(left, Inverse(t)), Inverse(t), b, a')
            && SumOf(Zip(a.px, b'.px), PairDelta) == SumOf(Zip(b.px, a'.px), PairDelta)
  {
    hide Turn, TurnBounds, Turned, Tight, PaletteEqual, PairDelta, PairChanged, CropGrid, PaddingDiffers;
    var a, b := Crop(left).value, Crop(right).value;
    CropTurned(right, t);
    CropTurned(left, Inverse(t));
    MeasuresMoved(a, b, t);
    PaletteMoved(a, b, t);
    if t == Identity {
      PaddingSwap(left, right);
    }
  }

  /** Comparing `left` with `right` transformed by `t` and comparing `right` with
      `left` transformed by the inverse of `t` give the same class and similarity. */
  lemma AlignedSwap(left: Frame, right: Frame, t: Transform)
    requires Normal(left) && Normal(right)
    ensures var c, d := Aligned(left, Turned(right, t), t), Aligned(right, Turned(left, Inverse(t)), Inverse(t));
            c.kind == d.kind && c.similarity == d.similarity
  {
    hide Turn, Turned, Tight, ClassifyCrops, PairDelta, PairChanged, Crop;
    CropTurned(right, t);
    CropTurned(left, Inverse(t));
    if Crop(left).Some? && Crop(right).Some? {
      var a, b := Crop(left).value, Crop(right).value;
      InverseDims(t, b.w, b.h);
      InverseDims(Inverse(t), a.w, a.h);
      if a.w == TurnedW(t, b.w, b.h) && a.h == TurnedH(t, b.w, b.h) {
        ClassSwap(left, right, t);
      }
    }
  }

  // ------------------------------------------------------------- icon states

  datatype Dirs = One | Four | Eight

  /** An icon state: for every animation frame, one image per direction. */
  datatype IconState = IconState(dirs: Dirs, images: seq<map<Dir, Frame>>)

  function OrderedDirs(dirs: Dirs): seq<Dir> {
    match dirs
    case One => [South]
    case Four => [South, North, East, West]
    case Eight => [South, North, East, West, Southeast, Southwest, Northeast, Northwest]
  }

  ghost predicate ValidState(s: IconState) {
    forall f, d :: 0 <= f < |s.images| && d in OrderedDirs(s.dirs)
      ==> d in s.images[f] && Normal(s.images[f][d])
  }

  const TRANSFORMS := [Identity, MirrorHorizontal, MirrorVertical, Rotate90, Rotate180, Rotate270]

  function FindSource(dirs: seq<Dir>, t: Transform, target: Dir): (r: Option<Dir>)
    ensures r.Some? ==> r.value in dirs && TransformDirection(r.value, t) == target
    ensures r.None? ==> forall d :: d in dirs ==> TransformDirection(d, t) != target
  {
    if dirs == [] then None
    else if TransformDirection(dirs[0], t) == target then Some(dirs[0])
    else FindSource(dirs[1..], t, target)
  }

  /** The direction whose image lands on `target`, if the state has it. */
  function SourceDir(dirs: Dirs, t: Transform, target: Dir): (r: Option<Dir>)
    ensures r.Some? ==> r.value in OrderedDirs(dirs)
  {
    FindSource(OrderedDirs(dirs), t, target)
  }

  /** Every direction of the state is reached from one of its directions. */
  ghost predicate Covers(dirs: Dirs, t: Transform) {
    forall d :: d in OrderedDirs(dirs) ==> SourceDir(dirs, t, d).Some?
  }

  /** Directions pair up inversely. */
  lemma SourceDirInverse(dirs: Dirs, t: Transform, d: Dir)
    requires d in OrderedDirs(dirs) && SourceDir(dirs, t, d).Some?
    ensures var r := SourceDir(dirs, t, d).value;
            r in OrderedDirs(dirs) && SourceDir(dirs, Inverse(t), r) == Some(d)
  {
    var r := SourceDir(dirs, t, d).value;
    DirectionInverse(r, t);
    var e := SourceDir(dirs, Inverse(t), r);
    if e.Some? {
      DirectionInverse(e.value, Inverse(t));
    }
  }

  lemma DirsClosed(dirs: Dirs, t: Transform, d: Dir)
    requires d in OrderedDirs(dirs) && dirs != One
    ensures TransformDirection(d, t) in OrderedDirs(dirs)
  {
    match dirs
    case Four =>
      assert d == South || d == North || d == East || d == West;
    case Eight =>
      assert forall e: Dir :: e in OrderedDirs(Eight) by {
        forall e: Dir
          ensures e in OrderedDirs(Eight)
        {
          match e
          case South => assert OrderedDirs(Eight)[0] == e;
          case North => assert OrderedDirs(Eight)[1] == e;
          case East => assert OrderedDirs(Eight)[2] == e;
          case West => assert OrderedDirs(Eight)[3] == e;
          case Southeast => assert OrderedDirs(Eight)[4] == e;
          case Southwest => assert OrderedDirs(Eight)[5] == e;
          case Northeast => assert OrderedDirs(Eight)[6] == e;
          case Northwest => assert OrderedDirs(Eight)[7] == e;
        }
      }
  }

  /** Single-direction states admit only the transforms that keep south in place. */
  lemma CoversMeaning(dirs: Dirs, t: Transform)
    ensures Covers(dirs, t) <==> dirs != One || t == Identity || t == MirrorHorizontal
  {
    if dirs == One {
      assert OrderedDirs(dirs) == [South];
      assert South in OrderedDirs(dirs);
    } else {
      forall d | d in OrderedDirs(dirs)
        ensures SourceDir(dirs, t, d).Some?
      {
        DirsClosed(dirs, Inverse(t), d);
        DirectionInverse(d, t);
      }
    }
  }

  /** Promotes an almost equal frame of no other class. */
  function Promote(c: FrameComparison, threshold: real): FrameComparison {
    if c.kind == Different && c.similarity >= threshold then c.(kind := Near) else c
  }

  /** The comparison for frame `f` and direction `d` of the left state under `t`. */
  ghost function Cell(ls: IconState, rs: IconState, t: Transform, threshold: real, f: nat, d: Dir): FrameComparison
    requires ValidState(ls) && ValidState(rs) && ls.dirs == rs.dirs
    requires f < |ls.images| == |rs.images| && d in OrderedDirs(ls.dirs)
    requires SourceDir(rs.dirs, t, d).Some?
  {
    var r := SourceDir(rs.dirs, t, d).value;
    Promote(Aligned(ls.images[f][d], Turned(rs.images[f][r], t), t), threshold)
  }

  /** Every cell of the left state has a cell of the right state with the same class. */
  lemma CellSwap(ls: IconState, rs: IconState, t: Transform, threshold: real, f: nat, d: Dir)
    requires ValidState(ls) && ValidState(rs) && ls.dirs == rs.dirs
    requires f < |ls.images| == |rs.images| && d in OrderedDirs(ls.dirs)
    requires SourceDir(rs.dirs, t, d).Some?
    ensures var r := SourceDir(rs.dirs, t, d).value;
            && r in OrderedDirs(rs.dirs) && SourceDir(ls.dirs, Inverse(t), r).Some?
            && Cell(rs, ls, Inverse(t), threshold, f, r).kind == Cell(ls, rs, t, threshold, f, d).kind
  {
    hide Aligned, Turned, Normal;
    var r := SourceDir(rs.dirs, t, d).value;
    SourceDirInverse(rs.dirs, t, d);
    AlignedSwap(ls.images[f][d], rs.images[f][r], t);
  }

  ghost predicate Comparable(ls: IconState, rs: IconState) {
    ValidState(ls) && ValidState(rs) && ls.dirs == rs.dirs && |ls.images| == |rs.images|
  }

  /** The comparison at place `i` of the list: frames in order, directions within. */
  ghost function CellAt(ls: IconState, rs: IconState, t: Transform, threshold: real, i: nat): FrameComparison
    requires Comparable(ls, rs) && Covers(ls.dirs, t)
    requires i < |OrderedDirs(ls.dirs)| * |ls.images|
  {
    var m := |OrderedDirs(ls.dirs)|;
    CellIndex(m, |ls.images|, i);
    Cell(ls, rs, t, threshold, i / m, OrderedDirs(ls.dirs)[i % m])
  }

  ghost function CellList(ls: IconState, rs: IconState, t: Transform, threshold: real): seq<FrameComparison>
    requires Comparable(ls, rs) && Covers(ls.dirs, t)
  {
    var n := |OrderedDirs(ls.dirs)| * |ls.images|;
    seq(n, i requires 0 <= i < n => CellAt(ls, rs, t, threshold, i))
  }

  /** The worst rank among the comparisons, `Different` when there are none. */
  function WorstRank(c: seq<FrameComparison>): (r: nat)
    ensures r <= 5
  {
    if c == [] then 5
    else if |c| == 1 then MatchRank(c[0].kind)
    else Max(WorstRank(c[..|c| - 1]), MatchRank(c[|c| - 1].kind))
  }

  lemma {:induction false} WorstRankMeaning(c: seq<FrameComparison>)
    requires c != []
    ensures forall i :: 0 <= i < |c| ==> MatchRank(c[i].kind) <= WorstRank(c)
    ensures exists i :: 0 <= i < |c| && MatchRank(c[i].kind) == WorstRank(c)
  {
    if |c| > 1 {
      WorstRankMeaning(c[..|c| - 1]);
      var i :| 0 <= i < |c| - 1 && MatchRank(c[..|c| - 1][i].kind) == WorstRank(c[..|c| - 1]);
      assert MatchRank(c[i].kind) == WorstRank(c[..|c| - 1]);
    }
  }

  lemma CellListAt(ls: IconState, rs: IconState, t: Transform, threshold: real, f: nat, k: nat)
    requires Comparable(ls, rs) && Covers(ls.dirs, t)
    requires f < |ls.images| && k < |OrderedDirs(ls.dirs)|
    ensures var i := Index(|OrderedDirs(ls.dirs)|, k, f);
            && i < |CellList(ls, rs, t, threshold)|
            && CellList(ls, rs, t, threshold)[i] == Cell(ls, rs, t, threshold, f, OrderedDirs(ls.dirs)[k])
  {
    hide Cell;
    IndexInRange(|OrderedDirs(ls.dirs)|, |ls.images|, k, f);
    IndexCell(|OrderedDirs(ls.dirs)|, k, f);
  }

  lemma CellListPlace(ls: IconState, rs: IconState, t: Transform, threshold: real, i: nat)
    returns (f: nat, k: nat)
    requires Comparable(ls, rs) && Covers(ls.dirs, t) && i < |CellList(ls, rs, t, threshold)|
    ensures f < |ls.images| && k < |OrderedDirs(ls.dirs)|
    ensures CellList(ls, rs, t, threshold)[i] == Cell(ls, rs, t, threshold, f, OrderedDirs(ls.dirs)[k])
  {
    hide Cell;
    var m := |OrderedDirs(ls.dirs)|;
    CellIndex(m, |ls.images|, i);
    f, k := i / m, i % m;
  }

  /** The place, in the exchanged list, of the image that lands on the `k`th direction. */
  lemma SwapPlace(dirs: Dirs, t: Transform, k: nat) returns (k': nat)
    requires Covers(dirs, t) && k < |OrderedDirs(dirs)|
    ensures SourceDir(dirs, t, OrderedDirs(dirs)[k]).Some?
    ensures k' < |OrderedDirs(dirs)|
    ensures OrderedDirs(dirs)[k'] == SourceDir(dirs, t, OrderedDirs(dirs)[k]).value
  {
    hide OrderedDirs, SourceDir;
    var d := OrderedDirs(dirs)[k];
    assert d in OrderedDirs(dirs);
    var r := SourceDir(dirs, t, d).value;
    k' :| 0 <= k' < |OrderedDirs(dirs)| && OrderedDirs(dirs)[k'] == r;
  }

  /** Every rank in the left list is found in the right list for the inverse transform. */
  lemma RankFound(ls: IconState, rs: IconState, t: Transform, threshold: real, i: nat) returns (j: nat)
    requires Comparable(ls, rs) && Covers(ls.dirs, t) && Covers(ls.dirs, Inverse(t))
    requires i < |CellList(ls, rs, t, threshold)|
    ensures j < |CellList(rs, ls, Inverse(t), threshold)|
    ensures CellList(rs, ls, Inverse(t), threshold)[j].kind == CellList(ls, rs, t, threshold)[i].kind
  {
    hide Cell, CellList, OrderedDirs, SourceDir, Covers, ValidState;
    var f, k := CellListPlace(ls, rs, t, threshold, i);
    var k' := SwapPlace(ls.dirs, t, k);
    CellSwap(ls, rs, t, threshold, f, OrderedDirs(ls.dirs)[k]);
    CellListAt(rs, ls, Inverse(t), threshold, f, k');
    j := Index(|OrderedDirs(ls.dirs)|, k', f);
  }

  lemma RankBounded(ls: IconState, rs: IconState, t: Transform, threshold: real)
    requires Comparable(ls, rs) && Covers(ls.dirs, t) && Covers(ls.dirs, Inverse(t))
    ensures WorstRank(CellList(ls, rs, t, threshold)) <= WorstRank(CellList(rs, ls, Inverse(t), threshold))
  {
    hide CellAt;
    var c, d := CellList(ls, rs, t, threshold), CellList(rs, ls, Inverse(t), threshold);
    if c != [] {
      WorstRankMeaning(c);
      var i :| 0 <= i < |c| && MatchRank(c[i].kind) == WorstRank(c);
      var j := RankFound(ls, rs, t, threshold, i);
      WorstRankMeaning(d);
    }
  }

  /** The rank under a transform is the exchanged states' rank under its inverse. */
  lemma RankSwap(ls: IconState, rs: IconState, t: Transform, threshold: real)
    requires Comparable(ls, rs) && Covers(ls.dirs, t)
    ensures Covers(ls.dirs, Inverse(t))
    ensures WorstRank(CellList(ls, rs, t, threshold)) == WorstRank(CellList(rs, ls, Inverse(t), threshold))
  {
    CoversMeaning(ls.dirs, t);
    CoversMeaning(ls.dirs, Inverse(t));
    assert Inverse(Inverse(t)) == t;
    RankBounded(ls, rs, t, threshold);
    RankBounded(rs, ls, Inverse(t), threshold);
  }

  // ----------------------------------------------- choosing the best transform

  datatype Candidate = Candidate(rank: nat, similarity: real, comparisons: seq<FrameComparison>)

  datatype StateComparison = StateComparison(imageMatch: MatchKind, frames: seq<FrameComparison>)

  function KindOfRank(r: nat): MatchKind
    requires r <= 5
    ensures MatchRank(KindOfRank(r)) == r
  {
    match r
    case 0 => Exact
    case 1 => Transformed
    case 2 => Padded
    case 3 => Palette
    case 4 => Near
    case _ => Different
  }

  function Threshold(minimum: real): real {
    if minimum < 0.9 then 0.9 else if minimum > 1.0 then 1.0 else minimum
  }

  function TotalSimilarity(c: seq<FrameComparison>): real {
    if c == [] then 0.0 else TotalSimilarity(c[..|c| - 1]) + c[|c| - 1].similarity
  }

  function MeanSimilarity(c: seq<FrameComparison>): real {
    TotalSimilarity(c) / Max(|c|, 1) as real
  }

  function CandidateOf(c: seq<FrameComparison>): Candidate {
    Candidate(WorstRank(c), MeanSimilarity(c), c)
  }

  predicate Improves(best: Option<Candidate>, c: Candidate) {
    || best.None?
    || c.rank < best.value.rank
    || (c.rank == best.value.rank && c.similarity > best.value.similarity)
  }

  /** States without animation frames never meet a missing direction. */
  ghost predicate Usable(ls: IconState, t: Transform) {
    |ls.images| == 0 || Covers(ls.dirs, t)
  }

  ghost function Listing(ls: IconState, rs: IconState, t: Transform, threshold: real): seq<FrameComparison>
    requires Comparable(ls, rs) && Usable(ls, t)
  {
    if |ls.images| == 0 then [] else CellList(ls, rs, t, threshold)
  }

  /** The best candidate after also trying `t`. */
  ghost function Try(ls: IconState, rs: IconState, threshold: real, best: Option<Candidate>, t: Transform): Option<Candidate>
    requires Comparable(ls, rs)
  {
    if !Usable(ls, t) then best
    else
      var c := CandidateOf(Listing(ls, rs, t, threshold));
      if Improves(best, c) then Some(c) else best
  }

  /** The best candidate among the first `n` transforms. */
  ghost function BestUpTo(ls: IconState, rs: IconState, threshold: real, n: nat): Option<Candidate>
    requires Comparable(ls, rs) && n <= |TRANSFORMS|
  {
    if n == 0 then None
    else Try(ls, rs, threshold, BestUpTo(ls, rs, threshold, n - 1), TRANSFORMS[n - 1])
  }

  ghost function BestOf(ls: IconState, rs: IconState, minimum: real): Candidate
    requires Comparable(ls, rs)
  {
    var best := BestUpTo(ls, rs, Threshold(minimum), |TRANSFORMS|);
    if best.Some? then best.value else Candidate(5, 0.0, [])
  }

  lemma {:induction false} BestUpToBounded(ls: IconState, rs: IconState, threshold: real, n: nat)
    requires Comparable(ls, rs) && n <= |TRANSFORMS|
    ensures var best := BestUpTo(ls, rs, threshold, n);
            best.Some? ==> best.value.rank == WorstRank(best.value.comparisons) <= 5
  {
    hide Usable, Listing, MeanSimilarity, WorstRank;
    if n > 0 {
      BestUpToBounded(ls, rs, threshold, n - 1);
    }
  }

  lemma BestRankBounded(ls: IconState, rs: IconState, minimum: real)
    requires Comparable(ls, rs)
    ensures BestOf(ls, rs, minimum).rank <= 5
  {
    BestUpToBounded(ls, rs, Threshold(minimum), |TRANSFORMS|);
  }

  /** The class the comparison of two states must report. */
  ghost function ImageMatch(ls: IconState, rs: IconState, minimum: real): MatchKind
    requires ValidState(ls) && ValidState(rs)
  {
    if ls.dirs != rs.dirs || |ls.images| != |rs.images| then Different
    else
      BestRankBounded(ls, rs, minimum);
      KindOfRank(BestOf(ls, rs, minimum).rank)
  }

  /** `k` is a usable transform among the first `n` and its worst rank is `r`. */
  ghost predicate RankAt(ls: IconState, rs: IconState, threshold: real, k: nat, r: nat)
    requires Comparable(ls, rs)
  {
    k < |TRANSFORMS| && Usable(ls, TRANSFORMS[k]) && r == WorstRank(Listing(ls, rs, TRANSFORMS[k], threshold))
  }

  /** `best` has the least rank among the usable transforms of the first `n`. */
  ghost predicate LeastAmong(ls: IconState, rs: IconState, threshold: real, n: nat, best: Option<Candidate>)
    requires Comparable(ls, rs)
  {
    && (best.None? ==> forall k: nat, r: nat :: k < n ==> !RankAt(ls, rs, threshold, k, r))
    && (best.Some? ==>
          && best.value.rank == WorstRank(best.value.comparisons)
          && (exists k: nat :: k < n && RankAt(ls, rs, threshold, k, best.value.rank))
          && (forall k: nat, r: nat :: k < n && RankAt(ls, rs, threshold, k, r) ==> best.value.rank <= r))
  }

  /** One more transform keeps the choice least. */
  lemma LeastStep(ls: IconState, rs: IconState, threshold: real, n: nat, best: Option<Candidate>)
    requires Comparable(ls, rs) && n < |TRANSFORMS| && LeastAmong(ls, rs, threshold, n, best)
    ensures LeastAmong(ls, rs, threshold, n + 1, Try(ls, rs, threshold, best, TRANSFORMS[n]))
  {
    hide Usable, Listing, MeanSimilarity, Comparable, WorstRank;
    var t := TRANSFORMS[n];
    if Usable(ls, t) {
      var c := CandidateOf(Listing(ls, rs, t, threshold));
      assert RankAt(ls, rs, threshold, n, c.rank);
    }
  }

  lemma {:induction false} BestUpToLeast(ls: IconState, rs: IconState, threshold: real, n: nat)
    requires Comparable(ls, rs) && n <= |TRANSFORMS|
    ensures LeastAmong(ls, rs, threshold, n, BestUpTo(ls, rs, threshold, n))
  {
    hide Try, RankAt, Comparable;
    if n > 0 {
      BestUpToLeast(ls, rs, threshold, n - 1);
      LeastStep(ls, rs, threshold, n - 1, BestUpTo(ls, rs, threshold, n - 1));
    }
  }

  lemma TransformListed(t: Transform) returns (k: nat)
    ensures k < |TRANSFORMS| && TRANSFORMS[k] == t
  {
    match t
    case Identity => k := 0;
    case MirrorHorizontal => k := 1;
    case MirrorVertical => k := 2;
    case Rotate90 => k := 3;
    case Rotate180 => k := 4;
    case Rotate270 => k := 5;
  }

  lemma IdentityUsable(ls: IconState)
    ensures Usable(ls, Identity)
  {
    CoversMeaning(ls.dirs, Identity);
  }

  lemma ImageMatchReached(ls: IconState, rs: IconState, minimum: real) returns (t: Transform)
    requires Comparable(ls, rs)
    ensures Usable(ls, t)
    ensures MatchRank(ImageMatch(ls, rs, minimum)) == WorstRank(Listing(ls, rs, t, Threshold(minimum)))
  {
    hide Listing, Usable, BestUpTo, WorstRank;
    var threshold := Threshold(minimum);
    BestUpToLeast(ls, rs, threshold, |TRANSFORMS|);
    BestRankBounded(ls, rs, minimum);
    IdentityUsable(ls);
    var k0 := TransformListed(Identity);
    assert RankAt(ls, rs, threshold, k0, WorstRank(Listing(ls, rs, Identity, threshold)));
    var r := BestOf(ls, rs, minimum).rank;
    var k: nat :| k < |TRANSFORMS| && RankAt(ls, rs, threshold, k, r);
    t := TRANSFORMS[k];
  }

  lemma ImageMatchAtMost(ls: IconState, rs: IconState, minimum: real, t: Transform)
    requires Comparable(ls, rs) && Usable(ls, t)
    ensures MatchRank(ImageMatch(ls, rs, minimum)) <= WorstRank(Listing(ls, rs, t, Threshold(minimum)))
  {
    hide Listing, Usable, BestUpTo, WorstRank;
    var threshold := Threshold(minimum);
    BestUpToLeast(ls, rs, threshold, |TRANSFORMS|);
    BestRankBounded(ls, rs, minimum);
    var k := TransformListed(t);
    assert RankAt(ls, rs, threshold, k, WorstRank(Listing(ls, rs, t, threshold)));
  }

  /** A state pair is classified by the least, over the usable transforms, of the worst
      frame class. */
  lemma ImageMatchIsLeast(ls: IconState, rs: IconState, minimum: real)
    requires Comparable(ls, rs)
    ensures exists t :: Usable(ls, t)
              && MatchRank(ImageMatch(ls, rs, minimum)) == WorstRank(Listing(ls, rs, t, Threshold(minimum)))
    ensures forall t :: Usable(ls, t)
              ==> MatchRank(ImageMatch(ls, rs, minimum)) <= WorstRank(Listing(ls, rs, t, Threshold(minimum)))
  {
    var _ := ImageMatchReached(ls, rs, minimum);
    forall t | Usable(ls, t)
      ensures MatchRank(ImageMatch(ls, rs, minimum)) <= WorstRank(Listing(ls, rs, t, Threshold(minimum)))
    {
      ImageMatchAtMost(ls, rs, minimum, t);
    }
  }

  lemma MatchBounded(ls: IconState, rs: IconState, minimum: real)
    requires Comparable(ls, rs)
    ensures MatchRank(ImageMatch(ls, rs, minimum)) <= MatchRank(ImageMatch(rs, ls, minimum))
  {
    hide ImageMatch, CellList, WorstRank, MatchRank, Covers, Threshold;
    var threshold := Threshold(minimum);
    var t := ImageMatchReached(rs, ls, minimum);
    if |ls.images| > 0 {
      RankSwap(rs, ls, t, threshold);
      ImageMatchAtMost(ls, rs, minimum, Inverse(t));
    } else {
      ImageMatchAtMost(ls, rs, minimum, t);
    }
  }

  /** The class of two icon states does not depend on which one comes first. */
  lemma ImageMatchSymmetric(ls: IconState, rs: IconState, minimum: real)
    requires ValidState(ls) && ValidState(rs)
    ensures ImageMatch(ls, rs, minimum) == ImageMatch(rs, ls, minimum)
  {
    if Comparable(ls, rs) {
      MatchBounded(ls, rs, minimum);
      MatchBounded(rs, ls, minimum);
    }
  }


  // ---------------------------------------------------------- the comparison loops

  /** `row` holds the comparisons of the first `k` directions of frame `f`. */
  ghost predicate RowUpTo(ls: IconState, rs: IconState, t: Transform, threshold: real, f: nat,
                          row: seq<FrameComparison>, k: nat)
    requires Comparable(ls, rs) && f < |ls.images|
  {
    && k == |row| <= |OrderedDirs(ls.dirs)|
    && forall j :: 0 <= j < k ==>
         && SourceDir(rs.dirs, t, OrderedDirs(ls.dirs)[j]).Some?
         && row[j] == Cell(ls, rs, t, threshold, f, OrderedDirs(ls.dirs)[j])
  }

  lemma FullRowCovers(ls: IconState, rs: IconState, t: Transform, threshold: real, f: nat, row: seq<FrameComparison>)
    requires Comparable(ls, rs) && f < |ls.images|
    requires RowUpTo(ls, rs, t, threshold, f, row, |OrderedDirs(ls.dirs)|)
    ensures Covers(ls.dirs, t)
  {
    hide OrderedDirs, Cell, SourceDir;
    forall d | d in OrderedDirs(ls.dirs)
      ensures SourceDir(ls.dirs, t, d).Some?
    {
      var j :| 0 <= j < |OrderedDirs(ls.dirs)| && OrderedDirs(ls.dirs)[j] == d;
      assert row[j] == row[j];
    }
  }

  /** Appending one full row extends the list by one frame. */
  lemma RowExtends(ls: IconState, rs: IconState, t: Transform, threshold: real, f: nat, row: seq<FrameComparison>)
    requires Comparable(ls, rs) && f < |ls.images| && Covers(ls.dirs, t)
    requires RowUpTo(ls, rs, t, threshold, f, row, |OrderedDirs(ls.dirs)|)
    ensures var m, all := |OrderedDirs(ls.dirs)|, CellList(ls, rs, t, threshold);
            && Index(m, 0, f) <= Index(m, 0, f + 1) <= |all|
            && all[..Index(m, 0, f)] + row == all[..Index(m, 0, f + 1)]
  {
    hide OrderedDirs, Cell, SourceDir, Index, CellAt;
    var m, all := |OrderedDirs(ls.dirs)|, CellList(ls, rs, t, threshold);
    IndexRow(m, f, |ls.images|);
    forall j | 0 <= j < m
      ensures Index(m, 0, f) + j < |all| && all[Index(m, 0, f) + j] == row[j]
    {
      CellListAt(ls, rs, t, threshold, f, j);
      IndexColumn(m, f, j);
    }
  }

  lemma IndexColumn(m: nat, f: nat, j: nat)
    ensures Index(m, j, f) == Index(m, 0, f) + j
  {
  }

  lemma IndexRow(m: nat, f: nat, n: nat)
    ensures Index(m, 0, f + 1) == Index(m, 0, f) + m
    ensures f < n ==> Index(m, 0, f + 1) <= m * n
    ensures Index(m, 0, 0) == 0 && Index(m, 0, n) == m * n
  {
    MulMono(f + 1, n, m);
  }

  lemma RowStart(ls: IconState, rs: IconState, t: Transform, threshold: real, f: nat)
    requires Comparable(ls, rs) && f < |ls.images|
    ensures RowUpTo(ls, rs, t, threshold, f, [], 0)
  {
  }

  /** What handling the `k`th direction adds to the row. */
  lemma RowStep(ls: IconState, rs: IconState, t: Transform, threshold: real, f: nat,
                row: seq<FrameComparison>, k: nat)
    requires Comparable(ls, rs) && f < |ls.images| && k < |OrderedDirs(ls.dirs)|
    requires RowUpTo(ls, rs, t, threshold, f, row, k)
    ensures var d := OrderedDirs(ls.dirs)[k];
            var source := SourceDir(rs.dirs, t, d);
            && d in ls.images[f] && Normal(ls.images[f][d])
            && (source.None? ==> !Covers(ls.dirs, t))
            && (source.Some? ==>
                  && source.value in rs.images[f] && Normal(rs.images[f][source.value])
                  && RowUpTo(ls, rs, t, threshold, f,
                       row + [Promote(Aligned(ls.images[f][d], Turned(rs.images[f][source.value], t), t), threshold)],
                       k + 1))
  {
    hide OrderedDirs, Aligned, Turned, Normal, Promote, SourceDir;
    var d := OrderedDirs(ls.dirs)[k];
    assert d in OrderedDirs(ls.dirs);
    assert ls.dirs == rs.dirs && |ls.images| == |rs.images|;
  }

  /** Compares every direction of one animation frame, stopping at a missing direction. */
  method CompareRow(ls: IconState, rs: IconState, t: Transform, threshold: real, f: nat)
    returns (valid: bool, row: seq<FrameComparison>)
    requires Comparable(ls, rs) && f < |ls.images|
    ensures valid ==> RowUpTo(ls, rs, t, threshold, f, row, |OrderedDirs(ls.dirs)|)
    ensures !valid ==> !Covers(ls.dirs, t)
  {
    hide OrderedDirs, Aligned, Turned, Normal, RowUpTo, Covers, SourceDir, Promote;
    row := [];
    RowStart(ls, rs, t, threshold, f);
    var dirs := OrderedDirs(ls.dirs);
    var k := 0;
    while k < |dirs|
      invariant 0 <= k <= |dirs|
      invariant RowUpTo(ls, rs, t, threshold, f, row, k)
    {
      RowStep(ls, rs, t, threshold, f, row, k);
      var source := SourceDir(rs.dirs, t, dirs[k]);
      if source.None? {
        return false, row;
      }
      var leftFrame := ls.images[f][dirs[k]];
      var transformed := TransformFrame(rs.images[f][source.value], t);
      var comparison := CompareAligned(leftFrame, transformed, t);
      row := row + [Promote(comparison, threshold)];
      k := k + 1;
    }
    valid := true;
  }

  /** The frame comparisons under one transform; `valid` is false when some direction
      of the left state has no source. */
  method CompareUnder(ls: IconState, rs: IconState, t: Transform, threshold: real)
    returns (valid: bool, comparisons: seq<FrameComparison>)
    requires Comparable(ls, rs)
    ensures valid <==> Usable(ls, t)
    ensures valid ==> comparisons == Listing(ls, rs, t, threshold)
  {
    hide Index, OrderedDirs, Covers, RowUpTo, CellAt;
    ghost var m := |OrderedDirs(ls.dirs)|;
    comparisons := [];
    IndexRow(m, 0, |ls.images|);
    var f := 0;
    while f < |ls.images|
      invariant 0 <= f <= |ls.images|
      invariant f == 0 ==> comparisons == []
      invariant f > 0 ==> Covers(ls.dirs, t)
      invariant f > 0 ==> Index(m, 0, f) <= |CellList(ls, rs, t, threshold)|
      invariant f > 0 ==> comparisons == CellList(ls, rs, t, threshold)[..Index(m, 0, f)]
    {
      var ok, row := CompareRow(ls, rs, t, threshold, f);
      if !ok {
        return false, comparisons;
      }
      FullRowCovers(ls, rs, t, threshold, f, row);
      RowExtends(ls, rs, t, threshold, f, row);
      comparisons := comparisons + row;
      f := f + 1;
    }
    valid := true;
    if |ls.images| > 0 {
      ghost var all := CellList(ls, rs, t, threshold);
      assert all[..|all|] == all;
    }
  }

  /** Tries the six transforms and keeps the first of least rank and highest mean
      similarity. */
  method CompareStates(ls: IconState, rs: IconState, minimum: real) returns (c: StateComparison)
    requires ValidState(ls) && ValidState(rs)
    ensures c.imageMatch == ImageMatch(ls, rs, minimum)
    ensures Comparable(ls, rs) ==> c.frames == BestOf(ls, rs, minimum).comparisons
    ensures !Comparable(ls, rs) ==> c.frames == []
  {
    hide ValidState, Usable, Listing;
    if ls.dirs != rs.dirs || |ls.images| != |rs.images| {
      return StateComparison(Different, []);
    }
    var threshold := Threshold(minimum);
    var best: Option<Candidate> := None;
    var n := 0;
    while n < |TRANSFORMS|
      invariant 0 <= n <= |TRANSFORMS|
      invariant best == BestUpTo(ls, rs, threshold, n)
    {
      var valid, comparisons := CompareUnder(ls, rs, TRANSFORMS[n], threshold);
      if valid {
        var candidate := CandidateOf(comparisons);
        if Improves(best, candidate) {
          best := Some(candidate);
        }
      }
      n := n + 1;
    }
    var comparisons := if best.Some? then best.value.comparisons else [];
    BestUpToBounded(ls, rs, threshold, |TRANSFORMS|);
    c := StateComparison(KindOfRank(WorstRank(comparisons)), comparisons);
  }
}
