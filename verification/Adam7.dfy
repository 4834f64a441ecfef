/** Interlace passes and the size of filtered image data (src/spaceman/dmi_decode.rs). */
module Adam7 {
  import opened Basics

  /** Where a pass starts and how far apart its pixels are. */
  datatype Pass = Pass(x: nat, y: nat, stepX: nat, stepY: nat)

  function Passes(interlaced: bool): (p: seq<Pass>)
    ensures forall k :: 0 <= k < |p| ==> p[k].stepX > 0 && p[k].stepY > 0
  {
    if !interlaced then [Pass(0, 0, 1, 1)]
    else
      [ Pass(0, 0, 8, 8), Pass(4, 0, 8, 8), Pass(0, 4, 4, 8), Pass(2, 0, 4, 4), Pass(0, 2, 2, 4), Pass(1, 0, 2, 2),
        Pass(0, 1, 1, 2) ]
  }

  function CeilDiv(a: nat, b: nat): nat
    requires b > 0
  {
    (a + b - 1) / b
  }

  /** How many of `n` positions a pass takes, starting at `from` in steps of `step`. */
  function Span(n: nat, from: nat, step: nat): nat
    requires step > 0
  {
    CeilDiv(if n > from then n - from else 0, step)
  }

  predicate OnGrid(p: nat, from: nat, step: nat)
    requires step > 0
  {
    p >= from && (p - from) % step == 0
  }

  predicate InPass(pass: Pass, px: nat, py: nat)
    requires pass.stepX > 0 && pass.stepY > 0
  {
    OnGrid(px, pass.x, pass.stepX) && OnGrid(py, pass.y, pass.stepY)
  }

  // ------------------------------------------------------------------- coverage

  /** The pass a pixel of an interlaced image belongs to, by its offset in an 8 by 8 tile. */
  function PassOf(px: nat, py: nat): nat {
    if py % 2 == 1 then 6
    else if px % 2 == 1 then 5
    else if py % 4 == 2 then 4
    else if px % 4 == 2 then 3
    else if py % 8 == 4 then 2
    else if px % 8 == 4 then 1
    else 0
  }

  lemma OnGrid1(p: nat)
    ensures OnGrid(p, 0, 1)
  {
  }

  lemma OnGrid2(p: nat, from: nat)
    requires from < 2
    ensures OnGrid(p, from, 2) <==> p % 2 == from
  {
    var q, r := p / 2, p % 2;
    assert p == 2 * q + r;
    if p >= from {
      assert p - from == 2 * q + (r - from);
      assert (p - from) % 2 == if r >= from then r - from else r - from + 2;
    }
  }

  lemma OnGrid4(p: nat, from: nat)
    requires from < 4
    ensures OnGrid(p, from, 4) <==> p % 4 == from
  {
    var q, r := p / 4, p % 4;
    assert p == 4 * q + r;
    if p >= from {
      assert p - from == 4 * q + (r - from);
      assert (p - from) % 4 == if r >= from then r - from else r - from + 4;
    }
  }

  lemma OnGrid8(p: nat, from: nat)
    requires from < 8
    ensures OnGrid(p, from, 8) <==> p % 8 == from
  {
    var q, r := p / 8, p % 8;
    assert p == 8 * q + r;
    if p >= from {
      assert p - from == 8 * q + (r - from);
      assert (p - from) % 8 == if r >= from then r - from else r - from + 8;
    }
  }

  lemma OnGridIff(p: nat, from: nat, step: nat)
    requires step == 1 || step == 2 || step == 4 || step == 8
    requires from < step
    ensures OnGrid(p, from, step) <==> p % step == from
  {
    hide OnGrid;
    if step == 1 {
      OnGrid1(p);
    } else if step == 2 {
      OnGrid2(p, from);
    } else if step == 4 {
      OnGrid4(p, from);
    } else {
      OnGrid8(p, from);
    }
  }

  /** Every pixel lies in exactly one of the seven passes. */
  lemma OnePassEach(px: nat, py: nat, k: nat)
    requires k < 7
    ensures InPass(Passes(true)[k], px, py) <==> k == PassOf(px, py)
  {
    var pass := Passes(true)[k];
    OnGridIff(px, pass.x, pass.stepX);
    OnGridIff(py, pass.y, pass.stepY);
    Residues(px);
    Residues(py);
  }

  lemma Residues(p: nat)
    ensures p % 2 == (p % 8) % 2 && p % 4 == (p % 8) % 4
  {
    var q, r := p / 8, p % 8;
    assert p == 8 * q + r;
    Residue(4 * q, r, 2);
    Residue(2 * q, r, 4);
  }

  lemma Residue(q: nat, r: nat, d: nat)
    requires d == 2 || d == 4
    ensures (d * q + r) % d == r % d
  {
    var k := r / d;
    if d == 2 {
      assert r == 2 * k + r % 2;
      assert 2 * q + r == 2 * (q + k) + r % 2;
    } else {
      assert r == 4 * k + r % 4;
      assert 4 * q + r == 4 * (q + k) + r % 4;
    }
  }

  /** The positions below `n` on a grid are exactly the first `Span` grid points. */
  lemma SpanCounts(n: nat, from: nat, step: nat, i: nat)
    requires step > 0
    ensures i < Span(n, from, step) <==> from + i * step < n
  {
    if n > from {
      var m := n - from;
      assert Span(n, from, step) == (m + step - 1) / step;
      CeilBound(m, step, i);
    } else {
      assert Span(n, from, step) == (step - 1) / step == 0;
      assert i * step >= 0;
    }
  }

  lemma Monotone(a: nat, b: nat, c: nat)
    requires a <= b
    ensures a * c <= b * c
  {
  }

  lemma CeilBound(m: nat, step: nat, i: nat)
    requires step > 0
    ensures i < CeilDiv(m, step) <==> i * step < m
  {
    var q := CeilDiv(m, step);
    CeilBetween(m, step);
    if i < q {
      Monotone(i, q - 1, step);
    } else {
      Monotone(q, i, step);
    }
  }

  lemma CeilBetween(m: nat, step: nat)
    requires step > 0
    ensures var q := CeilDiv(m, step); q * step >= m && (q > 0 ==> (q - 1) * step < m)
  {
    var a := m + step - 1;
    var q := a / step;
    assert a == q * step + a % step;
    assert (q - 1) * step == q * step - step;
  }

  // ----------------------------------------------------------------------- area

  function PassArea(pass: Pass, w: nat, h: nat): nat
    requires pass.stepX > 0 && pass.stepY > 0
  {
    Span(w, pass.x, pass.stepX) * Span(h, pass.y, pass.stepY)
  }

  function TotalArea(passes: seq<Pass>, w: nat, h: nat): nat
    requires forall k :: 0 <= k < |passes| ==> passes[k].stepX > 0 && passes[k].stepY > 0
  {
    if passes == [] then 0
    else TotalArea(passes[..|passes| - 1], w, h) + PassArea(passes[|passes| - 1], w, h)
  }

  /** A grid and its shifted copy make the next finer grid. */
  lemma EighthsJoin(n: nat)
    ensures Span(n, 0, 8) + Span(n, 4, 8) == Span(n, 0, 4)
  {
    var q, r := n / 8, n % 8;
    assert n == 8 * q + r;
    assert Span(n, 0, 8) == (n + 7) / 8 == if r == 0 then q else q + 1;
    assert Span(n, 0, 4) == (n + 3) / 4 == if r == 0 then 2 * q else if r <= 4 then 2 * q + 1 else 2 * q + 2;
    assert Span(n, 4, 8) == (if n > 4 then (n + 3) / 8 else 0) == if r <= 4 then q else q + 1;
  }

  lemma QuartersJoin(n: nat)
    ensures Span(n, 0, 4) + Span(n, 2, 4) == Span(n, 0, 2)
  {
    var q, r := n / 4, n % 4;
    assert n == 4 * q + r;
    assert Span(n, 0, 4) == (n + 3) / 4 == if r == 0 then q else q + 1;
    assert Span(n, 0, 2) == (n + 1) / 2 == if r == 0 then 2 * q else if r <= 2 then 2 * q + 1 else 2 * q + 2;
    assert Span(n, 2, 4) == (if n > 2 then (n + 1) / 4 else 0) == if r <= 2 then q else q + 1;
  }

  lemma HalvesJoin(n: nat)
    ensures Span(n, 0, 2) + Span(n, 1, 2) == n && Span(n, 0, 1) == n
  {
  }

  lemma AreaPrefix(w: nat, h: nat)
    ensures var p := Passes(true);
            TotalArea(p, w, h) == PassArea(p[0], w, h) + PassArea(p[1], w, h) + PassArea(p[2], w, h)
                                  + PassArea(p[3], w, h) + PassArea(p[4], w, h) + PassArea(p[5], w, h)
                                  + PassArea(p[6], w, h)
  {
    hide PassArea;
    var p := Passes(true);
    assert p[..6][..5] == p[..5] && p[..5][..4] == p[..4] && p[..4][..3] == p[..3];
    assert p[..3][..2] == p[..2] && p[..2][..1] == p[..1] && p[..1][..0] == [];
    assert TotalArea(p[..1], w, h) == PassArea(p[0], w, h);
    assert TotalArea(p[..2], w, h) == TotalArea(p[..1], w, h) + PassArea(p[1], w, h);
    assert TotalArea(p[..3], w, h) == TotalArea(p[..2], w, h) + PassArea(p[2], w, h);
    assert TotalArea(p[..4], w, h) == TotalArea(p[..3], w, h) + PassArea(p[3], w, h);
    assert TotalArea(p[..5], w, h) == TotalArea(p[..4], w, h) + PassArea(p[4], w, h);
    assert TotalArea(p[..6], w, h) == TotalArea(p[..5], w, h) + PassArea(p[5], w, h);
  }

  lemma Split(a: nat, b: nat, c: nat, n: nat)
    requires a + b == c
    ensures a * n + b * n == c * n && n * a + n * b == n * c
  {
  }

  /** The areas of the passes sum to the image, interlaced or not. */
  lemma PassesFillImage(interlaced: bool, w: nat, h: nat)
    ensures TotalArea(Passes(interlaced), w, h) == w * h
  {
    hide Span;
    EighthsJoin(w);
    QuartersJoin(w);
    HalvesJoin(w);
    EighthsJoin(h);
    QuartersJoin(h);
    HalvesJoin(h);
    if interlaced {
      AreaPrefix(w, h);
      Split(Span(w, 0, 8), Span(w, 4, 8), Span(w, 0, 4), Span(h, 0, 8));
      Split(Span(h, 0, 8), Span(h, 4, 8), Span(h, 0, 4), Span(w, 0, 4));
      Split(Span(w, 0, 4), Span(w, 2, 4), Span(w, 0, 2), Span(h, 0, 4));
      Split(Span(h, 0, 4), Span(h, 2, 4), Span(h, 0, 2), Span(w, 0, 2));
      Split(Span(w, 0, 2), Span(w, 1, 2), w, Span(h, 0, 2));
      Split(Span(h, 0, 2), Span(h, 1, 2), h, w);
    } else {
      var p := Passes(false);
      assert p[..0] == [];
    }
  }

  // ---------------------------------------------------------------- filtered size

  /** Bytes of the filtered rows of one pass: every row is a filter byte and its pixels. */
  function PassBytes(pass: Pass, w: nat, h: nat, bits: nat): nat
    requires pass.stepX > 0 && pass.stepY > 0
  {
    var width, height := Span(w, pass.x, pass.stepX), Span(h, pass.y, pass.stepY);
    if width == 0 || height == 0 then 0 else (CeilDiv(width * bits, 8) + 1) * height
  }

  function FilteredBytes(passes: seq<Pass>, w: nat, h: nat, bits: nat): nat
    requires forall k :: 0 <= k < |passes| ==> passes[k].stepX > 0 && passes[k].stepY > 0
  {
    if passes == [] then 0
    else FilteredBytes(passes[..|passes| - 1], w, h, bits) + PassBytes(passes[|passes| - 1], w, h, bits)
  }

  lemma {:induction false} FilteredPrefix(passes: seq<Pass>, w: nat, h: nat, bits: nat, k: nat)
    requires forall k :: 0 <= k < |passes| ==> passes[k].stepX > 0 && passes[k].stepY > 0
    requires k <= |passes|
    ensures FilteredBytes(passes[..k], w, h, bits) <= FilteredBytes(passes, w, h, bits)
  {
    if k == |passes| {
      assert passes[..k] == passes;
    } else {
      var init := passes[..|passes| - 1];
      assert init[..k] == passes[..k];
      FilteredPrefix(init, w, h, bits, k);
    }
  }

  /** The size the image data must have, when it is within the limit: the products
      saturate and the sum is checked, in 64 bits. Only a limit that is itself the largest
      64-bit number can let a saturated size through. */
  method ExpectedBytes(interlaced: bool, w: nat, h: nat, bits: nat, limit: nat) returns (expected: Option<nat>)
    requires limit <= U64_MAX
    ensures var exact := FilteredBytes(Passes(interlaced), w, h, bits);
            && (exact <= limit ==> expected == Some(exact))
            && (exact > limit && limit < U64_MAX ==> expected == None)
            && (exact > limit == U64_MAX ==> expected == None || expected == Some(U64_MAX))
  {
    hide PassBytes;
    var passes, sum, k := Passes(interlaced), 0, 0;
    while k < |passes|
      invariant k <= |passes| && sum <= U64_MAX
      invariant var exact := FilteredBytes(passes[..k], w, h, bits);
                if exact < U64_MAX then sum == exact else sum == U64_MAX
    {
      assert passes[..k + 1][..k] == passes[..k];
      FilteredPrefix(passes, w, h, bits, k + 1);
      var term := SaturatedPass(passes[k], w, h, bits);
      if sum + term > U64_MAX {
        return None;
      }
      sum, k := sum + term, k + 1;
    }
    assert passes[..k] == passes;
    return if sum <= limit then Some(sum) else None;
  }

  method SaturatedPass(pass: Pass, w: nat, h: nat, bits: nat) returns (term: nat)
    requires pass.stepX > 0 && pass.stepY > 0
    ensures term == Min(PassBytes(pass, w, h, bits), U64_MAX)
  {
    var width, height := Span(w, pass.x, pass.stepX), Span(h, pass.y, pass.stepY);
    if width == 0 || height == 0 {
      return 0;
    }
    return Min((CeilDiv(width * bits, 8) + 1) * height, U64_MAX);
  }

  /** Such a size exists: 32-bit dimensions at 16 bits a pixel. */
  lemma SaturationHidesSize()
    ensures var size := FilteredBytes(Passes(false), 0xFFFF_FFFF, 0xFFFF_FFFF, 16);
            size > U64_MAX
  {
    var p := Passes(false);
    assert p[..0] == [];
    assert PassBytes(p[0], 0xFFFF_FFFF, 0xFFFF_FFFF, 16) == (CeilDiv(0xFFFF_FFFF * 16, 8) + 1) * 0xFFFF_FFFF;
  }

  function TotalRows(passes: seq<Pass>, w: nat, h: nat): nat
    requires forall k :: 0 <= k < |passes| ==> passes[k].stepX > 0 && passes[k].stepY > 0
  {
    if passes == [] then 0
    else
      var last := passes[|passes| - 1];
      TotalRows(passes[..|passes| - 1], w, h) + (if Span(w, last.x, last.stepX) == 0 then 0 else Span(h, last.y, last.stepY))
  }

  lemma RowBits(width: nat, height: nat, bits: nat)
    ensures 8 * (CeilDiv(width * bits, 8) + 1) * height >= width * height * bits + 8 * height
    ensures 8 * (CeilDiv(width * bits, 8) + 1) * height <= width * height * bits + 15 * height
  {
    var row := CeilDiv(width * bits, 8);
    assert width * bits <= 8 * row <= width * bits + 7;
    Monotone(width * bits, 8 * row, height);
    Monotone(8 * row, width * bits + 7, height);
    assert (width * bits) * height == width * height * bits;
    assert (width * bits + 7) * height == width * height * bits + 7 * height;
    assert 8 * (row + 1) * height == 8 * row * height + 8 * height;
  }

  lemma {:induction false} BitsOfPasses(passes: seq<Pass>, w: nat, h: nat, bits: nat)
    requires forall k :: 0 <= k < |passes| ==> passes[k].stepX > 0 && passes[k].stepY > 0
    ensures 8 * FilteredBytes(passes, w, h, bits) >= TotalArea(passes, w, h) * bits + 8 * TotalRows(passes, w, h)
    ensures 8 * FilteredBytes(passes, w, h, bits) <= TotalArea(passes, w, h) * bits + 15 * TotalRows(passes, w, h)
  {
    if passes != [] {
      var init, last := passes[..|passes| - 1], passes[|passes| - 1];
      BitsOfPasses(init, w, h, bits);
      PassBits(last, w, h, bits);
      assert (TotalArea(init, w, h) + PassArea(last, w, h)) * bits == TotalArea(init, w, h) * bits + PassArea(last, w, h) * bits;
    }
  }

  lemma PassBits(pass: Pass, w: nat, h: nat, bits: nat)
    requires pass.stepX > 0 && pass.stepY > 0
    ensures var rows := if Span(w, pass.x, pass.stepX) == 0 then 0 else Span(h, pass.y, pass.stepY);
            && 8 * PassBytes(pass, w, h, bits) >= PassArea(pass, w, h) * bits + 8 * rows
            && 8 * PassBytes(pass, w, h, bits) <= PassArea(pass, w, h) * bits + 15 * rows
  {
    hide Span, CeilDiv;
    var width, height := Span(w, pass.x, pass.stepX), Span(h, pass.y, pass.stepY);
    RowBits(width, height, bits);
    if width == 0 || height == 0 {
      assert PassArea(pass, w, h) == 0;
      assert PassArea(pass, w, h) * bits == 0;
    } else {
      assert 8 * ((CeilDiv(width * bits, 8) + 1) * height) == 8 * (CeilDiv(width * bits, 8) + 1) * height;
    }
  }

  /** The expected size holds every pixel of the image once, a filter byte for every row,
      and less than a byte of padding for every row. */
  lemma SizeHoldsImage(interlaced: bool, w: nat, h: nat, bits: nat)
    ensures var passes := Passes(interlaced);
            w * h * bits + 8 * TotalRows(passes, w, h) <= 8 * FilteredBytes(passes, w, h, bits)
            <= w * h * bits + 15 * TotalRows(passes, w, h)
  {
    hide FilteredBytes, TotalArea, TotalRows;
    PassesFillImage(interlaced, w, h);
    BitsOfPasses(Passes(interlaced), w, h, bits);
  }
}
