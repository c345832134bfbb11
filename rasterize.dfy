/** The per-cell effective-index rule of DynamicRect2D.get_n and the nested loop
    that fills the index map n[j, i] (j: z-cell, i: x-cell).

    The overlap between a pixel and the rasterized shape comes from a geometry
    library in the program; here it is a parameter, a function of the pixel's
    bounds. The map does not depend on the design vector: the program rasterizes
    a fixed circle, not the assembled vertex loop. */
module Rasterize {

  /** The overlap area of the rasterized shape with the pixel [xl, xu] x [zl, zu],
      as a function of (xl, xu, zl, zu). */
  type AreaOracle = (real, real, real, real) -> real

  /** The effective index of one cell. With subpixel smoothing it is the linear
      mix of core and cladding index by the covered fraction overlap / total;
      without it, the core index when the overlap is nonzero and the cladding
      index otherwise. */
  function EffectiveIndex(overlap: real, total: real, core: real, clad: real, subpixel: bool): real
    requires subpixel ==> total != 0.0
  {
    if subpixel then overlap / total * core + (1.0 - overlap / total) * clad
    else if overlap != 0.0 then core
    else clad
  }

  /** The index of the pixel [xl, xu] x [zl, zu]: it depends on nothing but the
      pixel's bounds, the two indices and the smoothing flag. */
  function PixelIndex(xl: real, xu: real, zl: real, zu: real, core: real, clad: real,
                      subpixel: bool, area: AreaOracle): real
    requires subpixel ==> xu != xl && zu != zl
  {
    EffectiveIndex(area(xl, xu, zl, zu), (xu - xl) * (zu - zl), core, clad, subpixel)
  }

  /** The number of cells between consecutive samples of a grid (n[:-1] of the samples). */
  function CellCount(samples: nat): nat
  {
    if samples == 0 then 0 else samples - 1
  }

  /** No two consecutive samples coincide, so every cell has a nonzero extent. */
  predicate NondegenerateCells(g: seq<real>)
  {
    forall i :: 0 <= i < |g| - 1 ==> g[i] != g[i + 1]
  }

  /** The samples strictly increase. */
  predicate Increasing(g: seq<real>)
  {
    forall i :: 0 <= i < |g| - 1 ==> g[i] < g[i + 1]
  }

  /** v lies between a and b, whichever is larger. */
  predicate Between(v: real, a: real, b: real)
  {
    (a <= v <= b) || (b <= v <= a)
  }

  /** The index map of a grid: shape (len(z) - 1) x (len(x) - 1), and cell
      [j, i] is the index of the pixel spanned by x-interval i and z-interval j. */
  method IndexMap(gridX: seq<real>, gridZ: seq<real>, core: real, clad: real, subpixel: bool,
                  area: AreaOracle) returns (n: array2<real>)
    requires subpixel ==> NondegenerateCells(gridX) && NondegenerateCells(gridZ)
    ensures fresh(n)
    ensures n.Length0 == CellCount(|gridZ|) && n.Length1 == CellCount(|gridX|)
    ensures forall j, i :: 0 <= j < n.Length0 && 0 <= i < n.Length1 ==>
      n[j, i] == PixelIndex(gridX[i], gridX[i + 1], gridZ[j], gridZ[j + 1], core, clad, subpixel, area)
  {
    n := new real[CellCount(|gridZ|), CellCount(|gridX|)];
    var i := 0;
    while i < n.Length1
      invariant 0 <= i <= n.Length1
      invariant forall j', i' :: 0 <= j' < n.Length0 && 0 <= i' < i ==>
        n[j', i'] == PixelIndex(gridX[i'], gridX[i' + 1], gridZ[j'], gridZ[j' + 1], core, clad, subpixel, area)
    {
      FillColumn(n, i, gridX, gridZ, core, clad, subpixel, area);
      i := i + 1;
    }
  }

  /** The inner loop of the index map: fills column i (x-interval i) over every
      z-interval and leaves the other columns as they were. */
  method FillColumn(n: array2<real>, i: nat, gridX: seq<real>, gridZ: seq<real>, core: real, clad: real,
                    subpixel: bool, area: AreaOracle)
    requires n.Length0 == CellCount(|gridZ|) && n.Length1 == CellCount(|gridX|) && i < n.Length1
    requires subpixel ==> NondegenerateCells(gridX) && NondegenerateCells(gridZ)
    modifies n
    ensures forall j :: 0 <= j < n.Length0 ==>
      n[j, i] == PixelIndex(gridX[i], gridX[i + 1], gridZ[j], gridZ[j + 1], core, clad, subpixel, area)
    ensures forall j', i' :: 0 <= j' < n.Length0 && 0 <= i' < n.Length1 && i' != i ==> n[j', i'] == old(n[j', i'])
  {
    var xl, xu := gridX[i], gridX[i + 1];
    var j := 0;
    while j < n.Length0
      invariant 0 <= j <= n.Length0
      invariant forall j' :: 0 <= j' < j ==>
        n[j', i] == PixelIndex(xl, xu, gridZ[j'], gridZ[j' + 1], core, clad, subpixel, area)
      invariant forall j', i' :: 0 <= j' < n.Length0 && 0 <= i' < n.Length1 && i' != i ==> n[j', i'] == old(n[j', i'])
    {
      var zl, zu := gridZ[j], gridZ[j + 1];
      var total := (xu - xl) * (zu - zl);
      var overlap := area(xl, xu, zl, zu);
      var v;
      if subpixel {
        NonzeroProduct(xu - xl, zu - zl);
        v := overlap / total * core + (1.0 - overlap / total) * clad;
      } else if overlap != 0.0 {
        v := core;
      } else {
        v := clad;
      }
      assert v == PixelIndex(xl, xu, zl, zu, core, clad, subpixel, area);
      n[j, i] := v;
      j := j + 1;
    }
  }

  /** A product of two nonzero reals is nonzero. */
  lemma NonzeroProduct(a: real, b: real)
    requires a != 0.0 && b != 0.0
    ensures a * b != 0.0
  {
  }

  /** Dividing by a positive total keeps the order with respect to 0 and the total. */
  lemma FractionOrder(overlap: real, total: real)
    requires 0.0 < total
    ensures 0.0 < overlap ==> 0.0 < overlap / total
    ensures 0.0 <= overlap ==> 0.0 <= overlap / total
    ensures overlap < total ==> overlap / total < 1.0
    ensures overlap <= total ==> overlap / total <= 1.0
  {
    var f := overlap / total;
    assert f * total == overlap;
    if f >= 1.0 {
      assert f * total >= 1.0 * total;
    }
    if f > 1.0 {
      assert f * total > 1.0 * total;
    }
  }

  /** Subpixel mode with 0 <= overlap <= total: the cell index lies between the
      cladding and core indices, is the cladding index for an uncovered cell and
      the core index for a fully covered one. */
  lemma SubpixelBetween(overlap: real, total: real, core: real, clad: real)
    requires 0.0 < total && 0.0 <= overlap <= total
    ensures Between(EffectiveIndex(overlap, total, core, clad, true), clad, core)
    ensures overlap == 0.0 ==> EffectiveIndex(overlap, total, core, clad, true) == clad
    ensures overlap == total ==> EffectiveIndex(overlap, total, core, clad, true) == core
  {
    var f := overlap / total;
    FractionOrder(overlap, total);
    assert EffectiveIndex(overlap, total, core, clad, true) == clad + f * (core - clad);
    if clad <= core {
      assert 0.0 <= f * (core - clad) <= core - clad;
    } else {
      assert core - clad <= f * (core - clad) <= 0.0;
    }
  }

  /** Subpixel mode with distinct indices: a cell index lies strictly between
      the cladding and core indices iff the cell is partly, not wholly, covered. */
  lemma SubpixelStrictlyBetweenIff(overlap: real, total: real, core: real, clad: real)
    requires 0.0 < total && 0.0 <= overlap <= total && core != clad
    ensures var v := EffectiveIndex(overlap, total, core, clad, true);
      (v != core && v != clad) <==> 0.0 < overlap < total
  {
    var f := overlap / total;
    var v := EffectiveIndex(overlap, total, core, clad, true);
    assert v == clad + f * (core - clad);
    FractionOrder(overlap, total);
    if 0.0 < overlap < total {
      assert f * (core - clad) != 0.0;
      assert (1.0 - f) * (core - clad) != 0.0;
    } else {
      SubpixelBetween(overlap, total, core, clad);
    }
  }

  /** Subpixel mode is monotone: with core above cladding, more overlap never
      lowers the cell index. */
  lemma SubpixelMonotone(a1: real, a2: real, total: real, core: real, clad: real)
    requires 0.0 < total && a1 <= a2 && clad <= core
    ensures EffectiveIndex(a1, total, core, clad, true) <= EffectiveIndex(a2, total, core, clad, true)
  {
    var f1, f2 := a1 / total, a2 / total;
    assert f1 <= f2;
    assert EffectiveIndex(a1, total, core, clad, true) == clad + f1 * (core - clad);
    assert EffectiveIndex(a2, total, core, clad, true) == clad + f2 * (core - clad);
    assert f1 * (core - clad) <= f2 * (core - clad);
  }

  /** Without smoothing the index is a binary choice: the core index iff the
      overlap is nonzero, the cladding index iff it is zero. */
  lemma BinaryRule(overlap: real, total: real, core: real, clad: real)
    requires core != clad
    ensures var v := EffectiveIndex(overlap, total, core, clad, false);
      (v == core <==> overlap != 0.0) && (v == clad <==> overlap == 0.0)
  {
  }

  /** The overlap the oracle reports for every cell of the grid lies between
      zero and the cell's area. */
  ghost predicate OverlapWithinCells(gridX: seq<real>, gridZ: seq<real>, area: AreaOracle)
  {
    forall i, j :: 0 <= i < |gridX| - 1 && 0 <= j < |gridZ| - 1 ==>
      0.0 <= CellOverlap(gridX, gridZ, area, i, j) <= (gridX[i + 1] - gridX[i]) * (gridZ[j + 1] - gridZ[j])
  }

  /** The overlap the oracle reports for cell [j, i] of the grid. */
  function CellOverlap(gridX: seq<real>, gridZ: seq<real>, area: AreaOracle, i: int, j: int): real
    requires 0 <= i < |gridX| - 1 && 0 <= j < |gridZ| - 1
  {
    area(gridX[i], gridX[i + 1], gridZ[j], gridZ[j + 1])
  }

  /** On increasing grids whose overlaps lie within the cells, every cell of the
      index map lies between the cladding and core indices, in either mode. */
  lemma IndexMapBetween(gridX: seq<real>, gridZ: seq<real>, core: real, clad: real,
                        subpixel: bool, area: AreaOracle)
    requires Increasing(gridX) && Increasing(gridZ)
    requires OverlapWithinCells(gridX, gridZ, area)
    ensures forall j, i :: 0 <= j < |gridZ| - 1 && 0 <= i < |gridX| - 1 ==>
      Between(PixelIndex(gridX[i], gridX[i + 1], gridZ[j], gridZ[j + 1], core, clad, subpixel, area), clad, core)
  {
    forall j, i | 0 <= j < |gridZ| - 1 && 0 <= i < |gridX| - 1
      ensures Between(PixelIndex(gridX[i], gridX[i + 1], gridZ[j], gridZ[j + 1], core, clad, subpixel, area), clad, core)
    {
      var dx, dz := gridX[i + 1] - gridX[i], gridZ[j + 1] - gridZ[j];
      assert 0.0 < dx && 0.0 < dz;
      assert 0.0 < dx * dz;
      assert 0.0 <= CellOverlap(gridX, gridZ, area, i, j) <= dx * dz;
      var v := PixelIndex(gridX[i], gridX[i + 1], gridZ[j], gridZ[j + 1], core, clad, subpixel, area);
      if subpixel {
        SubpixelBetween(CellOverlap(gridX, gridZ, area, i, j), dx * dz, core, clad);
        assert v == EffectiveIndex(CellOverlap(gridX, gridZ, area, i, j), dx * dz, core, clad, true);
      } else {
        assert v == core || v == clad;
      }
    }
  }
}
