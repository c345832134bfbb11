/** Vertex bookkeeping of the dynamic rectangle (DynamicRect2D): a flat design
    vector read as (x, z) pairs, the initial design built from the rectangle's
    width, and the closed vertex loop static-left, top, static-right, bottom.
    x is the transverse coordinate, z the longitudinal one. */
module Vertices {

  /** A vertex in the transverse (x) / longitudinal (z) plane. */
  datatype Point = Point(x: real, z: real)

  /** The vertex reflected about the longitudinal axis x = 0. */
  function Mirror(p: Point): Point
  {
    Point(-p.x, p.z)
  }

  /** Every second element, starting with the first (Python's s[::2]). */
  function EveryOther(s: seq<real>): (r: seq<real>)
    ensures |r| == (|s| + 1) / 2
    ensures forall k :: 0 <= k < |r| ==> r[k] == s[2 * k]
  {
    if |s| <= 1 then s else [s[0]] + EveryOther(s[2..])
  }

  /** All elements but the last (Python's s[:-1]). */
  function DropLast(s: seq<real>): seq<real>
  {
    if |s| == 0 then [] else s[..|s| - 1]
  }

  /** All elements but the first (Python's s[1:]). */
  function DropFirst(s: seq<real>): seq<real>
  {
    if |s| == 0 then [] else s[1..]
  }

  /** Python's zip of two coordinate lists into points: it stops at the shorter one. */
  function Zip(xs: seq<real>, zs: seq<real>): (ps: seq<Point>)
    ensures |ps| == if |xs| <= |zs| then |xs| else |zs|
    ensures forall k :: 0 <= k < |ps| ==> ps[k] == Point(xs[k], zs[k])
  {
    if |xs| == 0 || |zs| == 0 then [] else [Point(xs[0], zs[0])] + Zip(xs[1..], zs[1..])
  }

  /** The (x, z) pairs of a flat design: pair k is (d[2k], d[2k+1]), and a
      trailing odd element is dropped. */
  function Pairs(d: seq<real>): (ps: seq<Point>)
    ensures |ps| == |d| / 2
    ensures forall k :: 0 <= k < |ps| ==> ps[k] == Point(d[2 * k], d[2 * k + 1])
  {
    if |d| < 2 then [] else [Point(d[0], d[1])] + Pairs(d[2..])
  }

  /** The pairs are what the program computes, zip(d[:-1:2], d[1::2]): the
      elements at even positions before the last one, zipped with those at odd
      positions. */
  lemma PairsIsZipOfStrides(d: seq<real>)
    ensures Pairs(d) == Zip(EveryOther(DropLast(d)), EveryOther(DropFirst(d)))
  {
    var evens, odds := EveryOther(DropLast(d)), EveryOther(DropFirst(d));
    if |d| > 0 {
      assert |evens| == |d| / 2 && |odds| == |d| / 2;
    }
  }

  /** A list of points flattened into [x0, z0, x1, z1, ...]. */
  function Flatten(ps: seq<Point>): (d: seq<real>)
    ensures |d| == 2 * |ps|
  {
    if ps == [] then [] else [ps[0].x, ps[0].z] + Flatten(ps[1..])
  }

  /** Coordinate 2k of a flattened list is the x of point k, coordinate 2k+1 its z. */
  lemma {:induction false} FlattenAt(ps: seq<Point>, k: int)
    requires 0 <= k < |ps|
    ensures Flatten(ps)[2 * k] == ps[k].x && Flatten(ps)[2 * k + 1] == ps[k].z
  {
    if k > 0 {
      FlattenAt(ps[1..], k - 1);
      assert Flatten(ps) == [ps[0].x, ps[0].z] + Flatten(ps[1..]);
    }
  }

  /** Reading a flattened list back as pairs gives the points again. */
  lemma PairsOfFlatten(ps: seq<Point>)
    ensures Pairs(Flatten(ps)) == ps
  {
    var d := Flatten(ps);
    forall k | 0 <= k < |ps|
      ensures Pairs(d)[k] == ps[k]
    {
      FlattenAt(ps, k);
    }
  }

  /** Python's s[::-1]. */
  function Reverse<T>(s: seq<T>): (r: seq<T>)
    ensures |r| == |s|
    ensures forall k :: 0 <= k < |s| ==> r[k] == s[|s| - 1 - k]
  {
    if s == [] then [] else Reverse(s[1..]) + [s[0]]
  }

  /** [(-x, z) for x, z in ps]. */
  function MirrorAll(ps: seq<Point>): seq<Point>
  {
    seq(|ps|, k requires 0 <= k < |ps| => Mirror(ps[k]))
  }

  /** The fixed end cap at z = 0, left to right. */
  function StaticLeft(width: real): seq<Point>
  {
    [Point(-width / 2.0, 0.0), Point(width / 2.0, 0.0)]
  }

  /** The fixed end cap at z = length, right to left. */
  function StaticRight(width: real, length: real): seq<Point>
  {
    [Point(width / 2.0, length), Point(-width / 2.0, length)]
  }

  /** The part of the design that holds the top vertices: all of it with
      symmetry, else design[:len // 2]. */
  function Top(d: seq<real>, symmetry: bool): seq<real>
  {
    if symmetry then d else d[..|d| / 2]
  }

  /** The part of the design that holds the bottom vertices: all of it with
      symmetry, else design[len // 2:]. */
  function Bottom(d: seq<real>, symmetry: bool): seq<real>
  {
    if symmetry then d else d[|d| / 2..]
  }

  /** The bottom vertices: with symmetry the top pairs mirrored and visited in
      reverse order, else the pairs of the bottom half in their given order. */
  function BottomVertices(d: seq<real>, symmetry: bool): seq<Point>
  {
    if symmetry then MirrorAll(Reverse(Pairs(d))) else Pairs(Bottom(d, false))
  }

  /** The closed vertex loop of the polygon: static-left, top, static-right, bottom. */
  function Assemble(left: seq<Point>, right: seq<Point>, d: seq<real>, symmetry: bool): seq<Point>
  {
    left + Pairs(Top(d, symmetry)) + right + BottomVertices(d, symmetry)
  }

  /** The initial design: the top vertices (bulge[k], interior[k]) and, without
      symmetry, the bottom vertices (-width/2, z) with the interior z samples in
      reverse order, flattened into one list of coordinates. */
  function InitialDesign(width: real, bulge: seq<real>, interior: seq<real>, symmetry: bool): seq<real>
    requires |bulge| == |interior|
  {
    var top := Zip(bulge, interior);
    var bottom := Zip(seq(|interior|, _ => -width / 2.0), Reverse(interior));
    Flatten(if symmetry then top else top + bottom)
  }

  /** With symmetry the loop has |left| + |right| + 2 * (len(design) // 2)
      vertices, and bottom vertex k is the mirror image of top vertex P - 1 - k,
      where P = len(design) // 2 is the number of design pairs. */
  lemma SymmetricLayout(left: seq<Point>, right: seq<Point>, d: seq<real>)
    ensures |Assemble(left, right, d, true)| == |left| + |right| + 2 * (|d| / 2)
    ensures |BottomVertices(d, true)| == |Pairs(d)| == |d| / 2
    ensures forall k :: 0 <= k < |d| / 2 ==>
      BottomVertices(d, true)[k] == Point(-d[2 * (|d| / 2 - 1 - k)], d[2 * (|d| / 2 - 1 - k) + 1])
  {
  }

  /** Without symmetry the top vertices are the pairs of design[:len // 2] and
      the bottom vertices the pairs of design[len // 2:], each in the given order. */
  lemma AsymmetricLayout(left: seq<Point>, right: seq<Point>, d: seq<real>)
    ensures var h := |d| / 2;
      && |Assemble(left, right, d, false)| == |left| + |right| + h / 2 + (|d| - h) / 2
      && (forall k :: 0 <= k < h / 2 ==> Pairs(Top(d, false))[k] == Point(d[2 * k], d[2 * k + 1]))
      && (forall k :: 0 <= k < (|d| - h) / 2 ==> BottomVertices(d, false)[k] == Point(d[h + 2 * k], d[h + 2 * k + 1]))
  {
  }

  /** A loop whose two-vertex end caps are each other's mirror image and whose
      bottom vertex k mirrors top vertex P - 1 - k contains the mirror image of
      each of its vertices. */
  lemma MirroredParts(left: seq<Point>, top: seq<Point>, right: seq<Point>, bottom: seq<Point>)
    requires |left| == 2 && left[1] == Mirror(left[0]) && left[0] == Mirror(left[1])
    requires |right| == 2 && right[1] == Mirror(right[0]) && right[0] == Mirror(right[1])
    requires |bottom| == |top|
    requires forall k :: 0 <= k < |top| ==> bottom[k] == Mirror(top[|top| - 1 - k])
    ensures forall p :: p in left + top + right + bottom ==> Mirror(p) in left + top + right + bottom
  {
    var v, n := left + top + right + bottom, |top|;
    forall p | p in v
      ensures Mirror(p) in v
    {
      var i :| 0 <= i < |v| && v[i] == p;
      if i < 2 {
        assert Mirror(p) == v[1 - i];
      } else if i < 2 + n {
        var k := i - 2;
        assert bottom[n - 1 - k] == Mirror(top[k]);
        assert v[4 + n + (n - 1 - k)] == bottom[n - 1 - k];
      } else if i < 4 + n {
        assert Mirror(p) == v[(4 + n - 1) - (i - 2 - n)];
      } else {
        var k := i - 4 - n;
        assert Mirror(p) == top[n - 1 - k];
        assert v[2 + (n - 1 - k)] == top[n - 1 - k];
      }
    }
  }

  /** With symmetry the assembled polygon is mirror-symmetric about x = 0:
      the mirror image of every vertex is again a vertex. */
  lemma SymmetricLoopIsMirrored(width: real, length: real, d: seq<real>)
    ensures var v := Assemble(StaticLeft(width), StaticRight(width, length), d, true);
      forall p :: p in v ==> Mirror(p) in v
  {
    var left, right := StaticLeft(width), StaticRight(width, length);
    var top, bottom := Pairs(d), MirrorAll(Reverse(Pairs(d)));
    assert Assemble(left, right, d, true) == left + top + right + bottom;
    MirroredParts(left, top, right, bottom);
  }

  /** Appending after an even number of coordinates appends the pairs. */
  lemma {:induction false} PairsAppend(a: seq<real>, b: seq<real>)
    requires |a| % 2 == 0
    ensures Pairs(a + b) == Pairs(a) + Pairs(b)
  {
    if |a| == 0 {
      assert a + b == b;
    } else {
      assert (a + b)[2..] == a[2..] + b;
      PairsAppend(a[2..], b);
      calc {
        Pairs(a + b);
        [Point(a[0], a[1])] + Pairs(a[2..] + b);
        [Point(a[0], a[1])] + (Pairs(a[2..]) + Pairs(b));
        ([Point(a[0], a[1])] + Pairs(a[2..])) + Pairs(b);
      }
    }
  }

  /** Cutting a design of 4m coordinates after 2m of them cuts between pairs:
      the pairs of the two halves are the pairs of the whole. */
  lemma PairsOfHalves(d: seq<real>, m: nat)
    requires |d| == 4 * m
    ensures Pairs(d[..2 * m]) + Pairs(d[2 * m..]) == Pairs(d)
  {
    assert d[..2 * m] + d[2 * m..] == d;
    PairsAppend(d[..2 * m], d[2 * m..]);
  }

  /** Without symmetry the design is cut at len // 2. When the length is a
      multiple of four the top and bottom pairs together are exactly the pairs
      of the whole design. */
  lemma SplitKeepsPairs(d: seq<real>)
    requires |d| % 4 == 0
    ensures Pairs(Top(d, false)) + Pairs(Bottom(d, false)) == Pairs(d)
  {
    var m := |d| / 4;
    assert |d| / 2 == 2 * m;
    PairsOfHalves(d, m);
  }

  /** When the length is 2 mod 4 the cut at len // 2 falls inside a pair. The
      top and bottom halves hold one pair fewer than the design, and the bottom
      half is read one coordinate out of step: bottom vertex k takes its x from
      the z of design vertex m + k and its z from the x of design vertex
      m + k + 1, where m = len // 4. */
  lemma SplitLosesPair(d: seq<real>)
    requires |d| % 4 == 2
    ensures |Pairs(Top(d, false))| + |Pairs(Bottom(d, false))| == |d| / 2 - 1
    ensures forall k :: 0 <= k < |d| / 4 ==> Pairs(Top(d, false))[k] == Pairs(d)[k]
    ensures forall k :: 0 <= k < |d| / 4 ==>
      BottomVertices(d, false)[k] == Point(Pairs(d)[|d| / 4 + k].z, Pairs(d)[|d| / 4 + k + 1].x)
  {
    var m := |d| / 4;
    assert |d| == 4 * m + 2;
    assert |d| / 2 == 2 * m + 1;
    assert |d[..2 * m + 1]| / 2 == m;
    assert |d[2 * m + 1..]| / 2 == m;
    AsymmetricLayout([], [], d);
    forall k | 0 <= k < m
      ensures BottomVertices(d, false)[k] == Point(Pairs(d)[m + k].z, Pairs(d)[m + k + 1].x)
    {
      assert Pairs(d)[m + k].z == d[2 * (m + k) + 1];
      assert Pairs(d)[m + k + 1].x == d[2 * (m + k + 1)];
    }
  }

  /** For an even-length design without symmetry, the top and bottom pairs
      together are the pairs of the whole design iff its length is a multiple
      of four. */
  lemma HalvesKeepPairsIff(d: seq<real>)
    requires |d| % 2 == 0
    ensures Pairs(Top(d, false)) + Pairs(Bottom(d, false)) == Pairs(d) <==> |d| % 4 == 0
  {
    if |d| % 4 == 0 {
      SplitKeepsPairs(d);
    } else {
      SplitLosesPair(d);
    }
  }

  /** Flattening distributes over concatenation. */
  lemma {:induction false} FlattenAppend(a: seq<Point>, b: seq<Point>)
    ensures Flatten(a + b) == Flatten(a) + Flatten(b)
  {
    if a == [] {
      assert a + b == b;
    } else {
      assert (a + b)[1..] == a[1..] + b;
      FlattenAppend(a[1..], b);
      calc {
        Flatten(a + b);
        [a[0].x, a[0].z] + Flatten(a[1..] + b);
        [a[0].x, a[0].z] + (Flatten(a[1..]) + Flatten(b));
        ([a[0].x, a[0].z] + Flatten(a[1..])) + Flatten(b);
      }
    }
  }

  /** The initial design has 2 coordinates per dynamic vertex, so 2 * num_params
      with symmetry and 4 * num_params without; read back by the assembly it gives
      the intended polygon: the bulged top (bulge[k], interior[k]) and, without
      symmetry, the straight bottom at x = -width/2 with the z samples reversed. */
  lemma InitialPolygon(width: real, length: real, bulge: seq<real>, interior: seq<real>, symmetry: bool)
    requires |bulge| == |interior|
    ensures |InitialDesign(width, bulge, interior, symmetry)| == (if symmetry then 2 else 4) * |interior|
    ensures var top := Zip(bulge, interior);
      Assemble(StaticLeft(width), StaticRight(width, length), InitialDesign(width, bulge, interior, symmetry), symmetry)
      == StaticLeft(width) + top + StaticRight(width, length)
         + (if symmetry then MirrorAll(Reverse(top))
            else Zip(seq(|interior|, _ => -width / 2.0), Reverse(interior)))
  {
    var top := Zip(bulge, interior);
    var bottom := Zip(seq(|interior|, _ => -width / 2.0), Reverse(interior));
    var d := InitialDesign(width, bulge, interior, symmetry);
    if symmetry {
      PairsOfFlatten(top);
    } else {
      FlattenAppend(top, bottom);
      assert d == Flatten(top) + Flatten(bottom);
      assert Top(d, false) == Flatten(top);
      assert Bottom(d, false) == Flatten(bottom);
      PairsOfFlatten(top);
      PairsOfFlatten(bottom);
    }
  }
}
