/** Geometries: ordered sequences of solver-ready layers (Waveguide,
    WaveguideChannels, BraggGrating, DirectionalCoupler), and the dynamic
    rectangle DynamicRect2D whose design vector an optimizer replaces. */
module Geometries {
  import opened Parameters
  import opened Vertices
  import opened Rasterize
  import opened Channels

  /** One longitudinally uniform slice: a mode-solver handle, the number of
      modes, the wavelength and the slice's length. */
  datatype Layer = Layer(solver: ModeSolver, numModes: int, wavelength: real, length: real)

  /** A geometry is its ordered list of layers; iterating it yields them in order. */
  datatype Geometry = Geometry(layers: seq<Layer>)

  /** A single straight waveguide: one layer whose solver is built for a
      rectangular core of the given width and thickness. */
  function Waveguide(params: GeometryParameters, width: real, thickness: real, length: real,
                     numModes: int): (g: Geometry)
    ensures |g.layers| == 1
    ensures g.layers[0].solver == RectSolver(params, width, thickness, numModes)
    ensures g.layers[0].numModes == numModes && g.layers[0].wavelength == params.wavelength
    ensures g.layers[0].length == length
  {
    var modeSolver := RectSolver(params, width, thickness, numModes);
    Geometry([Layer(modeSolver, numModes, params.wavelength, length)])
  }

  /** The layer of a channel profile: its solver is built on the transverse
      index profile of the channels, and the slice has the given mode count and
      length at the parameters' wavelength. */
  ghost predicate ChannelLayer(l: Layer, params: GeometryParameters, width: real, thickness: real,
                               length: real, numModes: int, gap: real, numChannels: int, exclude: seq<int>)
    requires params.x.Some? && |params.x.value| == params.mesh
  {
    && l.numModes == numModes && l.wavelength == params.wavelength && l.length == length
    && l.solver.IndexSolver? && l.solver.params == params
    && l.solver.thickness == thickness && l.solver.numModes == numModes
    && |l.solver.n| == params.mesh
    && forall s :: 0 <= s < params.mesh ==>
         l.solver.n[s] == if Covered(params.x.value[s], numChannels, gap, width, exclude, numChannels)
                          then params.coreIndex else params.claddingIndex
  }

  /** Parallel channels on one transverse profile: a single layer whose solver
      is built on the channel index profile over the parameters' x samples. */
  method WaveguideChannels(params: GeometryParameters, width: real, thickness: real, length: real,
                           numModes: int, gap: real, numChannels: int, exclude: seq<int>) returns (g: Geometry)
    requires params.x.Some? && |params.x.value| == params.mesh
    ensures |g.layers| == 1
    ensures ChannelLayer(g.layers[0], params, width, thickness, length, numModes, gap, numChannels, exclude)
  {
    var nOutput := ChannelProfile(params.x.value, params.mesh, width, gap, numChannels, exclude,
                                  params.coreIndex, params.claddingIndex);
    var outputChannel := IndexSolver(params, thickness, numModes, nOutput);
    g := Geometry([Layer(outputChannel, numModes, params.wavelength, length)]);
  }

  /** One period of a Bragg grating: the layers of the left waveguide followed
      by those of the right one. */
  function BraggGrating(paramsLeft: GeometryParameters, paramsRight: GeometryParameters,
                        widthLeft: real, thicknessLeft: real, lengthLeft: real,
                        widthRight: real, thicknessRight: real, lengthRight: real,
                        numModes: int): Geometry
  {
    var left := Waveguide(paramsLeft, widthLeft, thicknessLeft, lengthLeft, numModes);
    var right := Waveguide(paramsRight, widthRight, thicknessRight, lengthRight, numModes);
    Geometry(left.layers + right.layers)
  }

  /** A Bragg period has exactly two layers: first the left waveguide's
      (left width, thickness and length), then the right one's. */
  lemma BraggGratingLayers(paramsLeft: GeometryParameters, paramsRight: GeometryParameters,
                           widthLeft: real, thicknessLeft: real, lengthLeft: real,
                           widthRight: real, thicknessRight: real, lengthRight: real, numModes: int)
    ensures var g := BraggGrating(paramsLeft, paramsRight, widthLeft, thicknessLeft, lengthLeft,
                                  widthRight, thicknessRight, lengthRight, numModes);
      && |g.layers| == 2
      && g.layers[0] == Layer(RectSolver(paramsLeft, widthLeft, thicknessLeft, numModes), numModes,
                              paramsLeft.wavelength, lengthLeft)
      && g.layers[1] == Layer(RectSolver(paramsRight, widthRight, thicknessRight, numModes), numModes,
                              paramsRight.wavelength, lengthRight)
  {
  }

  /** A directional coupler: the layer of a single bus waveguide (channel 1 of
      two excluded) followed by the layer of the full two-channel coupler. */
  method DirectionalCoupler(params: GeometryParameters, width: real, thickness: real, length: real,
                            gap: real, numModes: int) returns (g: Geometry)
    requires params.x.Some? && |params.x.value| == params.mesh
    ensures |g.layers| == 2
    ensures ChannelLayer(g.layers[0], params, width, thickness, length, numModes, gap, 2, [1])
    ensures ChannelLayer(g.layers[1], params, width, thickness, length, numModes, gap, 2, [])
    ensures forall s :: 0 <= s < params.mesh ==>
      g.layers[0].solver.n[s] == if InChannel(params.x.value[s], 2, gap, width, 0)
                                 then params.coreIndex else params.claddingIndex
    ensures forall s :: 0 <= s < params.mesh ==>
      g.layers[1].solver.n[s] == if InChannel(params.x.value[s], 2, gap, width, 0)
                                    || InChannel(params.x.value[s], 2, gap, width, 1)
                                 then params.coreIndex else params.claddingIndex
  {
    var input := WaveguideChannels(params, width, thickness, length, numModes, gap, 2, [1]);
    var coupler := WaveguideChannels(params, width, thickness, length, numModes, gap, 2, []);
    g := Geometry(input.layers + coupler.layers);
    forall s | 0 <= s < params.mesh {
      TwoChannels(params.x.value[s], gap, width);
    }
  }

  /** A rectangle of the given width and length whose two long sides are
      dynamic vertex lists set from a design vector, rasterized on the grid
      gridX x gridZ. The fields other than the design are set once. */
  class DynamicRect2D {
    const params: GeometryParameters
    const symmetry: bool
    const subpixel: bool
    const width: real
    const length: real
    const gridX: seq<real>
    const gridZ: seq<real>
    const staticVerticesLeft: seq<Point>
    const staticVerticesRight: seq<Point>
    /** The overlap area of each pixel with the rasterized shape. */
    const overlap: AreaOracle
    var design: seq<real>

    /** The end caps are the fixed ones of the rectangle, and in subpixel mode
        no grid cell is degenerate. */
    ghost predicate Valid()
    {
      && staticVerticesLeft == StaticLeft(width)
      && staticVerticesRight == StaticRight(width, length)
      && (subpixel ==> NondegenerateCells(gridX) && NondegenerateCells(gridZ))
    }

    /** Sets up the end caps and the initial design: the top vertices at the
        interior z samples with x given by the bulge, and without symmetry the
        bottom vertices on x = -width/2 with the z samples reversed. The x grid
        is the parameters' one when they have one, else defaultGridX. */
    constructor (params: GeometryParameters, width: real, length: real, symmetry: bool, subpixel: bool,
                 defaultGridX: seq<real>, gridZ: seq<real>, bulge: seq<real>, interior: seq<real>,
                 overlap: AreaOracle)
      requires |bulge| == |interior|
      requires subpixel ==>
        NondegenerateCells(if params.x.Some? then params.x.value else defaultGridX) && NondegenerateCells(gridZ)
      ensures Valid()
      ensures this.params == params && this.width == width && this.length == length
      ensures this.symmetry == symmetry && this.subpixel == subpixel && this.overlap == overlap
      ensures gridX == (if params.x.Some? then params.x.value else defaultGridX) && this.gridZ == gridZ
      ensures staticVerticesLeft == [Point(-width / 2.0, 0.0), Point(width / 2.0, 0.0)]
      ensures staticVerticesRight == [Point(width / 2.0, length), Point(-width / 2.0, length)]
      ensures design == InitialDesign(width, bulge, interior, symmetry)
      ensures |design| == (if symmetry then 2 else 4) * |interior|
    {
      this.params := params;
      this.symmetry := symmetry;
      this.subpixel := subpixel;
      this.width, this.length := width, length;
      this.gridX := if params.x.Some? then params.x.value else defaultGridX;
      this.gridZ := gridZ;
      this.overlap := overlap;
      staticVerticesLeft := StaticLeft(width);
      staticVerticesRight := StaticRight(width, length);
      design := [];
      new;
      InitialPolygon(width, length, bulge, interior, symmetry);
      var n := SetDesign(InitialDesign(width, bulge, interior, symmetry));
    }

    /** The current design vector. */
    function GetDesign(): seq<real>
      reads this
    {
      design
    }

    /** Replaces the design and returns the freshly rasterized index map. */
    method SetDesign(d: seq<real>) returns (n: array2<real>)
      requires Valid()
      modifies this
      ensures Valid() && GetDesign() == d
      ensures fresh(n)
      ensures n.Length0 == CellCount(|gridZ|) && n.Length1 == CellCount(|gridX|)
      ensures forall j, i :: 0 <= j < n.Length0 && 0 <= i < n.Length1 ==>
        n[j, i] == PixelIndex(gridX[i], gridX[i + 1], gridZ[j], gridZ[j + 1],
                              params.coreIndex, params.claddingIndex, subpixel, overlap)
    {
      design := d;
      n := SetLayers();
    }

    /** Rebuilds what the design determines; this is the index map. */
    method SetLayers() returns (n: array2<real>)
      requires Valid()
      ensures fresh(n)
      ensures n.Length0 == CellCount(|gridZ|) && n.Length1 == CellCount(|gridX|)
      ensures forall j, i :: 0 <= j < n.Length0 && 0 <= i < n.Length1 ==>
        n[j, i] == PixelIndex(gridX[i], gridX[i + 1], gridZ[j], gridZ[j + 1],
                              params.coreIndex, params.claddingIndex, subpixel, overlap)
    {
      n := GetN();
    }

    /** The closed vertex loop of the current design: static-left, top,
        static-right, bottom. With symmetry it is mirror-symmetric about x = 0. */
    method Vertices() returns (vertices: seq<Point>)
      requires Valid()
      ensures vertices == Assemble(staticVerticesLeft, staticVerticesRight, design, symmetry)
      ensures symmetry ==> forall p :: p in vertices ==> Mirror(p) in vertices
    {
      vertices := [];
      vertices := vertices + staticVerticesLeft;
      assert vertices == staticVerticesLeft;
      var top := if symmetry then design else design[..|design| / 2];
      assert top == Top(design, symmetry);
      vertices := vertices + Pairs(top);
      vertices := vertices + staticVerticesRight;
      var bottom := if symmetry then design else design[|design| / 2..];
      assert bottom == Bottom(design, symmetry);
      var bottomVertices;
      if symmetry {
        bottomVertices := MirrorAll(Reverse(Pairs(bottom)));
      } else {
        bottomVertices := Pairs(bottom);
      }
      assert bottomVertices == BottomVertices(design, symmetry);
      vertices := vertices + bottomVertices;
      if symmetry {
        SymmetricLoopIsMirrored(width, length, design);
      }
    }

    /** The index map on the grid: cell [j, i] is the index of the pixel spanned
        by x-interval i and z-interval j. It does not depend on the design: the
        shape rasterized is the one the overlap oracle describes. */
    method GetN() returns (n: array2<real>)
      requires Valid()
      ensures fresh(n)
      ensures n.Length0 == CellCount(|gridZ|) && n.Length1 == CellCount(|gridX|)
      ensures forall j, i :: 0 <= j < n.Length0 && 0 <= i < n.Length1 ==>
        n[j, i] == PixelIndex(gridX[i], gridX[i + 1], gridZ[j], gridZ[j + 1],
                              params.coreIndex, params.claddingIndex, subpixel, overlap)
    {
      n := IndexMap(gridX, gridZ, params.coreIndex, params.claddingIndex, subpixel, overlap);
    }
  }

  /** Setting any two designs, or the same one twice, yields identical index
      maps: the map is determined by the grid, the indices and the overlap
      oracle alone. */
  method DesignDoesNotChangeIndexMap(r: DynamicRect2D, d1: seq<real>, d2: seq<real>)
      returns (n1: array2<real>, n2: array2<real>)
    requires r.Valid()
    modifies r
    ensures r.GetDesign() == d2
    ensures n1.Length0 == n2.Length0 && n1.Length1 == n2.Length1
    ensures forall j, i :: 0 <= j < n1.Length0 && 0 <= i < n1.Length1 ==> n1[j, i] == n2[j, i]
  {
    n1 := r.SetDesign(d1);
    label First:
    n2 := r.SetDesign(d2);
    forall j, i | 0 <= j < n1.Length0 && 0 <= i < n1.Length1
      ensures n1[j, i] == n2[j, i]
    {
      var v := PixelIndex(r.gridX[i], r.gridX[i + 1], r.gridZ[j], r.gridZ[j + 1],
                          r.params.coreIndex, r.params.claddingIndex, r.subpixel, r.overlap);
      assert old@First(n1[j, i]) == v;
      assert n2[j, i] == v;
    }
  }
}
