# emepy geometries in Dafny

A model of `emepy/geometries.py` from the EMEPy eigenmode-expansion package.

**Geometries.** A geometry is an ordered list of layers. Each layer holds:
- a mode-solver handle,
- a mode count,
- a wavelength,
- a length.

The model covers:
- the parameter record `EMpyGeometryParameters` and its two solver factories (module `Parameters`);
- the fixed geometries `Waveguide`, `WaveguideChannels`, `BraggGrating` and `DirectionalCoupler` (module `Geometries`);
- the transverse channel index profile of `WaveguideChannels` (module `Channels`);
- the shape-optimisation class `DynamicRect2D` (module `Geometries`). It relies on:
  - the vertex bookkeeping of its design vector (module `Vertices`);
  - the per-pixel effective-index rule and the loop that fills the index map (module `Rasterize`).

**Channels.** Channels are centred about x = 0 and spaced `gap + width` apart. A sample is core iff it lies, edges included, in some channel that is not excluded.

**DynamicRect2D.** This class keeps a flat design vector `[x0, z0, x1, z1, …]`. Its vertex loop is built in this order:
1. the static left cap;
2. the top pairs;
3. the static right cap;
4. the bottom pairs. With symmetry, the bottom pairs are the top pairs mirrored and reversed.

Its index map has shape `(len(z) - 1) × (len(x) - 1)`. Cell `[j, i]` is the effective index of the pixel spanned by x-interval `i` and z-interval `j`.

## Model

| member | source | states |
|---|---|---|
| Vertices.EveryOther | emepy/geometries.py:196 | `s[::2]` has `(len+1)//2` elements, and element k is `s[2k]` |
| Vertices.Zip | emepy/geometries.py:150 | zip stops at the shorter list, and point k is `(xs[k], zs[k])` |
| Vertices.Pairs | emepy/geometries.py:196 | a flat design gives `len//2` vertices, and vertex k is `(d[2k], d[2k+1])` |
| Vertices.PairsIsZipOfStrides | emepy/geometries.py:196 | the pairs are exactly `zip(d[:-1:2], d[1::2])` for every design length, odd ones included |
| Vertices.FlattenAt | emepy/geometries.py:176 | the flattened list holds point k's x at 2k and its z at 2k+1 |
| Vertices.PairsOfFlatten | emepy/geometries.py:176 | flattening a vertex list and reading it back as pairs round-trips |
| Vertices.Reverse | emepy/geometries.py:167 | reversal keeps the length and puts element `len-1-k` at k |
| Vertices.SymmetricLayout | emepy/geometries.py:195-206 | with symmetry the loop has `|left|+|right|+2·(len//2)` vertices, and bottom vertex k is top vertex `P-1-k` with x negated |
| Vertices.AsymmetricLayout | emepy/geometries.py:195-208 | without symmetry the top is the pairs of `d[:len//2]` and the bottom the pairs of `d[len//2:]`, in order |
| Vertices.MirroredParts | emepy/geometries.py:147-150 | a loop whose end caps mirror each other and whose bottom mirrors the reversed top is closed under mirroring |
| Vertices.SymmetricLoopIsMirrored | emepy/geometries.py:201-206 | with symmetry the assembled polygon contains the mirror image of each of its vertices |
| Vertices.PairsAppend | emepy/geometries.py:196 | after an even number of coordinates, the pairs of a concatenation are the concatenation of the pairs |
| Vertices.PairsOfHalves | emepy/geometries.py:195-208 | cutting 4m coordinates after 2m of them keeps every pair |
| Vertices.SplitKeepsPairs | emepy/geometries.py:195-208 | for lengths that are multiples of 4, the top and bottom halves hold exactly the design's pairs |
| Vertices.SplitLosesPair | emepy/geometries.py:195-208 | for lengths `4m+2`, the cut at `len//2` splits a pair: the halves give one vertex fewer than the design, the top keeps design vertices `0..m-1`, and bottom vertex k is made of design vertex m+k's z and design vertex m+k+1's x |
| Vertices.HalvesKeepPairsIff | emepy/geometries.py:195-208 | for an even length, the halves keep all pairs iff the length is a multiple of 4 |
| Vertices.FlattenAppend | emepy/geometries.py:174-176 | flattening distributes over concatenation of the top and bottom lists |
| Vertices.InitialPolygon | emepy/geometries.py:152-179 | the initial design has 2·num_params (symmetric) or 4·num_params coordinates and reassembles into the bulged top plus the mirrored top or the straight reversed bottom |
| Rasterize.IndexMap | emepy/geometries.py:214-250 | the map has shape `(len(z)-1, len(x)-1)` and cell `[j,i]` is the index of pixel `[x_i, x_{i+1}] × [z_j, z_{j+1}]` |
| Rasterize.FillColumn | emepy/geometries.py:223-248 | the inner loop fills column i with the pixel indices and leaves the other columns unchanged |
| Rasterize.FractionOrder | emepy/geometries.py:241-242 | for a positive cell area, the covered fraction keeps the order against 0 and 1 |
| Rasterize.SubpixelBetween | emepy/geometries.py:239-244 | with smoothing and `0 <= overlap <= area`, the index lies between cladding and core, and is cladding when uncovered and core when fully covered |
| Rasterize.SubpixelStrictlyBetweenIff | emepy/geometries.py:239-244 | with smoothing and distinct indices, the index is strictly between them iff the cell is partly covered |
| Rasterize.SubpixelMonotone | emepy/geometries.py:239-244 | with core above cladding, more overlap never lowers the smoothed index |
| Rasterize.BinaryRule | emepy/geometries.py:245-248 | without smoothing the index is core iff the overlap is nonzero, and cladding iff it is zero |
| Rasterize.IndexMapBetween | emepy/geometries.py:222-248 | on increasing grids with overlaps inside the cells, every cell lies between the cladding and core indices in either mode |
| Rasterize.NonzeroProduct | emepy/geometries.py:228 | helper lemma (a·b ≠ 0 for nonzero a, b): the area of a nondegenerate cell is nonzero, so the division at line 241 is defined |
| Channels.ChannelProfile | emepy/geometries.py:402-414 | the profile has `mesh` samples; sample s is core iff `x[s]` lies in some non-excluded channel, cladding otherwise |
| Channels.CoveredStep | emepy/geometries.py:405-414 | each loop step adds exactly channel `out`'s core unless it is excluded |
| Channels.CenterSpacing | emepy/geometries.py:403-407 | centres are `gap + width` apart and channel k mirrors channel N-1-k about x = 0 |
| Channels.CenterDistance | emepy/geometries.py:403-407 | centres of channels j and k lie `(j-k)(gap + width)` apart |
| Channels.CentersApart | emepy/geometries.py:403-407 | a later channel's centre is at least `gap + width` beyond an earlier one |
| Channels.AtLeastOnce | emepy/geometries.py:407 | helper lemma (m·c ≥ c for m ≥ 1, c > 0): m ≥ 1 steps of a positive spacing cover at least one spacing |
| Channels.CenterSampleCovered | emepy/geometries.py:403-414 | with gap and width at least zero and not both zero (touching channels included), the sample at channel k's centre is core iff k is not excluded |
| Channels.ExcludeMore | emepy/geometries.py:406 | excluding more channels only turns core samples into cladding |
| Channels.TwoChannels | emepy/geometries.py:463-470 | of two channels, excluding channel 1 leaves channel 0's core, and excluding none leaves both |
| Geometries.Waveguide | emepy/geometries.py:357-386 | one layer, with a rectangular-core solver on the given width, thickness and mode count, at the parameters' wavelength and the given length |
| Geometries.WaveguideChannels | emepy/geometries.py:389-421 | one layer whose solver is built on the channel index profile over the parameters' x samples |
| Geometries.BraggGratingLayers | emepy/geometries.py:424-448 | exactly two layers: the left waveguide's, then the right waveguide's |
| Geometries.DirectionalCoupler | emepy/geometries.py:451-474 | two layers: the bus, where a sample is core iff it is in channel 0, then the coupler, where a sample is core iff it is in channel 0 or 1 |
| Geometries.DynamicRect2D.constructor | emepy/geometries.py:118-179 | the caps `[(-w/2,0),(w/2,0)]` and `[(w/2,L),(-w/2,L)]`, the x grid taken from the parameters when present, and the initial design of 2 or 4 coordinates per parameter |
| Geometries.DynamicRect2D.SetDesign | emepy/geometries.py:181-184 | the design becomes the given one, and the result is the index map of the grid |
| Geometries.DynamicRect2D.SetLayers | emepy/geometries.py:252-256 | the layers rebuild is the index map |
| Geometries.DynamicRect2D.Vertices | emepy/geometries.py:188-208 | the loop is static-left, top pairs, static-right, bottom; with symmetry it is mirror-closed |
| Geometries.DynamicRect2D.GetN | emepy/geometries.py:186-250 | the index map has shape `(len(z)-1, len(x)-1)` with the pixel index in every cell |
| Geometries.DesignDoesNotChangeIndexMap | emepy/geometries.py:210-212 | two designs set in a row yield identical index maps, because a fixed circle is rasterized |

## Left out

- Mode solvers (`MSEMpy`) are not part of this model. A solver is the record of the arguments its factory receives (`RectSolver`, `IndexSolver`).
- The area of the intersection of a pixel with the shape (shapely) is a parameter: a function of the pixel bounds. The `intersects` test is folded into it, since a disjoint pixel has area 0.
- Line 212 rasterizes a fixed circle of diameter `width` centred at `(0, length/2)`, not the vertex loop. So the index map does not depend on the design. The model follows the code: the vertex loop is modelled and proved on its own (`DynamicRect2D.Vertices`), and the map comes from the area function.
- `np.linspace` and `np.sin` are taken as inputs. The default x grid, the z grid, the interior z samples and the sine bulge of the initial design are constructor parameters.
- Floating point is modelled as exact reals. Rounding is not captured.
- The `**kwargs` loop at lines 60-61 calls `setattr` with two arguments and would raise for any keyword. It has no effect on a call without keywords and is not modelled.
- Commented-out code (lines 259-354) and `examples/bragg_grating.py` are not part of this model.
- Python `None` defaults are not modelled. The core and cladding indices are taken as given reals. `None` for the thickness or mode count of the index solver is not modelled either.
- Geometries.WaveguideChannels: requires the x samples to be present and to number `mesh`. When at least one channel is active, the program would broadcast or fail in numpy otherwise. When no channel is active (`num_channels <= 0`, or every channel excluded), the program never reads `x` and returns the all-cladding profile of `mesh` samples for any `x`, `None` included; the model excludes these accepted calls.
- Geometries.DirectionalCoupler: requires the x samples to be present and to number `mesh`, for the same reason.
- Rasterize.IndexMap: in subpixel mode it requires that no two consecutive grid samples coincide. The program divides by the zero cell area there and yields nan.
- Geometries.DynamicRect2D.constructor: takes the same nondegenerate-grid requirement in subpixel mode, for the same reason.
- `DynamicRect2D` never stores layers: `set_layers` only returns the index map. The model keeps that, so it carries no `layers` field.
- `DynamicPolygon.get_design` is `DynamicRect2D.GetDesign`.
- Geometry iteration (`__iter__`) is reading the `layers` sequence in order.
- Without symmetry, a design whose length is `4m+2` is read out of step (`Vertices.SplitLosesPair`). The top keeps design vertices `0..m-1`. Each bottom vertex k pairs the z of design vertex m+k with the x of design vertex m+k+1. So m+1 design vertices are missing from the loop, and m vertices appear that are not in the design. For example, `[1,2,3,4,5,6]` gives top `[(1,2)]` and bottom `[(4,5)]`. The program's own initial design always has a length that is a multiple of 4, so this is stated as a property and not as a defect.
