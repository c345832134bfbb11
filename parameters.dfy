/** The global physical and numerical parameters of a geometry
    (EMpyGeometryParameters) and the mode-solver handle built from them.
    The mode solver itself is outside this model: a handle is the record of
    the arguments its factory was called with. */
module Parameters {

  datatype Option<T> = None | Some(value: T)

  /** Wavelength, cladding extent, material indices, optional transverse and
      vertical sample grids, mesh size, solver accuracy, boundary code and PML flag. */
  datatype GeometryParameters = GeometryParameters(
    wavelength: real,
    claddingWidth: real,
    claddingThickness: real,
    coreIndex: real,
    claddingIndex: real,
    x: Option<seq<real>>,
    y: Option<seq<real>>,
    mesh: nat,
    accuracy: real,
    boundary: string,
    pml: bool)

  /** An opaque mode-solver handle: either for a centred rectangular core
      (get_solver_rect) or for a precomputed transverse index profile
      (get_solver_index). */
  datatype ModeSolver =
    | RectSolver(params: GeometryParameters, width: real, thickness: real, numModes: int)
    | IndexSolver(params: GeometryParameters, thickness: real, numModes: int, n: seq<real>)
}
