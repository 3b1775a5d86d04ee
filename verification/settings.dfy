/**
 * The global switches of the meshing demos (settings.py). In the model they
 * are passed around as one `Settings` value instead of being read from a
 * module-level global.
 */
module Settings {

  datatype Settings = Settings(
    adaptive: bool,      // place vertices by interpolation / QEF instead of at midpoints
    clip: bool,          // clamp the dual-contouring vertex into its cell
    boundary: bool,      // constrain the QEF minimisation to the cell
    bias: bool,          // add weak pulls towards the mass point
    biasStrength: real)  // length of the bias normals

  /** The values settings.py ships with. */
  const Defaults := Settings(adaptive := true, clip := false, boundary := true, bias := true, biasStrength := 0.01)

  /** The default evaluation bounds. */
  const XMin := -3
  const XMax := 3
  const YMin := -3
  const YMax := 3
  const ZMin := -3
  const ZMax := 3
}
