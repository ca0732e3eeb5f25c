/** Engine-wide constants (Settings.h and the macros at the top of Vector2.h). */
module Settings {
  /** PE_EPSf: the tolerance used by every approximate comparison. */
  const EPS: real := 0.0005
  /** PE_EPSf_SQUARE. */
  const EPS_SQUARE: real := EPS * EPS
  /** PE_MAXNUMBERf, the largest finite single-precision float, used as a sentinel. */
  const MAX_NUMBER: real := 340282346638528859811704183484516925440.0
  /** PE_MINNUMBERf. */
  const MIN_NUMBER: real := -MAX_NUMBER

  /** PE_MAIN_DEPTH: penetration that the solver deliberately leaves in place. */
  const MAIN_DEPTH: real := 0.01
  /** PE_EPS_forContact: how close two contact points must be to be the same contact. */
  const EPS_FOR_CONTACT: real := 0.1
  /** PE_MaxCountContactManifoldPoints. */
  const MAX_MANIFOLD_POINTS: nat := 4
  /** PE_MaxCountTempCMPoint: capacity of the candidate-point buffer. */
  const MAX_TEMP_POINTS: nat := 100
  /** PE_DefaultEpsilonConvexHull. */
  const CONVEX_HULL_EPS: real := 0.01

  /** Body defaults (PE_default_mass, PE_default_inertia, PE_default_e, PE_default_mu). */
  const DEFAULT_MASS: real := 1.0
  const DEFAULT_INERTIA: real := 1.0
  const DEFAULT_E: real := 0.0
  const DEFAULT_MU: real := 1.0

  /** std::fabs. */
  function Abs(a: real): (r: real)
    ensures r >= 0.0 && (r == a || r == -a)
  {
    if a < 0.0 then -a else a
  }

  /** std::min / std::max / fmin / fmax on two reals. */
  function Min(a: real, b: real): (r: real)
    ensures r <= a && r <= b && (r == a || r == b)
  {
    if b < a then b else a
  }

  function Max(a: real, b: real): (r: real)
    ensures r >= a && r >= b && (r == a || r == b)
  {
    if a < b then b else a
  }

  datatype Option<T> = None | Some(value: T)
}
