/**
 * Surface material (Bodies/Material.cpp): a restitution coefficient `e` and
 * a friction coefficient `mu`.  Material is held and copied by value, so
 * its setters are modelled as functions returning the updated value.
 */
module Materials {
  import opened Settings

  datatype Material = Material(e: real, mu: real)

  /** The default constructor (Material.cpp:5-8): set(PE_default_e, PE_default_mu). */
  function DefaultMaterial(): (r: Material)
    ensures r.e == 0.0 && r.mu == 1.0
  {
    Set(Material(0.0, 0.0), DEFAULT_E, DEFAULT_MU)
  }

  /** set(e, mu) (Material.cpp:35-39), i.e. setE then setMu: the getters return the new values. */
  function Set(m: Material, e: real, mu: real): (r: Material)
    ensures r.e == e && r.mu == mu
  {
    SetMu(SetE(m, e), mu)
  }

  /** setE (Material.cpp:20-23): only `e` changes. */
  function SetE(m: Material, e: real): (r: Material)
    ensures r.e == e && r.mu == m.mu
  {
    m.(e := e)
  }

  /** setMu (Material.cpp:30-33): only `mu` changes. */
  function SetMu(m: Material, mu: real): (r: Material)
    ensures r.mu == mu && r.e == m.e
  {
    m.(mu := mu)
  }

  /**
   * mixed (Material.cpp:41-44): the material of a contact is the product of
   * the restitutions and the mean of the frictions.
   */
  function Mixed(a: Material, b: Material): (r: Material)
    ensures r.e == a.e * b.e
    ensures r.mu + r.mu == a.mu + b.mu
  {
    Material(a.e * b.e, (a.mu + b.mu) * 0.5)
  }

  /** A material with e in [0, 1] and mu >= 0. */
  predicate Physical(m: Material)
  {
    0.0 <= m.e <= 1.0 && m.mu >= 0.0
  }

  /** mixed does not depend on which side of the contact a material is on. */
  lemma MixedCommutative(a: Material, b: Material)
    ensures Mixed(a, b) == Mixed(b, a)
  {
  }

  /** Mixing two physical materials gives a physical one, between the two frictions. */
  lemma MixedPhysical(a: Material, b: Material)
    requires Physical(a) && Physical(b)
    ensures Physical(Mixed(a, b))
    ensures Min(a.mu, b.mu) <= Mixed(a, b).mu <= Max(a.mu, b.mu)
    ensures Mixed(a, b).e <= Min(a.e, b.e)
  {
    ProductNonNegative(1.0 - a.e, b.e);
    ProductNonNegative(1.0 - b.e, a.e);
    ProductNonNegative(a.e, b.e);
  }

  lemma ProductNonNegative(p: real, q: real)
    requires p >= 0.0 && q >= 0.0
    ensures p * q >= 0.0
  {
  }
}
