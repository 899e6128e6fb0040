/**
 * The process-wide cross-section spline cache, keyed by (algorithm, interaction).
 * Its knot computation and interpolation are not modelled: a cached spline is
 * described by what it was tabulated for.
 */
module XSecSplines {
  import opened EVGCore

  datatype SplineKey = SplineKey(alg: AlgId, interaction: Interaction)

  /** A cached spline: its key, number of knots, energy range and whether knots are log-spaced. */
  datatype Spline = Spline(key: SplineKey, nKnots: nat, eMin: real, eMax: real, inLogE: bool)

  /** A spline given by its knots: energies `e` and the values `xsec` at them. */
  datatype TabulatedSpline = TabulatedSpline(e: seq<real>, xsec: seq<real>)

  class XSecSplineList {
    var useLogE: bool
    var splines: map<SplineKey, Spline>

    /** A cache holding `loaded`, e.g. splines read from an external file. */
    constructor (loaded: map<SplineKey, Spline>, logE: bool)
      ensures splines == loaded && useLogE == logE
    {
      splines := loaded;
      useLogE := logE;
    }

    /** SplineExists: identity lookup without side effects. */
    predicate SplineExists(alg: AlgId, i: Interaction)
      reads this
    {
      SplineKey(alg, i) in splines
    }

    function GetSpline(alg: AlgId, i: Interaction): Spline
      reads this
      requires SplineExists(alg, i)
    {
      splines[SplineKey(alg, i)]
    }

    method SetLogE(on: bool)
      modifies this`useLogE
      ensures useLogE == on
    {
      useLogE := on;
    }

    /** CreateSpline: stores a spline for the key, spaced as the cache's log-E flag says. */
    method CreateSpline(alg: AlgId, i: Interaction, nk: nat, eMin: real, eMax: real)
      modifies this`splines
      ensures splines == old(splines)[SplineKey(alg, i) := Spline(SplineKey(alg, i), nk, eMin, eMax, useLogE)]
    {
      var key := SplineKey(alg, i);
      splines := splines[key := Spline(key, nk, eMin, eMax, useLogE)];
    }
  }
}
