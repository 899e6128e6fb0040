/** The combined validity energy range of a generator list, and the linear knots of the sum spline. */
module EnergyRangeSpec {
  import opened Wrappers
  import opened EVGCore

  /** The running minimum of max(0.01, Emin), seeded with 9999. */
  function MinEmin(gens: seq<Generator>): real
    decreases |gens|
  {
    if |gens| == 0 then RangeMinSeed
    else MinReal(MinEmin(gens[..|gens| - 1]), FlooredEmin(gens[|gens| - 1]))
  }

  /** The running maximum of Emax, seeded with -9999. */
  function MaxEmax(gens: seq<Generator>): real
    decreases |gens|
  {
    if |gens| == 0 then RangeMaxSeed
    else MaxReal(MaxEmax(gens[..|gens| - 1]), gens[|gens| - 1].eMax)
  }

  /** ValidEnergyRange: the folded range, or an error where the source's assert fails. */
  function EnergyRange(gens: seq<Generator>): Result<Range1D, Error>
  {
    var r := Range1D(MinEmin(gens), MaxEmax(gens));
    if r.min < r.max && r.min >= 0.0 then Ok(r) else Err(EmptyEnergyRange)
  }

  lemma {:induction false} MinEminProps(gens: seq<Generator>)
    ensures EminFloor <= MinEmin(gens) <= RangeMinSeed
    ensures forall j :: 0 <= j < |gens| ==> MinEmin(gens) <= FlooredEmin(gens[j])
    ensures MinEmin(gens) == RangeMinSeed || exists j :: 0 <= j < |gens| && MinEmin(gens) == FlooredEmin(gens[j])
    decreases |gens|
  {
    if |gens| > 0 {
      var n := |gens| - 1;
      MinEminProps(gens[..n]);
      forall j | 0 <= j < n ensures gens[..n][j] == gens[j] { }
    }
  }

  lemma {:induction false} MaxEmaxProps(gens: seq<Generator>)
    ensures RangeMaxSeed <= MaxEmax(gens)
    ensures forall j :: 0 <= j < |gens| ==> gens[j].eMax <= MaxEmax(gens)
    ensures MaxEmax(gens) == RangeMaxSeed || exists j :: 0 <= j < |gens| && MaxEmax(gens) == gens[j].eMax
    decreases |gens|
  {
    if |gens| > 0 {
      var n := |gens| - 1;
      MaxEmaxProps(gens[..n]);
      forall j | 0 <= j < n ensures gens[..n][j] == gens[j] { }
    }
  }

  /**
   * A successful range is non-empty and non-negative, contains every
   * generator's [max(0.01, Emin), Emax], and its upper end is some generator's
   * Emax; its lower end is some generator's floored Emin unless all of those
   * exceed the seed 9999. An empty list always fails.
   */
  lemma EnergyRangeSound(gens: seq<Generator>)
    ensures |gens| == 0 ==> EnergyRange(gens) == Err(EmptyEnergyRange)
    ensures EnergyRange(gens).Ok? <==> MinEmin(gens) < MaxEmax(gens)
    ensures EnergyRange(gens).Ok? ==>
      var r := EnergyRange(gens).value;
      && 0.0 <= r.min < r.max
      && (forall j :: 0 <= j < |gens| ==> r.min <= FlooredEmin(gens[j]) && gens[j].eMax <= r.max)
      && (exists j :: 0 <= j < |gens| && r.max == gens[j].eMax)
      && (r.min == RangeMinSeed || exists j :: 0 <= j < |gens| && r.min == FlooredEmin(gens[j]))
  {
    MinEminProps(gens);
    MaxEmaxProps(gens);
  }

  /** Knot i of a linear sum spline: Emin + i * (Emax - Emin) / (nk - 1). */
  function LinearKnots(nk: nat, eMin: real, eMax: real): seq<real>
    requires nk >= 2
  {
    seq(nk, i => eMin + (i as real) * ((eMax - eMin) / ((nk - 1) as real)))
  }

  /** The linear knots run from Emin to Emax, strictly increasing, inside [Emin, Emax]. */
  lemma LinearKnotsShape(nk: nat, eMin: real, eMax: real)
    requires nk > 2 && eMin < eMax
    ensures var e := LinearKnots(nk, eMin, eMax);
      && |e| == nk && e[0] == eMin && e[nk - 1] == eMax
      && (forall a, b :: 0 <= a < b < nk ==> e[a] < e[b])
      && (forall a :: 0 <= a < nk ==> eMin <= e[a] <= eMax)
  {
  }
}
