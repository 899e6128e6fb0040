/** GEVGDriver: the event-generation driver for one initial state. */
module EVGDrivers {
  import opened Wrappers
  import opened EVGCore
  import opened XSecAlgorithmMaps
  import opened XSecSplines
  import opened RandomStreams
  import opened Physics
  import opened ResponsibilityChain
  import opened XSecSumSpec
  import opened SplineFillSpec
  import opened EnergyRangeSpec
  import opened GenerationSpec

  /** The initial state is acceptable: its probe is a neutrino or an anti-neutrino. */
  predicate IsValidInitState(ph: Oracles, s: InitialState)
  {
    ph.isNeutrino(s.probePdg) || ph.isAntiNeutrino(s.probePdg)
  }

  class GEVGDriver {
    var initState: Option<InitialState>
    var currentRecord: Option<EventRecord>
    var genList: Option<seq<Generator>>
    var xsecMap: Option<XSecAlgorithmMap>
    var xsecSumSpl: Option<TabulatedSpline>
    var useSplines: bool
    var filterUnphysical: bool
    var nRecLevel: nat
    /** The stored initial state passed the neutrino check. */
    ghost var validProbe: bool

    /** The state Init leaves: nothing built, splines off, filtering on, depth 0. */
    ghost predicate Initialized()
      reads this
    {
      && initState.None? && currentRecord.None? && genList.None? && xsecMap.None? && xsecSumSpl.None?
      && !useSplines && filterUnphysical && nRecLevel == 0 && !validProbe
    }

    /** Configure has run: a valid initial state is stored, the generator list is loaded and the map was built from it. */
    ghost predicate Configured()
      reads this
    {
      && initState.Some? && validProbe && genList.Some?
      && xsecMap == Some(BuildMap(genList.value))
      && WellFormed(xsecMap.value)
    }

    constructor ()
      ensures Initialized()
    {
      new;
      Init();
    }

    method Init()
      modifies this
      ensures Initialized()
    {
      initState := None;
      currentRecord := None;
      genList := None;
      xsecMap := None;
      useSplines := false;
      nRecLevel := 0;
      xsecSumSpl := None;
      filterUnphysical := true;
      validProbe := false;
    }

    /** Reset: drop everything built and return to the defaults of Init. */
    method Reset()
      modifies this
      ensures Initialized()
    {
      Init();
    }

    method FilterUnphysical(on: bool)
      modifies this`filterUnphysical
      ensures filterUnphysical == on
    {
      filterUnphysical := on;
    }

    /** AssertIsValidInitState: fails unless the stored probe is a neutrino or anti-neutrino. */
    method AssertIsValidInitState(ph: Oracles) returns (r: Outcome<Error>)
      requires initState.Some?
      ensures r.Pass? <==> ph.isNeutrino(initState.value.probePdg) || ph.isAntiNeutrino(initState.value.probePdg)
      ensures r.Fail? ==> r.error == InvalidInitialState
    {
      var pdg := initState.value.probePdg;
      var isNu := ph.isNeutrino(pdg) || ph.isAntiNeutrino(pdg);
      r := if isNu then Pass else Fail(InvalidInitialState);
    }

    /** BuildInitialState: store a copy of the initial state, then check it. */
    method BuildInitialState(ph: Oracles, s: InitialState) returns (r: Outcome<Error>)
      modifies this`initState, this`validProbe
      ensures initState == Some(s)
      ensures r == if IsValidInitState(ph, s) then Pass else Fail(InvalidInitialState)
      ensures validProbe == r.Pass?
    {
      initState := Some(s);
      r := AssertIsValidInitState(ph);
      validProbe := r.Pass?;
    }

    /**
     * Configure: store and check the initial state, load the generator list
     * and rebuild the interaction -> algorithm map; on an invalid initial
     * state nothing after the check happens and the driver is no longer
     * configured.
     */
    method Configure(ph: Oracles, s: InitialState, gens: seq<Generator>) returns (r: Outcome<Error>)
      modifies this`initState, this`validProbe, this`genList, this`xsecMap
      ensures initState == Some(s)
      ensures r == if IsValidInitState(ph, s) then Pass else Fail(InvalidInitialState)
      ensures r.Pass? ==> genList == Some(gens) && xsecMap == Some(BuildMap(gens)) && Configured()
      ensures r.Fail? ==> genList == old(genList) && xsecMap == old(xsecMap) && !Configured()
    {
      r := BuildInitialState(ph, s);
      if r.Fail? {
        return;
      }
      genList := Some(gens);
      xsecMap := Some(BuildMap(gens));
      BuildMapSound(gens);
    }

    /**
     * GenerateEvent: select an interaction, find its generator, process the
     * record; with filtering on, discard an unphysical record and regenerate
     * while the depth counter stays within kRecursiveModeMaxDepth.
     */
    method GenerateEvent(ph: Oracles, rnd: RandomStream, energy: real) returns (r: Result<EventRecord, Error>)
      requires Configured()
      modifies this`currentRecord, this`nRecLevel, rnd
      ensures GenerateOutcome(r, nRecLevel, currentRecord, rnd.position)
              == Generate(ph, genList.value, xsecMap.value, filterUnphysical, energy, old(nRecLevel), old(rnd.position))
      ensures !filterUnphysical ==> nRecLevel == old(nRecLevel) && rnd.position == old(rnd.position) + 1
      ensures filterUnphysical && r.Ok? ==> nRecLevel == 0 && !ph.isUnphysical(r.value)
      ensures old(nRecLevel) <= RecursiveModeMaxDepth ==> rnd.position - old(rnd.position) <= RecursiveModeMaxDepth + 1
      decreases RecursiveModeMaxDepth - nRecLevel
    {
      ghost var level0, draw0 := nRecLevel, rnd.position;
      GenerateAttemptsBounded(ph, genList.value, xsecMap.value, filterUnphysical, energy, level0, draw0);
      GenerateOkIsPhysical(ph, genList.value, xsecMap.value, energy, level0, draw0);
      var draw := rnd.Draw();
      var selected := ph.select(xsecMap.value, energy, draw);
      currentRecord := selected;
      if selected.None? {
        return Err(NoInteractionSelected);
      }
      var gi := FindGenerator(ph.accepts, genList.value, selected.value.interaction);
      if gi.None? {
        return Err(NoResponsibleGenerator);
      }
      var rec := ph.process(genList.value[gi.value], selected.value, draw);
      currentRecord := Some(rec);
      if !filterUnphysical {
        return Ok(rec);
      }
      if ph.isUnphysical(rec) {
        currentRecord := None;
        nRecLevel := nRecLevel + 1;
        if nRecLevel <= RecursiveModeMaxDepth {
          r := GenerateEvent(ph, rnd, energy);
          return;
        } else {
          return Err(UnphysicalRetryExhausted);
        }
      }
      nRecLevel := 0;
      return Ok(rec);
    }

    /** XSecSum: the sum over the map's interactions of the spline-or-direct cross section at `energy`. */
    method XSecSum(ph: Oracles, cache: XSecSplineList, energy: real) returns (sum: real)
      requires Configured()
      ensures sum == XSecSumOver(ph, xsecMap.value, cache.splines, useSplines, xsecMap.value.interactions, energy)
    {
      var m := xsecMap.value;
      var ilst := m.interactions;
      sum := 0.0;
      var k := 0;
      while k < |ilst|
        invariant 0 <= k <= |ilst|
        invariant sum == XSecSumOver(ph, m, cache.splines, useSplines, ilst[..k], energy)
      {
        var interaction := ilst[k];
        var alg := FindXSecAlgorithm(m, interaction).value;
        var xsec: real;
        var splineExists := cache.SplineExists(alg, interaction);
        if splineExists && useSplines {
          xsec := ph.evaluate(cache.GetSpline(alg, interaction), energy);
        } else {
          xsec := ph.xsec(alg, interaction, energy);
        }
        sum := sum + xsec;
        assert ilst[..k + 1][..k] == ilst[..k];
        k := k + 1;
      }
      assert ilst[..k] == ilst;
    }

    /**
     * CreateXSecSumSpline (linear knots): requires splines in use and
     * Emin < Emax, Emin > 0, nk > 2; tabulates XSecSum at the knots and
     * replaces the previous sum spline.
     */
    method CreateXSecSumSpline(ph: Oracles, cache: XSecSplineList, nk: int, eMin: real, eMax: real) returns (r: Outcome<Error>)
      requires Configured()
      modifies this`xsecSumSpl
      ensures r == if !useSplines then Fail(NoSplinesLoaded)
                   else if !(eMin < eMax && eMin > 0.0 && nk > 2) then Fail(InvalidSplineArguments)
                   else Pass
      ensures r.Fail? ==> xsecSumSpl == old(xsecSumSpl)
      ensures r.Pass? ==>
        && xsecSumSpl.Some?
        && xsecSumSpl.value.e == LinearKnots(nk, eMin, eMax)
        && |xsecSumSpl.value.xsec| == nk
        && forall i :: 0 <= i < nk ==>
             xsecSumSpl.value.xsec[i]
             == XSecSumOver(ph, xsecMap.value, cache.splines, useSplines, xsecMap.value.interactions, xsecSumSpl.value.e[i])
    {
      if !useSplines {
        return Fail(NoSplinesLoaded);
      }
      if !(eMin < eMax && eMin > 0.0 && nk > 2) {
        return Fail(InvalidSplineArguments);
      }
      var e := new real[nk];
      var xsec := new real[nk];
      var dE := (eMax - eMin) / ((nk - 1) as real);
      for i := 0 to nk
        invariant forall j :: 0 <= j < i ==> e[j] == LinearKnots(nk, eMin, eMax)[j]
        invariant forall j :: 0 <= j < i ==>
          xsec[j] == XSecSumOver(ph, xsecMap.value, cache.splines, useSplines, xsecMap.value.interactions, e[j])
      {
        var energy := eMin + (i as real) * dE;
        var xs := XSecSum(ph, cache, energy);
        e[i] := energy;
        xsec[i] := xs;
      }
      xsecSumSpl := Some(TabulatedSpline(e[..], xsec[..]));
      r := Pass;
    }

    /**
     * UseSplines: turn splines on only if every interaction of the map has a
     * cached spline for its algorithm; stop at the first missing one.
     */
    method UseSplines(cache: XSecSplineList)
      requires Configured()
      modifies this`useSplines
      ensures useSplines == FirstMissingSpline(xsecMap.value, cache.splines, xsecMap.value.interactions).None?
      ensures useSplines <==> forall i :: i in xsecMap.value.interactions ==> KeyOf(xsecMap.value, i) in cache.splines
    {
      useSplines := true;
      var m := xsecMap.value;
      var ilst := m.interactions;
      var k := 0;
      while k < |ilst|
        invariant 0 <= k <= |ilst|
        invariant useSplines
        invariant forall j :: 0 <= j < k ==> KeyOf(m, ilst[j]) in cache.splines
      {
        var interaction := ilst[k];
        var alg := FindXSecAlgorithm(m, interaction).value;
        var splExists := cache.SplineExists(alg, interaction);
        useSplines := useSplines && splExists;
        if !splExists {
          ghost var first := FirstMissingSpline(m, cache.splines, ilst);
          assert first.Some? && first.value >= k;
          return;
        }
        k := k + 1;
      }
    }

    /**
     * CreateSplines: for every generator with a non-null interaction list,
     * create each missing spline (40 knots over the generator's validity
     * range, Emin floored at 0.01); existing splines are skipped; splines are
     * then in use.
     */
    method CreateSplines(cache: XSecSplineList, useLogE: bool)
      requires Configured()
      modifies this`useSplines, cache
      ensures cache.useLogE == useLogE
      ensures cache.splines == FillGenerators(old(cache.splines), genList.value, useLogE)
      ensures useSplines
    {
      cache.SetLogE(useLogE);
      var gens := genList.value;
      var k := 0;
      while k < |gens|
        invariant 0 <= k <= |gens|
        invariant cache.useLogE == useLogE
        invariant cache.splines == FillGenerators(old(cache.splines), gens[..k], useLogE)
      {
        var evgen := gens[k];
        assert gens[..k + 1][..k] == gens[..k];
        if evgen.interactions.Some? {
          var ilst := evgen.interactions.value;
          var alg := evgen.xsecAlg;
          var eMin := FlooredEmin(evgen);
          var eMax := evgen.eMax;
          ghost var before := cache.splines;
          var n := 0;
          while n < |ilst|
            invariant 0 <= n <= |ilst|
            invariant cache.useLogE == useLogE
            invariant cache.splines == FillList(before, evgen, ilst[..n], useLogE)
          {
            var interaction := ilst[n];
            var splExists := cache.SplineExists(alg, interaction);
            if !splExists {
              cache.CreateSpline(alg, interaction, SplineKnots, eMin, eMax);
            }
            assert ilst[..n + 1][..n] == ilst[..n];
            n := n + 1;
          }
          assert ilst[..n] == ilst;
        }
        k := k + 1;
      }
      assert gens[..k] == gens;
      useSplines := true;
    }

    /** ValidEnergyRange: the fold of the generators' validity ranges, checked non-empty and non-negative. */
    method ValidEnergyRange() returns (r: Result<Range1D, Error>)
      requires genList.Some?
      ensures r == EnergyRange(genList.value)
    {
      var gens := genList.value;
      var eMinAll := RangeMinSeed;
      var eMaxAll := RangeMaxSeed;
      for k := 0 to |gens|
        invariant eMinAll == MinEmin(gens[..k])
        invariant eMaxAll == MaxEmax(gens[..k])
      {
        assert gens[..k + 1][..k] == gens[..k];
        var eMin := FlooredEmin(gens[k]);
        var eMax := gens[k].eMax;
        eMinAll := MinReal(eMinAll, eMin);
        eMaxAll := MaxReal(eMaxAll, eMax);
      }
      assert gens[..|gens|] == gens;
      if eMinAll < eMaxAll && eMinAll >= 0.0 {
        r := Ok(Range1D(eMinAll, eMaxAll));
      } else {
        r := Err(EmptyEnergyRange);
      }
    }
  }
}
