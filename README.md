# GEVGDriver — a verified model of GENIE's per-initial-state event-generation driver

`genie::GEVGDriver` (src/EVGDrivers/GEVGDriver.cxx) drives neutrino event generation for one
initial state (probe PDG code + nuclear target). It holds a list of event generators, an
interaction → cross-section-algorithm map built from them, and a few flags: whether to use
cross-section splines (`fUseSplines`), whether to filter unphysical events (`fFilterUnphysical`),
and the regeneration depth counter (`fNRecLevel`). It also keeps the current event record
(`fCurrentRecord`) and a spline of the total cross section (`fXSecSumSpl`).

This project models that driver as the Dafny class `EVGDrivers.GEVGDriver`. The class has the
same fields, and its methods change them as the C++ methods do on every path that does not abort; where
the source stops at a failed `assert`, the model returns an error instead (see "## Left out"). The collaborators are modelled
at the level of detail the driver sees:

- `EVGCore` — interactions (identified by their canonical string), algorithm ids, initial
  states, generators (validity range `[Emin, Emax]`, an optional interaction list for the
  configured initial state, a cross-section algorithm), event records, and the driver's error
  conditions. The source's fatal `assert`s become `Err`/`Fail` results.
- `XSecAlgorithmMaps` — the interaction → algorithm map and how it is built from the generator list.
- `XSecSplines` — the process-wide spline cache `XSecSplineList`, passed to the driver as an
  object, keyed by (algorithm, interaction).
- `RandomStreams` — a small random-number stream: each generation attempt consumes one draw.
- `Physics` — the physics the driver calls but does not define, as functions: cross sections,
  spline evaluation, the interaction selector, validity-context acceptance, record processing,
  `IsUnphysical`, and the neutrino / anti-neutrino PDG tests.
- `ResponsibilityChain` — the chain of responsibility: the first generator that accepts an interaction.
- `XSecSumSpec`, `SplineFillSpec`, `EnergyRangeSpec`, `GenerationSpec` — functions that say what
  each driver loop computes, and lemmas about them.

Each loop of the driver is a Dafny `while`/`for` loop. It is proved to compute a
specification function, and the properties the driver promises are proved about those
functions. For example: cache entries are never overwritten; `UseSplines` ends true exactly when
every spline is present; `CreateSplines` leaves nothing for `UseSplines` to miss; a regenerated
event is physical and retries are bounded by `kRecursiveModeMaxDepth`.

Two behaviours of the code that the model keeps exactly as written:

- Regeneration makes up to `kRecursiveModeMaxDepth + 1` attempts, not `kRecursiveModeMaxDepth`.
  The counter is incremented first and then compared with `<=`.
- `fNRecLevel` is a field, not a per-call local. It is reset only when a physical event is
  returned, and with filtering off it is left as it is.
- The energy-range fold floors every Emin at 0.01 and is seeded with 9999 / -9999. So the lower
  end is never above 9999, and the `min >= 0` half of the check always holds.

## Model

| member | source | states |
|---|---|---|
| EVGDrivers.GEVGDriver.constructor | src/EVGDrivers/GEVGDriver.cxx:66-69 | a new driver is in the state Init sets |
| EVGDrivers.GEVGDriver.Init | src/EVGDrivers/GEVGDriver.cxx:84-120 | nothing is built, no current record, no sum spline, splines off, filtering on, depth 0 |
| EVGDrivers.GEVGDriver.Reset | src/EVGDrivers/GEVGDriver.cxx:132-136 | after a reset the driver is back in exactly the state Init sets |
| EVGDrivers.GEVGDriver.FilterUnphysical | src/EVGDrivers/GEVGDriver.cxx:76-82 | sets the filtering flag and nothing else |
| EVGDrivers.GEVGDriver.AssertIsValidInitState | src/EVGDrivers/GEVGDriver.cxx:564-572 | passes exactly when the stored probe is a neutrino or an anti-neutrino; fails with InvalidInitialState otherwise |
| EVGDrivers.GEVGDriver.BuildInitialState | src/EVGDrivers/GEVGDriver.cxx:157-165 | stores the initial state, then passes or fails as the neutrino check says |
| EVGDrivers.GEVGDriver.Configure | src/EVGDrivers/GEVGDriver.cxx:146-155 | the initial state is stored; on a valid probe the generator list is loaded and the map is rebuilt from it, leaving the driver configured; on an invalid probe it fails, the list and map are untouched and the driver is no longer configured |
| XSecAlgorithmMaps.BuildMapSound | src/EVGDrivers/GEVGDriver.cxx:183-196 | the built map lists each interaction once, registers every interaction of every non-null generator list, and maps each to the algorithm of a generator that lists it |
| ResponsibilityChain.FindGenerator | src/EVGDrivers/GEVGDriver.cxx:247-248 | returns the first generator whose validity context accepts the interaction; None exactly when no generator accepts it |
| EVGDrivers.GEVGDriver.GenerateEvent | src/EVGDrivers/GEVGDriver.cxx:216-293 | result, depth counter, current record and draws follow the retry specification; filtering off leaves the depth counter alone and makes one attempt; a result returned with filtering on is physical and resets the depth to 0; at most kRecursiveModeMaxDepth + 1 attempts |
| GenerationSpec.GenerateAttemptsBounded | src/EVGDrivers/GEVGDriver.cxx:277-287 | a call makes at least one attempt and at most kRecursiveModeMaxDepth + 1 - level |
| GenerationSpec.GenerateOkIsPhysical | src/EVGDrivers/GEVGDriver.cxx:272-292 | with filtering on, a returned record is physical, is the current record, was produced by the last attempt, and every earlier attempt was an unphysical record that was discarded; the depth counter ends at 0 |
| GenerationSpec.GenerateExhausted | src/EVGDrivers/GEVGDriver.cxx:273-287 | running out of retries means every attempt was unphysical, no record is kept, and the counter ends one past the bound, having risen once per attempt |
| GenerationSpec.AlwaysUnphysicalExhausts | src/EVGDrivers/GEVGDriver.cxx:273-287 | when every attempt is unphysical the call fails after exactly kRecursiveModeMaxDepth + 1 - level attempts |
| EVGDrivers.GEVGDriver.XSecSum | src/EVGDrivers/GEVGDriver.cxx:295-358 | returns the sum over the map's interactions of the spline value when a spline exists and splines are on, else the direct cross section; changes nothing |
| XSecSumSpec.XSecSumWithoutSplines | src/EVGDrivers/GEVGDriver.cxx:329-335 | with splines off the sum is the sum of direct cross sections, whatever the cache holds |
| XSecSumSpec.XSecSumSplinesAgree | src/EVGDrivers/GEVGDriver.cxx:329-338 | if every cached spline reproduces its algorithm at the energy, the spline-based sum equals the direct sum |
| XSecSumSpec.XSecSumNonNegative | src/EVGDrivers/GEVGDriver.cxx:302-338 | the sum is non-negative when every per-interaction cross section is |
| EVGDrivers.GEVGDriver.CreateXSecSumSpline | src/EVGDrivers/GEVGDriver.cxx:373-405 | fails without splines in use, then fails unless Emin < Emax, Emin > 0 and nk > 2, and leaves the old sum spline; otherwise replaces it with knots Emin + i(Emax-Emin)/(nk-1) and values XSecSum at each knot |
| EnergyRangeSpec.LinearKnotsShape | src/EVGDrivers/GEVGDriver.cxx:389-396 | the nk linear knots start at Emin, end at Emax, increase strictly and stay in [Emin, Emax] |
| EVGDrivers.GEVGDriver.UseSplines | src/EVGDrivers/GEVGDriver.cxx:422-460 | splines end up on exactly when every interaction of the map has a cached spline for its algorithm (no first missing one); only the flag changes |
| XSecSumSpec.FirstMissingSpline | src/EVGDrivers/GEVGDriver.cxx:437-458 | the position where UseSplines stops: the spline there is missing and every earlier one exists; None exactly when none is missing |
| EVGDrivers.GEVGDriver.CreateSplines | src/EVGDrivers/GEVGDriver.cxx:463-530 | sets the cache's log-E flag; the cache becomes the fill of the generator lists over the old one; splines end up on |
| SplineFillSpec.FillGeneratorsProps | src/EVGDrivers/GEVGDriver.cxx:480-525 | existing cache entries are unchanged; every interaction of every non-null list gets a spline for its generator's algorithm; each new spline has 40 knots over [max(0.01, Emin), Emax] of a generator that lists it; null lists add nothing |
| SplineFillSpec.FillGeneratorsIdempotent | src/EVGDrivers/GEVGDriver.cxx:513-521 | a second CreateSplines leaves the cached splines unchanged, whatever log-E flag it is given |
| SplineFillSpec.FillCompletesMap | src/EVGDrivers/GEVGDriver.cxx:422-529 | after CreateSplines, UseSplines finds no interaction of the map without a spline |
| XSecSplines.XSecSplineList.CreateSpline | src/EVGDrivers/GEVGDriver.cxx:517 | stores, under the (algorithm, interaction) key, a spline with the requested knots and range and the cache's log-E flag |
| XSecSplines.XSecSplineList.SetLogE | src/EVGDrivers/GEVGDriver.cxx:474 | sets the cache's log-E flag |
| EVGDrivers.GEVGDriver.ValidEnergyRange | src/EVGDrivers/GEVGDriver.cxx:532-562 | returns the folded range of the generators, or EmptyEnergyRange where the assert fails |
| EnergyRangeSpec.EnergyRangeSound | src/EVGDrivers/GEVGDriver.cxx:538-561 | an empty list fails; success exactly when min < max; a success is non-negative and contains each generator's [max(0.01, Emin), Emax]; its max is some generator's Emax; its min is some generator's floored Emin, or the seed 9999 |
| EnergyRangeSpec.MinEminProps | src/EVGDrivers/GEVGDriver.cxx:538-556 | the folded minimum lies in [0.01, 9999], is at most each generator's floored Emin, and is one of them or the seed |
| EnergyRangeSpec.MaxEmaxProps | src/EVGDrivers/GEVGDriver.cxx:540-557 | the folded maximum is at least -9999 and each generator's Emax, and is one of them or the seed |

## Left out

- Log-spaced knots in CreateXSecSumSpline (`inlogE`, lines 384-387 and 396) need `TMath::Log`/`Exp`, which have no exact counterpart on reals; only the linear mode is modelled.
- Floating point: energies and cross sections are Dafny `real`s, so sums are exact and independent of order.
- The `$GEVGL` lookup and the generator-list assembly through the algorithm factory (lines 167-181): Configure takes the assembled generator list as a parameter.
- The `Configure(nu_pdgc, Z, A)` overload (lines 138-144) only builds an InitialState value; the model's Configure takes that value.
- BuildResponsibilityChain and BuildInteractionSelector (lines 198-214): the chain scans the driver's generator list, and the selector is an external function.
- The sources of XSecAlgorithmMap, EGResponsibilityChain, XSecSplineList and PhysInteractionSelector are not part of this model. The map is modelled as registering each interaction once, with the first algorithm that lists it. The chain returns the first accepting generator. The cache stores what it was asked to tabulate; its knot computation and interpolation are left out. The selector's weighted random choice is an external function of the draw.
- Cross-section formulas, `ProcessEventRecord`, `IsUnphysical` and `pdg::IsNeutrino`/`IsAntiNeutrino` are external functions, not definitions.
- The process-wide random-number generator is not part of the source shown. It is modelled as a stream position that each generation attempt advances by one.
- `kRecursiveModeMaxDepth` is defined in Conventions/Controls.h, which is not part of this model; its value is taken as 100.
- In GenerateEvent, the local copy of the initial state with the probe momentum set (lines 220-221) is never used afterwards; it is left out. The probe momentum is represented by its energy.
- A generator whose interaction-list generator pointer is itself null would crash at line 491; the model has no such generator.
- GenerateEvent: after running out of retries the model's depth counter keeps the value it has when the source's `assert(false)` fires (one past the bound), and the driver can be called again from there. The source aborts at that point; compiled without assertions it would instead reach line 289, reset the counter to 0 and return the null record. Neither continuation is modelled.
- Configure: a failed neutrino check ends the call with the old generator list and map in place but the driver marked as not configured, so no operation runs on the rejected initial state. The source aborts there; compiled without assertions it would go on to rebuild the list and map from the invalid state, which is not modelled.
- Memory management (`CleanUp`, `delete` on the retry path), all `LOG`/`Print`/`operator<<` output, and ROOT's `TLorentzVector`.
- Concurrency: the driver is single-threaded.
- src/BaryonResonance/BaryonResDataPDG.h and src/BaryonResonance/BreitWignerI.h only declare accessors and an interface without behaviour.
- The `assert(xsec_alg)` checks in XSecSum and UseSplines have no error path. The model proves they cannot fail: every interaction in a map built from the generator list has an algorithm.
