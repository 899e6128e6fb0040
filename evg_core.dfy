/** The entities the event-generation driver works with, at the level of detail the driver sees. */
module EVGCore {
  import opened Wrappers

  /** An interaction, identified by its canonical string (what Interaction::AsString gives). */
  datatype Interaction = Interaction(code: string)

  /** Identity of a cross-section algorithm object. */
  datatype AlgId = AlgId(name: string)

  /** Probe PDG code and nuclear target (Z, A). */
  datatype InitialState = InitialState(probePdg: int, targetZ: int, targetA: int)

  /**
   * An event generator as the driver uses it: its key, the energy range of its
   * validity context, the interaction list its interaction-list generator
   * produces for the configured initial state (None when it returns null), and
   * its total cross-section algorithm.
   */
  datatype Generator = Generator(
    key: string,
    eMin: real,
    eMax: real,
    interactions: Option<seq<Interaction>>,
    xsecAlg: AlgId)

  /** An event record: the selected interaction, the probe energy and an opaque particle history. */
  datatype EventRecord = EventRecord(interaction: Interaction, probeEnergy: real, history: seq<int>)

  /** The driver's fatal conditions, each an `assert` that aborts in the source. */
  datatype Error =
    | InvalidInitialState       // probe is neither a neutrino nor an anti-neutrino
    | NoInteractionSelected     // the interaction selector returned no record
    | NoResponsibleGenerator    // no generator in the chain accepts the interaction
    | UnphysicalRetryExhausted  // too many unphysical events in a row
    | NoSplinesLoaded           // the cross-section sum spline needs splines
    | InvalidSplineArguments    // bad knot count or energy range
    | EmptyEnergyRange          // combined validity range is empty

  datatype Range1D = Range1D(min: real, max: real)

  /** kRecursiveModeMaxDepth: how often an unphysical event may be regenerated. */
  const RecursiveModeMaxDepth: nat := 100

  /** Number of knots of every spline CreateSplines asks for. */
  const SplineKnots: nat := 40

  /** Lower floor applied to a generator's Emin for splines and energy ranges. */
  const EminFloor: real := 0.01

  /** Seeds of the energy-range fold. */
  const RangeMinSeed: real := 9999.0
  const RangeMaxSeed: real := -9999.0

  /** TMath::Max and TMath::Min on two reals. */
  function MaxReal(a: real, b: real): real { if a >= b then a else b }
  function MinReal(a: real, b: real): real { if a <= b then a else b }

  /** The lower energy bound used for a generator: max(0.01, Emin). */
  function FlooredEmin(g: Generator): real { MaxReal(EminFloor, g.eMin) }

  /** True when generator `g` lists interaction `i` in its (non-null) interaction list. */
  predicate Lists(g: Generator, i: Interaction)
  {
    g.interactions.Some? && i in g.interactions.value
  }
}
