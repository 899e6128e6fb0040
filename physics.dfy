/**
 * The physics collaborators the driver calls but does not define, as functions.
 * Randomised steps take the index of the random draw they consume.
 */
module Physics {
  import opened Wrappers
  import opened EVGCore
  import opened XSecAlgorithmMaps
  import opened XSecSplines

  datatype Oracles = Oracles(
    /** XSecAlgorithmI::XSec for an interaction at a probe energy. */
    xsec: (AlgId, Interaction, real) -> real,
    /** Spline::Evaluate at an energy. */
    evaluate: (Spline, real) -> real,
    /** PhysInteractionSelector::SelectInteraction: a fresh record, or None (null). */
    select: (XSecAlgorithmMap, real, nat) -> Option<EventRecord>,
    /** Whether a generator's validity context accepts an interaction. */
    accepts: (Generator, Interaction) -> bool,
    /** EventGeneratorI::ProcessEventRecord. */
    process: (Generator, EventRecord, nat) -> EventRecord,
    /** EventRecord::IsUnphysical. */
    isUnphysical: EventRecord -> bool,
    /** pdg::IsNeutrino and pdg::IsAntiNeutrino. */
    isNeutrino: int -> bool,
    isAntiNeutrino: int -> bool)
}
