/** GenerateEvent's attempts and its bounded regeneration of unphysical events. */
module GenerationSpec {
  import opened Wrappers
  import opened EVGCore
  import opened XSecAlgorithmMaps
  import opened Physics
  import opened ResponsibilityChain

  /** What one attempt yields: no selected record, no responsible generator, or a processed record. */
  datatype Attempt = NotSelected | NoGenerator(selected: EventRecord) | Processed(record: EventRecord)

  /** One attempt on random draw `draw`: select an interaction, find its generator, process the record. */
  function AttemptAt(ph: Oracles, gens: seq<Generator>, m: XSecAlgorithmMap, energy: real, draw: nat): Attempt
  {
    match ph.select(m, energy, draw)
    case None => NotSelected
    case Some(rec) =>
      match FindGenerator(ph.accepts, gens, rec.interaction)
      case None => NoGenerator(rec)
      case Some(j) => Processed(ph.process(gens[j], rec, draw))
  }

  /** The attempt on `draw` produced a complete record that is unphysical. */
  predicate UnphysicalAt(ph: Oracles, gens: seq<Generator>, m: XSecAlgorithmMap, energy: real, draw: nat)
  {
    var a := AttemptAt(ph, gens, m, energy, draw);
    a.Processed? && ph.isUnphysical(a.record)
  }

  /** The result, the new depth counter, the new current record and the new stream position. */
  datatype GenerateOutcome = GenerateOutcome(
    result: Result<EventRecord, Error>,
    recLevel: nat,
    current: Option<EventRecord>,
    position: nat)

  /** GenerateEvent entered with depth counter `level` and the random stream at `draw`. */
  function Generate(ph: Oracles, gens: seq<Generator>, m: XSecAlgorithmMap, filter: bool,
                    energy: real, level: nat, draw: nat): GenerateOutcome
    decreases RecursiveModeMaxDepth - level
  {
    match AttemptAt(ph, gens, m, energy, draw)
    case NotSelected => GenerateOutcome(Err(NoInteractionSelected), level, None, draw + 1)
    case NoGenerator(rec) => GenerateOutcome(Err(NoResponsibleGenerator), level, Some(rec), draw + 1)
    case Processed(rec) =>
      if !filter then GenerateOutcome(Ok(rec), level, Some(rec), draw + 1)
      else if !ph.isUnphysical(rec) then GenerateOutcome(Ok(rec), 0, Some(rec), draw + 1)
      else if level + 1 <= RecursiveModeMaxDepth then Generate(ph, gens, m, filter, energy, level + 1, draw + 1)
      else GenerateOutcome(Err(UnphysicalRetryExhausted), level + 1, None, draw + 1)
  }

  /**
   * Attempts are bounded: a call uses at least one and, entered at depth
   * `level`, no more than kRecursiveModeMaxDepth + 1 - level draws
   * (one when `level` is already past the bound).
   */
  lemma {:induction false} GenerateAttemptsBounded(ph: Oracles, gens: seq<Generator>, m: XSecAlgorithmMap, filter: bool,
                                                   energy: real, level: nat, draw: nat)
    ensures var o := Generate(ph, gens, m, filter, energy, level, draw);
      && draw < o.position
      && o.position - draw <= (if level <= RecursiveModeMaxDepth then RecursiveModeMaxDepth + 1 - level else 1)
    decreases RecursiveModeMaxDepth - level
  {
    var a := AttemptAt(ph, gens, m, energy, draw);
    if a.Processed? && filter && ph.isUnphysical(a.record) && level + 1 <= RecursiveModeMaxDepth {
      GenerateAttemptsBounded(ph, gens, m, filter, energy, level + 1, draw + 1);
    }
  }

  /**
   * With filtering on, a returned record is physical, resets the depth to 0,
   * is the record of the last attempt, and every earlier attempt of the call
   * was a discarded unphysical record.
   */
  lemma {:induction false} GenerateOkIsPhysical(ph: Oracles, gens: seq<Generator>, m: XSecAlgorithmMap,
                                                energy: real, level: nat, draw: nat)
    ensures var o := Generate(ph, gens, m, true, energy, level, draw);
      o.result.Ok? ==>
        && draw < o.position
        && o.recLevel == 0
        && !ph.isUnphysical(o.result.value)
        && AttemptAt(ph, gens, m, energy, o.position - 1) == Processed(o.result.value)
        && o.current == Some(o.result.value)
        && (forall p :: draw <= p < o.position - 1 ==> UnphysicalAt(ph, gens, m, energy, p))
    decreases RecursiveModeMaxDepth - level
  {
    var a := AttemptAt(ph, gens, m, energy, draw);
    if a.Processed? && ph.isUnphysical(a.record) && level + 1 <= RecursiveModeMaxDepth {
      GenerateOkIsPhysical(ph, gens, m, energy, level + 1, draw + 1);
    }
  }

  /**
   * With filtering on, running out of retries means every attempt of the call
   * was unphysical, the depth ends one past the bound, and no record is kept.
   */
  lemma {:induction false} GenerateExhausted(ph: Oracles, gens: seq<Generator>, m: XSecAlgorithmMap,
                                             energy: real, level: nat, draw: nat)
    ensures var o := Generate(ph, gens, m, true, energy, level, draw);
      o.result == Err(UnphysicalRetryExhausted) ==>
        && o.recLevel == (if level <= RecursiveModeMaxDepth then RecursiveModeMaxDepth else level) + 1
        && o.recLevel - level == o.position - draw
        && o.current.None?
        && (forall p :: draw <= p < o.position ==> UnphysicalAt(ph, gens, m, energy, p))
    decreases RecursiveModeMaxDepth - level
  {
    var a := AttemptAt(ph, gens, m, energy, draw);
    if a.Processed? && ph.isUnphysical(a.record) && level + 1 <= RecursiveModeMaxDepth {
      GenerateExhausted(ph, gens, m, energy, level + 1, draw + 1);
    }
  }

  /**
   * A configuration whose every attempt is unphysical fails after exactly
   * kRecursiveModeMaxDepth + 1 - level attempts, and never returns a record.
   */
  lemma {:induction false} AlwaysUnphysicalExhausts(ph: Oracles, gens: seq<Generator>, m: XSecAlgorithmMap,
                                                    energy: real, level: nat, draw: nat)
    requires level <= RecursiveModeMaxDepth
    requires forall p :: draw <= p ==> UnphysicalAt(ph, gens, m, energy, p)
    ensures var o := Generate(ph, gens, m, true, energy, level, draw);
      && o.result == Err(UnphysicalRetryExhausted)
      && o.position - draw == RecursiveModeMaxDepth + 1 - level
    decreases RecursiveModeMaxDepth - level
  {
    assert UnphysicalAt(ph, gens, m, energy, draw);
    if level + 1 <= RecursiveModeMaxDepth {
      AlwaysUnphysicalExhausts(ph, gens, m, energy, level + 1, draw + 1);
    }
  }
}
