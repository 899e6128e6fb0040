/**
 * The interaction -> cross-section-algorithm map built for one initial state.
 * Every generator with a non-null interaction list contributes each of its
 * interactions, paired with the generator's cross-section algorithm; an
 * interaction that is already registered keeps its first algorithm.
 */
module XSecAlgorithmMaps {
  import opened Wrappers
  import opened EVGCore

  /** The registered interactions, in registration order, and the algorithm of each. */
  datatype XSecAlgorithmMap = XSecAlgorithmMap(interactions: seq<Interaction>, algOf: map<Interaction, AlgId>)

  /** The list and the map hold the same interactions, and the list has no repeats. */
  predicate WellFormed(m: XSecAlgorithmMap)
  {
    && (forall i :: i in m.interactions ==> i in m.algOf)
    && (forall i :: i in m.algOf ==> i in m.interactions)
    && (forall a, b :: 0 <= a < b < |m.interactions| ==> m.interactions[a] != m.interactions[b])
  }

  /** Some generator of `gens` lists `i` and computes its cross section with `alg`. */
  ghost predicate Produces(gens: seq<Generator>, i: Interaction, alg: AlgId)
  {
    exists j :: 0 <= j < |gens| && Lists(gens[j], i) && gens[j].xsecAlg == alg
  }

  const EmptyMap := XSecAlgorithmMap([], map[])

  /** FindXSecAlgorithm: exact-key lookup; None where the source's pointer is null. */
  function FindXSecAlgorithm(m: XSecAlgorithmMap, i: Interaction): Option<AlgId>
  {
    if i in m.algOf then Some(m.algOf[i]) else None
  }

  function Insert(m: XSecAlgorithmMap, i: Interaction, alg: AlgId): XSecAlgorithmMap
  {
    if i in m.algOf then m else XSecAlgorithmMap(m.interactions + [i], m.algOf[i := alg])
  }

  function InsertAll(m: XSecAlgorithmMap, ilst: seq<Interaction>, alg: AlgId): XSecAlgorithmMap
    decreases |ilst|
  {
    if |ilst| == 0 then m else InsertAll(Insert(m, ilst[0], alg), ilst[1..], alg)
  }

  function AddGenerator(m: XSecAlgorithmMap, g: Generator): XSecAlgorithmMap
  {
    match g.interactions
    case None => m
    case Some(ilst) => InsertAll(m, ilst, g.xsecAlg)
  }

  function AddGenerators(m: XSecAlgorithmMap, gens: seq<Generator>): XSecAlgorithmMap
    decreases |gens|
  {
    if |gens| == 0 then m else AddGenerators(AddGenerator(m, gens[0]), gens[1..])
  }

  /** BuildMap: the map for the generator list, built from scratch. */
  function BuildMap(gens: seq<Generator>): XSecAlgorithmMap
  {
    AddGenerators(EmptyMap, gens)
  }

  lemma InsertWellFormed(m: XSecAlgorithmMap, i: Interaction, alg: AlgId)
    requires WellFormed(m)
    ensures var r := Insert(m, i, alg);
      && WellFormed(r)
      && i in r.algOf
      && (i !in m.algOf ==> r.algOf[i] == alg)
      && (forall x :: x in m.algOf ==> x in r.algOf && r.algOf[x] == m.algOf[x])
      && (forall x :: x in r.algOf ==> x in m.algOf || x == i)
  {
    if i !in m.algOf {
      var r := Insert(m, i, alg);
      assert i !in m.interactions;
      forall a, b | 0 <= a < b < |r.interactions|
        ensures r.interactions[a] != r.interactions[b]
      {
        if b == |m.interactions| {
          assert r.interactions[a] == m.interactions[a];
        } else {
          assert r.interactions[a] == m.interactions[a] && r.interactions[b] == m.interactions[b];
        }
      }
    }
  }

  /** Inserting a list keeps old entries, registers every listed interaction, and gives new ones `alg`. */
  lemma {:induction false} InsertAllProps(m: XSecAlgorithmMap, ilst: seq<Interaction>, alg: AlgId)
    requires WellFormed(m)
    ensures var r := InsertAll(m, ilst, alg);
      && WellFormed(r)
      && (forall x :: x in m.algOf ==> x in r.algOf && r.algOf[x] == m.algOf[x])
      && (forall x :: x in ilst ==> x in r.algOf)
      && (forall x :: x in r.algOf && x !in m.algOf ==> x in ilst && r.algOf[x] == alg)
    decreases |ilst|
  {
    if |ilst| > 0 {
      var m1 := Insert(m, ilst[0], alg);
      InsertWellFormed(m, ilst[0], alg);
      InsertAllProps(m1, ilst[1..], alg);
      forall x | x in ilst ensures x in InsertAll(m, ilst, alg).algOf {
        if x != ilst[0] {
          assert x in ilst[1..];
        }
      }
    }
  }

  lemma {:induction false} AddGeneratorsProps(m: XSecAlgorithmMap, gens: seq<Generator>)
    requires WellFormed(m)
    ensures var r := AddGenerators(m, gens);
      && WellFormed(r)
      && (forall x :: x in m.algOf ==> x in r.algOf && r.algOf[x] == m.algOf[x])
      && (forall j, x :: 0 <= j < |gens| && Lists(gens[j], x) ==> x in r.algOf)
      && (forall x :: x in r.algOf && x !in m.algOf ==> Produces(gens, x, r.algOf[x]))
    decreases |gens|
  {
    if |gens| > 0 {
      var g := gens[0];
      var m1 := AddGenerator(m, g);
      if g.interactions.Some? {
        InsertAllProps(m, g.interactions.value, g.xsecAlg);
      }
      AddGeneratorsProps(m1, gens[1..]);
      var r := AddGenerators(m, gens);
      assert r == AddGenerators(m1, gens[1..]);
      forall j, x | 0 <= j < |gens| && Lists(gens[j], x) ensures x in r.algOf {
        if j > 0 {
          assert gens[1..][j - 1] == gens[j];
        }
      }
      forall x | x in r.algOf && x !in m.algOf ensures Produces(gens, x, r.algOf[x]) {
        if x in m1.algOf {
          assert Lists(gens[0], x) && gens[0].xsecAlg == r.algOf[x];
        } else {
          var j :| 0 <= j < |gens[1..]| && Lists(gens[1..][j], x) && gens[1..][j].xsecAlg == r.algOf[x];
          assert gens[j + 1] == gens[1..][j];
        }
      }
    }
  }

  /**
   * The map built from a generator list is well formed, registers every
   * interaction of every non-null list, and maps each registered interaction
   * to the algorithm of a generator that lists it.
   */
  lemma BuildMapSound(gens: seq<Generator>)
    ensures var m := BuildMap(gens);
      && WellFormed(m)
      && (forall j, x :: 0 <= j < |gens| && Lists(gens[j], x) ==> x in m.algOf)
      && (forall x :: x in m.algOf ==> Produces(gens, x, m.algOf[x]))
  {
    AddGeneratorsProps(EmptyMap, gens);
  }
}
