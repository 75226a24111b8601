/**
 * The join of `finalize_mapping` in scripts/finalize_mapping.py (lines
 * 47-79): census rows and ward boundary units are keyed on their normalised
 * (region, district, ward) names; census rows are deduplicated on that
 * triple; every unit is left-joined on the triple; units still without a
 * population are joined again on (region, ward) alone, against census rows
 * deduplicated on that pair; the matched units are counted.
 *
 * The reference definition, `ReferencePopulation`, says the same thing
 * without any deduplication or merge: a unit gets the first census row with
 * its triple, else the first census row with its (region, ward) pair, else
 * nothing. `FinalizeMapping` performs the source's steps and is proved to
 * agree with it.
 */
module Reconciler {
  import opened Optional
  import opened DataFrames
  import opened NameNormalizer

  /** A row of the extracted census table. */
  datatype CensusRow = CensusRow(region: string, council: string, ward: string, total: int, male: int, female: int)

  /** The name attributes of a ward boundary unit. */
  datatype GeometryUnit = GeometryUnit(regName: string, distName: string, wardName: string)

  /** The three population columns the join carries over. */
  datatype Population = Population(total: int, male: int, female: int)

  /** The normalised (region, district, ward) triple of the primary join. */
  datatype WardKey = WardKey(region: string, district: string, ward: string)

  /** The normalised (region, ward) pair of the fallback join. */
  datatype RegionWard = RegionWard(region: string, ward: string)

  /** A census row reduced to its key and population columns. */
  datatype KeyedCensus = KeyedCensus(key: WardKey, pop: Population)

  /** Lines 47-49. */
  function CensusKey(r: CensusRow): WardKey {
    WardKey(NormalizeText(r.region), NormalizeText(r.council), NormalizeText(r.ward))
  }

  /** Lines 53-55. */
  function UnitKey(u: GeometryUnit): WardKey {
    WardKey(NormalizeText(u.regName), NormalizeText(u.distName), NormalizeText(u.wardName))
  }

  function KeyedRow(r: CensusRow): KeyedCensus {
    KeyedCensus(CensusKey(r), Population(r.total, r.male, r.female))
  }

  function Keyed(census: seq<CensusRow>): (rows: seq<KeyedCensus>)
    ensures |rows| == |census|
  {
    seq(|census|, i requires 0 <= i < |census| => KeyedRow(census[i]))
  }

  function UnitKeys(units: seq<GeometryUnit>): (keys: seq<WardKey>)
    ensures |keys| == |units|
  {
    seq(|units|, i requires 0 <= i < |units| => UnitKey(units[i]))
  }

  function KeyOf(r: KeyedCensus): WardKey { r.key }

  function Pair(k: WardKey): RegionWard { RegionWard(k.region, k.ward) }

  function PairOf(r: KeyedCensus): RegionWard { Pair(r.key) }

  function SameKey(k: WardKey): WardKey { k }

  function SamePair(p: RegionWard): RegionWard { p }

  /** Line 51: one census row per triple, the first one. */
  function CensusTable(census: seq<CensusRow>): seq<KeyedCensus> {
    DedupBy(Keyed(census), KeyOf)
  }

  /** Line 68: one census row per (region, ward) pair, the first one of the deduplicated table. */
  function CensusByRegionWard(census: seq<CensusRow>): seq<KeyedCensus> {
    DedupBy(CensusTable(census), PairOf)
  }

  function PopulationOf(r: Option<KeyedCensus>): Option<Population> {
    match r
    case None => None
    case Some(row) => Some(row.pop)
  }

  /** The first census row whose triple is the unit's. */
  function PrimaryPopulation(census: seq<CensusRow>, u: GeometryUnit): Option<Population> {
    PopulationOf(FirstWithKey(Keyed(census), KeyOf, UnitKey(u)))
  }

  /** The first census row whose (region, ward) pair is the unit's. */
  function FallbackPopulation(census: seq<CensusRow>, u: GeometryUnit): Option<Population> {
    PopulationOf(FirstWithKey(Keyed(census), PairOf, Pair(UnitKey(u))))
  }

  /** What a unit ends up with: its triple's first census row, else its pair's, else nothing. */
  function ReferencePopulation(census: seq<CensusRow>, u: GeometryUnit): Option<Population> {
    var primary := PrimaryPopulation(census, u);
    if primary.Some? then primary else FallbackPopulation(census, u)
  }

  function PrimaryPopulations(census: seq<CensusRow>, units: seq<GeometryUnit>): (pops: seq<Option<Population>>)
    ensures |pops| == |units|
  {
    seq(|units|, i requires 0 <= i < |units| => PrimaryPopulation(census, units[i]))
  }

  function ReconciledPopulations(census: seq<CensusRow>, units: seq<GeometryUnit>): (pops: seq<Option<Population>>)
    ensures |pops| == |units|
  {
    seq(|units|, i requires 0 <= i < |units| => ReferencePopulation(census, units[i]))
  }

  /** `notnull().sum()` */
  function CountMatched(pops: seq<Option<Population>>): (n: nat)
    ensures n <= |pops|
  {
    if |pops| == 0 then 0
    else CountMatched(pops[..|pops| - 1]) + (if pops[|pops| - 1].Some? then 1 else 0)
  }

  /** Line 79: matched units as a percentage of all units; pandas gives no number for zero units. */
  function MatchRate(matched: nat, unitCount: nat): Option<real> {
    if unitCount == 0 then None else Some(matched as real / unitCount as real * 100.0)
  }

  // ---------------------------------------------------------------------
  // The two joins against the deduplicated tables
  // ---------------------------------------------------------------------

  /**
   * Lines 51 and 58-62: after deduplication the triples are distinct, so the
   * primary left join yields exactly one row per unit, in unit order,
   * carrying the first census row with that unit's triple.
   */
  lemma PrimaryJoinOnePerUnit(census: seq<CensusRow>, units: seq<GeometryUnit>)
    ensures KeysDistinct(CensusTable(census), KeyOf)
    ensures var merged := LeftMerge(UnitKeys(units), CensusTable(census), SameKey, KeyOf);
      |merged| == |units| &&
      forall i :: 0 <= i < |units| ==>
        merged[i].0 == UnitKey(units[i]) &&
        PopulationOf(merged[i].1) == PrimaryPopulation(census, units[i])
  {
    var keys := UnitKeys(units);
    var table := CensusTable(census);
    LeftMergeOnDistinctKeys(keys, table, SameKey, KeyOf);
    forall i | 0 <= i < |units|
      ensures FirstWithKey(table, KeyOf, keys[i]) == FirstWithKey(Keyed(census), KeyOf, UnitKey(units[i]))
    {
      FirstWithKeyAfterDedup(Keyed(census), KeyOf, KeyOf, keys[i]);
    }
  }

  /**
   * Line 68: looking a pair up in the census rows deduplicated on the pair
   * finds the first census row with that pair, in the original order.
   */
  lemma FallbackFindsFirst(census: seq<CensusRow>, p: RegionWard)
    ensures KeysDistinct(CensusByRegionWard(census), PairOf)
    ensures FirstWithKey(CensusByRegionWard(census), PairOf, p) == FirstWithKey(Keyed(census), PairOf, p)
  {
    FirstWithKeyAfterDedup(CensusTable(census), PairOf, PairOf, p);
    FirstWithKeyAfterDedup(Keyed(census), KeyOf, PairOf, p);
  }

  // ---------------------------------------------------------------------
  // The join as the source performs it
  // ---------------------------------------------------------------------

  /** Strictly increasing positions: each occurs once. */
  predicate Increasing(ps: seq<nat>) {
    forall a, b :: 0 <= a < b < |ps| ==> ps[a] < ps[b]
  }

  /** Line 65: the positions of the units without a population, in order. */
  method UnmatchedPositions(pops: seq<Option<Population>>) returns (mask: seq<nat>)
    ensures Increasing(mask)
    ensures forall j :: 0 <= j < |mask| ==> mask[j] < |pops|
    ensures forall k :: 0 <= k < |pops| ==> (pops[k].None? <==> k in mask)
    ensures |mask| == |pops| - CountMatched(pops)
  {
    mask := [];
    for i := 0 to |pops|
      invariant Increasing(mask)
      invariant forall j :: 0 <= j < |mask| ==> mask[j] < i
      invariant forall k :: 0 <= k < i ==> (pops[k].None? <==> k in mask)
      invariant |mask| == i - CountMatched(pops[..i])
    {
      assert pops[..i + 1][..i] == pops[..i];
      if pops[i].None? {
        mask := mask + [i];
      }
    }
    assert pops[..|pops|] == pops;
  }

  /** Line 76: `merged.loc[mask, cols] = values`, the j-th value going to the j-th masked position. */
  method WriteBack(pops: seq<Option<Population>>, mask: seq<nat>, values: seq<Option<Population>>)
    returns (result: seq<Option<Population>>)
    requires Increasing(mask) && |values| == |mask|
    requires forall j :: 0 <= j < |mask| ==> mask[j] < |pops|
    ensures |result| == |pops|
    ensures forall j :: 0 <= j < |mask| ==> result[mask[j]] == values[j]
    ensures forall k :: 0 <= k < |pops| && k !in mask ==> result[k] == pops[k]
  {
    result := pops;
    for j := 0 to |mask|
      invariant |result| == |pops|
      invariant forall jj :: 0 <= jj < j ==> result[mask[jj]] == values[jj]
      invariant forall k :: 0 <= k < |pops| && k !in mask[..j] ==> result[k] == pops[k]
    {
      assert mask[..j + 1] == mask[..j] + [mask[j]];
      result := result[mask[j] := values[j]];
    }
    assert mask[..|mask|] == mask;
  }

  /** Line 78: `notnull().sum()`. */
  method CountPopulated(pops: seq<Option<Population>>) returns (matched: nat)
    ensures matched == CountMatched(pops)
  {
    matched := 0;
    for i := 0 to |pops|
      invariant matched == CountMatched(pops[..i])
    {
      assert pops[..i + 1][..i] == pops[..i];
      if pops[i].Some? {
        matched := matched + 1;
      }
    }
    assert pops[..|pops|] == pops;
  }

  /** Lines 58-62: the left join of the units on their triple against the deduplicated census. */
  method PrimaryJoin(census: seq<CensusRow>, units: seq<GeometryUnit>) returns (primary: seq<Option<Population>>)
    ensures primary == PrimaryPopulations(census, units)
  {
    var merged := LeftMerge(UnitKeys(units), CensusTable(census), SameKey, KeyOf);
    PrimaryJoinOnePerUnit(census, units);
    primary := seq(|merged|, i requires 0 <= i < |merged| => PopulationOf(merged[i].1));
  }

  /**
   * Lines 67-71: the (region, ward) pairs of the masked units, left-joined
   * against the census deduplicated on the pair; one value per masked unit.
   */
  method FallbackJoin(census: seq<CensusRow>, units: seq<GeometryUnit>, mask: seq<nat>)
    returns (values: seq<Option<Population>>)
    requires forall j :: 0 <= j < |mask| ==> mask[j] < |units|
    ensures |values| == |mask|
    ensures forall j :: 0 <= j < |mask| ==> values[j] == FallbackPopulation(census, units[mask[j]])
  {
    var tempKey := seq(|mask|, j requires 0 <= j < |mask| => Pair(UnitKey(units[mask[j]])));
    var secMatches := LeftMerge(tempKey, CensusByRegionWard(census), SamePair, PairOf);
    LeftMergeFallback(census, tempKey);
    values := seq(|secMatches|, j requires 0 <= j < |secMatches| => PopulationOf(secMatches[j].1));
    forall j | 0 <= j < |mask|
      ensures values[j] == FallbackPopulation(census, units[mask[j]])
    {
      assert tempKey[j] == Pair(UnitKey(units[mask[j]]));
      assert values[j] == PopulationOf(secMatches[j].1);
    }
  }

  /**
   * Lines 47-79: the primary join, the unmatched mask, the fallback join
   * over the masked units and the positional write-back of its values, and
   * the final count and rate. `pops[i]` is the population the i-th unit ends
   * up with.
   */
  method FinalizeMapping(census: seq<CensusRow>, units: seq<GeometryUnit>)
    returns (pops: seq<Option<Population>>, unmatchedAfterPrimary: nat, matched: nat, rate: Option<real>)
    ensures pops == ReconciledPopulations(census, units)
    ensures unmatchedAfterPrimary == |units| - CountMatched(PrimaryPopulations(census, units))
    ensures matched == CountMatched(pops)
    ensures rate == MatchRate(matched, |units|)
  {
    var primary := PrimaryJoin(census, units);
    var mask := UnmatchedPositions(primary);
    unmatchedAfterPrimary := |mask|;
    var values := FallbackJoin(census, units, mask);
    pops := WriteBack(primary, mask, values);
    WriteBackReconciles(census, units, mask, values, pops);
    matched := CountPopulated(pops);
    rate := MatchRate(matched, |units|);
  }

  /**
   * Writing the fallback values into the unmatched positions, and nowhere
   * else, yields the reference populations.
   */
  lemma WriteBackReconciles(census: seq<CensusRow>, units: seq<GeometryUnit>, mask: seq<nat>,
                            values: seq<Option<Population>>, pops: seq<Option<Population>>)
    requires var primary := PrimaryPopulations(census, units);
      forall k :: 0 <= k < |units| ==> (primary[k].None? <==> k in mask)
    requires |values| == |mask| && forall j :: 0 <= j < |mask| ==> mask[j] < |units|
    requires forall j :: 0 <= j < |mask| ==> values[j] == FallbackPopulation(census, units[mask[j]])
    requires |pops| == |units|
    requires forall j :: 0 <= j < |mask| ==> pops[mask[j]] == values[j]
    requires forall k :: 0 <= k < |units| && k !in mask ==> pops[k] == PrimaryPopulations(census, units)[k]
    ensures pops == ReconciledPopulations(census, units)
  {
    forall k | 0 <= k < |units|
      ensures pops[k] == ReferencePopulation(census, units[k])
    {
      if k in mask {
        var j :| 0 <= j < |mask| && mask[j] == k;
        assert pops[k] == values[j];
      }
    }
  }

  /** The fallback merge: one row per masked unit, carrying the first census row with its pair. */
  lemma LeftMergeFallback(census: seq<CensusRow>, tempKey: seq<RegionWard>)
    ensures var sec := LeftMerge(tempKey, CensusByRegionWard(census), SamePair, PairOf);
      |sec| == |tempKey| &&
      forall j :: 0 <= j < |tempKey| ==> sec[j].1 == FirstWithKey(Keyed(census), PairOf, tempKey[j])
  {
    var byPair := CensusByRegionWard(census);
    FallbackFindsFirst(census, RegionWard("", ""));
    LeftMergeOnDistinctKeys(tempKey, byPair, SamePair, PairOf);
    forall j | 0 <= j < |tempKey|
      ensures FirstWithKey(byPair, PairOf, tempKey[j]) == FirstWithKey(Keyed(census), PairOf, tempKey[j])
    {
      FallbackFindsFirst(census, tempKey[j]);
    }
  }

  // ---------------------------------------------------------------------
  // What the join guarantees
  // ---------------------------------------------------------------------

  /** The i-th keyed census row is the i-th census row, keyed. */
  lemma KeyedAt(census: seq<CensusRow>, i: int)
    requires 0 <= i < |census|
    ensures Keyed(census)[i] == KeyedRow(census[i])
  {
  }

  /** A unit has no primary population exactly when no census row has its triple. */
  lemma PrimaryAbsentIffNoTriple(census: seq<CensusRow>, u: GeometryUnit)
    ensures PrimaryPopulation(census, u).None? <==>
      forall k :: 0 <= k < |census| ==> CensusKey(census[k]) != UnitKey(u)
  {
    var rows := Keyed(census);
    if FirstWithKey(rows, KeyOf, UnitKey(u)).Some? {
      var k :| 0 <= k < |rows| && KeyOf(rows[k]) == UnitKey(u);
      KeyedAt(census, k);
    } else {
      forall k | 0 <= k < |census|
        ensures CensusKey(census[k]) != UnitKey(u)
      {
        KeyedAt(census, k);
      }
    }
  }

  /**
   * Line 51: of several census rows normalising to a unit's triple, the
   * first one supplies its population; none means no row has the triple.
   */
  lemma PrimaryIsFirstCensusRow(census: seq<CensusRow>, u: GeometryUnit)
    ensures PrimaryPopulation(census, u).None? <==>
      forall k :: 0 <= k < |census| ==> CensusKey(census[k]) != UnitKey(u)
    ensures PrimaryPopulation(census, u).Some? ==>
      exists k :: 0 <= k < |census| && CensusKey(census[k]) == UnitKey(u) &&
        PrimaryPopulation(census, u).value == Population(census[k].total, census[k].male, census[k].female) &&
        forall e :: 0 <= e < k ==> CensusKey(census[e]) != UnitKey(u)
  {
    PrimaryAbsentIffNoTriple(census, u);
    var rows := Keyed(census);
    var r := FirstWithKey(rows, KeyOf, UnitKey(u));
    if r.Some? {
      var k :| 0 <= k < |rows| && rows[k] == r.value && KeyOf(rows[k]) == UnitKey(u) && !HasKey(rows[..k], KeyOf, UnitKey(u));
      KeyedAt(census, k);
      forall e | 0 <= e < k
        ensures CensusKey(census[e]) != UnitKey(u)
      {
        assert rows[..k][e] == rows[e];
        KeyedAt(census, e);
      }
    }
  }

  /**
   * Line 68: the fallback takes the first census row, in the extracted
   * order, whose normalised region and ward are the unit's.
   */
  lemma FallbackIsFirstCensusRow(census: seq<CensusRow>, u: GeometryUnit)
    ensures FallbackPopulation(census, u).Some? ==>
      exists k :: 0 <= k < |census| && Pair(CensusKey(census[k])) == Pair(UnitKey(u)) &&
        FallbackPopulation(census, u).value == Population(census[k].total, census[k].male, census[k].female) &&
        forall e :: 0 <= e < k ==> Pair(CensusKey(census[e])) != Pair(UnitKey(u))
  {
    var rows := Keyed(census);
    var r := FirstWithKey(rows, PairOf, Pair(UnitKey(u)));
    if r.Some? {
      var k :| 0 <= k < |rows| && rows[k] == r.value && PairOf(rows[k]) == Pair(UnitKey(u)) &&
        !HasKey(rows[..k], PairOf, Pair(UnitKey(u)));
      forall e | 0 <= e < k
        ensures Pair(CensusKey(census[e])) != Pair(UnitKey(u))
      {
        assert rows[..k][e] == rows[e];
      }
      assert rows[k] == KeyedRow(census[k]);
    }
  }

  /**
   * Lines 24 and 47-62: a unit whose district is a plain name W and a
   * census row whose council is W followed by "DISTRICT COUNCIL", with the same normalised region and ward, are joined
   * already by the primary join: the class words vanish from the key.
   */
  lemma DistrictCouncilSuffixJoins(census: seq<CensusRow>, u: GeometryUnit, k: int, w: string)
    requires 0 <= k < |census| && PlainWord(w) && w !in NameOverrides
    requires u.distName == w && census[k].council == w + " DISTRICT COUNCIL"
    requires NormalizeText(census[k].region) == NormalizeText(u.regName)
    requires NormalizeText(census[k].ward) == NormalizeText(u.wardName)
    ensures PrimaryPopulation(census, u).Some?
    ensures ReferencePopulation(census, u) == PrimaryPopulation(census, u)
  {
    ClassWordsRemoved(w);
    KeyOfUpperName(w);
    PlainWordKey(w);
    assert CensusKey(census[k]) == UnitKey(u);
    PrimaryIsFirstCensusRow(census, u);
  }

  /** Lines 65-76: the fallback pass leaves every unit matched by the primary join as it was. */
  lemma FallbackKeepsPrimaryMatches(census: seq<CensusRow>, units: seq<GeometryUnit>, i: int)
    requires 0 <= i < |units| && PrimaryPopulations(census, units)[i].Some?
    ensures ReconciledPopulations(census, units)[i] == PrimaryPopulations(census, units)[i]
  {
  }

  /**
   * Lines 65-79: a unit ends up without a population exactly when no census
   * row shares its normalised (region, ward) pair; its population is then
   * absent, not zero.
   */
  lemma UnmatchedMeansNoPair(census: seq<CensusRow>, units: seq<GeometryUnit>, i: int)
    requires 0 <= i < |units|
    ensures ReconciledPopulations(census, units)[i].None? <==>
      forall k :: 0 <= k < |census| ==> Pair(CensusKey(census[k])) != Pair(UnitKey(units[i]))
  {
    var u := units[i];
    PrimaryImpliesFallback(census, u);
    FallbackNoneMeansNoPair(census, u);
  }

  /** A census row with the unit's triple also has the unit's pair. */
  lemma PrimaryImpliesFallback(census: seq<CensusRow>, u: GeometryUnit)
    ensures PrimaryPopulation(census, u).Some? ==> FallbackPopulation(census, u).Some?
  {
    var rows := Keyed(census);
    if HasKey(rows, KeyOf, UnitKey(u)) {
      var k :| 0 <= k < |rows| && KeyOf(rows[k]) == UnitKey(u);
      assert PairOf(rows[k]) == Pair(UnitKey(u));
      assert HasKey(rows, PairOf, Pair(UnitKey(u)));
    }
  }

  /** The fallback finds nothing exactly when no census row has the unit's pair. */
  lemma FallbackNoneMeansNoPair(census: seq<CensusRow>, u: GeometryUnit)
    ensures FallbackPopulation(census, u).None? <==>
      forall k :: 0 <= k < |census| ==> Pair(CensusKey(census[k])) != Pair(UnitKey(u))
  {
    var rows := Keyed(census);
    if FirstWithKey(rows, PairOf, Pair(UnitKey(u))).Some? {
      var k :| 0 <= k < |rows| && PairOf(rows[k]) == Pair(UnitKey(u));
      assert Pair(CensusKey(census[k])) == Pair(UnitKey(u));
    } else {
      forall k | 0 <= k < |census|
        ensures Pair(CensusKey(census[k])) != Pair(UnitKey(u))
      {
        assert PairOf(rows[k]) == Pair(CensusKey(census[k]));
      }
    }
  }

  /** Counting is monotone: where one list has a population the other has one too. */
  lemma {:induction false} CountMatchedMonotone(small: seq<Option<Population>>, large: seq<Option<Population>>)
    requires |small| == |large|
    requires forall i :: 0 <= i < |small| ==> small[i].Some? ==> large[i].Some?
    ensures CountMatched(small) <= CountMatched(large)
  {
    if |small| > 0 {
      CountMatchedMonotone(small[..|small| - 1], large[..|large| - 1]);
    }
  }

  /** Line 78: the matched count after both passes is at least the count after the primary pass. */
  lemma MatchCountMonotone(census: seq<CensusRow>, units: seq<GeometryUnit>)
    ensures CountMatched(PrimaryPopulations(census, units)) <= CountMatched(ReconciledPopulations(census, units))
  {
    CountMatchedMonotone(PrimaryPopulations(census, units), ReconciledPopulations(census, units));
  }

  /** Line 79: the reported rate is a percentage. */
  lemma MatchRateBounds(matched: nat, unitCount: nat)
    requires matched <= unitCount
    ensures unitCount == 0 <==> MatchRate(matched, unitCount).None?
    ensures unitCount > 0 ==> 0.0 <= MatchRate(matched, unitCount).value <= 100.0
    ensures unitCount > 0 && matched == unitCount ==> MatchRate(matched, unitCount).value == 100.0
  {
    if unitCount > 0 {
      var q := matched as real / unitCount as real;
      assert q * unitCount as real == matched as real;
      assert q <= 1.0;
    }
  }
}
