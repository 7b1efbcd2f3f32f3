/**
 * The whole discovery run of `discover_label_mapping.py`, from the two
 * directory listings to the report it prints: collect both tables, take the
 * shared keys (capped by `--limit`), stop when there are none, run the
 * per-sample loop, stop when nothing matched, and resolve every class id.
 */
module Discovery {

  import opened Wrappers
  import opened Text
  import opened Loaders
  import opened FilePairs
  import opened Counters
  import opened Accumulation
  import opened Finalisation

  /** What a run ends with: one of the two early messages, the `TypeError` of a
      mixed class-id table, or the discovered mapping with its statistics. */
  datatype Report =
    | NoOverlap
    | NoMatches
    | MixedClassIds
    | Discovered(filesUsed: nat, unmatchedOrig: int, unmatchedYolo: int,
                 resolutions: seq<Resolution>, mapping: map<string, string>)

  /** The shared keys of the two listings, capped by `--limit`. */
  function Keys(origEntries: seq<Entry>, yoloEntries: seq<Entry>, origSuffix: string, yoloSuffix: string,
                limit: Option<int>): seq<string>
  {
    SharedKeys(Collect(origEntries, origSuffix), Collect(yoloEntries, yoloSuffix), limit)
  }

  lemma KeysPresentIn(origFiles: map<string, string>, yoloFiles: map<string, string>, limit: Option<int>)
    ensures KeysPresent(SharedKeys(origFiles, yoloFiles, limit), origFiles, yoloFiles)
  {
    var keys := SharedKeys(origFiles, yoloFiles, limit);
    SharedKeysSound(origFiles, yoloFiles, limit);
    assert forall k :: 0 <= k < |keys| ==> keys[k] in keys;
  }

  /** The run, as a value. */
  function Discover(origEntries: seq<Entry>, yoloEntries: seq<Entry>, origSuffix: string, yoloSuffix: string,
                    limit: Option<int>, readLines: string -> seq<string>, parse: NumberParser, minIou: real): Report
  {
    var origFiles := Collect(origEntries, origSuffix);
    var yoloFiles := Collect(yoloEntries, yoloSuffix);
    var keys := SharedKeys(origFiles, yoloFiles, limit);
    if keys == [] then NoOverlap
    else
      KeysPresentIn(origFiles, yoloFiles, limit);
      var t := Accumulate(keys, origFiles, yoloFiles, readLines, parse, minIou);
      if t.counts == [] then NoMatches
      else
        AccumulateInvariant(keys, origFiles, yoloFiles, readLines, parse, minIou);
        match Finalise(t.counts)
        case MixedIds => MixedClassIds
        case Resolved(rs) => Discovered(t.filesUsed, t.unmatchedOrig, t.unmatchedYolo, rs, DiscoveredTable(rs))
  }

  /** `main` from the two listings on: the steps above, in order. */
  method DiscoverMapping(origEntries: seq<Entry>, yoloEntries: seq<Entry>, origSuffix: string, yoloSuffix: string,
                         limit: Option<int>, readLines: string -> seq<string>, parse: NumberParser, minIou: real)
    returns (report: Report)
    ensures report == Discover(origEntries, yoloEntries, origSuffix, yoloSuffix, limit, readLines, parse, minIou)
  {
    var origFiles, _ := CollectLabelFiles(origEntries, origSuffix);
    var yoloFiles, _ := CollectLabelFiles(yoloEntries, yoloSuffix);
    var sharedKeys := SharedKeys(origFiles, yoloFiles, limit);
    if sharedKeys == [] {
      return NoOverlap;
    }
    KeysPresentIn(origFiles, yoloFiles, limit);
    var mappingCounts, unmatchedOrigTotal, unmatchedYoloTotal, filesUsed :=
      AccumulateCounts(sharedKeys, origFiles, yoloFiles, readLines, parse, minIou);
    if mappingCounts == [] {
      return NoMatches;
    }
    var outcome, discovered := ResolveMappings(mappingCounts);
    if outcome.MixedIds? {
      return MixedClassIds;
    }
    report := Discovered(filesUsed, unmatchedOrigTotal, unmatchedYoloTotal, outcome.resolutions, discovered);
  }

  /** The run stops with "no overlap" exactly when there is no shared key; without
      a cap, or with a non-negative one, exactly when the two listings have no key
      in common. */
  lemma DiscoverNoOverlap(origEntries: seq<Entry>, yoloEntries: seq<Entry>, origSuffix: string, yoloSuffix: string,
                          limit: Option<int>, readLines: string -> seq<string>, parse: NumberParser, minIou: real)
    ensures var keys := Keys(origEntries, yoloEntries, origSuffix, yoloSuffix, limit);
      var report := Discover(origEntries, yoloEntries, origSuffix, yoloSuffix, limit, readLines, parse, minIou);
      (report == NoOverlap <==> keys == []) &&
      (limit == None || limit.value >= 0 ==>
        (keys == [] <==> Collect(origEntries, origSuffix).Keys * Collect(yoloEntries, yoloSuffix).Keys == {}))
  {
    NoSharedKeys(Collect(origEntries, origSuffix), Collect(yoloEntries, yoloSuffix), limit);
  }

  /** With shared keys, the run stops with "no matches" exactly when no pair of
      boxes matched in any of the paired files. */
  lemma DiscoverNoMatches(origEntries: seq<Entry>, yoloEntries: seq<Entry>, origSuffix: string, yoloSuffix: string,
                          limit: Option<int>, readLines: string -> seq<string>, parse: NumberParser, minIou: real)
    ensures var keys := Keys(origEntries, yoloEntries, origSuffix, yoloSuffix, limit);
      KeysPresent(keys, Collect(origEntries, origSuffix), Collect(yoloEntries, yoloSuffix)) &&
      (keys != [] ==>
      (Discover(origEntries, yoloEntries, origSuffix, yoloSuffix, limit, readLines, parse, minIou) == NoMatches <==>
        MatchesAcross(keys, Collect(origEntries, origSuffix), Collect(yoloEntries, yoloSuffix), readLines, parse, minIou) == 0))
  {
    var origFiles := Collect(origEntries, origSuffix);
    var yoloFiles := Collect(yoloEntries, yoloSuffix);
    var keys := SharedKeys(origFiles, yoloFiles, limit);
    KeysPresentIn(origFiles, yoloFiles, limit);
    AccumulateInvariant(keys, origFiles, yoloFiles, readLines, parse, minIou);
    AccumulateTotal(keys, origFiles, yoloFiles, readLines, parse, minIou);
    EmptyTableCountsNothing(Accumulate(keys, origFiles, yoloFiles, readLines, parse, minIou).counts);
  }

  /** The run ends with a discovered mapping exactly when keys are shared,
      something was counted and finalisation succeeds; the report then holds
      that run's statistics, resolutions and table. */
  lemma DiscoveredFrom(origEntries: seq<Entry>, yoloEntries: seq<Entry>, origSuffix: string, yoloSuffix: string,
                       limit: Option<int>, readLines: string -> seq<string>, parse: NumberParser, minIou: real)
    ensures var origFiles := Collect(origEntries, origSuffix);
      var yoloFiles := Collect(yoloEntries, yoloSuffix);
      var keys := Keys(origEntries, yoloEntries, origSuffix, yoloSuffix, limit);
      KeysPresent(keys, origFiles, yoloFiles) &&
      var t := Accumulate(keys, origFiles, yoloFiles, readLines, parse, minIou);
      ValidCounts(t.counts) &&
      (Discover(origEntries, yoloEntries, origSuffix, yoloSuffix, limit, readLines, parse, minIou).Discovered? <==>
        keys != [] && t.counts != [] && Finalise(t.counts).Resolved?) &&
      (Discover(origEntries, yoloEntries, origSuffix, yoloSuffix, limit, readLines, parse, minIou).Discovered? ==>
        Discover(origEntries, yoloEntries, origSuffix, yoloSuffix, limit, readLines, parse, minIou) ==
          Discovered(t.filesUsed, t.unmatchedOrig, t.unmatchedYolo, Finalise(t.counts).resolutions,
                     DiscoveredTable(Finalise(t.counts).resolutions)))
  {
    var origFiles := Collect(origEntries, origSuffix);
    var yoloFiles := Collect(yoloEntries, yoloSuffix);
    var keys := SharedKeys(origFiles, yoloFiles, limit);
    KeysPresentIn(origFiles, yoloFiles, limit);
    AccumulateInvariant(keys, origFiles, yoloFiles, readLines, parse, minIou);
  }

  /** A discovered mapping's statistics are consistent: no negative unmatched
      total, no more files than shared keys, and at least one class id. */
  lemma DiscoverStatistics(origEntries: seq<Entry>, yoloEntries: seq<Entry>, origSuffix: string, yoloSuffix: string,
                           limit: Option<int>, readLines: string -> seq<string>, parse: NumberParser, minIou: real)
    ensures var report := Discover(origEntries, yoloEntries, origSuffix, yoloSuffix, limit, readLines, parse, minIou);
      report.Discovered? ==>
        report.unmatchedOrig >= 0 && report.unmatchedYolo >= 0 &&
        report.filesUsed <= |Keys(origEntries, yoloEntries, origSuffix, yoloSuffix, limit)| &&
        report.resolutions != []
  {
    DiscoveredFrom(origEntries, yoloEntries, origSuffix, yoloSuffix, limit, readLines, parse, minIou);
    var origFiles := Collect(origEntries, origSuffix);
    var yoloFiles := Collect(yoloEntries, yoloSuffix);
    var keys := SharedKeys(origFiles, yoloFiles, limit);
    AccumulateInvariant(keys, origFiles, yoloFiles, readLines, parse, minIou);
    var mc := Accumulate(keys, origFiles, yoloFiles, readLines, parse, minIou).counts;
    if Finalise(mc).Resolved? {
      FinaliseResolved(mc);
    }
  }

  /** Every resolution of a discovered mapping has a positive top count within
      its total and a confidence in (0, 1], and the JSON table maps exactly the
      resolved class ids, each to a label resolved for it. */
  lemma DiscoverResolutions(origEntries: seq<Entry>, yoloEntries: seq<Entry>, origSuffix: string, yoloSuffix: string,
                            limit: Option<int>, readLines: string -> seq<string>, parse: NumberParser, minIou: real)
    ensures var report := Discover(origEntries, yoloEntries, origSuffix, yoloSuffix, limit, readLines, parse, minIou);
      report.Discovered? ==>
        (forall i :: 0 <= i < |report.resolutions| ==>
          var r := report.resolutions[i];
          0 < r.topCount <= r.total && 0.0 < Confidence(r) <= 1.0) &&
        (forall i :: 0 <= i < |report.resolutions| ==> report.resolutions[i].classId in report.mapping) &&
        (forall id :: id in report.mapping ==>
          exists i :: 0 <= i < |report.resolutions| &&
            report.resolutions[i].classId == id && report.mapping[id] == report.resolutions[i].name)
  {
    DiscoveredFrom(origEntries, yoloEntries, origSuffix, yoloSuffix, limit, readLines, parse, minIou);
    var origFiles := Collect(origEntries, origSuffix);
    var yoloFiles := Collect(yoloEntries, yoloSuffix);
    var keys := SharedKeys(origFiles, yoloFiles, limit);
    var mc := Accumulate(keys, origFiles, yoloFiles, readLines, parse, minIou).counts;
    if Finalise(mc).Resolved? {
      FinaliseConfident(mc);
      DiscoveredEntries(Finalise(mc).resolutions);
    }
  }

}
