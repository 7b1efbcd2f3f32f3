/**
 * The per-sample loop of `discover_label_mapping.py`: for every shared key,
 * load both annotation files, skip the sample when either side has no boxes,
 * match the boxes, add up the boxes left unmatched on each side and count
 * every match under its (class id, label). Reading a file is the parameter
 * `readLines`, which gives the lines of the file at a path.
 */
module Accumulation {

  import opened Wrappers
  import opened Text
  import opened Loaders
  import opened Matching
  import opened FilePairs
  import opened Counters

  /** The running state of the per-sample loop. */
  datatype Tally = Tally(counts: seq<ClassCounts>, unmatchedOrig: int, unmatchedYolo: int, filesUsed: nat)

  predicate PairsInRange(ms: seq<Pair>, origBoxes: seq<BoxRecord>, yoloBoxes: seq<ClassBox>)
  {
    forall k :: 0 <= k < |ms| ==> ms[k].o < |origBoxes| && ms[k].y < |yoloBoxes|
  }

  /** Counts the accepted matches of one sample, in order, under (class id, label). */
  function CountMatches(mc: seq<ClassCounts>, origBoxes: seq<BoxRecord>, yoloBoxes: seq<ClassBox>, ms: seq<Pair>): seq<ClassCounts>
    requires PairsInRange(ms, origBoxes, yoloBoxes)
  {
    if ms == [] then mc
    else
      var p := ms[|ms| - 1];
      AddMatch(CountMatches(mc, origBoxes, yoloBoxes, ms[..|ms| - 1]), yoloBoxes[p.y].classId, origBoxes[p.o].name)
  }

  lemma MatchInRange(origBoxes: seq<BoxRecord>, yoloBoxes: seq<ClassBox>, minIou: real)
    ensures PairsInRange(Match(origBoxes, yoloBoxes, minIou), origBoxes, yoloBoxes)
    ensures OneToOne(Match(origBoxes, yoloBoxes, minIou))
  {
    var ms := Match(origBoxes, yoloBoxes, minIou);
    MatchSound(origBoxes, yoloBoxes, minIou);
    assert forall k :: 0 <= k < |ms| ==> ms[k] in ms;
  }

  /** One pass of the loop body for a sample whose two files gave these boxes. */
  function SampleStep(t: Tally, origBoxes: seq<BoxRecord>, yoloBoxes: seq<ClassBox>, minIou: real): Tally
  {
    if origBoxes == [] || yoloBoxes == [] then t
    else
      var ms := Match(origBoxes, yoloBoxes, minIou);
      MatchInRange(origBoxes, yoloBoxes, minIou);
      Tally(CountMatches(t.counts, origBoxes, yoloBoxes, ms),
            t.unmatchedOrig + |origBoxes| - |Origs(ms)|,
            t.unmatchedYolo + |yoloBoxes| - |Yolos(ms)|,
            t.filesUsed + 1)
  }

  lemma SampleStepUnfold(t: Tally, origBoxes: seq<BoxRecord>, yoloBoxes: seq<ClassBox>, minIou: real)
    requires origBoxes != [] && yoloBoxes != []
    ensures PairsInRange(Match(origBoxes, yoloBoxes, minIou), origBoxes, yoloBoxes)
    ensures SampleStep(t, origBoxes, yoloBoxes, minIou) ==
      var ms := Match(origBoxes, yoloBoxes, minIou);
      Tally(CountMatches(t.counts, origBoxes, yoloBoxes, ms), t.unmatchedOrig + |origBoxes| - |Origs(ms)|,
            t.unmatchedYolo + |yoloBoxes| - |Yolos(ms)|, t.filesUsed + 1)
  {
    MatchInRange(origBoxes, yoloBoxes, minIou);
  }

  function OrigBoxesOf(path: string, readLines: string -> seq<string>, parse: NumberParser): seq<BoxRecord>
  {
    Kept(OriginalResults(readLines(path), parse))
  }

  function YoloBoxesOf(path: string, readLines: string -> seq<string>, parse: NumberParser): seq<ClassBox>
  {
    Kept(YoloResults(readLines(path), parse))
  }

  predicate KeysPresent(keys: seq<string>, origFiles: map<string, string>, yoloFiles: map<string, string>)
  {
    forall k :: 0 <= k < |keys| ==> keys[k] in origFiles && keys[k] in yoloFiles
  }

  /** The loop over the shared keys, as a value. */
  function Accumulate(keys: seq<string>, origFiles: map<string, string>, yoloFiles: map<string, string>,
                      readLines: string -> seq<string>, parse: NumberParser, minIou: real): Tally
    requires KeysPresent(keys, origFiles, yoloFiles)
  {
    if keys == [] then Tally([], 0, 0, 0)
    else
      var base := keys[|keys| - 1];
      SampleStep(Accumulate(keys[..|keys| - 1], origFiles, yoloFiles, readLines, parse, minIou),
                 OrigBoxesOf(origFiles[base], readLines, parse),
                 YoloBoxesOf(yoloFiles[base], readLines, parse), minIou)
  }

  /** Number of accepted matches of `ms` that pair a box of class `classId` with label `name`. */
  function PairsLabelled(ms: seq<Pair>, origBoxes: seq<BoxRecord>, yoloBoxes: seq<ClassBox>, classId: string, name: string): nat
    requires PairsInRange(ms, origBoxes, yoloBoxes)
  {
    if ms == [] then 0
    else
      var p := ms[|ms| - 1];
      PairsLabelled(ms[..|ms| - 1], origBoxes, yoloBoxes, classId, name) +
        (if yoloBoxes[p.y].classId == classId && origBoxes[p.o].name == name then 1 else 0)
  }

  /** Counting one sample's matches raises each (class id, label) count by the
      number of matches that pair them, and the total by the number of matches. */
  lemma {:induction false} CountMatchesConserves(mc: seq<ClassCounts>, origBoxes: seq<BoxRecord>, yoloBoxes: seq<ClassBox>, ms: seq<Pair>)
    requires PairsInRange(ms, origBoxes, yoloBoxes)
    ensures TotalCount(CountMatches(mc, origBoxes, yoloBoxes, ms)) == TotalCount(mc) + |ms|
    ensures forall cid, name :: CountOf(CounterOf(CountMatches(mc, origBoxes, yoloBoxes, ms), cid), name) ==
                                CountOf(CounterOf(mc, cid), name) + PairsLabelled(ms, origBoxes, yoloBoxes, cid, name)
    ensures ValidCounts(mc) ==> ValidCounts(CountMatches(mc, origBoxes, yoloBoxes, ms))
  {
    if ms != [] {
      var init := ms[..|ms| - 1];
      var p := ms[|ms| - 1];
      CountMatchesConserves(mc, origBoxes, yoloBoxes, init);
      var before := CountMatches(mc, origBoxes, yoloBoxes, init);
      AddMatchCounts(before, yoloBoxes[p.y].classId, origBoxes[p.o].name);
      if ValidCounts(mc) {
        AddMatchValid(before, yoloBoxes[p.y].classId, origBoxes[p.o].name);
      }
    }
  }

  /** The indices `0 .. n-1`. */
  function Below(n: nat): set<nat>
  {
    if n == 0 then {} else Below(n - 1) + {n - 1}
  }

  lemma {:induction false} BelowFacts(n: nat)
    ensures |Below(n)| == n
    ensures forall i: nat :: i in Below(n) <==> i < n
  {
    if n > 0 {
      BelowFacts(n - 1);
      assert n - 1 !in Below(n - 1);
    }
  }

  lemma {:induction false} SubsetSize(a: set<nat>, b: set<nat>)
    requires a <= b
    ensures |a| <= |b|
  {
    if a != {} {
      var x :| x in a;
      SubsetSize(a - {x}, b - {x});
    }
  }

  /** An original index no pair uses is not claimed. */
  lemma {:induction false} OrigFresh(ms: seq<Pair>, x: nat)
    requires forall i :: 0 <= i < |ms| ==> ms[i].o != x
    ensures x !in Origs(ms)
  {
    if ms != [] {
      OrigFresh(ms[..|ms| - 1], x);
    }
  }

  /** A YOLO index no pair uses is not claimed. */
  lemma {:induction false} YoloFresh(ms: seq<Pair>, x: nat)
    requires forall i :: 0 <= i < |ms| ==> ms[i].y != x
    ensures x !in Yolos(ms)
  {
    if ms != [] {
      YoloFresh(ms[..|ms| - 1], x);
    }
  }

  /** With no index used twice, each side has exactly as many matched indices as
      there are matches. */
  lemma {:induction false} ClaimedSize(ms: seq<Pair>)
    requires OneToOne(ms)
    ensures |Origs(ms)| == |ms| && |Yolos(ms)| == |ms|
  {
    if ms != [] {
      var init := ms[..|ms| - 1];
      var p := ms[|ms| - 1];
      assert OneToOne(init) by {
        forall i, j | 0 <= i < j < |init| ensures init[i].o != init[j].o && init[i].y != init[j].y {
          assert init[i] == ms[i] && init[j] == ms[j];
        }
      }
      ClaimedSize(init);
      forall i | 0 <= i < |init| ensures init[i].o != p.o && init[i].y != p.y {
        assert init[i] == ms[i];
      }
      OrigFresh(init, p.o);
      YoloFresh(init, p.y);
    }
  }

  /** A one-to-one list of pairs within `n` by `m` boxes has at most `n` and at
      most `m` pairs, and claims exactly one index per pair on each side. */
  lemma ClaimedBound(ms: seq<Pair>, n: nat, m: nat)
    requires OneToOne(ms)
    requires forall k :: 0 <= k < |ms| ==> ms[k].o < n && ms[k].y < m
    ensures |Origs(ms)| == |ms| <= n && |Yolos(ms)| == |ms| <= m
  {
    ClaimedSize(ms);
    ClaimedMembers(ms);
    BelowFacts(n);
    BelowFacts(m);
    forall x | x in Origs(ms) ensures x in Below(n) {
      var i :| 0 <= i < |ms| && ms[i].o == x;
    }
    forall x | x in Yolos(ms) ensures x in Below(m) {
      var i :| 0 <= i < |ms| && ms[i].y == x;
    }
    SubsetSize(Origs(ms), Below(n));
    SubsetSize(Yolos(ms), Below(m));
  }

  /** A sample never has more matches than boxes on either side. */
  lemma MatchCount(origBoxes: seq<BoxRecord>, yoloBoxes: seq<ClassBox>, minIou: real)
    ensures var ms := Match(origBoxes, yoloBoxes, minIou);
      |Origs(ms)| == |ms| <= |origBoxes| && |Yolos(ms)| == |ms| <= |yoloBoxes|
  {
    MatchInRange(origBoxes, yoloBoxes, minIou);
    ClaimedBound(Match(origBoxes, yoloBoxes, minIou), |origBoxes|, |yoloBoxes|);
  }

  /** Per-sample conservation: a sample with an empty side changes nothing;
      otherwise the counts grow by the number of matches, the unmatched totals
      by the boxes left over on each side (never negative), and one more file
      is used. */
  lemma SampleStepConserves(t: Tally, origBoxes: seq<BoxRecord>, yoloBoxes: seq<ClassBox>, minIou: real)
    ensures origBoxes == [] || yoloBoxes == [] ==> SampleStep(t, origBoxes, yoloBoxes, minIou) == t
    ensures origBoxes != [] && yoloBoxes != [] ==>
      var ms := Match(origBoxes, yoloBoxes, minIou);
      var t' := SampleStep(t, origBoxes, yoloBoxes, minIou);
      TotalCount(t'.counts) == TotalCount(t.counts) + |ms| &&
      t'.unmatchedOrig == t.unmatchedOrig + (|origBoxes| - |ms|) && |ms| <= |origBoxes| &&
      t'.unmatchedYolo == t.unmatchedYolo + (|yoloBoxes| - |ms|) && |ms| <= |yoloBoxes| &&
      t'.filesUsed == t.filesUsed + 1 &&
      (ValidCounts(t.counts) ==> ValidCounts(t'.counts))
  {
    if origBoxes != [] && yoloBoxes != [] {
      var ms := Match(origBoxes, yoloBoxes, minIou);
      MatchInRange(origBoxes, yoloBoxes, minIou);
      CountMatchesConserves(t.counts, origBoxes, yoloBoxes, ms);
      MatchCount(origBoxes, yoloBoxes, minIou);
    }
  }

  lemma AccumulateStep(keys: seq<string>, i: nat, origFiles: map<string, string>, yoloFiles: map<string, string>,
                       readLines: string -> seq<string>, parse: NumberParser, minIou: real)
    requires i < |keys| && KeysPresent(keys, origFiles, yoloFiles)
    ensures KeysPresent(keys[..i], origFiles, yoloFiles) && KeysPresent(keys[..i + 1], origFiles, yoloFiles)
    ensures Accumulate(keys[..i + 1], origFiles, yoloFiles, readLines, parse, minIou) ==
            SampleStep(Accumulate(keys[..i], origFiles, yoloFiles, readLines, parse, minIou),
                       OrigBoxesOf(origFiles[keys[i]], readLines, parse),
                       YoloBoxesOf(yoloFiles[keys[i]], readLines, parse), minIou)
  {
    assert keys[..i + 1][..i] == keys[..i];
  }

  /** Over the whole run the table stays valid, the unmatched totals are never
      negative, and no more files are used than there are shared keys. */
  lemma {:induction false} AccumulateInvariant(keys: seq<string>, origFiles: map<string, string>, yoloFiles: map<string, string>,
                                               readLines: string -> seq<string>, parse: NumberParser, minIou: real)
    requires KeysPresent(keys, origFiles, yoloFiles)
    ensures var t := Accumulate(keys, origFiles, yoloFiles, readLines, parse, minIou);
      ValidCounts(t.counts) && t.unmatchedOrig >= 0 && t.unmatchedYolo >= 0 && t.filesUsed <= |keys|
  {
    if keys != [] {
      var base := keys[|keys| - 1];
      AccumulateInvariant(keys[..|keys| - 1], origFiles, yoloFiles, readLines, parse, minIou);
      SampleStepConserves(Accumulate(keys[..|keys| - 1], origFiles, yoloFiles, readLines, parse, minIou),
                          OrigBoxesOf(origFiles[base], readLines, parse),
                          YoloBoxesOf(yoloFiles[base], readLines, parse), minIou);
    }
  }

  /** The number of matches accepted over the samples of `keys` whose two files
      both gave boxes. */
  function MatchesAcross(keys: seq<string>, origFiles: map<string, string>, yoloFiles: map<string, string>,
                         readLines: string -> seq<string>, parse: NumberParser, minIou: real): nat
    requires KeysPresent(keys, origFiles, yoloFiles)
  {
    if keys == [] then 0
    else
      var base := keys[|keys| - 1];
      var origBoxes := OrigBoxesOf(origFiles[base], readLines, parse);
      var yoloBoxes := YoloBoxesOf(yoloFiles[base], readLines, parse);
      MatchesAcross(keys[..|keys| - 1], origFiles, yoloFiles, readLines, parse, minIou) +
        (if origBoxes == [] || yoloBoxes == [] then 0 else |Match(origBoxes, yoloBoxes, minIou)|)
  }

  /** Every accepted match is counted once: the counts add up to the number of
      matches over all samples. */
  lemma {:induction false} AccumulateTotal(keys: seq<string>, origFiles: map<string, string>, yoloFiles: map<string, string>,
                                           readLines: string -> seq<string>, parse: NumberParser, minIou: real)
    requires KeysPresent(keys, origFiles, yoloFiles)
    ensures TotalCount(Accumulate(keys, origFiles, yoloFiles, readLines, parse, minIou).counts) ==
            MatchesAcross(keys, origFiles, yoloFiles, readLines, parse, minIou)
  {
    if keys != [] {
      var base := keys[|keys| - 1];
      AccumulateTotal(keys[..|keys| - 1], origFiles, yoloFiles, readLines, parse, minIou);
      SampleStepConserves(Accumulate(keys[..|keys| - 1], origFiles, yoloFiles, readLines, parse, minIou),
                          OrigBoxesOf(origFiles[base], readLines, parse),
                          YoloBoxesOf(yoloFiles[base], readLines, parse), minIou);
    }
  }

  /** A table built by counting is empty exactly when it counts nothing. */
  lemma {:induction false} EmptyTableCountsNothing(mc: seq<ClassCounts>)
    requires ValidCounts(mc)
    ensures mc == [] <==> TotalCount(mc) == 0
  {
    if mc != [] {
      var c := mc[0].counter;
      assert c == [c[0]] + c[1..];
      assert Sum(c) >= c[0].count > 0;
    }
  }

  /** The inner loop of one sample: each accepted pair adds one to the count of
      its YOLO box's class id and its original box's label. */
  method CountSampleMatches(mc: seq<ClassCounts>, origBoxes: seq<BoxRecord>, yoloBoxes: seq<ClassBox>, matches: seq<Pair>)
    returns (mappingCounts: seq<ClassCounts>)
    requires PairsInRange(matches, origBoxes, yoloBoxes)
    ensures mappingCounts == CountMatches(mc, origBoxes, yoloBoxes, matches)
  {
    mappingCounts := mc;
    var k := 0;
    while k < |matches|
      invariant 0 <= k <= |matches|
      invariant PairsInRange(matches[..k], origBoxes, yoloBoxes)
      invariant mappingCounts == CountMatches(mc, origBoxes, yoloBoxes, matches[..k])
    {
      assert matches[..k + 1][..k] == matches[..k];
      var p := matches[k];
      var classId := yoloBoxes[p.y].classId;
      mappingCounts := AddMatch(mappingCounts, classId, origBoxes[p.o].name);
      k := k + 1;
    }
    assert matches[..|matches|] == matches;
  }

  /** Loads the two annotation files of one sample; the warnings go unused here. */
  method LoadSample(origPath: string, yoloPath: string, readLines: string -> seq<string>, parse: NumberParser)
    returns (origBoxes: seq<BoxRecord>, yoloBoxes: seq<ClassBox>)
    ensures origBoxes == OrigBoxesOf(origPath, readLines, parse)
    ensures yoloBoxes == YoloBoxesOf(yoloPath, readLines, parse)
  {
    var origWarnings, yoloWarnings;
    origBoxes, origWarnings := LoadOriginalBoxes(readLines(origPath), parse);
    yoloBoxes, yoloWarnings := LoadYoloBoxes(readLines(yoloPath), parse);
  }

  /** The per-sample loop: load both files, skip a sample with an empty side,
      match, add up the unmatched boxes and count every match. */
  method AccumulateCounts(keys: seq<string>, origFiles: map<string, string>, yoloFiles: map<string, string>,
                          readLines: string -> seq<string>, parse: NumberParser, minIou: real)
    returns (mappingCounts: seq<ClassCounts>, unmatchedOrigTotal: int, unmatchedYoloTotal: int, filesUsed: nat)
    requires KeysPresent(keys, origFiles, yoloFiles)
    ensures Tally(mappingCounts, unmatchedOrigTotal, unmatchedYoloTotal, filesUsed) ==
            Accumulate(keys, origFiles, yoloFiles, readLines, parse, minIou)
    ensures ValidCounts(mappingCounts) && unmatchedOrigTotal >= 0 && unmatchedYoloTotal >= 0 && filesUsed <= |keys|
  {
    mappingCounts, unmatchedOrigTotal, unmatchedYoloTotal, filesUsed := [], 0, 0, 0;
    var i := 0;
    while i < |keys|
      invariant 0 <= i <= |keys|
      invariant KeysPresent(keys[..i], origFiles, yoloFiles)
      invariant Tally(mappingCounts, unmatchedOrigTotal, unmatchedYoloTotal, filesUsed) ==
                Accumulate(keys[..i], origFiles, yoloFiles, readLines, parse, minIou)
    {
      var base := keys[i];
      AccumulateStep(keys, i, origFiles, yoloFiles, readLines, parse, minIou);
      ghost var before := Tally(mappingCounts, unmatchedOrigTotal, unmatchedYoloTotal, filesUsed);
      i := i + 1;
      var origBoxes, yoloBoxes := LoadSample(origFiles[base], yoloFiles[base], readLines, parse);
      if origBoxes == [] || yoloBoxes == [] {
        continue;
      }
      var matches := MatchBoxes(origBoxes, yoloBoxes, minIou);
      MatchInRange(origBoxes, yoloBoxes, minIou);
      var matchedOrigIndices := Origs(matches);
      var matchedYoloIndices := Yolos(matches);
      unmatchedOrigTotal := unmatchedOrigTotal + |origBoxes| - |matchedOrigIndices|;
      unmatchedYoloTotal := unmatchedYoloTotal + |yoloBoxes| - |matchedYoloIndices|;
      mappingCounts := CountSampleMatches(mappingCounts, origBoxes, yoloBoxes, matches);
      filesUsed := filesUsed + 1;
      SampleStepUnfold(before, origBoxes, yoloBoxes, minIou);
    }
    assert keys[..|keys|] == keys;
    AccumulateInvariant(keys, origFiles, yoloFiles, readLines, parse, minIou);
  }

}
