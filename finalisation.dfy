/**
 * The last stage of `discover_label_mapping.py`: every class id that gathered
 * matches is resolved to the label it was matched with most often, with the
 * top count, the total, the confidence `top / total` and the other labels in
 * ranking order. Class ids are visited by `int(id)` when they are all digit
 * strings and as strings when none is; a mix of both makes Python's `sorted`
 * compare an `int` with a `str`, which raises `TypeError`.
 */
module Finalisation {

  import opened Text
  import opened Geometry
  import opened Counters

  /** What is printed for one class id. */
  datatype Resolution = Resolution(classId: string, name: string, topCount: nat, total: nat, others: seq<LabelCount>)

  /** The resolution of one class id: `most_common(1)[0]`, the sum of the counter
      and `most_common()[1:]`. */
  function Resolve(cc: ClassCounts): Resolution
    requires cc.counter != []
  {
    var top := TopEntry(cc.counter);
    Resolution(cc.classId, top.name, top.count, Sum(cc.counter), RankByCount(cc.counter)[1..])
  }

  function Confidence(r: Resolution): real
    requires r.total > 0
  {
    r.topCount as real / r.total as real
  }

  lemma {:induction false} NamesMembers(c: seq<LabelCount>)
    ensures forall x :: x in Names(c) <==> exists i :: 0 <= i < |c| && c[i].name == x
  {
    if c != [] {
      NamesMembers(c[1..]);
      forall x | exists i :: 0 <= i < |c| && c[i].name == x ensures x in Names(c) {
        var i :| 0 <= i < |c| && c[i].name == x;
        if i > 0 { assert c[1..][i - 1].name == x; }
      }
    }
  }

  /** A counter built by increments has positive counts, and looking a label up
      finds the entry that holds it. */
  lemma {:induction false} ValidCounterEntries(c: seq<LabelCount>)
    requires ValidCounter(c)
    ensures forall i :: 0 <= i < |c| ==> c[i].count > 0 && CountOf(c, c[i].name) == c[i].count
  {
    if c != [] {
      ValidCounterEntries(c[1..]);
      NamesMembers(c[1..]);
      forall i | 0 <= i < |c| ensures c[i].count > 0 && CountOf(c, c[i].name) == c[i].count {
        if i > 0 {
          assert c[1..][i - 1] == c[i];
        }
      }
    }
  }

  /** No label's count exceeds a bound that every entry respects. */
  lemma {:induction false} CountOfBounded(c: seq<LabelCount>, name: string, bound: nat)
    requires forall i :: 0 <= i < |c| ==> c[i].count <= bound
    ensures CountOf(c, name) <= bound
  {
    if c != [] {
      assert forall i :: 0 <= i < |c[1..]| ==> c[1..][i] == c[i + 1];
      CountOfBounded(c[1..], name, bound);
    }
  }

  /** The resolved label is the most frequent one, the earliest counted among
      equals; its count is positive and at most the total, so the confidence
      lies in (0, 1]. */
  lemma ResolveTop(cc: ClassCounts)
    requires cc.counter != [] && ValidCounter(cc.counter)
    ensures var r := Resolve(cc);
      r.classId == cc.classId &&
      CountOf(cc.counter, r.name) == r.topCount &&
      0 < r.topCount <= r.total && r.total == Sum(cc.counter) &&
      0.0 < Confidence(r) <= 1.0
    ensures forall name :: CountOf(cc.counter, name) <= Resolve(cc).topCount
    ensures exists k :: FirstWithItsCount(cc.counter, k) && cc.counter[k].name == Resolve(cc).name
  {
    var c := cc.counter;
    var r := Resolve(cc);
    var top := TopEntry(c);
    TopEntryIsFirstMaximal(c);
    ValidCounterEntries(c);
    var k :| FirstWithItsCount(c, k) && c[k] == top;
    forall name ensures CountOf(c, name) <= r.topCount {
      CountOfBounded(c, name, top.count);
    }
    ResolveOthers(cc);
    DivPositiveAtMostOne(r.topCount as real, r.total as real);
  }

  /** The other labels are the remaining entries, ranked by descending count and
      none above the top; with the top count they make up the total. */
  lemma ResolveOthers(cc: ClassCounts)
    requires cc.counter != []
    ensures var r := Resolve(cc);
      r.total == r.topCount + Sum(r.others) &&
      multiset(r.others) + multiset{LabelCount(r.name, r.topCount)} == multiset(cc.counter) &&
      CountsDescending(r.others) &&
      (forall i :: 0 <= i < |r.others| ==> r.others[i].count <= r.topCount)
  {
    var c := cc.counter;
    var r := Resolve(cc);
    var top := TopEntry(c);
    TopEntryIsFirstMaximal(c);
    var ranked := RankByCount(c);
    RankByCountSound(c);
    RankByCountPermutes(c);
    assert ranked == [ranked[0]] + ranked[1..];
    assert multiset(ranked) == multiset{top} + multiset(ranked[1..]);
    assert Sum(ranked) == top.count + Sum(ranked[1..]);
    forall i | 0 <= i < |r.others| ensures r.others[i].count <= r.topCount {
      assert r.others[i] == ranked[i + 1];
      assert r.others[i] in multiset(c);
    }
  }

  /** `int(cid) if cid.isdigit() else cid`, as the ordering it induces: by value
      when the ids are digit strings, by code points otherwise. */
  function DigitKey(id: string): nat
  {
    if IsDigits(id) then DigitsValue(id) else 0
  }

  predicate IdLess(a: string, b: string, numeric: bool)
  {
    if numeric then DigitKey(a) < DigitKey(b) else StrLess(a, b)
  }

  predicate IdsAscending(r: seq<ClassCounts>, numeric: bool)
  {
    forall i, j :: 0 <= i < j < |r| ==> !IdLess(r[j].classId, r[i].classId, numeric)
  }

  lemma IdLessAsymmetric(a: string, b: string, numeric: bool)
    requires IdLess(a, b, numeric)
    ensures !IdLess(b, a, numeric)
  {
    if !numeric {
      StrLessAsymmetric(a, b);
    }
  }

  /** "Not before" is transitive, in both orders. */
  lemma NotLessTransitive(a: string, b: string, c: string, numeric: bool)
    requires !IdLess(a, b, numeric) && !IdLess(b, c, numeric)
    ensures !IdLess(a, c, numeric)
  {
    if !numeric && StrLess(a, c) {
      StrLessTotal(a, b);
      if StrLess(b, a) {
        StrLessTransitive(b, a, c);
      }
    }
  }

  /** Places `x`, which precedes every entry of `t` in insertion order, before
      the first entry it does not follow; so equal keys keep their order. */
  function InsertById(x: ClassCounts, t: seq<ClassCounts>, numeric: bool): (r: seq<ClassCounts>)
    ensures |r| == |t| + 1
    ensures multiset(r) == multiset(t) + multiset{x}
  {
    if t == [] || !IdLess(t[0].classId, x.classId, numeric) then [x] + t
    else
      assert t == [t[0]] + t[1..];
      [t[0]] + InsertById(x, t[1..], numeric)
  }

  /** Python's stable `sorted` of the class ids under the key above. */
  function SortById(mc: seq<ClassCounts>, numeric: bool): (r: seq<ClassCounts>)
    ensures |r| == |mc|
    ensures multiset(r) == multiset(mc)
  {
    if mc == [] then []
    else
      assert mc == [mc[0]] + mc[1..];
      InsertById(mc[0], SortById(mc[1..], numeric), numeric)
  }

  /** Inserting an entry not below `lo` into entries not below `lo` leaves every
      entry not below `lo`. */
  lemma {:induction false} InsertByIdAbove(x: ClassCounts, t: seq<ClassCounts>, lo: string, numeric: bool)
    requires !IdLess(x.classId, lo, numeric)
    requires forall i :: 0 <= i < |t| ==> !IdLess(t[i].classId, lo, numeric)
    ensures forall i :: 0 <= i < |InsertById(x, t, numeric)| ==> !IdLess(InsertById(x, t, numeric)[i].classId, lo, numeric)
  {
    if t != [] && IdLess(t[0].classId, x.classId, numeric) {
      InsertByIdAbove(x, t[1..], lo, numeric);
    }
  }

  lemma {:induction false} InsertByIdAscending(x: ClassCounts, t: seq<ClassCounts>, numeric: bool)
    requires IdsAscending(t, numeric)
    ensures IdsAscending(InsertById(x, t, numeric), numeric)
  {
    if t != [] && IdLess(t[0].classId, x.classId, numeric) {
      var rest := InsertById(x, t[1..], numeric);
      InsertByIdAscending(x, t[1..], numeric);
      IdLessAsymmetric(t[0].classId, x.classId, numeric);
      InsertByIdAbove(x, t[1..], t[0].classId, numeric);
      var r := [t[0]] + rest;
      forall j | 0 < j < |r| ensures !IdLess(r[j].classId, t[0].classId, numeric) {
        assert r[j] == rest[j - 1];
      }
    } else if t != [] {
      var r := [x] + t;
      forall j | 0 < j < |r| ensures !IdLess(r[j].classId, x.classId, numeric) {
        if j > 1 {
          NotLessTransitive(r[j].classId, t[0].classId, x.classId, numeric);
        }
      }
    }
  }

  /** The visiting order is ascending under the key and a permutation of the
      class ids. */
  lemma {:induction false} SortByIdSound(mc: seq<ClassCounts>, numeric: bool)
    ensures IdsAscending(SortById(mc, numeric), numeric)
    ensures multiset(SortById(mc, numeric)) == multiset(mc)
  {
    if mc != [] {
      SortByIdSound(mc[1..], numeric);
      InsertByIdAscending(mc[0], SortById(mc[1..], numeric), numeric);
    }
  }

  predicate AllDigitIds(mc: seq<ClassCounts>)
  {
    forall i :: 0 <= i < |mc| ==> IsDigits(mc[i].classId)
  }

  predicate NoDigitIds(mc: seq<ClassCounts>)
  {
    forall i :: 0 <= i < |mc| ==> !IsDigits(mc[i].classId)
  }

  predicate CountersFilled(mc: seq<ClassCounts>)
  {
    forall i :: 0 <= i < |mc| ==> mc[i].counter != [] && ValidCounter(mc[i].counter)
  }

  lemma {:induction false} ValidCountsFilled(mc: seq<ClassCounts>)
    requires ValidCounts(mc)
    ensures CountersFilled(mc)
  {
    if mc != [] {
      ValidCountsFilled(mc[1..]);
      assert forall i :: 0 < i < |mc| ==> mc[i] == mc[1..][i - 1];
    }
  }

  function ResolveAll(mc: seq<ClassCounts>): (rs: seq<Resolution>)
    requires CountersFilled(mc)
  {
    if mc == [] then []
    else
      assert forall i :: 0 <= i < |mc| - 1 ==> mc[..|mc| - 1][i] == mc[i];
      ResolveAll(mc[..|mc| - 1]) + [Resolve(mc[|mc| - 1])]
  }

  lemma {:induction false} ResolveAllEntries(mc: seq<ClassCounts>)
    requires CountersFilled(mc)
    ensures |ResolveAll(mc)| == |mc|
    ensures forall i :: 0 <= i < |mc| ==> ResolveAll(mc)[i] == Resolve(mc[i])
  {
    if mc != [] {
      var init := mc[..|mc| - 1];
      assert forall i :: 0 <= i < |init| ==> init[i] == mc[i];
      ResolveAllEntries(init);
      var rs, prev := ResolveAll(mc), ResolveAll(init);
      assert rs == prev + [Resolve(mc[|mc| - 1])];
      forall i | 0 <= i < |mc| ensures rs[i] == Resolve(mc[i]) {
        if i < |init| { assert rs[i] == prev[i] && init[i] == mc[i]; }
      }
    }
  }

  datatype Outcome = Resolved(resolutions: seq<Resolution>) | MixedIds

  /** The loop over the class ids in visiting order. */
  function Finalise(mc: seq<ClassCounts>): Outcome
    requires ValidCounts(mc)
  {
    if !AllDigitIds(mc) && !NoDigitIds(mc) then MixedIds
    else
      var sorted := SortById(mc, AllDigitIds(mc));
      ValidCountsFilled(mc);
      SortedFilled(mc, sorted);
      Resolved(ResolveAll(sorted))
  }

  lemma SortedFilled(mc: seq<ClassCounts>, sorted: seq<ClassCounts>)
    requires CountersFilled(mc) && multiset(sorted) == multiset(mc)
    ensures CountersFilled(sorted)
  {
    forall i | 0 <= i < |sorted| ensures sorted[i].counter != [] && ValidCounter(sorted[i].counter) {
      assert sorted[i] in multiset(mc);
      var k :| 0 <= k < |mc| && mc[k] == sorted[i];
    }
  }

  /** Finalisation fails exactly when digit and non-digit class ids are mixed. */
  lemma FinaliseMixed(mc: seq<ClassCounts>)
    requires ValidCounts(mc)
    ensures Finalise(mc).MixedIds? <==>
      (exists i :: 0 <= i < |mc| && IsDigits(mc[i].classId)) && (exists j :: 0 <= j < |mc| && !IsDigits(mc[j].classId))
  {
    if !AllDigitIds(mc) && !NoDigitIds(mc) {
      var i :| 0 <= i < |mc| && !IsDigits(mc[i].classId);
      var j :| 0 <= j < |mc| && IsDigits(mc[j].classId);
    }
  }

  /** Otherwise there is one resolution per class id, in ascending key order,
      each the resolution of a class id of the table and every class id
      resolved. */
  lemma FinaliseResolved(mc: seq<ClassCounts>)
    requires ValidCounts(mc) && Finalise(mc).Resolved?
    ensures var rs := Finalise(mc).resolutions;
      var numeric := AllDigitIds(mc);
      |rs| == |mc| &&
      (forall i, j :: 0 <= i < j < |rs| ==> !IdLess(rs[j].classId, rs[i].classId, numeric)) &&
      CountersFilled(mc) && OnePerClass(rs, mc)
  {
    var numeric := AllDigitIds(mc);
    var sorted := SortById(mc, numeric);
    ValidCountsFilled(mc);
    SortedFilled(mc, sorted);
    SortByIdSound(mc, numeric);
    ResolveAllEntries(sorted);
    var rs := ResolveAll(sorted);
    assert Finalise(mc).resolutions == rs;
    forall i, j | 0 <= i < j < |rs| ensures !IdLess(rs[j].classId, rs[i].classId, numeric) {
      assert rs[i].classId == sorted[i].classId && rs[j].classId == sorted[j].classId;
    }
    ResolvedPermutation(mc, sorted);
  }

  lemma ResolvedPermutation(mc: seq<ClassCounts>, sorted: seq<ClassCounts>)
    requires CountersFilled(mc) && CountersFilled(sorted) && multiset(sorted) == multiset(mc)
    ensures OnePerClass(ResolveAll(sorted), mc)
  {
    ResolvedFromTable(mc, sorted);
    TableResolved(mc, sorted);
  }

  lemma ResolvedFromTable(mc: seq<ClassCounts>, sorted: seq<ClassCounts>)
    requires CountersFilled(mc) && CountersFilled(sorted) && multiset(sorted) == multiset(mc)
    ensures FromTable(ResolveAll(sorted), mc)
  {
    ResolveAllEntries(sorted);
    var rs := ResolveAll(sorted);
    forall i | 0 <= i < |rs| ensures exists k :: 0 <= k < |mc| && rs[i] == Resolve(mc[k]) {
      assert sorted[i] in multiset(mc);
      var k :| 0 <= k < |mc| && mc[k] == sorted[i];
      assert rs[i] == Resolve(mc[k]);
    }
  }

  lemma TableResolved(mc: seq<ClassCounts>, sorted: seq<ClassCounts>)
    requires CountersFilled(mc) && CountersFilled(sorted) && multiset(sorted) == multiset(mc)
    ensures CoversTable(ResolveAll(sorted), mc)
  {
    ResolveAllEntries(sorted);
    var rs := ResolveAll(sorted);
    forall k | 0 <= k < |mc| ensures exists i :: 0 <= i < |rs| && rs[i] == Resolve(mc[k]) {
      assert mc[k] in multiset(sorted);
      var i :| 0 <= i < |sorted| && sorted[i] == mc[k];
      assert rs[i] == Resolve(mc[k]);
    }
  }

  /** Every resolution is that of a class id of the table, and every class id of
      the table is resolved. */
  predicate OnePerClass(rs: seq<Resolution>, mc: seq<ClassCounts>)
    requires CountersFilled(mc)
  {
    FromTable(rs, mc) && CoversTable(rs, mc)
  }

  predicate FromTable(rs: seq<Resolution>, mc: seq<ClassCounts>)
    requires CountersFilled(mc)
  {
    forall i :: 0 <= i < |rs| ==> exists k :: 0 <= k < |mc| && rs[i] == Resolve(mc[k])
  }

  predicate CoversTable(rs: seq<Resolution>, mc: seq<ClassCounts>)
    requires CountersFilled(mc)
  {
    forall k :: 0 <= k < |mc| ==> exists i :: 0 <= i < |rs| && rs[i] == Resolve(mc[k])
  }

  /** Every resolution of a finalised table has a positive top count within its
      total, so a confidence in (0, 1]. */
  lemma FinaliseConfident(mc: seq<ClassCounts>)
    requires ValidCounts(mc) && Finalise(mc).Resolved?
    ensures var rs := Finalise(mc).resolutions;
      forall i :: 0 <= i < |rs| ==> 0 < rs[i].topCount <= rs[i].total && 0.0 < Confidence(rs[i]) <= 1.0
  {
    var rs := Finalise(mc).resolutions;
    FinaliseFromTable(mc);
    forall i | 0 <= i < |rs| ensures 0 < rs[i].topCount <= rs[i].total && 0.0 < Confidence(rs[i]) <= 1.0 {
      var k :| 0 <= k < |mc| && rs[i] == Resolve(mc[k]);
      ResolveConfident(mc[k]);
    }
  }

  lemma FinaliseFromTable(mc: seq<ClassCounts>)
    requires ValidCounts(mc) && Finalise(mc).Resolved?
    ensures CountersFilled(mc) && FromTable(Finalise(mc).resolutions, mc)
  {
    var sorted := SortById(mc, AllDigitIds(mc));
    ValidCountsFilled(mc);
    SortedFilled(mc, sorted);
    ResolvedFromTable(mc, sorted);
  }

  lemma ResolveConfident(cc: ClassCounts)
    requires cc.counter != [] && ValidCounter(cc.counter)
    ensures 0 < Resolve(cc).topCount <= Resolve(cc).total && 0.0 < Confidence(Resolve(cc)) <= 1.0
  {
    ResolveTop(cc);
  }

  /** The `discovered` table after recording each resolution in turn. */
  function DiscoveredTable(rs: seq<Resolution>): map<string, string>
  {
    if rs == [] then map[]
    else DiscoveredTable(rs[..|rs| - 1])[rs[|rs| - 1].classId := rs[|rs| - 1].name]
  }

  /** The table holds exactly the resolved class ids, each with the label of a
      resolution of that id. */
  lemma {:induction false} DiscoveredEntries(rs: seq<Resolution>)
    ensures forall i :: 0 <= i < |rs| ==> rs[i].classId in DiscoveredTable(rs)
    ensures forall id :: id in DiscoveredTable(rs) ==>
      exists i :: 0 <= i < |rs| && rs[i].classId == id && DiscoveredTable(rs)[id] == rs[i].name
  {
    if rs != [] {
      var init := rs[..|rs| - 1];
      var last := rs[|rs| - 1];
      DiscoveredEntries(init);
      forall i | 0 <= i < |init| ensures rs[i] == init[i] { }
      forall id | id in DiscoveredTable(rs)
        ensures exists i :: 0 <= i < |rs| && rs[i].classId == id && DiscoveredTable(rs)[id] == rs[i].name
      {
        if id == last.classId {
          assert rs[|rs| - 1].classId == id;
        } else {
          var i :| 0 <= i < |init| && init[i].classId == id && DiscoveredTable(init)[id] == init[i].name;
          assert rs[i].classId == id;
        }
      }
    }
  }

  lemma ResolveAllSnoc(order: seq<ClassCounts>, i: nat)
    requires CountersFilled(order) && i < |order|
    ensures CountersFilled(order[..i]) && CountersFilled(order[..i + 1])
    ensures ResolveAll(order[..i + 1]) == ResolveAll(order[..i]) + [Resolve(order[i])]
  {
    assert order[..i + 1][..i] == order[..i];
  }

  lemma DiscoveredTableSnoc(rs: seq<Resolution>, r: Resolution)
    ensures DiscoveredTable(rs + [r]) == DiscoveredTable(rs)[r.classId := r.name]
  {
    assert (rs + [r])[..|rs|] == rs;
  }


  /** The loop over the class ids in visiting order: each id's total, top label
      and count and other labels in ranking order are gathered, and its top label
      is recorded in the `discovered` table that the JSON output holds. */
  method ResolveInOrder(order: seq<ClassCounts>) returns (resolutions: seq<Resolution>, discovered: map<string, string>)
    requires CountersFilled(order)
    ensures resolutions == ResolveAll(order)
    ensures discovered == DiscoveredTable(resolutions)
  {
    resolutions, discovered := [], map[];
    var i := 0;
    while i < |order|
      invariant 0 <= i <= |order|
      invariant |resolutions| == i
      invariant forall k :: 0 <= k < i ==> resolutions[k] == Resolve(order[k])
      invariant discovered == DiscoveredTable(resolutions)
    {
      var counter := order[i].counter;
      var total := Sum(counter);
      var top := TopEntry(counter);
      var others := RankByCount(counter)[1..];
      var resolution := Resolution(order[i].classId, top.name, top.count, total, others);
      DiscoveredTableSnoc(resolutions, resolution);
      discovered := discovered[resolution.classId := resolution.name];
      resolutions := resolutions + [resolution];
      i := i + 1;
    }
    ResolveAllEntries(order);
  }

  /** Finalisation: visit the class ids in key order, which fails on a mix of
      digit and non-digit ids, and resolve each. */
  method ResolveMappings(mc: seq<ClassCounts>) returns (outcome: Outcome, discovered: map<string, string>)
    requires ValidCounts(mc)
    ensures outcome == Finalise(mc)
    ensures outcome.MixedIds? ==> discovered == map[]
    ensures outcome.Resolved? ==> discovered == DiscoveredTable(outcome.resolutions)
  {
    if !AllDigitIds(mc) && !NoDigitIds(mc) {
      return MixedIds, map[];
    }
    var order := SortById(mc, AllDigitIds(mc));
    ValidCountsFilled(mc);
    SortedFilled(mc, order);
    var resolutions;
    resolutions, discovered := ResolveInOrder(order);
    outcome := Resolved(resolutions);
  }

}
