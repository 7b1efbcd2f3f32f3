/**
 * The counting structures of the discovery run: `Counter[str]` per class id
 * and the `defaultdict(Counter)` that holds them. Both are insertion-ordered
 * association lists, since `Counter.most_common` breaks ties between equal
 * counts by insertion order.
 */
module Counters {

  /** One entry of a label counter. `name` is the label. */
  datatype LabelCount = LabelCount(name: string, count: nat)

  /** The counter of one class id. */
  datatype ClassCounts = ClassCounts(classId: string, counter: seq<LabelCount>)

  /** `counter[name]`, zero when absent. */
  function CountOf(c: seq<LabelCount>, name: string): nat
  {
    if c == [] then 0 else if c[0].name == name then c[0].count else CountOf(c[1..], name)
  }

  /** `counter[name] += 1`: bumps an existing entry in place or appends a new one. */
  function Increment(c: seq<LabelCount>, name: string): seq<LabelCount>
  {
    if c == [] then [LabelCount(name, 1)]
    else if c[0].name == name then [LabelCount(name, c[0].count + 1)] + c[1..]
    else [c[0]] + Increment(c[1..], name)
  }

  /** `sum(counter.values())`. */
  function Sum(c: seq<LabelCount>): nat
  {
    if c == [] then 0 else c[0].count + Sum(c[1..])
  }

  /** The labels a counter holds. */
  function Names(c: seq<LabelCount>): set<string>
  {
    if c == [] then {} else {c[0].name} + Names(c[1..])
  }

  /** What a counter built only by increments looks like: distinct labels, positive counts. */
  predicate ValidCounter(c: seq<LabelCount>)
  {
    c == [] || (c[0].count > 0 && c[0].name !in Names(c[1..]) && ValidCounter(c[1..]))
  }

  lemma {:induction false} IncrementCounts(c: seq<LabelCount>, name: string)
    ensures forall k :: CountOf(Increment(c, name), k) == CountOf(c, k) + (if k == name then 1 else 0)
    ensures Sum(Increment(c, name)) == Sum(c) + 1
    ensures Names(Increment(c, name)) == Names(c) + {name}
  {
    if c != [] && c[0].name != name {
      IncrementCounts(c[1..], name);
    }
  }

  /** Incrementing keeps a counter valid and non-empty. */
  lemma {:induction false} IncrementValid(c: seq<LabelCount>, name: string)
    requires ValidCounter(c)
    ensures ValidCounter(Increment(c, name)) && Increment(c, name) != []
  {
    if c != [] && c[0].name != name {
      IncrementValid(c[1..], name);
      IncrementCounts(c[1..], name);
    }
  }

  /** `counter.most_common(1)[0]`: the first entry, in insertion order, with the largest count. */
  function TopEntry(c: seq<LabelCount>): LabelCount
    requires c != []
  {
    if |c| == 1 then c[0]
    else
      var t := TopEntry(c[1..]);
      if t.count > c[0].count then t else c[0]
  }

  /** Entry `k` has a larger count than every entry inserted before it. */
  predicate FirstWithItsCount(c: seq<LabelCount>, k: int)
  {
    0 <= k < |c| && forall i :: 0 <= i < k ==> c[i].count < c[k].count
  }

  /** The top entry is an entry of the counter, its count is the largest, and
      every entry inserted before it has a strictly smaller count. */
  lemma {:induction false} TopEntryIsFirstMaximal(c: seq<LabelCount>)
    requires c != []
    ensures exists k :: FirstWithItsCount(c, k) && c[k] == TopEntry(c)
    ensures forall i :: 0 <= i < |c| ==> c[i].count <= TopEntry(c).count
  {
    if |c| == 1 {
      assert FirstWithItsCount(c, 0);
    } else {
      var tail := c[1..];
      TopEntryIsFirstMaximal(tail);
      var t := TopEntry(tail);
      forall i | 1 <= i < |c| ensures c[i] == tail[i - 1] { }
      if t.count > c[0].count {
        var k :| FirstWithItsCount(tail, k) && tail[k] == t;
        assert FirstWithItsCount(c, k + 1);
      } else {
        assert FirstWithItsCount(c, 0);
      }
    }
  }

  /** Places `x`, which precedes every entry of `t` in insertion order, in a
      ranking by descending count: before the first entry whose count it matches. */
  function InsertByCount(x: LabelCount, t: seq<LabelCount>): (r: seq<LabelCount>)
    ensures |r| == |t| + 1
  {
    if t == [] || x.count >= t[0].count then [x] + t
    else
      assert t == [t[0]] + t[1..];
      [t[0]] + InsertByCount(x, t[1..])
  }

  /** `counter.most_common()`: the entries by descending count, ties in insertion
      order (Python's sort is stable, also with `reverse=True`). */
  function RankByCount(c: seq<LabelCount>): (r: seq<LabelCount>)
    ensures |r| == |c|
  {
    if c == [] then []
    else InsertByCount(c[0], RankByCount(c[1..]))
  }

  /** Inserting adds exactly `x`: the same entries plus `x`, and its count to the sum. */
  lemma {:induction false} InsertByCountAdds(x: LabelCount, t: seq<LabelCount>)
    ensures multiset(InsertByCount(x, t)) == multiset(t) + multiset{x}
    ensures Sum(InsertByCount(x, t)) == Sum(t) + x.count
  {
    if t != [] && x.count < t[0].count {
      InsertByCountAdds(x, t[1..]);
      assert t == [t[0]] + t[1..];
    }
  }

  /** The ranking is a permutation of the counter, so it keeps the sum. */
  lemma {:induction false} RankByCountPermutes(c: seq<LabelCount>)
    ensures multiset(RankByCount(c)) == multiset(c)
    ensures Sum(RankByCount(c)) == Sum(c)
  {
    if c != [] {
      RankByCountPermutes(c[1..]);
      InsertByCountAdds(c[0], RankByCount(c[1..]));
      assert c == [c[0]] + c[1..];
    }
  }

  predicate CountsDescending(r: seq<LabelCount>)
  {
    forall i, j :: 0 <= i < j < |r| ==> r[i].count >= r[j].count
  }

  /** Inserting an entry under a bound into entries under the bound keeps every
      entry under it. */
  lemma {:induction false} InsertByCountBounded(x: LabelCount, t: seq<LabelCount>, bound: nat)
    requires x.count <= bound && forall i :: 0 <= i < |t| ==> t[i].count <= bound
    ensures forall i :: 0 <= i < |InsertByCount(x, t)| ==> InsertByCount(x, t)[i].count <= bound
  {
    if t != [] && x.count < t[0].count {
      InsertByCountBounded(x, t[1..], bound);
    }
  }

  lemma {:induction false} InsertByCountDescending(x: LabelCount, t: seq<LabelCount>)
    requires CountsDescending(t)
    ensures CountsDescending(InsertByCount(x, t))
  {
    if t != [] && x.count < t[0].count {
      var tail := t[1..];
      InsertByCountDescending(x, tail);
      InsertByCountBounded(x, tail, t[0].count);
      var r := InsertByCount(x, tail);
      var s := [t[0]] + r;
      forall i, j | 0 <= i < j < |s| ensures s[i].count >= s[j].count {
        assert s[j] == r[j - 1];
        if i > 0 { assert s[i] == r[i - 1]; }
      }
    }
  }

  /** The ranking is ordered by count and its head is the top entry: the label
      `most_common(1)` reports is the first of `most_common()`, and the other
      candidates are the rest. */
  lemma {:induction false} RankByCountSound(c: seq<LabelCount>)
    requires c != []
    ensures CountsDescending(RankByCount(c))
    ensures RankByCount(c)[0] == TopEntry(c)
  {
    if |c| == 1 {
      assert RankByCount(c) == [c[0]];
    } else {
      RankByCountSound(c[1..]);
      InsertByCountDescending(c[0], RankByCount(c[1..]));
    }
  }

  /** The entries with count `n`, in their order. */
  function WithCount(c: seq<LabelCount>, n: nat): seq<LabelCount>
  {
    if c == [] then [] else (if c[0].count == n then [c[0]] else []) + WithCount(c[1..], n)
  }

  /** Inserting `x` puts it ahead of every entry with the same count. */
  lemma {:induction false} InsertByCountStable(x: LabelCount, t: seq<LabelCount>, n: nat)
    ensures WithCount(InsertByCount(x, t), n) == (if x.count == n then [x] else []) + WithCount(t, n)
  {
    if t != [] && x.count < t[0].count {
      InsertByCountStable(x, t[1..], n);
      var r := InsertByCount(x, t);
      assert r == [t[0]] + InsertByCount(x, t[1..]);
      assert r[1..] == InsertByCount(x, t[1..]);
    } else {
      var r := [x] + t;
      assert r[1..] == t;
    }
  }

  /** `most_common()` is stable: for every count, the entries with that count
      appear in the ranking in the order the counter holds them, which is the
      order their labels were first counted. */
  lemma {:induction false} RankByCountStable(c: seq<LabelCount>, n: nat)
    ensures WithCount(RankByCount(c), n) == WithCount(c, n)
  {
    if c != [] {
      RankByCountStable(c[1..], n);
      InsertByCountStable(c[0], RankByCount(c[1..]), n);
    }
  }

  /** `mapping_counts[class_id]`: the counter of a class id, empty when absent. */
  function CounterOf(mc: seq<ClassCounts>, classId: string): seq<LabelCount>
  {
    if mc == [] then [] else if mc[0].classId == classId then mc[0].counter else CounterOf(mc[1..], classId)
  }

  /** `mapping_counts[class_id][name] += 1` on a `defaultdict(Counter)`. */
  function AddMatch(mc: seq<ClassCounts>, classId: string, name: string): seq<ClassCounts>
  {
    if mc == [] then [ClassCounts(classId, [LabelCount(name, 1)])]
    else if mc[0].classId == classId then [ClassCounts(classId, Increment(mc[0].counter, name))] + mc[1..]
    else [mc[0]] + AddMatch(mc[1..], classId, name)
  }

  /** Total number of counted matches over all class ids. */
  function TotalCount(mc: seq<ClassCounts>): nat
  {
    if mc == [] then 0 else Sum(mc[0].counter) + TotalCount(mc[1..])
  }

  /** The class ids present in the table. */
  function Ids(mc: seq<ClassCounts>): set<string>
  {
    if mc == [] then {} else {mc[0].classId} + Ids(mc[1..])
  }

  /** Distinct class ids, each with a valid non-empty counter. */
  predicate ValidCounts(mc: seq<ClassCounts>)
  {
    mc == [] ||
    (mc[0].classId !in Ids(mc[1..]) && mc[0].counter != [] && ValidCounter(mc[0].counter) && ValidCounts(mc[1..]))
  }

  /** One match adds one to exactly one (class id, label) count and to the total. */
  lemma {:induction false} AddMatchCounts(mc: seq<ClassCounts>, classId: string, name: string)
    ensures forall cid, k :: CountOf(CounterOf(AddMatch(mc, classId, name), cid), k) ==
                             CountOf(CounterOf(mc, cid), k) + (if cid == classId && k == name then 1 else 0)
    ensures TotalCount(AddMatch(mc, classId, name)) == TotalCount(mc) + 1
    ensures Ids(AddMatch(mc, classId, name)) == Ids(mc) + {classId}
  {
    if mc == [] {
      IncrementCounts([], name);
    } else if mc[0].classId == classId {
      IncrementCounts(mc[0].counter, name);
    } else {
      AddMatchCounts(mc[1..], classId, name);
    }
  }

  /** Counting a match keeps the table valid. */
  lemma {:induction false} AddMatchValid(mc: seq<ClassCounts>, classId: string, name: string)
    requires ValidCounts(mc)
    ensures ValidCounts(AddMatch(mc, classId, name))
  {
    if mc == [] {
      assert ValidCounter([LabelCount(name, 1)]);
    } else if mc[0].classId == classId {
      IncrementValid(mc[0].counter, name);
    } else {
      AddMatchValid(mc[1..], classId, name);
      AddMatchCounts(mc[1..], classId, name);
    }
  }

}
