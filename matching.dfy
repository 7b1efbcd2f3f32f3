/**
 * The greedy box matcher, `match_boxes`. Every (original, YOLO) index pair whose
 * IoU clears the threshold is a candidate `(iou, o_idx, y_idx)`; the candidates
 * are sorted in descending tuple order (IoU first, then the larger original
 * index, then the larger YOLO index) and walked once, each pair accepted when
 * neither of its indices is claimed yet.
 */
module Matching {

  import opened Geometry
  import opened Loaders

  datatype Candidate = Candidate(iou: real, o: nat, y: nat)

  /** An accepted pairing `(o_idx, y_idx)`. */
  datatype Pair = Pair(o: nat, y: nat)

  /** Python's `>` on the tuple `(iou, o_idx, y_idx)`. */
  predicate Above(a: Candidate, b: Candidate)
  {
    a.iou > b.iou || (a.iou == b.iou && (a.o > b.o || (a.o == b.o && a.y > b.y)))
  }

  predicate StrictlyDescending(cs: seq<Candidate>)
  {
    forall i, j :: 0 <= i < j < |cs| ==> Above(cs[i], cs[j])
  }

  predicate NoDuplicates(cs: seq<Candidate>)
  {
    forall i, j :: 0 <= i < j < |cs| ==> cs[i] != cs[j]
  }

  /** The candidate for original `o` and YOLO box `y`. */
  function CandidateFor(originals: seq<BoxRecord>, yolo: seq<ClassBox>, o: nat, y: nat): Candidate
    requires o < |originals| && y < |yolo|
  {
    Candidate(Iou(originals[o].box, yolo[y].box), o, y)
  }

  /** The IoU of every (original, YOLO) pair: row `o` holds `compute_iou` of
      original `o` against each YOLO box in turn. */
  function Scores(originals: seq<BoxRecord>, yolo: seq<ClassBox>): (rows: seq<seq<real>>)
    ensures |rows| == |originals|
    ensures forall o :: 0 <= o < |rows| ==> |rows[o]| == |yolo|
  {
    seq(|originals|, o requires 0 <= o < |originals| =>
      seq(|yolo|, y requires 0 <= y < |yolo| => Iou(originals[o].box, yolo[y].box)))
  }

  /** `c` is an above-threshold pair of in-range indices with its own IoU. */
  predicate IsPairCandidate(originals: seq<BoxRecord>, yolo: seq<ClassBox>, minIou: real, c: Candidate)
  {
    c.o < |originals| && c.y < |yolo| && c.iou == Iou(originals[c.o].box, yolo[c.y].box) && c.iou >= minIou
  }

  lemma ScoreAt(originals: seq<BoxRecord>, yolo: seq<ClassBox>, o: nat, y: nat)
    requires o < |originals| && y < |yolo|
    ensures Scores(originals, yolo)[o][y] == Iou(originals[o].box, yolo[y].box)
  {
  }

  /** `c` is an above-threshold entry of the score table, carrying its own score. */
  predicate IsCandidate(rows: seq<seq<real>>, minIou: real, c: Candidate)
  {
    c.o < |rows| && c.y < |rows[c.o]| && c.iou == rows[c.o][c.y] && c.iou >= minIou
  }

  /** Candidates of row `o` among its first `n` scores, in index order. */
  function RowCandidates(row: seq<real>, o: nat, n: nat, minIou: real): seq<Candidate>
    requires n <= |row|
  {
    if n == 0 then []
    else RowCandidates(row, o, n - 1, minIou) + (if row[n - 1] >= minIou then [Candidate(row[n - 1], o, n - 1)] else [])
  }

  /** Candidates of the first `m` rows, row by row (the nested loops' order). */
  function CandidatesUpTo(rows: seq<seq<real>>, m: nat, minIou: real): seq<Candidate>
    requires m <= |rows|
  {
    if m == 0 then []
    else CandidatesUpTo(rows, m - 1, minIou) + RowCandidates(rows[m - 1], m - 1, |rows[m - 1]|, minIou)
  }

  lemma {:induction false} RowCandidatesMembers(rows: seq<seq<real>>, o: nat, n: nat, minIou: real)
    requires o < |rows| && n <= |rows[o]|
    ensures forall c :: c in RowCandidates(rows[o], o, n, minIou) <==>
      IsCandidate(rows, minIou, c) && c.o == o && c.y < n
  {
    if n > 0 {
      RowCandidatesMembers(rows, o, n - 1, minIou);
    }
  }

  lemma {:induction false} RowCandidatesAscending(row: seq<real>, o: nat, n: nat, minIou: real)
    requires n <= |row|
    ensures forall i :: 0 <= i < |RowCandidates(row, o, n, minIou)| ==> RowCandidates(row, o, n, minIou)[i].y < n
    ensures forall i, j :: 0 <= i < j < |RowCandidates(row, o, n, minIou)| ==>
      RowCandidates(row, o, n, minIou)[i].y < RowCandidates(row, o, n, minIou)[j].y
  {
    if n > 0 {
      RowCandidatesAscending(row, o, n - 1, minIou);
      var prev := RowCandidates(row, o, n - 1, minIou);
      var last := if row[n - 1] >= minIou then [Candidate(row[n - 1], o, n - 1)] else [];
      var cs := RowCandidates(row, o, n, minIou);
      assert cs == prev + last;
      forall i | 0 <= i < |cs| ensures cs[i].y < n && (i < |prev| ==> cs[i] == prev[i] && cs[i].y < n - 1) {
        if i >= |prev| { assert cs[i] == last[i - |prev|]; }
      }
    }
  }

  lemma {:induction false} CandidatesUpToMembers(rows: seq<seq<real>>, m: nat, minIou: real)
    requires m <= |rows|
    ensures forall c :: c in CandidatesUpTo(rows, m, minIou) <==> IsCandidate(rows, minIou, c) && c.o < m
  {
    if m > 0 {
      CandidatesUpToMembers(rows, m - 1, minIou);
      RowCandidatesMembers(rows, m - 1, |rows[m - 1]|, minIou);
    }
  }

  lemma {:induction false} CandidatesUpToDistinct(rows: seq<seq<real>>, m: nat, minIou: real)
    requires m <= |rows|
    ensures NoDuplicates(CandidatesUpTo(rows, m, minIou))
  {
    if m > 0 {
      CandidatesUpToDistinct(rows, m - 1, minIou);
      CandidatesUpToMembers(rows, m - 1, minIou);
      RowCandidatesMembers(rows, m - 1, |rows[m - 1]|, minIou);
      RowCandidatesAscending(rows[m - 1], m - 1, |rows[m - 1]|, minIou);
      var prev := CandidatesUpTo(rows, m - 1, minIou);
      var row := RowCandidates(rows[m - 1], m - 1, |rows[m - 1]|, minIou);
      var cs := prev + row;
      forall i, j | 0 <= i < j < |cs| ensures cs[i] != cs[j] {
        if j < |prev| {
          assert cs[i] == prev[i] && cs[j] == prev[j];
        } else if i < |prev| {
          assert cs[i] == prev[i] && cs[j] == row[j - |prev|];
          assert cs[i] in prev && cs[j] in row;
        } else {
          assert cs[i] == row[i - |prev|] && cs[j] == row[j - |prev|];
          assert cs[i].y < cs[j].y;
        }
      }
    }
  }

  /** The candidate list the nested loops of `match_boxes` build. */
  function Candidates(originals: seq<BoxRecord>, yolo: seq<ClassBox>, minIou: real): seq<Candidate>
  {
    CandidatesUpTo(Scores(originals, yolo), |originals|, minIou)
  }

  /** Places `c` in a descending sequence. */
  function Insert(c: Candidate, s: seq<Candidate>): (r: seq<Candidate>)
    ensures multiset(r) == multiset(s) + multiset{c}
  {
    if s == [] || Above(c, s[0]) then [c] + s
    else
      assert s == [s[0]] + s[1..];
      [s[0]] + Insert(c, s[1..])
  }

  /** `candidates.sort(reverse=True)`. */
  function SortDescending(cs: seq<Candidate>): (r: seq<Candidate>)
    ensures multiset(r) == multiset(cs)
  {
    if cs == [] then []
    else
      assert cs == [cs[0]] + cs[1..];
      Insert(cs[0], SortDescending(cs[1..]))
  }

  lemma AboveTotal(a: Candidate, b: Candidate)
    ensures a == b || Above(a, b) || Above(b, a)
  {
  }

  lemma AboveTransitive(a: Candidate, b: Candidate, c: Candidate)
    requires Above(a, b) && Above(b, c)
    ensures Above(a, c)
  {
  }

  lemma {:induction false} InsertDescending(c: Candidate, s: seq<Candidate>)
    requires StrictlyDescending(s) && c !in s
    ensures StrictlyDescending(Insert(c, s))
  {
    if s != [] && !Above(c, s[0]) {
      AboveTotal(c, s[0]);
      InsertDescending(c, s[1..]);
      var r := Insert(c, s[1..]);
      assert multiset(r) == multiset(s[1..]) + multiset{c};
      forall j | 0 <= j < |r| ensures Above(s[0], r[j]) {
        assert r[j] in multiset(r);
        if r[j] != c {
          assert r[j] in s[1..];
        }
      }
    }
  }

  /** Sorting candidates without duplicates gives the one strictly descending
      arrangement of the same candidates. */
  lemma {:induction false} SortDescendingSound(cs: seq<Candidate>)
    requires NoDuplicates(cs)
    ensures StrictlyDescending(SortDescending(cs))
    ensures multiset(SortDescending(cs)) == multiset(cs)
  {
    if cs != [] {
      var tail := cs[1..];
      assert NoDuplicates(tail) by {
        forall i, j | 0 <= i < j < |tail| ensures tail[i] != tail[j] { assert tail[i] == cs[i + 1]; }
      }
      SortDescendingSound(tail);
      var s := SortDescending(tail);
      assert cs[0] !in tail by {
        forall j | 0 <= j < |tail| ensures tail[j] != cs[0] { assert tail[j] == cs[j + 1]; }
      }
      assert cs[0] !in s by {
        assert multiset(s) == multiset(tail);
        assert cs[0] !in multiset(tail);
      }
      InsertDescending(cs[0], s);
    }
  }

  /** The claimed original indices, `{o_idx for o_idx, _ in matches}`. */
  function Origs(ms: seq<Pair>): set<nat>
  {
    if ms == [] then {} else Origs(ms[..|ms| - 1]) + {ms[|ms| - 1].o}
  }

  /** The claimed YOLO indices, `{y_idx for _, y_idx in matches}`. */
  function Yolos(ms: seq<Pair>): set<nat>
  {
    if ms == [] then {} else Yolos(ms[..|ms| - 1]) + {ms[|ms| - 1].y}
  }

  lemma {:induction false} ClaimedMembers(ms: seq<Pair>)
    ensures forall x :: x in Origs(ms) <==> exists i :: 0 <= i < |ms| && ms[i].o == x
    ensures forall x :: x in Yolos(ms) <==> exists i :: 0 <= i < |ms| && ms[i].y == x
  {
    if ms != [] {
      var init := ms[..|ms| - 1];
      ClaimedMembers(init);
      forall x | exists i :: 0 <= i < |ms| && ms[i].o == x ensures x in Origs(ms) {
        var i :| 0 <= i < |ms| && ms[i].o == x;
        if i < |init| { assert init[i].o == x; }
      }
      forall x | exists i :: 0 <= i < |ms| && ms[i].y == x ensures x in Yolos(ms) {
        var i :| 0 <= i < |ms| && ms[i].y == x;
        if i < |init| { assert init[i].y == x; }
      }
    }
  }

  predicate IsPrefix(a: seq<Pair>, b: seq<Pair>)
  {
    |a| <= |b| && a == b[..|a|]
  }

  /** The greedy walk over candidates already in order. */
  function Greedy(cs: seq<Candidate>): seq<Pair>
  {
    if cs == [] then []
    else
      var prev := Greedy(cs[..|cs| - 1]);
      var c := cs[|cs| - 1];
      if c.o in Origs(prev) || c.y in Yolos(prev) then prev else prev + [Pair(c.o, c.y)]
  }

  /** `match_boxes`, as a value. */
  function Match(originals: seq<BoxRecord>, yolo: seq<ClassBox>, minIou: real): seq<Pair>
  {
    Greedy(SortDescending(Candidates(originals, yolo, minIou)))
  }

  predicate OneToOne(ms: seq<Pair>)
  {
    forall i, j :: 0 <= i < j < |ms| ==> ms[i].o != ms[j].o && ms[i].y != ms[j].y
  }

  /** Each accepted pair comes from a candidate, and no index is claimed twice. */
  lemma {:induction false} GreedySound(cs: seq<Candidate>)
    ensures OneToOne(Greedy(cs))
    ensures forall p :: p in Greedy(cs) ==> exists k :: 0 <= k < |cs| && cs[k].o == p.o && cs[k].y == p.y
  {
    if cs != [] {
      var init := cs[..|cs| - 1];
      GreedySound(init);
      var prev := Greedy(init);
      var c := cs[|cs| - 1];
      if !(c.o in Origs(prev) || c.y in Yolos(prev)) {
        var ms := prev + [Pair(c.o, c.y)];
        ClaimedMembers(prev);
        forall i, j | 0 <= i < j < |ms| ensures ms[i].o != ms[j].o && ms[i].y != ms[j].y {
          if j == |prev| {
            assert ms[i] == prev[i];
          }
        }
      }
      forall p | p in Greedy(cs) ensures exists k :: 0 <= k < |cs| && cs[k].o == p.o && cs[k].y == p.y {
        if p in prev {
          var k :| 0 <= k < |init| && init[k].o == p.o && init[k].y == p.y;
          assert cs[k] == init[k];
        } else {
          assert cs[|cs| - 1].o == p.o;
        }
      }
    }
  }

  /** The pairs accepted after the first `k` candidates start the final answer. */
  lemma {:induction false} GreedyPrefix(cs: seq<Candidate>, k: nat)
    requires k <= |cs|
    ensures IsPrefix(Greedy(cs[..k]), Greedy(cs))
    decreases |cs| - k
  {
    if k < |cs| {
      GreedyPrefix(cs, k + 1);
      assert cs[..k + 1][..k] == cs[..k];
      var a, b, c := Greedy(cs[..k]), Greedy(cs[..k + 1]), Greedy(cs);
      assert IsPrefix(a, b);
      assert b == c[..|b|];
      assert a == b[..|a|] == c[..|b|][..|a|] == c[..|a|];
    } else {
      assert cs[..k] == cs;
    }
  }

  /** One step of the walk: candidate `k` is accepted unless one of its indices
      is already claimed. */
  lemma GreedyStep(cs: seq<Candidate>, k: nat)
    requires k < |cs|
    ensures var before := Greedy(cs[..k]);
      Greedy(cs[..k + 1]) ==
        if cs[k].o in Origs(before) || cs[k].y in Yolos(before) then before
        else before + [Pair(cs[k].o, cs[k].y)]
  {
    assert cs[..k + 1][..k] == cs[..k];
  }

  /** A candidate none of whose indices is claimed by the pairs accepted before
      it ends up in the answer. */
  lemma GreedyAccepts(cs: seq<Candidate>, k: nat)
    requires k < |cs|
    ensures var before := Greedy(cs[..k]);
      !(cs[k].o in Origs(before) || cs[k].y in Yolos(before)) ==> Pair(cs[k].o, cs[k].y) in Greedy(cs)
  {
    var before := Greedy(cs[..k]);
    GreedyStep(cs, k);
    if !(cs[k].o in Origs(before) || cs[k].y in Yolos(before)) {
      GreedyPrefix(cs, k + 1);
      var after, all := Greedy(cs[..k + 1]), Greedy(cs);
      assert after[|before|] == Pair(cs[k].o, cs[k].y);
      assert all[..|after|][|before|] == all[|before|];
      assert all[|before|] in all;
    }
  }

  /** A candidate that is passed over shares an index with a pair accepted
      from an earlier candidate. */
  lemma GreedyBlocked(cs: seq<Candidate>, k: nat)
    requires k < |cs| && Pair(cs[k].o, cs[k].y) !in Greedy(cs)
    ensures cs[k].o in Origs(Greedy(cs[..k])) || cs[k].y in Yolos(Greedy(cs[..k]))
  {
    GreedyAccepts(cs, k);
  }

  /** The candidates are exactly the above-threshold pairs, each once. */
  lemma CandidatesMembership(originals: seq<BoxRecord>, yolo: seq<ClassBox>, minIou: real)
    ensures forall c :: c in Candidates(originals, yolo, minIou) <==> IsPairCandidate(originals, yolo, minIou, c)
    ensures NoDuplicates(Candidates(originals, yolo, minIou))
  {
    var rows := Scores(originals, yolo);
    CandidatesUpToMembers(rows, |originals|, minIou);
    CandidatesUpToDistinct(rows, |originals|, minIou);
    forall c ensures IsCandidate(rows, minIou, c) <==> IsPairCandidate(originals, yolo, minIou, c) {
      if c.o < |originals| && c.y < |yolo| {
        ScoreAt(originals, yolo, c.o, c.y);
      }
    }
  }

  /** The sorted candidates: strictly descending and exactly the candidates. */
  lemma SortedCandidates(originals: seq<BoxRecord>, yolo: seq<ClassBox>, minIou: real)
    ensures var s := SortDescending(Candidates(originals, yolo, minIou));
      StrictlyDescending(s) && forall c :: c in s <==> IsPairCandidate(originals, yolo, minIou, c)
  {
    var cs := Candidates(originals, yolo, minIou);
    CandidatesMembership(originals, yolo, minIou);
    SortDescendingSound(cs);
    var s := SortDescending(cs);
    forall c ensures c in s <==> c in cs {
      assert c in s <==> c in multiset(s);
      assert c in cs <==> c in multiset(cs);
    }
  }

  /** One-to-one and threshold respect: no original or YOLO index is used twice,
      and every pair is in range with an IoU of at least the threshold. */
  lemma MatchSound(originals: seq<BoxRecord>, yolo: seq<ClassBox>, minIou: real)
    ensures OneToOne(Match(originals, yolo, minIou))
    ensures forall p :: p in Match(originals, yolo, minIou) ==>
      p.o < |originals| && p.y < |yolo| && Iou(originals[p.o].box, yolo[p.y].box) >= minIou
  {
    var s := SortDescending(Candidates(originals, yolo, minIou));
    SortedCandidates(originals, yolo, minIou);
    GreedySound(s);
    forall p | p in Match(originals, yolo, minIou)
      ensures p.o < |originals| && p.y < |yolo| && Iou(originals[p.o].box, yolo[p.y].box) >= minIou
    {
      var k :| 0 <= k < |s| && s[k].o == p.o && s[k].y == p.y;
      assert IsPairCandidate(originals, yolo, minIou, s[k]);
    }
  }

  /** A candidate passed over by the walk is blocked by an accepted pair that
      comes from an earlier candidate sharing one of its indices. */
  lemma GreedyBlockedBy(cs: seq<Candidate>, k: nat) returns (i: nat)
    requires k < |cs| && Pair(cs[k].o, cs[k].y) !in Greedy(cs)
    ensures i < k && Pair(cs[i].o, cs[i].y) in Greedy(cs) && (cs[i].o == cs[k].o || cs[i].y == cs[k].y)
  {
    GreedyBlocked(cs, k);
    var before := Greedy(cs[..k]);
    GreedySound(cs[..k]);
    GreedyPrefix(cs, k);
    ClaimedMembers(before);
    var j :| 0 <= j < |before| && (before[j].o == cs[k].o || before[j].y == cs[k].y);
    var q := before[j];
    i :| 0 <= i < k && cs[..k][i].o == q.o && cs[..k][i].y == q.y;
    assert cs[i] == cs[..k][i];
    assert Greedy(cs)[j] == q;
  }

  /** Greedy maximality: an above-threshold pair that was not chosen shares an
      index with a chosen pair that comes before it in descending
      `(iou, o_idx, y_idx)` order. */
  lemma MatchGreedyMaximal(originals: seq<BoxRecord>, yolo: seq<ClassBox>, minIou: real, o: nat, y: nat)
    requires o < |originals| && y < |yolo|
    requires Iou(originals[o].box, yolo[y].box) >= minIou
    requires Pair(o, y) !in Match(originals, yolo, minIou)
    ensures exists p :: p in Match(originals, yolo, minIou) && (p.o == o || p.y == y) &&
                        p.o < |originals| && p.y < |yolo| &&
                        Above(CandidateFor(originals, yolo, p.o, p.y), CandidateFor(originals, yolo, o, y))
  {
    var s := SortDescending(Candidates(originals, yolo, minIou));
    SortedCandidates(originals, yolo, minIou);
    var c := CandidateFor(originals, yolo, o, y);
    assert IsPairCandidate(originals, yolo, minIou, c);
    var k :| 0 <= k < |s| && s[k] == c;
    var i := GreedyBlockedBy(s, k);
    assert IsPairCandidate(originals, yolo, minIou, s[i]);
    assert Above(s[i], s[k]);
    assert Pair(s[i].o, s[i].y) in Match(originals, yolo, minIou);
  }

  /** The head of a strictly descending sequence is above every other element,
      and the tail holds exactly the other elements. */
  lemma HeadAbove(s: seq<Candidate>)
    requires StrictlyDescending(s) && s != []
    ensures forall c :: c in s && c != s[0] ==> Above(s[0], c)
    ensures forall c :: c in s[1..] <==> c in s && c != s[0]
  {
    forall c | c in s && c != s[0] ensures Above(s[0], c) {
      var k :| 0 <= k < |s| && s[k] == c;
    }
    forall c | c in s[1..] ensures c != s[0] {
      var k :| 0 <= k < |s[1..]| && s[1..][k] == c;
      assert Above(s[0], s[k + 1]);
    }
    assert s == [s[0]] + s[1..];
  }

  lemma HeadMember(s: seq<Candidate>)
    ensures s != [] ==> s[0] in s
  {
  }

  /** Two strictly descending sequences with the same elements are equal: the
      descending arrangement of a set of candidates is unique. */
  lemma {:induction false} DescendingUnique(a: seq<Candidate>, b: seq<Candidate>)
    requires StrictlyDescending(a) && StrictlyDescending(b)
    requires forall c :: c in a <==> c in b
    ensures a == b
    decreases |a|
  {
    if a != [] {
      assert a[0] in b && b[0] in a;
      HeadAbove(a);
      HeadAbove(b);
      assert a[0] == b[0];
      DescendingUnique(a[1..], b[1..]);
      assert a == [a[0]] + a[1..] && b == [b[0]] + b[1..];
    } else {
      HeadMember(b);
    }
  }

  /** In a strictly descending sequence the candidates at or above a threshold
      come first. */
  lemma ThresholdSplit(s: seq<Candidate>, t: real) returns (k: nat)
    requires StrictlyDescending(s)
    ensures k <= |s|
    ensures forall i :: 0 <= i < k ==> s[i].iou >= t
    ensures forall i :: k <= i < |s| ==> s[i].iou < t
  {
    k := 0;
    while k < |s| && s[k].iou >= t
      invariant k <= |s|
      invariant forall i :: 0 <= i < k ==> s[i].iou >= t
    {
      k := k + 1;
    }
    forall i | k < i < |s| ensures s[i].iou < t {
      assert Above(s[k], s[i]);
    }
  }

  /** Raising the threshold can only shorten the answer: the pairs matched at the
      higher threshold are the first pairs matched at the lower one. */
  lemma MatchMonotone(originals: seq<BoxRecord>, yolo: seq<ClassBox>, lo: real, hi: real)
    requires lo <= hi
    ensures IsPrefix(Match(originals, yolo, hi), Match(originals, yolo, lo))
  {
    var s := SortDescending(Candidates(originals, yolo, lo));
    var t := SortDescending(Candidates(originals, yolo, hi));
    SortedCandidates(originals, yolo, lo);
    SortedCandidates(originals, yolo, hi);
    var k := ThresholdSplit(s, hi);
    var head := s[..k];
    assert StrictlyDescending(head);
    forall c ensures c in head <==> c in t {
      if c in head {
        var i :| 0 <= i < k && head[i] == c;
        assert s[i] == c && c in s;
        assert IsPairCandidate(originals, yolo, hi, c);
      }
      if c in t {
        assert IsPairCandidate(originals, yolo, lo, c);
        var i :| 0 <= i < |s| && s[i] == c;
        assert i < k;
        assert head[i] == c;
      }
    }
    DescendingUnique(head, t);
    GreedyPrefix(s, k);
  }

  lemma OrigsAppend(ms: seq<Pair>, p: Pair)
    ensures Origs(ms + [p]) == Origs(ms) + {p.o}
    ensures Yolos(ms + [p]) == Yolos(ms) + {p.y}
  {
    assert (ms + [p])[..|ms|] == ms;
  }

  /** The nested loops of `match_boxes`: every pair of indices whose IoU clears the
      threshold, in row order. */
  method CollectCandidates(originals: seq<BoxRecord>, yoloBoxes: seq<ClassBox>, minIou: real)
    returns (candidates: seq<Candidate>)
    ensures candidates == Candidates(originals, yoloBoxes, minIou)
  {
    ghost var rows := Scores(originals, yoloBoxes);
    candidates := [];
    var oIdx := 0;
    while oIdx < |originals|
      invariant 0 <= oIdx <= |originals|
      invariant candidates == CandidatesUpTo(rows, oIdx, minIou)
    {
      var yIdx := 0;
      while yIdx < |yoloBoxes|
        invariant 0 <= yIdx <= |yoloBoxes|
        invariant candidates == CandidatesUpTo(rows, oIdx, minIou) + RowCandidates(rows[oIdx], oIdx, yIdx, minIou)
      {
        var iou := Iou(originals[oIdx].box, yoloBoxes[yIdx].box);
        ScoreAt(originals, yoloBoxes, oIdx, yIdx);
        if iou >= minIou {
          candidates := candidates + [Candidate(iou, oIdx, yIdx)];
        }
        yIdx := yIdx + 1;
      }
      oIdx := oIdx + 1;
    }
  }

  /** The greedy loop of `match_boxes` over the sorted candidates: a pair is
      accepted when neither index is in the claimed sets yet. */
  method ClaimGreedily(candidates: seq<Candidate>) returns (matches: seq<Pair>)
    ensures matches == Greedy(candidates)
  {
    var matchedOrig: set<nat> := {};
    var matchedYolo: set<nat> := {};
    matches := [];
    var k := 0;
    while k < |candidates|
      invariant 0 <= k <= |candidates|
      invariant matches == Greedy(candidates[..k])
      invariant matchedOrig == Origs(matches) && matchedYolo == Yolos(matches)
    {
      var c := candidates[k];
      GreedyStep(candidates, k);
      k := k + 1;
      if c.o in matchedOrig || c.y in matchedYolo {
        continue;
      }
      OrigsAppend(matches, Pair(c.o, c.y));
      matchedOrig := matchedOrig + {c.o};
      matchedYolo := matchedYolo + {c.y};
      matches := matches + [Pair(c.o, c.y)];
    }
    assert candidates[..|candidates|] == candidates;
  }

  /** `match_boxes`: collects the candidates, sorts them in descending order,
      then claims indices greedily. */
  method MatchBoxes(originals: seq<BoxRecord>, yoloBoxes: seq<ClassBox>, minIou: real)
    returns (matches: seq<Pair>)
    ensures matches == Match(originals, yoloBoxes, minIou)
    ensures OneToOne(matches)
    ensures forall k :: 0 <= k < |matches| ==>
      matches[k].o < |originals| && matches[k].y < |yoloBoxes| &&
      Iou(originals[matches[k].o].box, yoloBoxes[matches[k].y].box) >= minIou
  {
    var candidates := CollectCandidates(originals, yoloBoxes, minIou);
    candidates := SortDescending(candidates);
    matches := ClaimGreedily(candidates);
    MatchSound(originals, yoloBoxes, minIou);
    assert forall k :: 0 <= k < |matches| ==> matches[k] in matches;
  }

}
