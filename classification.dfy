/**
 * `evaluate_classification.py`: each sample (a relative image path and
 * whether the detector found anything in it) gets a ground-truth label from
 * two path patterns and an unmatched policy, the labelled samples are tallied
 * into a confusion matrix, the others by the reason they were skipped, and the
 * matrix gives five guarded ratios. A compiled regular expression is modelled
 * by what its `search` answers for a path: a predicate on strings.
 */
module Classification {

  import opened Wrappers

  /** `--unmatched-policy`: "skip", "positive" or "negative". */
  datatype Policy = SkipUnmatched | AssumePositive | AssumeNegative

  /** The reason string `assign_label` returns next to the label. */
  datatype Reason = Conflict | PositiveMatch | NegativeMatch | FallbackPos | FallbackNeg | Unmatched

  type Pattern = string -> bool

  /** `bool(negative_regex.search(p)) if negative_regex else False`. */
  predicate NegativeMatches(negative: Option<Pattern>, path: string)
  {
    negative.Some? && negative.value(path)
  }

  /** `assign_label`: the ground-truth label of a path (`None` when the sample is
      skipped) and the reason. */
  function AssignLabel(path: string, positive: Pattern, negative: Option<Pattern>, policy: Policy): (Option<bool>, Reason)
  {
    var pos := positive(path);
    var neg := NegativeMatches(negative, path);
    if pos && neg then (None, Conflict)
    else if pos then (Some(true), PositiveMatch)
    else if neg then (Some(false), NegativeMatch)
    else if policy == AssumePositive then (Some(true), FallbackPos)
    else if policy == AssumeNegative then (Some(false), FallbackNeg)
    else (None, Unmatched)
  }

  /** A sample is in conflict exactly when both patterns match it, and a
      conflict is never labelled. */
  lemma ConflictExactly(path: string, positive: Pattern, negative: Option<Pattern>, policy: Policy)
    ensures AssignLabel(path, positive, negative, policy).1 == Conflict <==>
            positive(path) && negative.Some? && negative.value(path)
    ensures AssignLabel(path, positive, negative, policy).1 == Conflict ==>
            AssignLabel(path, positive, negative, policy).0 == None
  {
  }

  /** A match of exactly one pattern decides the label, whatever the policy; an
      absent negative pattern behaves as one that matches nothing. */
  lemma SingleMatchDecides(path: string, positive: Pattern, negative: Option<Pattern>, policy: Policy)
    ensures positive(path) && !NegativeMatches(negative, path) ==>
            AssignLabel(path, positive, negative, policy) == (Some(true), PositiveMatch)
    ensures !positive(path) && NegativeMatches(negative, path) ==>
            AssignLabel(path, positive, negative, policy) == (Some(false), NegativeMatch)
    ensures AssignLabel(path, positive, None, policy) == AssignLabel(path, positive, Some(_ => false), policy)
  {
  }

  /** A sample that matches neither pattern is labelled by the policy. */
  lemma UnmatchedFollowsPolicy(path: string, positive: Pattern, negative: Option<Pattern>, policy: Policy)
    requires !positive(path) && !NegativeMatches(negative, path)
    ensures AssignLabel(path, positive, negative, policy) ==
      match policy
      case AssumePositive => (Some(true), FallbackPos)
      case AssumeNegative => (Some(false), FallbackNeg)
      case SkipUnmatched => (None, Unmatched)
  {
  }

  /** The label is missing only for a conflict or an unmatched sample under the
      skip policy, and a present label agrees with its reason. */
  lemma LabelAgreesWithReason(path: string, positive: Pattern, negative: Option<Pattern>, policy: Policy)
    ensures var decision := AssignLabel(path, positive, negative, policy);
      var truth := decision.0;
      var reason := decision.1;
      (truth == None <==> reason == Conflict || reason == Unmatched) &&
      (reason == Unmatched ==> policy == SkipUnmatched) &&
      (truth == Some(true) <==> reason == PositiveMatch || reason == FallbackPos) &&
      (truth == Some(false) <==> reason == NegativeMatch || reason == FallbackNeg)
  {
  }

  /** The confusion matrix `counts["tp"]`, `counts["fn"]`, `counts["fp"]`, `counts["tn"]`. */
  datatype Confusion = Confusion(tp: nat, fn: nat, fp: nat, tn: nat)

  function Used(c: Confusion): nat
  {
    c.tp + c.tn + c.fp + c.fn
  }

  /** `skipped[reason]` of a `Counter`: zero for a reason never counted. */
  function Get(skipped: map<Reason, nat>, reason: Reason): nat
  {
    if reason in skipped then skipped[reason] else 0
  }

  /** One sample of the tally: a skipped sample adds one to its reason, a
      labelled one to the cell of (truth, predicted). */
  function TallyOne(c: Confusion, skipped: map<Reason, nat>, truth: Option<bool>, reason: Reason, predicted: bool)
    : (Confusion, map<Reason, nat>)
  {
    if truth == None then (c, skipped[reason := Get(skipped, reason) + 1])
    else if truth.value && predicted then (c.(tp := c.tp + 1), skipped)
    else if truth.value && !predicted then (c.(fn := c.fn + 1), skipped)
    else if !truth.value && predicted then (c.(fp := c.fp + 1), skipped)
    else (c.(tn := c.tn + 1), skipped)
  }

  /** The tally over the samples in order. */
  function Tally(samples: seq<(string, bool)>, positive: Pattern, negative: Option<Pattern>, policy: Policy)
    : (Confusion, map<Reason, nat>)
  {
    if samples == [] then (Confusion(0, 0, 0, 0), map[])
    else
      var before := Tally(samples[..|samples| - 1], positive, negative, policy);
      var sample := samples[|samples| - 1];
      var decision := AssignLabel(sample.0, positive, negative, policy);
      TallyOne(before.0, before.1, decision.0, decision.1, sample.1)
  }

  /** The number of samples labelled `truth` whose prediction is `predicted`. */
  function CellCount(samples: seq<(string, bool)>, positive: Pattern, negative: Option<Pattern>, policy: Policy,
                     truth: bool, predicted: bool): nat
  {
    if samples == [] then 0
    else
      var sample := samples[|samples| - 1];
      CellCount(samples[..|samples| - 1], positive, negative, policy, truth, predicted) +
        (if AssignLabel(sample.0, positive, negative, policy).0 == Some(truth) && sample.1 == predicted then 1 else 0)
  }

  /** The number of samples skipped for `reason`. */
  function SkipCount(samples: seq<(string, bool)>, positive: Pattern, negative: Option<Pattern>, policy: Policy,
                     reason: Reason): nat
  {
    if samples == [] then 0
    else
      var decision := AssignLabel(samples[|samples| - 1].0, positive, negative, policy);
      SkipCount(samples[..|samples| - 1], positive, negative, policy, reason) +
        (if decision.0 == None && decision.1 == reason then 1 else 0)
  }

  /** The cell of the matrix for a (label, prediction) combination. */
  function Cell(c: Confusion, truth: bool, predicted: bool): nat
  {
    if truth then (if predicted then c.tp else c.fn) else (if predicted then c.fp else c.tn)
  }

  lemma {:induction false} TallyCell(samples: seq<(string, bool)>, positive: Pattern, negative: Option<Pattern>, policy: Policy,
                                     truth: bool, predicted: bool)
    ensures Cell(Tally(samples, positive, negative, policy).0, truth, predicted) ==
            CellCount(samples, positive, negative, policy, truth, predicted)
  {
    if samples != [] {
      var init := samples[..|samples| - 1];
      var sample := samples[|samples| - 1];
      TallyCell(init, positive, negative, policy, truth, predicted);
      var before := Tally(init, positive, negative, policy);
      var decision := AssignLabel(sample.0, positive, negative, policy);
      assert Tally(samples, positive, negative, policy) == TallyOne(before.0, before.1, decision.0, decision.1, sample.1);
    }
  }

  /** Each cell of the matrix counts exactly the samples of its (label,
      prediction). */
  lemma TallyCells(samples: seq<(string, bool)>, positive: Pattern, negative: Option<Pattern>, policy: Policy)
    ensures var c := Tally(samples, positive, negative, policy).0;
      c.tp == CellCount(samples, positive, negative, policy, true, true) &&
      c.fn == CellCount(samples, positive, negative, policy, true, false) &&
      c.fp == CellCount(samples, positive, negative, policy, false, true) &&
      c.tn == CellCount(samples, positive, negative, policy, false, false)
  {
    TallyCell(samples, positive, negative, policy, true, true);
    TallyCell(samples, positive, negative, policy, true, false);
    TallyCell(samples, positive, negative, policy, false, true);
    TallyCell(samples, positive, negative, policy, false, false);
  }

  /** Each skip reason counts exactly the samples skipped for it, and only a
      conflict or an unmatched sample is ever skipped. */
  lemma {:induction false} TallySkips(samples: seq<(string, bool)>, positive: Pattern, negative: Option<Pattern>, policy: Policy)
    ensures var skipped := Tally(samples, positive, negative, policy).1;
      (forall r :: Get(skipped, r) == SkipCount(samples, positive, negative, policy, r)) &&
      skipped.Keys <= {Conflict, Unmatched}
  {
    if samples != [] {
      TallySkips(samples[..|samples| - 1], positive, negative, policy);
      LabelAgreesWithReason(samples[|samples| - 1].0, positive, negative, policy);
    }
  }

  /** Every sample is either used in the matrix or skipped for a conflict or for
      matching neither pattern. */
  lemma {:induction false} TallyConserves(samples: seq<(string, bool)>, positive: Pattern, negative: Option<Pattern>, policy: Policy)
    ensures var t := Tally(samples, positive, negative, policy);
      Used(t.0) + Get(t.1, Conflict) + Get(t.1, Unmatched) == |samples|
  {
    if samples != [] {
      TallyConserves(samples[..|samples| - 1], positive, negative, policy);
      LabelAgreesWithReason(samples[|samples| - 1].0, positive, negative, policy);
    }
  }

  /** The tally loop of `main`. */
  method TallySamples(samples: seq<(string, bool)>, positive: Pattern, negative: Option<Pattern>, policy: Policy)
    returns (counts: Confusion, skipped: map<Reason, nat>)
    ensures (counts, skipped) == Tally(samples, positive, negative, policy)
    ensures Used(counts) + Get(skipped, Conflict) + Get(skipped, Unmatched) == |samples|
  {
    counts, skipped := Confusion(0, 0, 0, 0), map[];
    var i := 0;
    while i < |samples|
      invariant 0 <= i <= |samples|
      invariant (counts, skipped) == Tally(samples[..i], positive, negative, policy)
    {
      assert samples[..i + 1][..i] == samples[..i];
      var (relPath, predictedPositive) := samples[i];
      i := i + 1;
      var (truth, reason) := AssignLabel(relPath, positive, negative, policy);
      if truth == None {
        skipped := skipped[reason := Get(skipped, reason) + 1];
        continue;
      }
      if truth.value && predictedPositive {
        counts := counts.(tp := counts.tp + 1);
      } else if truth.value && !predictedPositive {
        counts := counts.(fn := counts.fn + 1);
      } else if !truth.value && predictedPositive {
        counts := counts.(fp := counts.fp + 1);
      } else {
        counts := counts.(tn := counts.tn + 1);
      }
    }
    assert samples[..|samples|] == samples;
    TallyConserves(samples, positive, negative, policy);
  }

  /** `safe`: the quotient, or 0 for a zero divisor. */
  function Safe(dividend: real, divisor: real): (q: real)
    ensures divisor == 0.0 ==> q == 0.0
    ensures divisor != 0.0 ==> q * divisor == dividend
  {
    if divisor != 0.0 then dividend / divisor else 0.0
  }

  datatype Metrics = Metrics(accuracy: real, precision: real, recall: real, specificity: real, f1: real)

  /** `compute_metrics`. */
  function ComputeMetrics(tp: int, fp: int, tn: int, fn: int): Metrics
  {
    var total := tp + fp + tn + fn;
    Metrics(Safe((tp + tn) as real, total as real),
            Safe(tp as real, (tp + fp) as real),
            Safe(tp as real, (tp + fn) as real),
            Safe(tn as real, (tn + fp) as real),
            Safe((2 * tp) as real, (2 * tp + fp + fn) as real))
  }

  /** A part of a whole of non-negative counts is a ratio in [0, 1]. */
  lemma PartOfWhole(part: nat, rest: nat)
    ensures 0.0 <= Safe(part as real, (part + rest) as real) <= 1.0
  {
    if part + rest > 0 {
      var q := Safe(part as real, (part + rest) as real);
      assert q * (part + rest) as real == part as real;
      assert q == part as real / (part + rest) as real;
    }
  }

  /** For counts (never negative), every metric lies in [0, 1]. */
  lemma MetricsInUnitRange(tp: nat, fp: nat, tn: nat, fn: nat)
    ensures var m := ComputeMetrics(tp, fp, tn, fn);
      0.0 <= m.accuracy <= 1.0 && 0.0 <= m.precision <= 1.0 && 0.0 <= m.recall <= 1.0 &&
      0.0 <= m.specificity <= 1.0 && 0.0 <= m.f1 <= 1.0
  {
    PartOfWhole(tp + tn, fp + fn);
    PartOfWhole(tp, fp);
    PartOfWhole(tp, fn);
    PartOfWhole(tn, fp);
    PartOfWhole(2 * tp, fp + fn);
  }

  lemma MulDivCancel(x: real, d: real)
    requires d != 0.0
    ensures (x / d) * d == x
  {
  }

  lemma ScaleEq(x: real, y: real, k: real)
    requires k != 0.0 && x * k == y * k
    ensures x == y
  {
    assert (x - y) * k == 0.0;
  }

  /** The harmonic mean of `t/p` and `t/n` is `2t/(p+n)`. */
  lemma HarmonicOfRatios(t: real, p: real, n: real)
    requires t > 0.0 && p > 0.0 && n > 0.0
    ensures t / p + t / n > 0.0
    ensures 2.0 * (t / p) * (t / n) / (t / p + t / n) == 2.0 * t / (p + n)
  {
    var a, b := t / p, t / n;
    MulDivCancel(t, p);
    MulDivCancel(t, n);
    assert a > 0.0 && b > 0.0;
    var sum := a + b;
    assert sum * (p * n) == t * (p + n) by {
      assert a * (p * n) == (a * p) * n == t * n;
      assert b * (p * n) == (b * n) * p == t * p;
    }
    var h := 2.0 * a * b / sum;
    MulDivCancel(2.0 * a * b, sum);
    assert h * sum == 2.0 * a * b;
    assert (2.0 * a * b) * (p * n) == 2.0 * t * t by {
      assert (2.0 * a * b) * (p * n) == 2.0 * (a * p) * (b * n);
    }
    assert h * (p + n) * t == 2.0 * t * t by {
      calc {
        h * (p + n) * t;
        h * (t * (p + n));
        h * (sum * (p * n));
        (h * sum) * (p * n);
        (2.0 * a * b) * (p * n);
      }
    }
    assert h * (p + n) == 2.0 * t by {
      ScaleEq(h * (p + n), 2.0 * t, t);
    }
    var g := 2.0 * t / (p + n);
    MulDivCancel(2.0 * t, p + n);
    ScaleEq(h, g, p + n);
  }

  /** With at least one true positive, F1 is the harmonic mean of precision and
      recall. */
  lemma F1IsHarmonicMean(tp: nat, fp: nat, tn: nat, fn: nat)
    requires tp > 0
    ensures var m := ComputeMetrics(tp, fp, tn, fn);
      m.precision + m.recall > 0.0 && m.f1 == 2.0 * m.precision * m.recall / (m.precision + m.recall)
  {
    var t, p, n := tp as real, (tp + fp) as real, (tp + fn) as real;
    var m := ComputeMetrics(tp, fp, tn, fn);
    assert m.precision == t / p && m.recall == t / n;
    assert (2 * tp) as real == 2.0 * t && (2 * tp + fp + fn) as real == p + n;
    assert m.f1 == 2.0 * t / (p + n);
    HarmonicOfRatios(t, p, n);
  }

  /** A classifier without a false positive or false negative scores 1 on every
      metric whose class it has seen. */
  lemma PerfectClassifier(tp: nat, tn: nat)
    requires tp > 0 && tn > 0
    ensures ComputeMetrics(tp, 0, tn, 0) == Metrics(1.0, 1.0, 1.0, 1.0, 1.0)
  {
    SafeSelf((tp + tn) as real);
    SafeSelf(tp as real);
    SafeSelf(tn as real);
    SafeSelf((2 * tp) as real);
  }

  lemma SafeSelf(x: real)
    requires x > 0.0
    ensures Safe(x, x) == 1.0
  {
  }

  /** What `main` reports: nothing when no sample was used, the metrics otherwise. */
  function Evaluate(samples: seq<(string, bool)>, positive: Pattern, negative: Option<Pattern>, policy: Policy): Option<Metrics>
  {
    var c := Tally(samples, positive, negative, policy).0;
    if Used(c) == 0 then None else Some(ComputeMetrics(c.tp, c.fp, c.tn, c.fn))
  }

  /** Metrics are reported exactly when some sample was labelled, and then the
      accuracy is the share of labelled samples whose prediction agrees. */
  lemma EvaluateSound(samples: seq<(string, bool)>, positive: Pattern, negative: Option<Pattern>, policy: Policy)
    ensures var agree := CellCount(samples, positive, negative, policy, true, true) +
                         CellCount(samples, positive, negative, policy, false, false);
      var used := agree + CellCount(samples, positive, negative, policy, true, false) +
                  CellCount(samples, positive, negative, policy, false, true);
      (Evaluate(samples, positive, negative, policy).Some? <==> used > 0) &&
      (used > 0 ==> Evaluate(samples, positive, negative, policy).value.accuracy == agree as real / used as real)
  {
    TallyCells(samples, positive, negative, policy);
  }

}
