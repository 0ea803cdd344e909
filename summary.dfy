/**
 * The final summary of interview_bot.py (lines 116-137): shown only when at
 * least one score is stored, it reports the feedback entries, the scores and
 * their mean, and sorts the mean into one of three bands.
 */
module Summary {
  import opened Wrappers
  import opened Text
  import opened Score
  import opened Questions
  import opened Session

  /** `2^1024 - 2^970`, the least number that rounding to the nearest IEEE 754
      binary64 value (ties to even) sends to infinity: `int / int` in Python
      raises `OverflowError` once the exact quotient reaches it. */
  const FloatOverflow: nat := 0xFF_FFFF_FFFF_FFFC_00_0000000000000000_0000000000000000_0000000000000000_0000000000000000_0000000000000000_0000000000000000_0000000000000000_0000000000000000_0000000000000000_0000000000000000_0000000000000000_0000000000000000_0000000000000000_0000000000000000_0000000000000000

  /** The three overall assessments of lines 132-137. */
  datatype Band = Excellent | Good | KeepPracticing

  /** `sum(scores)`, added left to right: no score exceeds it. */
  function Sum(xs: seq<nat>): (total: nat)
    ensures forall i :: 0 <= i < |xs| ==> xs[i] <= total
  {
    if xs == [] then 0 else Sum(xs[..|xs| - 1]) + xs[|xs| - 1]
  }

  /** The assessment for `total` points over `count` scores, taken from the
      mean as the source does (`avg_score >= 8`, then `avg_score >= 6`),
      with the mean as an exact rational number. The bands are the same
      as comparing `total` with `8 * count` and `6 * count`. */
  function Classify(total: nat, count: nat): (b: Band)
    requires count > 0
    ensures b == Excellent <==> total >= 8 * count
    ensures b == Good <==> 6 * count <= total < 8 * count
    ensures b == KeepPracticing <==> total < 6 * count
  {
    var mean := total as real / count as real;
    MeanAtLeast(total, count, 8);
    MeanAtLeast(total, count, 6);
    if mean >= 8.0 then Excellent
    else if mean >= 6.0 then Good
    else KeepPracticing
  }

  /** The mean reaches a whole-number threshold exactly when the total
      reaches the threshold times the count. */
  lemma MeanAtLeast(total: nat, count: nat, threshold: nat)
    requires count > 0
    ensures total as real / count as real >= threshold as real <==> total >= threshold * count
  {
    var mean := total as real / count as real;
    assert mean * count as real == total as real;
    if mean >= threshold as real {
      assert mean * count as real >= threshold as real * count as real;
    } else {
      assert mean * count as real < threshold as real * count as real;
    }
  }

  /** What the summary shows. */
  datatype Report = Report(feedback: seq<Entry>, scores: seq<nat>, total: nat, count: nat, band: Band)

  /** What pressing "Show Final Summary" leads to: nothing when no score is
      stored, the `OverflowError` of line 118 when the mean is too large for
      a float, and otherwise the summary. */
  datatype Outcome = NotShown | Raises | Shown(report: Report)

  /** "Show Final Summary" (lines 116-137): nothing when no score is stored,
      so the mean is never taken over zero scores; the division of line 118
      raises, before anything is shown, when the mean reaches
      `FloatOverflow`. */
  function Summarize(s: State): (r: Outcome)
    ensures r.NotShown? <==> s.scores == []
    ensures r.Raises? <==> s.scores != [] && Sum(s.scores) >= FloatOverflow * |s.scores|
    ensures r.Shown? ==> r.report.count == |s.scores| > 0 && r.report.total == Sum(s.scores)
    ensures r.Shown? ==> r.report.feedback == s.feedback && r.report.scores == s.scores
    ensures r.Shown? ==> (r.report.band == Excellent <==> Sum(s.scores) >= 8 * |s.scores|)
    ensures r.Shown? ==> (r.report.band == Good <==> 6 * |s.scores| <= Sum(s.scores) < 8 * |s.scores|)
    ensures r.Shown? ==> (r.report.band == KeepPracticing <==> Sum(s.scores) < 6 * |s.scores|)
  {
    if s.scores == [] then NotShown
    else
      var total, count := Sum(s.scores), |s.scores|;
      MeanAtLeast(total, count, FloatOverflow);
      if total as real / count as real >= FloatOverflow as real then Raises
      else Shown(Report(s.feedback, s.scores, total, count, Classify(total, count)))
  }

  // ---------------------------------------------------------------------------
  // Properties

  /** Appending a score adds it to the total. */
  lemma SumAppend(xs: seq<nat>, x: nat)
    ensures Sum(xs + [x]) == Sum(xs) + x
  {
    assert (xs + [x])[..|xs|] == xs;
  }

  /** A further score at least 8 keeps an excellent summary excellent, and a
      further score below 6 keeps a keep-practising one so. */
  lemma BandsStable(xs: seq<nat>, x: nat)
    requires xs != []
    ensures Classify(Sum(xs), |xs|) == Excellent && x >= 8 ==>
            Classify(Sum(xs + [x]), |xs + [x]|) == Excellent
    ensures Classify(Sum(xs), |xs|) == KeepPracticing && x < 6 ==>
            Classify(Sum(xs + [x]), |xs + [x]|) == KeepPracticing
  {
    SumAppend(xs, x);
  }

  /** Scores 8, 6 and 10 have mean 8: excellent. */
  lemma ExampleExcellent()
    ensures Classify(Sum([8, 6, 10]), 3) == Excellent
  {
    assert [8, 6, 10][..2] == [8, 6];
    assert [8, 6][..1] == [8];
  }

  /** Scores 6 and 7 have mean 6.5: good. */
  lemma ExampleGood()
    ensures Classify(Sum([6, 7]), 2) == Good
  {
    assert [6, 7][..1] == [6];
  }

  /** Scores 5 and 5 have mean 5: keep practising. */
  lemma ExampleKeepPracticing()
    ensures Classify(Sum([5, 5]), 2) == KeepPracticing
  {
    assert [5, 5][..1] == [5];
  }

  /** A single score of 810, as "Score: 8/10" yields, among fewer than a
      hundred other scores below `FloatOverflow`, gives a summary that is
      shown with the excellent band. */
  lemma QuirkyScoreDominates(qs: seq<string>, fb: seq<Entry>, xs: seq<nat>)
    requires |xs| < 100
    requires forall i :: 0 <= i < |xs| ==> xs[i] < FloatOverflow
    ensures Classify(Sum(xs + [810]), |xs| + 1) == Excellent
    ensures var r := Summarize(State(qs, fb, xs + [810]));
            r.Shown? && r.report.band == Excellent
  {
    SumAppend(xs, 810);
    var ys := xs + [810];
    assert forall i :: 0 <= i < |ys| ==> ys[i] < FloatOverflow by {
      forall i | 0 <= i < |ys| ensures ys[i] < FloatOverflow {
        if i < |xs| { assert ys[i] == xs[i]; }
      }
    }
    ScoresBelowOverflowShown(State(qs, fb, ys));
  }

  /** Scores that are each below `FloatOverflow`, such as any score an
      honest "x/10" line yields, always give a summary. */
  lemma {:induction false} ScoresBelowOverflowShown(s: State)
    requires s.scores != []
    requires forall i :: 0 <= i < |s.scores| ==> s.scores[i] < FloatOverflow
    ensures Summarize(s).Shown?
  {
    SumBelow(s.scores, FloatOverflow);
  }

  /** Each of `n` scores below `m` keeps the sum below `m * n`. */
  lemma {:induction false} SumBelow(xs: seq<nat>, m: nat)
    requires xs != []
    requires forall i :: 0 <= i < |xs| ==> xs[i] < m
    ensures Sum(xs) < m * |xs|
  {
    var init, last := xs[..|xs| - 1], xs[|xs| - 1];
    if init != [] {
      assert forall i :: 0 <= i < |init| ==> init[i] == xs[i];
      SumBelow(init, m);
    }
    assert m * |xs| == m * |init| + m;
  }

  /** The score extractor accepts a score as large as `FloatOverflow`, so a
      consistent session reached by one feedback request can make the summary
      raise instead of showing. */
  lemma HugeScoreRaises(n: nat)
    requires n >= FloatOverflow
    ensures var s := Answered(State(["Q"], [], []), 0, "A", "score: " + Decimal(n));
            Consistent(s) && Summarize(s).Raises?
  {
    StrippedQuestion("Q");
    AnyScoreCanBeRecorded(n);
    var s := Answered(State(["Q"], [], []), 0, "A", "score: " + Decimal(n));
    assert s.scores == [n];
    assert s.scores[..0] == [];
  }
}
