/**
 * The score extractor of interview_bot.py (lines 97-106): every line of the
 * feedback text whose lower-cased form contains "score" has all its digits
 * joined and parsed; a successful parse overwrites the score found so far, a
 * failed one is swallowed; with nothing found the score is 7.
 */
module Score {
  import opened Wrappers
  import opened Text

  /** The score used when no line yields one. */
  const DefaultScore: nat := 7

  /** The line mentions "score" in any letter case (`'score' in line.lower()`). */
  predicate MentionsScore(line: string) {
    Contains(Lower(line), "score")
  }

  /** What one line contributes: the parse of its joined digits when it
      mentions "score" and the parse succeeds, nothing otherwise. */
  function LineScore(line: string): (r: Option<nat>)
    ensures r.Some? ==> MentionsScore(line) && r.value == DecimalValue(Digits(line))
  {
    if MentionsScore(line) then ParseDigits(Digits(line)) else None
  }

  /** Some line of `lines` yields the score `v`. */
  predicate SomeLineYields(lines: seq<string>, v: nat) {
    exists k :: 0 <= k < |lines| && LineScore(lines[k]) == Some(v)
  }

  lemma YieldsInPrefix(lines: seq<string>, v: nat)
    requires lines != [] && SomeLineYields(lines[..|lines| - 1], v)
    ensures SomeLineYields(lines, v)
  {
    var init := lines[..|lines| - 1];
    var k :| 0 <= k < |init| && LineScore(init[k]) == Some(v);
    assert init[k] == lines[k];
  }

  /** The score left in the variable after scanning `lines` in order, each
      contribution overwriting the one before. Whatever is left is the
      contribution of one of the lines. */
  function LastScore(lines: seq<string>): (r: Option<nat>)
    ensures r.Some? ==> SomeLineYields(lines, r.value)
  {
    if lines == [] then None
    else
      var n := |lines| - 1;
      match LineScore(lines[n])
      case Some(v) => assert LineScore(lines[n]) == Some(v); Some(v)
      case None =>
        var r := LastScore(lines[..n]);
        if r.Some? then YieldsInPrefix(lines, r.value); r else r
  }

  /** The score recorded for a feedback text: the default 7, or the score
      that one of its lines yields. */
  function ScoreOf(feedbackText: string): (score: nat)
    ensures score == DefaultScore || SomeLineYields(Split(feedbackText), score)
  {
    LastScore(Split(feedbackText)).GetOr(DefaultScore)
  }

  /** The scan of lines 97-106, step by step. */
  method ExtractScore(feedbackText: string) returns (score: nat)
    ensures score == ScoreOf(feedbackText)
  {
    var lines := Split(feedbackText);
    var found: Option<nat> := None;
    var i := 0;
    while i < |lines|
      invariant 0 <= i <= |lines|
      invariant found == LastScore(lines[..i])
    {
      var line := lines[i];
      assert lines[..i + 1][..i] == lines[..i];
      if MentionsScore(line) {
        var parsed := ParseDigits(Digits(line));
        // `int('')` raises and the bare `except` keeps the earlier value
        if parsed.Some? {
          found := parsed;
        }
      }
      i := i + 1;
    }
    assert lines[..|lines|] == lines;
    if found.None? {
      score := DefaultScore;
    } else {
      score := found.value;
    }
  }

  // ---------------------------------------------------------------------------
  // What one line yields

  /** A line yields a score exactly when it mentions "score" and holds a
      digit, and the score is the number spelt by all its digits in order. */
  lemma LineScoreIff(line: string)
    ensures LineScore(line).Some? <==>
            MentionsScore(line) && exists k :: 0 <= k < |line| && IsDigit(line[k])
    ensures LineScore(line).Some? ==> LineScore(line).value == DecimalValue(Digits(line))
  {
    DigitsEmptyIff(line);
  }

  /** The quirk of joining all digits: a prefix of the line with digits `d1`
      and a rest with digits `d2` give `d1` shifted left by `|d2|` places plus `d2`,
      so "8" then "10" is eight hundred and ten. */
  lemma DigitsJoinQuirk(a: string, b: string)
    requires MentionsScore(a + b)
    requires Digits(a + b) != []
    ensures LineScore(a + b) ==
            Some(DecimalValue(Digits(a)) * Pow10(|Digits(b)|) + DecimalValue(Digits(b)))
  {
    var da, db := Digits(a), Digits(b);
    DigitsAppend(a, b);
    DecimalValueAppend(da, db);
    MentionedLineScore(a + b);
    var joined := DecimalValue(da + db);
    var shifted := DecimalValue(da) * Pow10(|db|) + DecimalValue(db);
    assert joined == shifted;
  }

  lemma MentionedLineScore(line: string)
    requires MentionsScore(line) && Digits(line) != []
    ensures LineScore(line) == Some(DecimalValue(Digits(line)))
  {
  }

  // ---------------------------------------------------------------------------
  // Which line wins

  /** When line `k` yields a score and no line after it does, its score is
      the result: the last contributing line wins. */
  lemma {:induction false} LastContributorWins(lines: seq<string>, k: nat)
    requires k < |lines| && LineScore(lines[k]).Some?
    requires forall j :: k < j < |lines| ==> LineScore(lines[j]).None?
    ensures LastScore(lines) == LineScore(lines[k])
  {
    if k < |lines| - 1 {
      var init := lines[..|lines| - 1];
      assert forall j :: k < j < |init| ==> init[j] == lines[j];
      LastContributorWins(init, k);
    }
  }

  /** The scan finds nothing exactly when no line contributes. */
  lemma {:induction false} NothingFoundIff(lines: seq<string>)
    ensures LastScore(lines).None? <==> forall j :: 0 <= j < |lines| ==> LineScore(lines[j]).None?
  {
    if lines != [] {
      var init := lines[..|lines| - 1];
      NothingFoundIff(init);
      assert forall j :: 0 <= j < |init| ==> init[j] == lines[j];
    }
  }

  /** Whatever the scan finds came from some contributing line with no
      contributing line after it. */
  lemma {:induction false} FoundComesFromLastContributor(lines: seq<string>)
    requires LastScore(lines).Some?
    ensures exists k :: 0 <= k < |lines| && LineScore(lines[k]) == LastScore(lines) &&
                        forall j :: k < j < |lines| ==> LineScore(lines[j]).None?
  {
    var n := |lines| - 1;
    if LineScore(lines[n]).Some? {
      assert LineScore(lines[n]) == LastScore(lines);
    } else {
      var init := lines[..n];
      FoundComesFromLastContributor(init);
      var k :| 0 <= k < |init| && LineScore(init[k]) == LastScore(init) &&
               forall j :: k < j < |init| ==> LineScore(init[j]).None?;
      assert forall j :: 0 <= j < |init| ==> init[j] == lines[j];
      assert LineScore(lines[k]) == LastScore(lines);
    }
  }

  /** With no line mentioning "score", or none of those holding a digit,
      the recorded score is exactly the default 7. */
  lemma DefaultWhenNothingFound(feedbackText: string)
    requires forall j :: 0 <= j < |Split(feedbackText)| ==>
               var line := Split(feedbackText)[j];
               !MentionsScore(line) || forall k :: 0 <= k < |line| ==> !IsDigit(line[k])
    ensures ScoreOf(feedbackText) == DefaultScore
  {
    var lines := Split(feedbackText);
    forall j | 0 <= j < |lines| ensures LineScore(lines[j]).None? {
      LineScoreIff(lines[j]);
    }
    NothingFoundIff(lines);
  }

  /** A further line that yields a score replaces whatever came before. */
  lemma LaterLineOverrides(before: string, line: string)
    requires '\n' !in line && LineScore(line).Some?
    ensures ScoreOf(before + "\n" + line) == LineScore(line).value
  {
    SplitAppend(before, line);
    SplitSingle(line);
    var lines := Split(before) + [line];
    LastContributorWins(lines, |lines| - 1);
  }

  /** A further line that yields nothing, such as "Score: n/a", leaves the
      score as it was. */
  lemma LaterSilentLineKeeps(before: string, line: string)
    requires '\n' !in line && LineScore(line).None?
    ensures ScoreOf(before + "\n" + line) == ScoreOf(before)
  {
    SplitAppend(before, line);
    SplitSingle(line);
    var lines := Split(before) + [line];
    assert lines[..|lines| - 1] == Split(before);
  }

  /** The score is not bounded by 10: any natural number can be recorded. */
  lemma AnyScoreCanBeRecorded(n: nat)
    ensures ScoreOf("score: " + Decimal(n)) == n
  {
    var d := Decimal(n);
    var text := "score: " + d;
    assert '\n' !in d;
    assert '\n' !in text by {
      assert forall k :: 0 <= k < |text| ==> text[k] == (if k < 7 then "score: "[k] else d[k - 7]);
    }
    SplitSingle(text);
    LowerAppend("score: ", d);
    assert Lower("score: ") == "score: ";
    assert Lower(d) == d;
    ContainsPrefix("score", ": " + d);
    assert "score" + (": " + d) == text;
    DigitsAppend("score: ", d);
    DigitsOfDigits(d);
    assert Digits("score: ") == [];
    DecimalRoundTrip(n);
    assert MentionsScore(text);
    assert Digits(text) == d;
    assert LineScore(text) == Some(n);
    assert LastScore([text]) == Some(n);
  }

  // ---------------------------------------------------------------------------
  // Concrete cases

  lemma LowerScoreLine()
    ensures Lower("Score: 8/10") == "score: 8/10"
  {
    var s := "Score: 8/10";
    assert forall k :: 1 <= k < |s| ==> LowerChar(s[k]) == s[k];
  }

  lemma MentionsScoreLine()
    ensures MentionsScore("Score: 8/10")
  {
    LowerScoreLine();
    ContainsPrefix("score", ": 8/10");
    assert "score" + ": 8/10" == "score: 8/10";
  }

  lemma DigitsLabel()
    ensures Digits("Score: ") == []
  {
    DigitsEmptyIff("Score: ");
  }

  lemma DigitsFraction()
    ensures Digits("8/10") == "810"
  {
    assert "8/10" == "8/" + "10";
    DigitsAppend("8/", "10");
    assert "8/" == "8" + "/";
    DigitsAppend("8", "/");
    DigitsOfDigits("10");
  }

  lemma DigitsScoreLine()
    ensures Digits("Score: 8/10") == "810"
  {
    assert "Score: 8/10" == "Score: " + "8/10";
    DigitsAppend("Score: ", "8/10");
    DigitsLabel();
    DigitsFraction();
  }

  lemma Value810()
    ensures DecimalValue("810") == 810
  {
    assert "810"[..2] == "81";
    assert "81"[..1] == "8";
    assert "8"[..0] == "";
  }

  /** "Score: 8/10" is recorded as 810, not 8. */
  lemma EightOutOfTenIs810()
    ensures ScoreOf("Score: 8/10") == 810
  {
    var text := "Score: 8/10";
    SplitScoreLine();
    LineScoreOfScoreLine();
    assert LastScore([text]) == Some(810);
  }

  lemma SplitScoreLine()
    ensures Split("Score: 8/10") == ["Score: 8/10"]
  {
    SplitSingle("Score: 8/10");
  }

  lemma LineScoreOfScoreLine()
    ensures LineScore("Score: 8/10") == Some(810)
  {
    MentionsScoreLine();
    DigitsScoreLine();
    Value810();
  }

  /** A line with no letter s in either case cannot mention "score". */
  lemma NoLetterSNoMention(line: string)
    requires forall k :: 0 <= k < |line| ==> line[k] != 's' && line[k] != 'S'
    ensures !MentionsScore(line)
  {
    forall i | 0 <= i && i + 5 <= |line| ensures !OccursAt(Lower(line), "score", i) {
      assert Lower(line)[i] == LowerChar(line[i]) != 's';
    }
  }

  lemma SplitWellDoneLines()
    ensures Split("Well done.") == ["Well done."] && Split("Try 2 more") == ["Try 2 more"]
  {
    SplitSingle("Well done.");
    SplitSingle("Try 2 more");
  }

  lemma SplitWellDone()
    ensures Split("Well done.\nTry 2 more") == ["Well done.", "Try 2 more"]
  {
    var a, b := "Well done.", "Try 2 more";
    assert a + "\n" + b == "Well done.\nTry 2 more";
    SplitAppend(a, b);
    SplitWellDoneLines();
  }

  lemma WellDoneSilent()
    ensures !MentionsScore("Well done.") && !MentionsScore("Try 2 more")
  {
    NoLetterSNoMention("Well done.");
    NoLetterSNoMention("Try 2 more");
  }

  /** Feedback without the word "score" gets the default 7, even when it
      holds digits. */
  lemma NoScoreWordGivesDefault()
    ensures ScoreOf("Well done.\nTry 2 more") == DefaultScore
  {
    var lines := ["Well done.", "Try 2 more"];
    SplitWellDone();
    WellDoneSilent();
    assert lines[..1] == ["Well done."];
    assert LastScore(lines) == None;
  }
}
