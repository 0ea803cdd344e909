/**
 * The session store of interview_bot.py: the three lists `questions_list`,
 * `feedback_list` and `scores_list` kept across re-runs of the script, the
 * "Start Interview" action (lines 29-55) and the "Get Feedback" action
 * (lines 61-110). The language-model replies are inputs.
 */
module Session {
  import opened Wrappers
  import opened Text
  import opened Score
  import opened Questions

  /** One element of `feedback_list`: the 1-based question number and the
      feedback text, the pair `(idx + 1, feedback_text)`. */
  datatype Entry = Entry(question: nat, text: string)

  /** The three session lists as a value. */
  datatype State = State(questions: seq<string>, feedback: seq<Entry>, scores: seq<nat>)

  /** The lists before any action (lines 21-26). */
  const Initial := State([], [], [])

  /** What the actions keep true of the lists: one score per feedback entry,
      each the score extracted from that entry's text; every entry numbers a
      stored question; every stored question is non-empty and stripped. So
      the number of every entry names a real question. */
  predicate Consistent(s: State)
    ensures Consistent(s) ==>
              forall i :: 0 <= i < |s.feedback| ==>
                var q := s.feedback[i].question;
                1 <= q <= |s.questions| && IsQuestion(s.questions[q - 1])
  {
    |s.feedback| == |s.scores| &&
    (forall i :: 0 <= i < |s.questions| ==> IsQuestion(s.questions[i])) &&
    (forall i :: 0 <= i < |s.feedback| ==>
       1 <= s.feedback[i].question <= |s.questions| && s.scores[i] == ScoreOf(s.feedback[i].text))
  }

  /** "Start Interview" with the given role. An empty role is rejected and
      nothing changes. Otherwise the three lists are cleared, and then, when
      the question request returns `Some(text)`, the questions parsed from
      `text` are stored; `None` stands for a request that raised, after
      which the lists stay cleared. Either way the lists stay consistent. */
  function Started(s: State, role: string, reply: Option<string>): (r: State)
    ensures role == "" ==> r == s
    ensures Consistent(s) ==> Consistent(r)
    ensures role != "" ==> r.feedback == [] && r.scores == []
  {
    if role == "" then s
    else State(if reply.Some? then QuestionsOf(reply.value) else [], [], [])
  }

  /** "Get Feedback" for the question at position `idx` with the answer
      typed so far and the feedback text the model returned. The button is
      only offered for a non-empty answer; pressing it appends one entry and
      one score, with no check for an earlier entry for the same question.
      The questions stay, earlier entries and scores are kept as they were,
      and the lists stay consistent. */
  function Answered(s: State, idx: nat, answer: string, feedbackText: string): (r: State)
    requires idx < |s.questions|
    ensures Consistent(s) ==> Consistent(r)
    ensures r.questions == s.questions
    ensures s.feedback <= r.feedback && s.scores <= r.scores
    ensures |r.feedback| == |s.feedback| + (if answer == "" then 0 else 1)
  {
    if answer == "" then s
    else State(s.questions, s.feedback + [Entry(idx + 1, feedbackText)],
               s.scores + [ScoreOf(feedbackText)])
  }

  // ---------------------------------------------------------------------------
  // Properties of the actions

  /** A start with a role clears every earlier entry and score, and what it
      leaves does not depend on the earlier lists at all: nothing of a
      previous interview leaks into the new one. */
  lemma StartForgetsEarlierRun(s1: State, s2: State, role: string, reply: Option<string>)
    requires role != ""
    ensures Started(s1, role, reply) == Started(s2, role, reply)
    ensures Started(s1, role, reply).feedback == [] && Started(s1, role, reply).scores == []
    ensures reply.Some? ==> Started(s1, role, reply).questions == QuestionsOf(reply.value)
    ensures reply.None? ==> Started(s1, role, reply).questions == []
  {
  }

  /** Two feedback requests for the same question both stay: two entries
      with the same question number are appended, in order, and the earlier
      entries are untouched. */
  lemma {:induction false} RepeatedFeedbackAppendsTwice(s: State, idx: nat, answer: string, t1: string, t2: string)
    requires Consistent(s) && idx < |s.questions| && answer != ""
    ensures var s2 := Answered(Answered(s, idx, answer, t1), idx, answer, t2);
            s2.questions == s.questions &&
            s2.feedback == s.feedback + [Entry(idx + 1, t1), Entry(idx + 1, t2)] &&
            s2.scores == s.scores + [ScoreOf(t1), ScoreOf(t2)] &&
            Consistent(s2)
  {
    assert s.feedback + [Entry(idx + 1, t1)] + [Entry(idx + 1, t2)] ==
           s.feedback + [Entry(idx + 1, t1), Entry(idx + 1, t2)];
    assert s.scores + [ScoreOf(t1)] + [ScoreOf(t2)] == s.scores + [ScoreOf(t1), ScoreOf(t2)];
  }

  /** Because feedback is never de-duplicated, a consistent session can hold
      more entries than it has questions. */
  lemma MoreEntriesThanQuestions()
    ensures exists s: State :: Consistent(s) && |s.feedback| > |s.questions|
  {
    var s := State(["Q"], [], []);
    StrippedQuestion("Q");
    var s2 := Answered(Answered(s, 0, "A", "F"), 0, "A", "F");
    RepeatedFeedbackAppendsTwice(s, 0, "A", "F", "F");
    assert |s2.feedback| == 2;
  }

  // ---------------------------------------------------------------------------
  // The store as the script keeps it: three lists updated in place

  class Store {
    var questions: seq<string>
    var feedback: seq<Entry>
    var scores: seq<nat>

    /** The lists as a value. */
    function Lists(): State
      reads this
    {
      State(questions, feedback, scores)
    }

    predicate Valid()
      reads this
    {
      Consistent(Lists())
    }

    /** The lists as first created (lines 21-26). */
    constructor ()
      ensures Valid() && Lists() == Initial
    {
      questions, feedback, scores := [], [], [];
    }

    /** "Start Interview" (lines 29-55). */
    method Start(role: string, reply: Option<string>)
      requires Valid()
      modifies this
      ensures Valid()
      ensures Lists() == Started(old(Lists()), role, reply)
    {
      if role == "" {
        // st.error: the action is rejected
        return;
      }
      feedback := [];
      scores := [];
      questions := [];
      if reply.Some? {
        var lines := Split(reply.value);
        var i := 0;
        while i < |lines|
          invariant 0 <= i <= |lines|
          invariant questions == StoredQuestions(lines[..i])
          invariant feedback == [] && scores == []
        {
          assert lines[..i + 1][..i] == lines[..i];
          if Strip(lines[i]) != "" {
            questions := questions + [Strip(lines[i])];
          }
          i := i + 1;
        }
        assert lines[..|lines|] == lines;
      }
    }

    /** "Get Feedback for Question idx + 1" (lines 67-110): the score is
        extracted from the reply and the pair and the score are appended. */
    method RequestFeedback(idx: nat, answer: string, feedbackText: string)
      requires Valid() && idx < |questions|
      modifies this
      ensures Valid()
      ensures Lists() == Answered(old(Lists()), idx, answer, feedbackText)
    {
      if answer == "" {
        // no button is shown for an empty answer
        return;
      }
      var score := ExtractScore(feedbackText);
      feedback := feedback + [Entry(idx + 1, feedbackText)];
      scores := scores + [score];
    }
  }
}
