/**
 * Question parsing of interview_bot.py (lines 51-55): the generated text is
 * split on line feeds and every line that is not blank is kept, stripped of
 * its surrounding whitespace, in its original order.
 */
module Questions {
  import opened Text

  /** A stored question: non-empty and already stripped. */
  predicate IsQuestion(q: string) {
    q != "" && Strip(q) == q
  }

  /** The questions kept from `lines`, scanned in order. */
  function StoredQuestions(lines: seq<string>): (qs: seq<string>)
    ensures |qs| <= |lines|
    ensures forall i :: 0 <= i < |qs| ==> IsQuestion(qs[i])
  {
    if lines == [] then []
    else
      var last := lines[|lines| - 1];
      StripIdempotent(last);
      StoredQuestions(lines[..|lines| - 1]) + (if Strip(last) != "" then [Strip(last)] else [])
  }

  /** The questions stored for a generated text: at most one per line, each
      non-empty and stripped. */
  function QuestionsOf(generated: string): (qs: seq<string>)
    ensures |qs| <= |Split(generated)|
    ensures forall i :: 0 <= i < |qs| ==> IsQuestion(qs[i])
  {
    StoredQuestions(Split(generated))
  }

  /** Parsing keeps order: the questions of two runs of lines are those of
      the first run followed by those of the second. */
  lemma {:induction false} QuestionsAppend(a: seq<string>, b: seq<string>)
    ensures StoredQuestions(a + b) == StoredQuestions(a) + StoredQuestions(b)
  {
    if b == [] {
      assert a + b == a;
    } else {
      var b' := b[..|b| - 1];
      assert (a + b)[..|a + b| - 1] == a + b';
      assert (a + b)[|a + b| - 1] == b[|b| - 1];
      QuestionsAppend(a, b');
    }
  }

  /** A string is stored exactly when some line strips to it and it is not
      empty. */
  lemma {:induction false} QuestionsMembers(lines: seq<string>, q: string)
    ensures q in StoredQuestions(lines) <==> q != "" && exists l :: l in lines && Strip(l) == q
  {
    if lines != [] {
      var init, last := lines[..|lines| - 1], lines[|lines| - 1];
      QuestionsMembers(init, q);
      assert lines == init + [last];
      assert forall l :: l in lines <==> l in init || l == last;
    }
  }

  /** When no line is blank, every line is kept, at its own position. */
  lemma {:induction false} NoBlankLinesKeepsAll(lines: seq<string>)
    requires forall i :: 0 <= i < |lines| ==> Strip(lines[i]) != ""
    ensures |StoredQuestions(lines)| == |lines|
    ensures forall i :: 0 <= i < |lines| ==> StoredQuestions(lines)[i] == Strip(lines[i])
  {
    if lines != [] {
      NoBlankLinesKeepsAll(lines[..|lines| - 1]);
    }
  }

  /** Blank lines contribute nothing. */
  lemma {:induction false} BlankLinesDropped(lines: seq<string>)
    requires forall i :: 0 <= i < |lines| ==> Strip(lines[i]) == ""
    ensures StoredQuestions(lines) == []
  {
    if lines != [] {
      BlankLinesDropped(lines[..|lines| - 1]);
    }
  }

  /** Two questions with an empty line between them give exactly those two. */
  lemma EmptyLineBetweenQuestions()
    ensures StoredQuestions(["1. What is X?", "", "2. What is Y?"]) == ["1. What is X?", "2. What is Y?"]
  {
    var x, y := "1. What is X?", "2. What is Y?";
    StrippedQuestion(x);
    StrippedQuestion(y);
    Questions3(x, "", y);
  }

  lemma StrippedQuestion(q: string)
    requires q != "" && !IsSpace(q[0]) && !IsSpace(q[|q| - 1])
    ensures Strip(q) == q
  {
    assert LeadingSpaces(q) == 0;
    assert q[0..] == q;
    assert TrailingSpaces(q) == 0;
    assert q[..|q|] == q;
  }

  lemma Questions3(x: string, e: string, y: string)
    requires Strip(x) == x != "" && e == "" && Strip(y) == y != ""
    ensures StoredQuestions([x, e, y]) == [x, y]
  {
    var lines := [x, e, y];
    assert Strip(e) == "";
    assert [x][..0] == [];
    assert StoredQuestions([x]) == [x];
    assert [x, e][..1] == [x];
    assert StoredQuestions([x, e]) == [x];
    assert lines[..2] == [x, e];
  }
}
