# Interview preparation bot: session lists, score extraction and summary

The interview bot is a Streamlit script. It asks a language model for three
interview questions and, for each answer, for written feedback. It keeps
three lists in the session state:

- `questions_list` holds the questions.
- `feedback_list` holds `(question number, feedback text)` pairs.
- `scores_list` holds one integer score per feedback.

At the end it shows the mean score and an overall assessment. This project
models the deterministic part of that script and proves what it does:

- `Text` holds the string operations the script uses: `split('\n')`,
  `strip()`, `lower()`, the substring test, the joined digit filter and `int`
  on digit strings. It covers ASCII only.
- `Score` is the score extractor. Every line whose lower-case form contains
  "score" has all its digits joined and parsed. A successful parse overwrites
  the score found so far, so the last such line wins. A line with no digits
  leaves the score as it was. With nothing found the score is 7. The method
  `ExtractScore` is the scanning loop. The function `ScoreOf` is what the loop
  computes.
- `Questions` is the question parsing. The reply is split into lines, each
  line is stripped, and blank lines are dropped.
- `Session` holds the three lists as a value (`State`), the two user actions
  as transitions on that value (`Started`, `Answered`), and a class `Store`.
  The class keeps the lists as fields and updates them in place, as the
  script does. Its methods are proved to move the fields exactly as the
  transitions say, and to keep the invariant `Consistent`.
- `Summary` covers the final summary: the sum, the count and the three
  assessment bands. The script compares the mean with 8 and 6. The model does
  the same with an exact rational mean, and proves that this equals comparing
  the sum with `8 * count` and `6 * count`. It also models the
  `OverflowError` that the float division raises for a huge mean.

The replies of the language model are inputs. `Store.Start` takes the reply
to the question request as `Option<string>`: `None` means the request raised
an exception. `Store.RequestFeedback` takes the feedback text as a string.

Where a reader might expect otherwise, the model follows the code:

- The score comes from the last line that mentions "score" and holds a
  digit, not the first (`LastContributorWins`).
- The score is not limited to 0..10. "Score: 8/10" gives 810, and any natural
  number can be recorded (`AnyScoreCanBeRecorded`).
- No question index is ever rejected. The question number is `idx + 1`,
  where `idx` comes from enumerating the stored questions. So it always names
  a stored question (`Consistent`, `Session.Answered`).
- Feedback is never de-duplicated. A session can hold more feedback entries
  than questions (`MoreEntriesThanQuestions`).
- The lists are cleared before the question request is sent. If that request
  raises, the lists stay cleared rather than unchanged (`Started` with `None`).
- With no scores stored, the summary is not shown. There is no error value
  (`Summarize` returns `NotShown`).
- The mean at line 118 is Python's `int / int`, which raises `OverflowError`
  once the exact quotient reaches `2^1024 - 2^970` (`FloatOverflow`). Scores
  are unbounded, so one feedback request can make the summary raise
  (`Summarize` returns `Raises`, `HugeScoreRaises`).

## Model

| member | source | states |
|---|---|---|
| `Text.Lower` | interview_bot.py:99 | lower-casing keeps the length of the line |
| `Text.LowerShape` | interview_bot.py:99 | after lower-casing no upper-case letter is left, and every other character stays where it was |
| `Text.Contains` | interview_bot.py:99 | the substring test: the empty string occurs in every line, and nothing longer than the line occurs in it |
| `Text.Split` | interview_bot.py:51 | `split('\n')` gives at least one piece, and no piece holds a line feed |
| `Text.Strip` | interview_bot.py:54-55 | `strip()` gives nothing longer than the line, and a non-empty result begins and ends with a non-space |
| `Text.JoinSplit` | interview_bot.py:51 | joining the pieces of `split('\n')` with line feeds gives back the original text |
| `Text.SplitSingle` | interview_bot.py:98 | a text with no line feed splits into exactly itself |
| `Text.SplitAppend` | interview_bot.py:98 | splitting `a + "\n" + b` gives the pieces of `a` followed by the pieces of `b` |
| `Text.StripShape` | interview_bot.py:54-55 | `strip()` gives the window of the line left after cutting whitespace from both ends; it is empty exactly when the line is all whitespace, and otherwise starts and ends with a non-space |
| `Text.StripIdempotent` | interview_bot.py:54-55 | stripping a stripped line changes nothing |
| `Text.LowerAppend` | interview_bot.py:99 | lower-casing works character by character over a concatenation |
| `Text.Digits` | interview_bot.py:101 | the joined digit filter holds only digits and is no longer than the line |
| `Text.DigitsAppend` | interview_bot.py:101 | the digits of a concatenation are the digits of each part, in order |
| `Text.DigitsEmptyIff` | interview_bot.py:101 | the digit filter is empty exactly when no character of the line is a digit |
| `Text.DecimalValueAppend` | interview_bot.py:101 | the number read from digits `a` then `b` is `a` shifted left by `len(b)` places plus `b` |
| `Text.ParseDigits` | interview_bot.py:100-103 | `int` on the joined digits fails exactly when there are none |
| `Text.DecimalRoundTrip` | interview_bot.py:101 | reading back the decimal numeral of `n` gives `n` |
| `Score.LineScore` | interview_bot.py:99-103 | a line that yields a score mentions "score" and yields the number spelt by all its digits |
| `Score.LastScore` | interview_bot.py:97-103 | whatever the scan leaves in the variable was yielded by one of the lines |
| `Score.ScoreOf` | interview_bot.py:97-106 | the recorded score is the default 7 or the score one of the lines yields |
| `Score.ExtractScore` | interview_bot.py:97-106 | the scanning loop returns exactly `ScoreOf(feedbackText)`: the last successful per-line parse, or 7 |
| `Score.LineScoreIff` | interview_bot.py:99-101 | a line yields a score exactly when its lower-case form contains "score" and it holds a digit, and the score is the number spelt by all its digits left to right |
| `Score.DigitsJoinQuirk` | interview_bot.py:101 | joining all digits of a line concatenates numbers: digits `d1` before digits `d2` give `d1 * 10^len(d2) + d2` |
| `Score.LastContributorWins` | interview_bot.py:98-103 | when line k yields a score and no later line does, the scan's result is line k's score |
| `Score.NothingFoundIff` | interview_bot.py:98-105 | the scan finds nothing exactly when no line yields a score |
| `Score.FoundComesFromLastContributor` | interview_bot.py:98-103 | whatever the scan finds is the score of some line after which no line yields one |
| `Score.DefaultWhenNothingFound` | interview_bot.py:105-106 | if no line mentions "score", or none that does holds a digit, the score is exactly 7 |
| `Score.LaterLineOverrides` | interview_bot.py:98-103 | a further line that yields a score replaces every earlier one |
| `Score.LaterSilentLineKeeps` | interview_bot.py:100-103 | a further line that mentions "score" but has no digit, or does not mention it at all, leaves the score unchanged |
| `Score.AnyScoreCanBeRecorded` | interview_bot.py:99-101 | for every natural n, the feedback "score: n" records n, so scores are not bounded by 10 |
| `Score.EightOutOfTenIs810` | interview_bot.py:101 | "Score: 8/10" is recorded as 810 |
| `Score.NoScoreWordGivesDefault` | interview_bot.py:105-106 | feedback with digits but without the word "score" is recorded as 7 |
| `Score.NoLetterSNoMention` | interview_bot.py:99 | a line without the letter s in either case never matches "score" |
| `Questions.QuestionsOf` | interview_bot.py:51-55 | the questions of a reply number at most its lines, and each is non-empty and stripped |
| `Questions.StoredQuestions` | interview_bot.py:53-55 | no more questions than lines, and every stored question is non-empty and already stripped |
| `Questions.QuestionsAppend` | interview_bot.py:53-55 | parsing keeps order: the questions of two runs of lines are those of the first followed by those of the second |
| `Questions.QuestionsMembers` | interview_bot.py:53-55 | a string is stored exactly when it is non-empty and some line strips to it |
| `Questions.NoBlankLinesKeepsAll` | interview_bot.py:53-55 | with no blank line, question i is line i stripped |
| `Questions.BlankLinesDropped` | interview_bot.py:54 | lines that are all whitespace contribute no question |
| `Questions.EmptyLineBetweenQuestions` | interview_bot.py:51-55 | the lines "1. What is X?", "" and "2. What is Y?" give exactly the two questions |
| `Session.Consistent` | interview_bot.py:61-110 | in consistent lists the number of every feedback entry names a stored question, which is non-empty and stripped |
| `Session.Started` | interview_bot.py:29-55 | an empty role leaves all three lists unchanged; starting, with or without a role, keeps the lists consistent; with a role the feedback and score lists end empty |
| `Session.StartForgetsEarlierRun` | interview_bot.py:36-39 | a start with a role empties the feedback and score lists, the questions are those parsed from the reply, and the result does not depend on the earlier lists |
| `Session.Answered` | interview_bot.py:61-110 | a feedback request keeps the lists consistent (equal lengths, each number names a stored question, each score is the one extracted from its text), leaves the questions alone, keeps every earlier entry and score, and adds one entry exactly when the answer is non-empty |
| `Session.RepeatedFeedbackAppendsTwice` | interview_bot.py:109-110 | two requests for the same question append two entries with the same number and two scores, leaving earlier entries untouched |
| `Session.MoreEntriesThanQuestions` | interview_bot.py:109-110 | some consistent session holds more feedback entries than questions |
| `Session.Store.constructor` | interview_bot.py:21-26 | the lists start empty |
| `Session.Store.Start` | interview_bot.py:29-55 | an empty role changes nothing; otherwise the three lists are cleared, and the questions parsed from the reply are appended one by one |
| `Session.Store.RequestFeedback` | interview_bot.py:67-110 | for a non-empty answer, exactly one `(idx + 1, text)` entry and the extracted score are appended; nothing else changes |
| `Summary.Classify` | interview_bot.py:132-137 | the band from the mean equals: excellent iff `sum >= 8n`, good iff `6n <= sum < 8n`, keep practising iff `sum < 6n` |
| `Summary.MeanAtLeast` | interview_bot.py:118 | the mean reaches a whole threshold t exactly when `sum >= t * n` |
| `Summary.Sum` | interview_bot.py:118 | no single score exceeds the sum |
| `Summary.Summarize` | interview_bot.py:116-137 | no summary exactly when no score is stored, so the mean is never taken over zero scores; the division raises exactly when the sum reaches `FloatOverflow` times the count; otherwise it reports the feedback, the scores, their sum and count, and the band |
| `Summary.SumBelow` | interview_bot.py:118 | n scores each below m sum to less than m times n |
| `Summary.ScoresBelowOverflowShown` | interview_bot.py:116-118 | when every score is below `FloatOverflow`, the summary is shown |
| `Summary.HugeScoreRaises` | interview_bot.py:99-118 | a feedback text "score: n" with n at least `FloatOverflow` gives a consistent session whose summary raises |
| `Summary.SumAppend` | interview_bot.py:118 | a further score adds itself to the sum |
| `Summary.BandsStable` | interview_bot.py:132-137 | a further score of at least 8 keeps an excellent band, and one below 6 keeps a keep-practising band |
| `Summary.ExampleExcellent` | interview_bot.py:132-133 | scores 8, 6, 10 are excellent |
| `Summary.ExampleGood` | interview_bot.py:134-135 | scores 6, 7 are good |
| `Summary.ExampleKeepPracticing` | interview_bot.py:136-137 | scores 5, 5 are keep practising |
| `Summary.QuirkyScoreDominates` | interview_bot.py:101-137 | with fewer than a hundred other scores, each below `FloatOverflow`, one score of 810 makes the band rule give excellent and the summary is shown with that band |

## Left out

- The language-model requests (interview_bot.py:43-49, 85-92) are network calls. Their replies are parameters of `Store.Start` and `Store.RequestFeedback`.
- A feedback request that fails (line 85 raising, or its content not being a string) leaves all three lists as they were. The model captures that case only by not calling `Store.RequestFeedback`.
- Streamlit widgets, rendering, `st.balloons` and page setup are UI and are not modelled. The re-run of the whole script after each interaction is modelled only as the sequence of actions on `Store`. The answer box (line 65) is modelled only through the rule that the feedback button appears for a non-empty answer.
- Building the prompt strings (lines 42 and 70-83) produces display text and is not modelled.
- Loading the environment and the API key (lines 3-8) is environment I/O and is not modelled.
- `Summary.Classify`: the mean is an exact rational, not a rounded float. The float quotient differs from it in two ways. It overflows for a mean of `FloatOverflow` or more, and `Summary.Summarize` models that as `Raises` before `Classify` is reached. It rounds, and a rounded mean could fall on the other side of 8 or 6 only with more than about 10^15 scores, which is not modelled. The `round(avg_score, 2)` display is not modelled.
- `Text.IsSpace`, `Text.IsDigit`, `Text.LowerChar`: ASCII only. Python's `isspace`, `isdigit` and `lower` also accept other Unicode characters.
- `Score.LineScore`: Python 3.11 and later refuse to convert a string of more than 4300 digits, and the bare `except` would swallow that error. The model parses any number of digits.
