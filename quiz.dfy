/**
 * The trivia dialog (`QuizzDialog`): it builds the shuffled answer list of a
 * fetched question, dispatches a pressed answer to the correct- or
 * wrong-answer callback, and decodes the HTML character references the
 * trivia service puts in question text.
 */
module Quiz {
  import opened Wrappers

  /** One entry of the trivia service's `results` array. */
  datatype TriviaQuestion = TriviaQuestion(question: string, correctAnswer: string, incorrectAnswers: seq<string>)

  /** Which of the dialog's two callbacks a pressed answer invokes. */
  datatype AnswerCallback = OnCorrectAnswer | OnWrongAnswer

  /**
   * The order a random-comparator sort leaves: `picks` stands for the random
   * outcomes, each choosing which of the remaining answers comes next.
   */
  function Shuffle(s: seq<string>, picks: seq<nat>): (r: seq<string>)
    ensures |r| == |s| && multiset(r) == multiset(s)
    decreases |s|
  {
    if s == [] then []
    else
      var k := if picks == [] then 0 else picks[0] % |s|;
      assert s == s[..k] + [s[k]] + s[k + 1..];
      [s[k]] + Shuffle(s[..k] + s[k + 1..], if picks == [] then [] else picks[1..])
  }

  /** `[...q.incorrect_answers, q.correct_answer].sort(() => Math.random() - 0.5)`. */
  function AnswerList(q: TriviaQuestion, picks: seq<nat>): seq<string> {
    Shuffle(q.incorrectAnswers + [q.correctAnswer], picks)
  }

  /** The answer list is a permutation of the incorrect answers plus the correct one, which it therefore contains. */
  lemma AnswerListIsPermutation(q: TriviaQuestion, picks: seq<nat>)
    ensures var r := AnswerList(q, picks);
      multiset(r) == multiset(q.incorrectAnswers) + multiset{q.correctAnswer} &&
      |r| == |q.incorrectAnswers| + 1 && q.correctAnswer in r
  {
    var r := AnswerList(q, picks);
    assert q.correctAnswer in multiset(r);
  }

  /** `text.replace(/pat/g, rep)`: every match, left to right, without overlaps. */
  function ReplaceAll(s: string, pat: string, rep: string): (r: string)
    requires |pat| > 0
    ensures |rep| <= |pat| ==> |r| <= |s|
    ensures s == pat ==> r == rep
    decreases |s|
  {
    if |s| < |pat| then s
    else if s[..|pat|] == pat then rep + ReplaceAll(s[|pat|..], pat, rep)
    else [s[0]] + ReplaceAll(s[1..], pat, rep)
  }

  /** Text without the pattern's first character is left as it is. */
  lemma {:induction false} ReplaceAllAbsent(s: string, pat: string, rep: string)
    requires |pat| > 0 && pat[0] !in s
    ensures ReplaceAll(s, pat, rep) == s
    decreases |s|
  {
    if |s| >= |pat| {
      assert s[..|pat|][0] == s[0];
      ReplaceAllAbsent(s[1..], pat, rep);
    }
  }

  /** Text shorter than the pattern holds no match. */
  lemma ReplaceAllShort(s: string, pat: string, rep: string)
    requires |s| < |pat|
    ensures ReplaceAll(s, pat, rep) == s
  {
  }

  /** The pattern alone becomes the replacement. */
  lemma ReplaceAllExact(pat: string, rep: string)
    requires |pat| > 0
    ensures ReplaceAll(pat, pat, rep) == rep
  {
    assert pat[..|pat|] == pat;
    assert pat[|pat|..] == [];
  }

  /** A match at the front is replaced, and the scan goes on after it. */
  lemma ReplaceAllAtFront(s: string, pat: string, rep: string)
    requires 0 < |pat| <= |s| && s[..|pat|] == pat
    ensures ReplaceAll(s, pat, rep) == rep + ReplaceAll(s[|pat|..], pat, rep)
  {
  }

  /**
   * Text whose only `&` is its first character, and which differs from an
   * `&`-pattern at position `i`, holds no match.
   */
  lemma ReplaceAllLeadOnly(s: string, pat: string, rep: string, i: int)
    requires |pat| > 0 && pat[0] == '&' && |s| > 0 && '&' !in s[1..]
    requires 0 <= i < |pat| && (i < |s| ==> s[i] != pat[i])
    ensures ReplaceAll(s, pat, rep) == s
  {
    if |s| >= |pat| {
      assert s[..|pat|][i] == s[i];
      ReplaceAllAbsent(s[1..], pat, rep);
      assert s == [s[0]] + s[1..];
    }
  }

  /**
   * `decodeHtmlEntities`: nine replace-all passes, in this order. Each pass
   * replaces a reference by a single character, so the text never grows.
   */
  function DecodeHtmlEntities(text: string): (r: string)
    ensures |r| <= |text|
  {
    var t := ReplaceAll(text, "&quot;", "\"");
    var t := ReplaceAll(t, "&amp;", "&");
    var t := ReplaceAll(t, "&lt;", "<");
    var t := ReplaceAll(t, "&gt;", ">");
    var t := ReplaceAll(t, "&#039;", "'");
    var t := ReplaceAll(t, "&rsquo;", "'");
    var t := ReplaceAll(t, "&lsquo;", "'");
    var t := ReplaceAll(t, "&ldquo;", "\"");
    ReplaceAll(t, "&rdquo;", "\"")
  }

  /** Text without `&` holds no character reference and comes back unchanged. */
  lemma DecodeWithoutAmpersand(text: string)
    requires '&' !in text
    ensures DecodeHtmlEntities(text) == text
  {
    ReplaceAllAbsent(text, "&quot;", "\"");
    ReplaceAllAbsent(text, "&amp;", "&");
    ReplaceAllAbsent(text, "&lt;", "<");
    ReplaceAllAbsent(text, "&gt;", ">");
    ReplaceAllAbsent(text, "&#039;", "'");
    ReplaceAllAbsent(text, "&rsquo;", "'");
    ReplaceAllAbsent(text, "&lsquo;", "'");
    ReplaceAllAbsent(text, "&ldquo;", "\"");
    ReplaceAllAbsent(text, "&rdquo;", "\"");
  }

  /** Each of the nine references decodes to its character. */
  lemma DecodesEachEntity()
    ensures DecodeHtmlEntities("&quot;") == "\""
    ensures DecodeHtmlEntities("&amp;") == "&"
    ensures DecodeHtmlEntities("&lt;") == "<"
    ensures DecodeHtmlEntities("&gt;") == ">"
    ensures DecodeHtmlEntities("&#039;") == "'"
    ensures DecodeHtmlEntities("&rsquo;") == "'"
    ensures DecodeHtmlEntities("&lsquo;") == "'"
    ensures DecodeHtmlEntities("&ldquo;") == "\""
    ensures DecodeHtmlEntities("&rdquo;") == "\""
  {
    DecodeQuot();
    DecodeAmp();
    DecodeLt();
    DecodeGt();
    DecodeApos();
    DecodeRsquo();
    DecodeLsquo();
    DecodeLdquo();
    DecodeRdquo();
  }

  lemma DecodeQuot()
    ensures DecodeHtmlEntities("&quot;") == "\""
  {
    ReplaceAllExact("&quot;", "\"");
    ReplaceAllShort("\"", "&amp;", "&");
    ReplaceAllShort("\"", "&lt;", "<");
    ReplaceAllShort("\"", "&gt;", ">");
    ReplaceAllShort("\"", "&#039;", "'");
    ReplaceAllShort("\"", "&rsquo;", "'");
    ReplaceAllShort("\"", "&lsquo;", "'");
    ReplaceAllShort("\"", "&ldquo;", "\"");
    ReplaceAllShort("\"", "&rdquo;", "\"");
  }

  lemma DecodeAmp()
    ensures DecodeHtmlEntities("&amp;") == "&"
  {
    ReplaceAllShort("&amp;", "&quot;", "\"");
    ReplaceAllExact("&amp;", "&");
    ReplaceAllShort("&", "&lt;", "<");
    ReplaceAllShort("&", "&gt;", ">");
    ReplaceAllShort("&", "&#039;", "'");
    ReplaceAllShort("&", "&rsquo;", "'");
    ReplaceAllShort("&", "&lsquo;", "'");
    ReplaceAllShort("&", "&ldquo;", "\"");
    ReplaceAllShort("&", "&rdquo;", "\"");
  }

  lemma DecodeLt()
    ensures DecodeHtmlEntities("&lt;") == "<"
  {
    ReplaceAllShort("&lt;", "&quot;", "\"");
    ReplaceAllShort("&lt;", "&amp;", "&");
    ReplaceAllExact("&lt;", "<");
    ReplaceAllShort("<", "&gt;", ">");
    ReplaceAllShort("<", "&#039;", "'");
    ReplaceAllShort("<", "&rsquo;", "'");
    ReplaceAllShort("<", "&lsquo;", "'");
    ReplaceAllShort("<", "&ldquo;", "\"");
    ReplaceAllShort("<", "&rdquo;", "\"");
  }

  lemma DecodeGt()
    ensures DecodeHtmlEntities("&gt;") == ">"
  {
    ReplaceAllShort("&gt;", "&quot;", "\"");
    ReplaceAllShort("&gt;", "&amp;", "&");
    ReplaceAllLeadOnly("&gt;", "&lt;", "<", 1);
    ReplaceAllExact("&gt;", ">");
    ReplaceAllShort(">", "&#039;", "'");
    ReplaceAllShort(">", "&rsquo;", "'");
    ReplaceAllShort(">", "&lsquo;", "'");
    ReplaceAllShort(">", "&ldquo;", "\"");
    ReplaceAllShort(">", "&rdquo;", "\"");
  }

  lemma DecodeApos()
    ensures DecodeHtmlEntities("&#039;") == "'"
  {
    ReplaceAllLeadOnly("&#039;", "&quot;", "\"", 1);
    ReplaceAllLeadOnly("&#039;", "&amp;", "&", 1);
    ReplaceAllLeadOnly("&#039;", "&lt;", "<", 1);
    ReplaceAllLeadOnly("&#039;", "&gt;", ">", 1);
    ReplaceAllExact("&#039;", "'");
    ReplaceAllShort("'", "&rsquo;", "'");
    ReplaceAllShort("'", "&lsquo;", "'");
    ReplaceAllShort("'", "&ldquo;", "\"");
    ReplaceAllShort("'", "&rdquo;", "\"");
  }

  lemma DecodeRsquo()
    ensures DecodeHtmlEntities("&rsquo;") == "'"
  {
    ReplaceAllLeadOnly("&rsquo;", "&quot;", "\"", 1);
    ReplaceAllLeadOnly("&rsquo;", "&amp;", "&", 1);
    ReplaceAllLeadOnly("&rsquo;", "&lt;", "<", 1);
    ReplaceAllLeadOnly("&rsquo;", "&gt;", ">", 1);
    ReplaceAllLeadOnly("&rsquo;", "&#039;", "'", 1);
    ReplaceAllExact("&rsquo;", "'");
    ReplaceAllShort("'", "&lsquo;", "'");
    ReplaceAllShort("'", "&ldquo;", "\"");
    ReplaceAllShort("'", "&rdquo;", "\"");
  }

  lemma DecodeLsquo()
    ensures DecodeHtmlEntities("&lsquo;") == "'"
  {
    ReplaceAllLeadOnly("&lsquo;", "&quot;", "\"", 1);
    ReplaceAllLeadOnly("&lsquo;", "&amp;", "&", 1);
    ReplaceAllLeadOnly("&lsquo;", "&lt;", "<", 2);
    ReplaceAllLeadOnly("&lsquo;", "&gt;", ">", 1);
    ReplaceAllLeadOnly("&lsquo;", "&#039;", "'", 1);
    ReplaceAllLeadOnly("&lsquo;", "&rsquo;", "'", 1);
    ReplaceAllExact("&lsquo;", "'");
    ReplaceAllShort("'", "&ldquo;", "\"");
    ReplaceAllShort("'", "&rdquo;", "\"");
  }

  lemma DecodeLdquo()
    ensures DecodeHtmlEntities("&ldquo;") == "\""
  {
    ReplaceAllLeadOnly("&ldquo;", "&quot;", "\"", 1);
    ReplaceAllLeadOnly("&ldquo;", "&amp;", "&", 1);
    ReplaceAllLeadOnly("&ldquo;", "&lt;", "<", 2);
    ReplaceAllLeadOnly("&ldquo;", "&gt;", ">", 1);
    ReplaceAllLeadOnly("&ldquo;", "&#039;", "'", 1);
    ReplaceAllLeadOnly("&ldquo;", "&rsquo;", "'", 1);
    ReplaceAllLeadOnly("&ldquo;", "&lsquo;", "'", 2);
    ReplaceAllExact("&ldquo;", "\"");
    ReplaceAllShort("\"", "&rdquo;", "\"");
  }

  lemma DecodeRdquo()
    ensures DecodeHtmlEntities("&rdquo;") == "\""
  {
    ReplaceAllLeadOnly("&rdquo;", "&quot;", "\"", 1);
    ReplaceAllLeadOnly("&rdquo;", "&amp;", "&", 1);
    ReplaceAllLeadOnly("&rdquo;", "&lt;", "<", 1);
    ReplaceAllLeadOnly("&rdquo;", "&gt;", ">", 1);
    ReplaceAllLeadOnly("&rdquo;", "&#039;", "'", 1);
    ReplaceAllLeadOnly("&rdquo;", "&rsquo;", "'", 2);
    ReplaceAllLeadOnly("&rdquo;", "&lsquo;", "'", 1);
    ReplaceAllLeadOnly("&rdquo;", "&ldquo;", "\"", 1);
    ReplaceAllExact("&rdquo;", "\"");
  }

  /**
   * One pass each, in order: `&amp;quot;` becomes `&quot;` (the `&quot;` pass
   * has already run), while `&amp;lt;` becomes `<` (the `&lt;` pass runs after
   * the `&amp;` pass).
   */
  lemma DecodeIsSinglePassInOrder()
    ensures DecodeHtmlEntities("&amp;quot;") == "&quot;"
    ensures DecodeHtmlEntities("&amp;lt;") == "<"
  {
    DecodeAmpQuot();
    DecodeAmpLt();
  }

  lemma DecodeAmpQuot()
    ensures DecodeHtmlEntities("&amp;quot;") == "&quot;"
  {
    ReplaceAllLeadOnly("&amp;quot;", "&quot;", "\"", 1);
    ReplaceAllAtFront("&amp;quot;", "&amp;", "&");
    ReplaceAllAbsent("quot;", "&amp;", "&");
    ReplaceAllLeadOnly("&quot;", "&lt;", "<", 1);
    ReplaceAllLeadOnly("&quot;", "&gt;", ">", 1);
    ReplaceAllLeadOnly("&quot;", "&#039;", "'", 1);
    ReplaceAllShort("&quot;", "&rsquo;", "'");
    ReplaceAllShort("&quot;", "&lsquo;", "'");
    ReplaceAllShort("&quot;", "&ldquo;", "\"");
    ReplaceAllShort("&quot;", "&rdquo;", "\"");
  }

  lemma DecodeAmpLt()
    ensures DecodeHtmlEntities("&amp;lt;") == "<"
  {
    ReplaceAllLeadOnly("&amp;lt;", "&quot;", "\"", 1);
    ReplaceAllAtFront("&amp;lt;", "&amp;", "&");
    ReplaceAllAbsent("lt;", "&amp;", "&");
    ReplaceAllExact("&lt;", "<");
    ReplaceAllShort("<", "&gt;", ">");
    ReplaceAllShort("<", "&#039;", "'");
    ReplaceAllShort("<", "&rsquo;", "'");
    ReplaceAllShort("<", "&lsquo;", "'");
    ReplaceAllShort("<", "&ldquo;", "\"");
    ReplaceAllShort("<", "&rdquo;", "\"");
  }

  /** The dialog's state: the question shown, its answer buttons, and the correct answer. */
  class QuizDialog {
    var question: Option<string>
    var answers: seq<string>
    var correctAnswer: string

    constructor ()
      ensures question == None && answers == [] && correctAnswer == ""
    {
      question := None;
      answers := [];
      correctAnswer := "";
    }

    /** The fetch's `.then` with the `results` array received: the first question, if any, is shown. */
    method OnTriviaLoaded(results: seq<TriviaQuestion>, picks: seq<nat>)
      modifies this
      ensures |results| == 0 ==> question == old(question) && answers == old(answers) && correctAnswer == old(correctAnswer)
      ensures |results| > 0 ==>
        question == Some(results[0].question) && answers == AnswerList(results[0], picks) &&
        correctAnswer == results[0].correctAnswer
      ensures |results| > 0 ==> correctAnswer in answers
    {
      if |results| > 0 {
        var q := results[0];
        AnswerListIsPermutation(q, picks);
        question := Some(q.question);
        answers := AnswerList(q, picks);
        correctAnswer := q.correctAnswer;
      }
    }

    /** `handleAnswer`: exactly one callback, the correct-answer one iff the pressed answer is the correct answer. */
    method HandleAnswer(answer: string) returns (callback: AnswerCallback)
      ensures callback == OnCorrectAnswer <==> answer == correctAnswer
      ensures callback == OnWrongAnswer <==> answer != correctAnswer
    {
      if answer == correctAnswer {
        callback := OnCorrectAnswer;
      } else {
        callback := OnWrongAnswer;
      }
    }
  }
}
