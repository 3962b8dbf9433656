/** The question/scoring/summary provider wrapper (src/utils/aiService.ts).
    The network call and the JSON parsing of its reply are not modelled: each
    operation receives what the call came to — it threw (network error, HTTP
    error, or a span that did not parse), the reply held no JSON span, or the
    span parsed to a value — and the model states what the wrapper makes of it. */
module AiService {
  import opened Text
  import opened Wrappers
  import opened CandidatesSlice

  datatype Question = Question(id: string, question: string, difficulty: string, timeLimit: int)

  /** What a provider call came to, after the wrapper's span extraction. */
  datatype Reply<T> = Threw | NoJsonSpan | Parsed(value: T)

  /** One element of the parsed question array. */
  datatype RawQuestion = RawQuestion(question: string, difficulty: string)

  datatype Evaluation = Evaluation(score: int, feedback: string)

  const DefaultFeedback := "Answer received."
  const FallbackFeedback := "Answer recorded. AI evaluation unavailable - using fallback scoring."
  const FallbackSummary := "Interview completed. Unable to generate detailed summary."
  const FallbackProfile := "Experienced professional with relevant technical skills."

  /** Seconds allowed for a question: 20 for "Easy", 60 for "Medium", and
      120 for every other difficulty text. */
  function TimeLimitFor(difficulty: string): (t: int)
    ensures t in {20, 60, 120}
    ensures t == 20 <==> difficulty == "Easy"
    ensures t == 60 <==> difficulty == "Medium"
  {
    if difficulty == "Easy" then 20 else if difficulty == "Medium" then 60 else 120
  }

  /** `q-<t>-<index>`, with `t` the clock reading taken while element
      `index` is mapped. */
  function QuestionId(t: nat, index: nat): string {
    "q-" + NatToString(t) + "-" + NatToString(index)
  }

  /** Equal ids mean equal indices, whatever the two clock readings were:
      the index is the digit run after the last `-`. */
  lemma QuestionIdInjective(t1: nat, i: nat, t2: nat, j: nat)
    requires QuestionId(t1, i) == QuestionId(t2, j)
    ensures i == j
  {
    var a, b := NatToString(i), NatToString(j);
    var p1 := "q-" + NatToString(t1) + "-";
    var p2 := "q-" + NatToString(t2) + "-";
    var s := QuestionId(t1, i);
    assert s == p1 + a && s == p2 + b;
    assert s[|p1| - 1] == '-' && s[|p2| - 1] == '-';
    assert a == s[|p1|..] == b;
    NatToStringInjective(i, j);
  }

  const FallbackQuestions: seq<Question> := [
    Question("q-fallback-1", "What is the difference between let, const, and var in JavaScript?", "Easy", 20),
    Question("q-fallback-2", "Explain what React hooks are and name three commonly used hooks.", "Easy", 20),
    Question("q-fallback-3", "How does async/await work in JavaScript? Provide an example.", "Medium", 60),
    Question("q-fallback-4", "What is middleware in Express.js and how would you use it?", "Medium", 60),
    Question("q-fallback-5", "Explain the concept of Virtual DOM in React and how it improves performance.", "Hard", 120),
    Question("q-fallback-6", "Design a simple REST API for a blog application. What endpoints would you create and why?", "Hard", 120)
  ]

  /** Ids of a question list are pairwise distinct. */
  predicate DistinctIds(qs: seq<Question>) {
    forall i, j :: 0 <= i < j < |qs| ==> qs[i].id != qs[j].id
  }

  /** The fallback set: six questions with distinct ids, two of each
      difficulty in Easy, Medium, Hard order, each carrying the time limit
      its difficulty maps to. */
  lemma FallbackQuestionsShape()
    ensures |FallbackQuestions| == 6
    ensures DistinctIds(FallbackQuestions)
    ensures forall i :: 0 <= i < 6 ==>
              FallbackQuestions[i].difficulty == (if i < 2 then "Easy" else if i < 4 then "Medium" else "Hard")
    ensures forall i :: 0 <= i < 6 ==>
              FallbackQuestions[i].timeLimit == TimeLimitFor(FallbackQuestions[i].difficulty)
  {
    FallbackIdsDistinct();
    FallbackLevels();
  }

  lemma FallbackIdsDistinct()
    ensures DistinctIds(FallbackQuestions)
  {
    var q := FallbackQuestions;
    assert q[0].id[11] == '1' && q[1].id[11] == '2' && q[2].id[11] == '3';
    assert q[3].id[11] == '4' && q[4].id[11] == '5' && q[5].id[11] == '6';
  }

  lemma FallbackLevels()
    ensures |FallbackQuestions| == 6
    ensures forall i :: 0 <= i < 6 ==>
              FallbackQuestions[i].difficulty == (if i < 2 then "Easy" else if i < 4 then "Medium" else "Hard")
    ensures forall i :: 0 <= i < 6 ==>
              FallbackQuestions[i].timeLimit == TimeLimitFor(FallbackQuestions[i].difficulty)
  {
  }


  /** The question built from element `index` of a parsed reply, with `t`
      the clock reading taken for it. */
  function FromRaw(raw: RawQuestion, t: nat, index: nat): Question {
    Question(QuestionId(t, index), raw.question, raw.difficulty, TimeLimitFor(raw.difficulty))
  }

  /** `generateQuestions`: a parsed array becomes questions with indexed
      ids and derived time limits; a reply without an array span gives NO
      questions; only a thrown call or parse falls back to the fixed set.
      `clock(i)` is the clock reading taken while element `i` is mapped. */
  function GenerateQuestions(reply: Reply<seq<RawQuestion>>, clock: nat -> nat): (qs: seq<Question>)
    ensures reply.Threw? ==> qs == FallbackQuestions
    ensures reply.NoJsonSpan? ==> qs == []
    ensures reply.Parsed? ==> |qs| == |reply.value|
    ensures reply.Parsed? ==> forall i :: 0 <= i < |qs| ==>
              && qs[i].question == reply.value[i].question
              && qs[i].difficulty == reply.value[i].difficulty
              && qs[i].timeLimit == TimeLimitFor(reply.value[i].difficulty)
              && qs[i].id == QuestionId(clock(i), i)
  {
    match reply
    case Threw => FallbackQuestions
    case NoJsonSpan => []
    case Parsed(raws) =>
      var qs := seq(|raws|, i requires 0 <= i < |raws| => FromRaw(raws[i], clock(i), i));
      assert forall i :: 0 <= i < |qs| ==> qs[i] == FromRaw(raws[i], clock(i), i);
      qs
  }

  /** Every question list the wrapper returns has pairwise distinct ids. */
  lemma GeneratedIdsDistinct(reply: Reply<seq<RawQuestion>>, clock: nat -> nat)
    ensures DistinctIds(GenerateQuestions(reply, clock))
  {
    var qs := GenerateQuestions(reply, clock);
    match reply
    case Threw => FallbackQuestionsShape();
    case NoJsonSpan =>
    case Parsed(raws) =>
      forall i, j | 0 <= i < j < |qs| ensures qs[i].id != qs[j].id {
        if qs[i].id == qs[j].id {
          QuestionIdInjective(clock(i), i, clock(j), j);
        }
      }
  }

  // ---------------------------------------------------------------------------
  // evaluation

  /** `answer.trim().split(/\s+/).length`: the number of words of a
      non-blank answer, and 1 (the one empty piece) for a blank one. */
  function WordCount(answer: string): (n: nat)
    ensures n >= 1
    ensures IsBlank(answer) ==> n == 1
    ensures !IsBlank(answer) ==> n == Words(answer)
  {
    var t := Trim(answer);
    TrimEmptyIffBlank(answer);
    SplitWsCount(t);
    WordsTrim(answer);
    |SplitWs(t)|
  }

  /** The length heuristic: 0 words scores 0, then 3 below 5 words, 5 below
      20, 7 below 50, and 8 from 50 words on. */
  function FallbackScore(words: nat): (score: int)
    ensures 0 <= score <= 8
    ensures score == 0 <==> words == 0
    ensures 1 <= words < 5 ==> score == 3
    ensures 5 <= words < 20 ==> score == 5
    ensures 20 <= words < 50 ==> score == 7
    ensures words >= 50 ==> score == 8
  {
    if words == 0 then 0
    else if words < 5 then 3
    else if words < 20 then 5
    else if words < 50 then 7
    else 8
  }

  /** More words never lower the heuristic score. */
  lemma FallbackScoreMonotone(a: nat, b: nat)
    requires a <= b
    ensures FallbackScore(a) <= FallbackScore(b)
  {
  }

  /** `evaluateAnswer`: a parsed object is taken as is; a reply without an
      object span scores 5 with a default feedback; a thrown call uses the
      word-count heuristic with a fixed feedback. */
  function EvaluateAnswer(reply: Reply<Evaluation>, answer: string): (e: Evaluation)
    ensures reply.Parsed? ==> e == reply.value
    ensures reply.NoJsonSpan? ==> e == Evaluation(5, DefaultFeedback)
    ensures reply.Threw? ==> e.feedback == FallbackFeedback && e.score in {3, 5, 7, 8}
    ensures reply.Threw? ==> e.score == FallbackScore(WordCount(answer))
  {
    match reply
    case Parsed(v) => v
    case NoJsonSpan => Evaluation(5, DefaultFeedback)
    case Threw => Evaluation(FallbackScore(WordCount(answer)), FallbackFeedback)
  }

  /** A blank answer still splits into one (empty) piece, so the heuristic
      scores it 3, never 0. */
  lemma BlankAnswerScoresThree(answer: string)
    requires IsBlank(answer)
    ensures WordCount(answer) == 1
    ensures EvaluateAnswer(Threw, answer).score == 3
  {
    TrimEmptyIffBlank(answer);
  }

  /** On a trimmed, non-blank answer every piece of the split is a
      non-empty, white-space-free word, so the count is a word count. */
  lemma {:induction false} WordCountCountsWords(s: string)
    requires |s| > 0 && !IsSpace(s[0]) && !IsSpace(s[|s| - 1])
    ensures forall k :: 0 <= k < |SplitWs(s)| ==> |SplitWs(s)[k]| > 0 && NoSpace(SplitWs(s)[k])
  {
    SplitWsLaterPiecesNonEmpty(s);
  }

  lemma {:induction false} SplitWsLaterPiecesNonEmpty(s: string)
    requires |s| > 0 && !IsSpace(s[|s| - 1])
    ensures forall k :: 1 <= k < |SplitWs(s)| ==> |SplitWs(s)[k]| > 0
    decreases |s|
  {
    if IsSpace(s[0]) {
      var t := TrimStart(s);
      assert t[|t| - 1] == s[|s| - 1];
      SplitWsLaterPiecesNonEmpty(t);
      assert SplitWs(s) == [""] + SplitWs(t);
    } else if |s| > 1 {
      SplitWsLaterPiecesNonEmpty(s[1..]);
    }
  }

  // ---------------------------------------------------------------------------
  // summary and profile

  /** One QA rendered for the summary prompt: `Q{i+1} ({difficulty}): …\nA: …\nScore: s/10`. */
  function QaEntry(i: nat, qa: QuestionAnswer): string {
    "Q" + NatToString(i + 1) + " (" + qa.difficulty + "): " + qa.question
      + "\nA: " + qa.answer + "\nScore: " + IntToString(qa.score) + "/10"
  }

  /** The entries joined by blank lines. */
  function QaText(qas: seq<QuestionAnswer>): string
    decreases |qas|
  {
    if |qas| == 0 then ""
    else if |qas| == 1 then QaEntry(0, qas[0])
    else QaText(qas[..|qas| - 1]) + "\n\n" + QaEntry(|qas| - 1, qas[|qas| - 1])
  }

  /** The entries `map` produces: entry `i` numbers QA `i` from one. */
  function QaEntries(qas: seq<QuestionAnswer>): (r: seq<string>)
    ensures |r| == |qas|
  {
    seq(|qas|, i requires 0 <= i < |qas| => QaEntry(i, qas[i]))
  }

  /** The summary input is the `map`-then-`join` of the source: the
      numbered entries in order, separated by blank lines. */
  lemma {:induction false} QaTextIsJoin(qas: seq<QuestionAnswer>)
    ensures QaText(qas) == Join(QaEntries(qas), "\n\n")
    decreases |qas|
  {
    if |qas| > 1 {
      var n := |qas|;
      var init := qas[..n - 1];
      QaTextIsJoin(init);
      QaEntriesSnoc(qas);
      JoinSnoc(QaEntries(init), QaEntry(n - 1, qas[n - 1]), "\n\n");
    }
  }

  /** The entries of all QAs are those of all but the last, then the last one's. */
  lemma QaEntriesSnoc(qas: seq<QuestionAnswer>)
    requires |qas| >= 1
    ensures QaEntries(qas) == QaEntries(qas[..|qas| - 1]) + [QaEntry(|qas| - 1, qas[|qas| - 1])]
  {
  }

  /** `generateSummary`: the reply, or a fixed text when the call throws. */
  function GenerateSummary(reply: Option<string>): (r: string)
    ensures reply.Some? ==> r == reply.value
    ensures reply.None? ==> r == FallbackSummary
  {
    reply.GetOr(FallbackSummary)
  }

  /** `generateProfileDescription`: the reply, or a fixed text when the call
      throws; it never propagates a failure. */
  function GenerateProfileDescription(reply: Option<string>): (r: string)
    ensures reply.Some? ==> r == reply.value
    ensures reply.None? ==> r == FallbackProfile
  {
    reply.GetOr(FallbackProfile)
  }
}
