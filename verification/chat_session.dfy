/** The interview session handlers of the chat component
    (src/components/ChatInterface.tsx): question loading, the countdown,
    manual and automatic submission, advancing or completing, and the
    missing-field form. Each asynchronous handler is a sequential
    composition of store reducers; the provider replies and the clock are
    parameters.

    A handler reads the component's render-time values — the store
    snapshot, the question list, the countdown — once, when it is called,
    and its dispatches then act on the live store. `SubmitAnswerWith`
    keeps both apart, because completion computes the final score from
    the snapshot. */
module ChatSession {
  import opened Wrappers
  import opened Text
  import opened InterviewSlice
  import opened CandidatesSlice
  import opened AppStore
  import opened AiService

  /** Component-local state: the question list, the countdown and the
      values typed into the missing-field form. */
  datatype Local = Local(questions: seq<Question>, timeLeft: int, missingData: map<ContactField, string>)

  datatype Session = Session(store: Store, local: Local)

  const NoAnswerText := "No answer provided"

  /** `questions[currentQuestionIndex]`, absent when the index is out of range. */
  function CurrentQuestion(s: Session): (r: Option<Question>)
    ensures r.Some? <==> 0 <= s.store.interview.currentQuestionIndex < |s.local.questions|
    ensures r.Some? ==> r.value == s.local.questions[s.store.interview.currentQuestionIndex]
  {
    var i := s.store.interview.currentQuestionIndex;
    if 0 <= i < |s.local.questions| then Some(s.local.questions[i]) else None
  }

  // ---------------------------------------------------------------------------
  // countdown

  datatype TickResult = TickResult(next: int, autoSubmit: bool)

  /** One interval tick: above one the countdown steps down; at one or
      below it drops to zero and fires the auto-submit. */
  function Tick(prev: int): (r: TickResult)
    ensures r.autoSubmit <==> prev <= 1
    ensures r.autoSubmit ==> r.next == 0
    ensures !r.autoSubmit ==> r.next == prev - 1 && r.next >= 1
  {
    if prev <= 1 then TickResult(0, true) else TickResult(prev - 1, false)
  }

  /** The auto-submit flags of up to `k` ticks starting at `t`; the
      interval only runs while the countdown is positive. */
  function Ticks(t: int, k: nat): seq<bool> {
    if k == 0 || t <= 0 then [] else [Tick(t).autoSubmit] + Ticks(Tick(t).next, k - 1)
  }

  /** From a countdown of `t`, the interval ticks exactly `t` times
      however long it is left running, and fires the auto-submit exactly
      once, on the last tick. */
  lemma {:induction false} CountdownFiresOnce(t: int, k: nat)
    requires 1 <= t <= k
    ensures |Ticks(t, k)| == t
    ensures forall i :: 0 <= i < t ==> (Ticks(t, k)[i] <==> i == t - 1)
  {
    if t > 1 {
      CountdownFiresOnce(t - 1, k - 1);
    } else {
      assert Ticks(0, k - 1) == [];
    }
  }

  /** The effect that runs when the current question changes: the
      countdown restarts at that question's limit. */
  function ResetTimer(s: Session): (r: Session)
    ensures r.store == s.store && r.local.questions == s.local.questions
    ensures CurrentQuestion(s).Some? ==> r.local.timeLeft == CurrentQuestion(s).value.timeLimit
    ensures CurrentQuestion(s).None? ==> r == s
  {
    match CurrentQuestion(s)
    case Some(q) => s.(local := s.local.(timeLeft := q.timeLimit))
    case None => s
  }

  // ---------------------------------------------------------------------------
  // messages

  function MsgId(n: nat): string { "msg-" + NatToString(n) }

  /** `Question i/N (difficulty): text`. */
  function QuestionText(position: nat, total: nat, q: Question): string {
    "Question " + NatToString(position) + "/" + NatToString(total) + " (" + q.difficulty + "): " + q.question
  }

  function FeedbackText(e: Evaluation): string {
    "Score: " + IntToString(e.score) + "/10 - " + e.feedback
  }

  /** A non-negative number of tenths as JavaScript prints it: the whole
      part, then `.` and the tenths digit unless that digit is zero. */
  function UnsignedTenths(a: nat): (r: string)
    ensures a % 10 == 0 ==> r == NatToString(a / 10)
    ensures a % 10 != 0 ==> r == NatToString(a / 10) + "." + [DigitChar(a % 10)]
    ensures IsDigit(r[0])
    ensures a % 10 != 0 <==> |r| >= 2 && r[|r| - 2] == '.'
  {
    if a % 10 == 0 then NatToString(a / 10) else NatToString(a / 10) + "." + [DigitChar(a % 10)]
  }

  /** The magnitude of a number of tenths; it ends in a zero digit exactly
      when the number does. */
  function Magnitude(t: int): (a: nat)
    ensures a % 10 == 0 <==> t % 10 == 0
    ensures t >= 0 ==> a == t
    ensures t < 0 ==> a == -t
  {
    if t < 0 then -t else t
  }

  /** How a number of tenths prints as a JavaScript number: an integer
      when whole, otherwise with one decimal; `NaN` prints as such. */
  function FormatScore(v: ScoreValue): (r: string)
    ensures |r| >= 1 && (r[0] == 'N' <==> v.NaN?)
    ensures v.NaN? ==> r == "NaN"
    ensures v.Tenths? && v.tenths % 10 == 0 ==> r == IntToString(v.tenths / 10)
    ensures v.Tenths? && v.tenths % 10 != 0 ==>
              var a := if v.tenths < 0 then -v.tenths else v.tenths;
              r == (if v.tenths < 0 then "-" else "") + NatToString(a / 10) + "." + [DigitChar(a % 10)]
  {
    match v
    case NaN => "NaN"
    case Tenths(t) =>
      var a := Magnitude(t);
      assert a % 10 == 0 ==> t / 10 == if t < 0 then -(a / 10) else a / 10;
      (if t < 0 then "-" else "") + UnsignedTenths(a)
  }

  /** Distinct non-negative tenths print distinctly. */
  lemma UnsignedTenthsInjective(a: nat, b: nat)
    requires UnsignedTenths(a) == UnsignedTenths(b)
    ensures a == b
  {
    var r := UnsignedTenths(a);
    if a % 10 != 0 && b % 10 != 0 {
      assert r[..|r| - 2] == NatToString(a / 10);
      assert r[..|r| - 2] == NatToString(b / 10);
      assert DigitChar(a % 10) == r[|r| - 1] == DigitChar(b % 10);
    }
    NatToStringInjective(a / 10, b / 10);
  }

  /** The completion message names the score unambiguously: distinct
      scores, `NaN` included, print as distinct texts. */
  lemma FormatScoreInjective(v: ScoreValue, w: ScoreValue)
    requires FormatScore(v) == FormatScore(w)
    ensures v == w
  {
    var r := FormatScore(v);
    if v.Tenths? && w.Tenths? {
      var a, b := Magnitude(v.tenths), Magnitude(w.tenths);
      assert r == (if v.tenths < 0 then "-" else "") + UnsignedTenths(a);
      assert r == (if w.tenths < 0 then "-" else "") + UnsignedTenths(b);
      if v.tenths < 0 {
        assert r[0] == '-';
        assert w.tenths < 0;
        assert UnsignedTenths(a) == r[1..] == UnsignedTenths(b);
      } else {
        assert r == UnsignedTenths(a);
        assert IsDigit(r[0]);
        assert w.tenths >= 0;
        assert r == UnsignedTenths(b);
      }
      UnsignedTenthsInjective(a, b);
    }
  }

  function CompletionText(score: ScoreValue, summary: string): string {
    "Interview completed! Final Score: " + FormatScore(score) + "/10\n\nSummary: " + summary
  }

  // ---------------------------------------------------------------------------
  // final score

  function SumScores(qas: seq<QuestionAnswer>): int {
    if |qas| == 0 then 0 else SumScores(qas[..|qas| - 1]) + qas[|qas| - 1].score
  }

  /** `Math.round(10 * sum / n)` tenths of a point, or NaN for no answers
      (`0 / 0`). Rounding is half up, as `Math.round` does. */
  function MeanScore(qas: seq<QuestionAnswer>): (r: ScoreValue)
    ensures r.NaN? <==> qas == []
    ensures r.Tenths? ==>
              var n := |qas|;
              2 * n * r.tenths - n <= 20 * SumScores(qas) < 2 * n * r.tenths + n
  {
    if |qas| == 0 then NaN
    else
      var n := |qas|;
      var t := (20 * SumScores(qas) + n) / (2 * n);
      assert 2 * n * t <= 20 * SumScores(qas) + n < 2 * n * t + 2 * n;
      Tenths(t)
  }

  /** Scores within 0..10 sum to within 0..10 per answer. */
  lemma {:induction false} SumScoresBounds(qas: seq<QuestionAnswer>)
    requires forall i :: 0 <= i < |qas| ==> 0 <= qas[i].score <= 10
    ensures 0 <= SumScores(qas) <= 10 * |qas|
  {
    if |qas| > 0 {
      SumScoresBounds(qas[..|qas| - 1]);
    }
  }

  /** With every score within 0..10 the mean is within 0..100 tenths. */
  lemma MeanScoreInRange(qas: seq<QuestionAnswer>)
    requires qas != []
    requires forall i :: 0 <= i < |qas| ==> 0 <= qas[i].score <= 10
    ensures 0 <= MeanScore(qas).tenths <= 100
  {
    SumScoresBounds(qas);
    var n := |qas|;
    var t := MeanScore(qas).tenths;
    assert n * (-2 * t - 1) == -(2 * n * t + n);
    assert n * (2 * t - 201) == (2 * n * t - n) - 200 * n;
    MulSign(n, -2 * t - 1);
    MulSign(n, 2 * t - 201);
  }

  /** Equal scores average to that score exactly. */
  lemma {:induction false} MeanOfEqualScores(qas: seq<QuestionAnswer>, s: int)
    requires qas != []
    requires forall i :: 0 <= i < |qas| ==> qas[i].score == s
    ensures MeanScore(qas) == Tenths(10 * s)
  {
    SumOfEqualScores(qas, s);
    var n := |qas|;
    var t := MeanScore(qas).tenths;
    assert 2 * n * t - n - 20 * SumScores(qas) == n * (2 * t - 1 - 20 * s);
    assert 20 * SumScores(qas) - 2 * n * t - n == n * (20 * s - 2 * t - 1);
    MulSign(n, 2 * t - 1 - 20 * s);
    MulSign(n, 20 * s - 2 * t - 1);
  }

  /** A positive factor keeps the sign of the other. */
  lemma {:induction false} MulSign(n: nat, x: int)
    requires n > 0
    ensures x > 0 ==> n * x > 0
    ensures x >= 0 ==> n * x >= 0
  {
    if n > 1 {
      MulSign(n - 1, x);
      assert n * x == (n - 1) * x + x;
    }
  }

  lemma {:induction false} SumOfEqualScores(qas: seq<QuestionAnswer>, s: int)
    requires forall i :: 0 <= i < |qas| ==> qas[i].score == s
    ensures SumScores(qas) == |qas| * s
  {
    if |qas| > 0 {
      SumOfEqualScores(qas[..|qas| - 1], s);
    }
  }

  // ---------------------------------------------------------------------------
  // loading questions

  /** The effect's condition for loading: interview stage, no questions
      yet, and the current candidate found. */
  predicate ShouldLoadQuestions(s: Session) {
    s.store.interview.stage == Interview && s.local.questions == [] && CurrentCandidate(s.store).Some?
  }

  /** `loadQuestions`: the questions are stored; when there is at least one,
      the first is posted as a bot message and the candidate becomes
      in progress. An empty list fails on reading its first element, so
      nothing is posted and the status is kept. */
  function LoadQuestions(s: Session, reply: Reply<seq<RawQuestion>>, clock: nat -> nat, now: nat): (r: Session)
    ensures CurrentCandidate(s.store).None? ==> r == s
    ensures CurrentCandidate(s.store).Some? ==>
              var qs := GenerateQuestions(reply, clock);
              var id := CurrentCandidate(s.store).value.id;
              && r.local.questions == qs
              && r.store.interview == s.store.interview
              && (qs == [] ==> r.store.candidates == s.store.candidates)
              && (qs != [] ==>
                    r.store.candidates
                    == UpdateCandidate(AddMessage(s.store.candidates, id, Message(MsgId(now), Bot, QuestionText(1, |qs|, qs[0]), now)),
                                       id, NoUpdates.(status := Some(InProgress))))
  {
    match CurrentCandidate(s.store)
    case None => s
    case Some(c) =>
      var qs := GenerateQuestions(reply, clock);
      var s1 := s.(local := s.local.(questions := qs));
      if qs == [] then s1
      else
        var cs := AddMessage(s.store.candidates, c.id, Message(MsgId(now), Bot, QuestionText(1, |qs|, qs[0]), now));
        var cs2 := UpdateCandidate(cs, c.id, NoUpdates.(status := Some(InProgress)));
        s1.(store := s1.store.(candidates := cs2))
  }

  /** After a non-empty load the current candidate's history ends with the
      first question and its status is in progress; its answers are kept. */
  lemma LoadQuestionsPostsFirst(s: Session, reply: Reply<seq<RawQuestion>>, clock: nat -> nat, now: nat)
    requires CurrentCandidate(s.store).Some? && GenerateQuestions(reply, clock) != []
    ensures var r := LoadQuestions(s, reply, clock, now);
            var c := CurrentCandidate(s.store).value;
            var qs := GenerateQuestions(reply, clock);
            && CurrentCandidate(r.store).Some?
            && CurrentCandidate(r.store).value.chatHistory
               == c.chatHistory + [Message(MsgId(now), Bot, QuestionText(1, |qs|, qs[0]), now)]
            && CurrentCandidate(r.store).value.status == InProgress
            && CurrentCandidate(r.store).value.questionsAnswers == c.questionsAnswers
  {
    var c := CurrentCandidate(s.store).value;
    var qs := GenerateQuestions(reply, clock);
    var m := Message(MsgId(now), Bot, QuestionText(1, |qs|, qs[0]), now);
    var u := NoUpdates.(status := Some(InProgress));
    var cs := s.store.candidates;
    AppendsKeepIndex(cs, c.id, m, QuestionAnswer("", "", "", "", 0, 0, 0));
    UpdateKeepsIndex(AddMessage(cs, c.id, m), c.id, u);
  }

  /** A reply without a JSON array yields no questions, so loading posts
      nothing and leaves the candidate pending. */
  lemma NoJsonSpanLoadsNothing(s: Session, clock: nat -> nat, now: nat)
    ensures LoadQuestions(s, NoJsonSpan, clock, now).store == s.store
  {
  }

  // ---------------------------------------------------------------------------
  // submitting

  /** The answer record for question `q`, answered with `timeLeft` seconds left. */
  function QaFor(q: Question, answer: string, timeLeft: int, score: int): (qa: QuestionAnswer)
    ensures qa.questionId == q.id && qa.question == q.question && qa.difficulty == q.difficulty
    ensures qa.answer == answer && qa.score == score && qa.timeLimit == q.timeLimit
    ensures qa.timeSpent + timeLeft == q.timeLimit
  {
    QuestionAnswer(q.id, q.question, answer, q.difficulty, q.timeLimit, q.timeLimit - timeLeft, score)
  }

  function UserMsg(answer: string, now: nat): Message { Message(MsgId(now), User, answer, now) }
  function FeedbackMsg(e: Evaluation, now: nat): Message { Message(MsgId(now + 1), System, FeedbackText(e), now) }
  function CompletionMsg(score: ScoreValue, summary: string, now: nat): Message {
    Message(MsgId(now), System, CompletionText(score, summary), now)
  }

  /** The session's current candidate is the first record with its id. */
  lemma CurrentIsFirstWithId(st: Store)
    requires CurrentCandidate(st).Some?
    ensures var c := CurrentCandidate(st).value;
            FindIndex(st.candidates, c.id).Some? && st.candidates[FindIndex(st.candidates, c.id).value] == c
  {
  }

  /** Conversely, the first record with the session's id is its current candidate. */
  lemma FirstWithIdIsCurrent(st: Store, id: string, k: nat)
    requires st.interview.currentCandidateId == Some(id) && FindIndex(st.candidates, id) == Some(k)
    ensures CurrentCandidate(st) == Some(st.candidates[k])
  {
  }

  /** The three appends every submission makes: the user message, the
      answer record and the feedback message, all on the first record
      with the id. */
  function RecordAnswer(cs: seq<Candidate>, id: string, m1: Message, qa: QuestionAnswer, m2: Message): (r: seq<Candidate>)
    ensures |r| == |cs|
    ensures FindIndex(cs, id).None? ==> r == cs
    ensures FindIndex(cs, id).Some? ==>
              var k := FindIndex(cs, id).value;
              && FindIndex(r, id) == Some(k)
              && r[k] == cs[k].(chatHistory := cs[k].chatHistory + [m1, m2],
                                questionsAnswers := cs[k].questionsAnswers + [qa])
              && forall j :: 0 <= j < |cs| && j != k ==> r[j] == cs[j]
  {
    if FindIndex(cs, id).Some? then
      ThreeAppends(cs, id, FindIndex(cs, id).value, m1, qa, m2);
      AddMessage(AddQuestionAnswer(AddMessage(cs, id, m1), id, qa), id, m2)
    else
      AddMessage(AddQuestionAnswer(AddMessage(cs, id, m1), id, qa), id, m2)
  }

  lemma {:induction false} ThreeAppends(cs: seq<Candidate>, id: string, k: nat, m1: Message, qa: QuestionAnswer, m2: Message)
    requires FindIndex(cs, id) == Some(k)
    ensures var r := AddMessage(AddQuestionAnswer(AddMessage(cs, id, m1), id, qa), id, m2);
            && FindIndex(r, id) == Some(k)
            && r[k] == cs[k].(chatHistory := cs[k].chatHistory + [m1, m2],
                              questionsAnswers := cs[k].questionsAnswers + [qa])
            && forall j :: 0 <= j < |cs| && j != k ==> r[j] == cs[j]
  {
    var cs1 := AddMessage(cs, id, m1);
    AppendsKeepIndex(cs, id, m1, qa);
    var cs2 := AddQuestionAnswer(cs1, id, qa);
    AppendsKeepIndex(cs1, id, m1, qa);
    var cs3 := AddMessage(cs2, id, m2);
    AppendsKeepIndex(cs2, id, m2, qa);
    assert cs3[k].chatHistory == cs[k].chatHistory + [m1] + [m2];
  }

  /** `completeInterviewFlow`, given the answers the mean is taken over:
      the completed status, the mean and the summary are merged into the
      record, the completion message is appended, and the session is
      completed. */
  function CompleteFlow(st: Store, id: string, meanOver: seq<QuestionAnswer>, summary: string, now: nat): (r: Store)
    ensures r.interview == CompleteInterview(st.interview)
    ensures |r.candidates| == |st.candidates|
    ensures FindIndex(st.candidates, id).Some? ==>
              var k := FindIndex(st.candidates, id).value;
              && FindIndex(r.candidates, id) == Some(k)
              && r.candidates[k]
                 == st.candidates[k].(status := Status.Completed, finalScore := MeanScore(meanOver), summary := summary,
                                      chatHistory := st.candidates[k].chatHistory + [CompletionMsg(MeanScore(meanOver), summary, now)])
              && forall j :: 0 <= j < |st.candidates| && j != k ==> r.candidates[j] == st.candidates[j]
  {
    var score := MeanScore(meanOver);
    var u := NoUpdates.(status := Some(Status.Completed), finalScore := Some(score), summary := Some(summary));
    var cs := UpdateCandidate(st.candidates, id, u);
    UpdateKeepsIndex(st.candidates, id, u);
    var m := CompletionMsg(score, summary, now);
    AppendsKeepIndex(cs, id, m, QuestionAnswer("", "", "", "", 0, 0, 0));
    Store(CompleteInterview(st.interview), AddMessage(cs, id, m))
  }

  /** The message announcing question `i + 1` (zero-based) of the list. */
  function NextMsg(qs: seq<Question>, i: nat, now: nat): Message
    requires i + 1 < |qs|
  {
    Message(MsgId(now + 2), Bot, QuestionText(i + 2, |qs|, qs[i + 1]), now)
  }

  /** Moving on below the last question: the index steps forward with the
      draft cleared, the next question is posted, and the countdown
      restarts at its limit. */
  function AdvanceFlow(s: Session, id: string, now: nat): (r: Session)
    requires 0 <= s.store.interview.currentQuestionIndex < |s.local.questions| - 1
    ensures r.store.interview == SetCurrentAnswer(NextQuestion(s.store.interview), "")
    ensures r.local == s.local.(timeLeft := s.local.questions[s.store.interview.currentQuestionIndex + 1].timeLimit)
    ensures CurrentQuestion(r) == Some(s.local.questions[s.store.interview.currentQuestionIndex + 1])
    ensures |r.store.candidates| == |s.store.candidates|
    ensures FindIndex(s.store.candidates, id).Some? ==>
              var k := FindIndex(s.store.candidates, id).value;
              && FindIndex(r.store.candidates, id) == Some(k)
              && r.store.candidates[k]
                 == s.store.candidates[k].(chatHistory := s.store.candidates[k].chatHistory
                                                          + [NextMsg(s.local.questions, s.store.interview.currentQuestionIndex, now)])
              && forall j :: 0 <= j < |s.store.candidates| && j != k ==> r.store.candidates[j] == s.store.candidates[j]
  {
    var m := NextMsg(s.local.questions, s.store.interview.currentQuestionIndex, now);
    AppendsKeepIndex(s.store.candidates, id, m, QuestionAnswer("", "", "", "", 0, 0, 0));
    var cs := AddMessage(s.store.candidates, id, m);
    var interview := SetCurrentAnswer(NextQuestion(s.store.interview), "");
    ResetTimer(s.(store := Store(interview, cs)))
  }

  /** `submitAnswer`. Without a current question or candidate nothing
      happens. Otherwise the user message, the answer record and the
      feedback message are appended; then either the session advances or,
      at the last question, completion runs. As written (`corrected`
      false) the mean is taken over the snapshot's answers, which lack the
      one just recorded; corrected, over the live answers. `now` is the
      clock after the evaluation, `later` after the summary. */
  function SubmitAnswerWith(corrected: bool, s: Session, answer: string, evalReply: Reply<Evaluation>,
                            summaryReply: Option<string>, now: nat, later: nat): (r: Session)
    ensures CurrentQuestion(s).None? || CurrentCandidate(s.store).None? ==> r == s
  {
    if CurrentQuestion(s).Some? && CurrentCandidate(s.store).Some? then
      var q := CurrentQuestion(s).value;
      var snap := CurrentCandidate(s.store).value;
      var e := EvaluateAnswer(evalReply, answer);
      var qa := QaFor(q, answer, s.local.timeLeft, e.score);
      var cs := RecordAnswer(s.store.candidates, snap.id, UserMsg(answer, now), qa, FeedbackMsg(e, now));
      var s1 := s.(store := s.store.(candidates := cs));
      if s.store.interview.currentQuestionIndex >= |s.local.questions| - 1 then
        var meanOver := if corrected then snap.questionsAnswers + [qa] else snap.questionsAnswers;
        s1.(store := CompleteFlow(s1.store, snap.id, meanOver, GenerateSummary(summaryReply), later))
      else
        AdvanceFlow(s1, snap.id, now)
    else s
  }

  /** The corrected handler the rest of the model uses: every submission
      with a current question and candidate records exactly one answer. */
  function SubmitAnswer(s: Session, answer: string, evalReply: Reply<Evaluation>,
                        summaryReply: Option<string>, now: nat, later: nat): (r: Session)
    ensures CurrentQuestion(s).None? || CurrentCandidate(s.store).None? ==> r == s
    ensures CurrentQuestion(s).Some? && CurrentCandidate(s.store).Some? ==>
              && CurrentCandidate(r.store).Some?
              && CurrentCandidate(r.store).value.questionsAnswers
                 == CurrentCandidate(s.store).value.questionsAnswers
                    + [QaFor(CurrentQuestion(s).value, answer, s.local.timeLeft, EvaluateAnswer(evalReply, answer).score)]
  {
    if CurrentQuestion(s).Some? && CurrentCandidate(s.store).Some? then
      SubmitRecordsAnswer(true, s, answer, evalReply, summaryReply, now, later);
      SubmitAnswerWith(true, s, answer, evalReply, summaryReply, now, later)
    else
      SubmitAnswerWith(true, s, answer, evalReply, summaryReply, now, later)
  }

  /** `handleAutoSubmit`: the draft, or the fixed text when it is empty, is
      submitted through the as-written (`corrected` false) or the corrected
      `submitAnswer`. */
  function HandleAutoSubmitWith(corrected: bool, s: Session, evalReply: Reply<Evaluation>, summaryReply: Option<string>,
                                now: nat, later: nat): (r: Session)
    ensures CurrentQuestion(s).None? || CurrentCandidate(s.store).None? ==> r == s
    ensures CurrentQuestion(s).Some? && CurrentCandidate(s.store).Some? ==>
              var d := s.store.interview.currentAnswer;
              var sent := if d == "" then NoAnswerText else d;
              && CurrentCandidate(r.store).Some?
              && CurrentCandidate(r.store).value.questionsAnswers
                 == CurrentCandidate(s.store).value.questionsAnswers
                    + [QaFor(CurrentQuestion(s).value, sent, s.local.timeLeft, EvaluateAnswer(evalReply, sent).score)]
  {
    var d := s.store.interview.currentAnswer;
    var sent := if d == "" then NoAnswerText else d;
    if CurrentQuestion(s).Some? && CurrentCandidate(s.store).Some? then
      SubmitRecordsAnswer(corrected, s, sent, evalReply, summaryReply, now, later);
      SubmitAnswerWith(corrected, s, sent, evalReply, summaryReply, now, later)
    else
      SubmitAnswerWith(corrected, s, sent, evalReply, summaryReply, now, later)
  }

  /** `handleSubmit`: a blank draft only warns; otherwise the draft is
      submitted through the as-written or the corrected `submitAnswer`. */
  function HandleSubmitWith(corrected: bool, s: Session, evalReply: Reply<Evaluation>, summaryReply: Option<string>,
                            now: nat, later: nat): (r: Session)
    ensures IsBlank(s.store.interview.currentAnswer) ==> r == s
    ensures !IsBlank(s.store.interview.currentAnswer) ==>
              r == SubmitAnswerWith(corrected, s, s.store.interview.currentAnswer, evalReply, summaryReply, now, later)
  {
    TrimEmptyIffBlank(s.store.interview.currentAnswer);
    if |Trim(s.store.interview.currentAnswer)| == 0 then s
    else SubmitAnswerWith(corrected, s, s.store.interview.currentAnswer, evalReply, summaryReply, now, later)
  }

  /** An auto-submit records the draft, or the fixed text when the draft is
      empty, so a timed-out question never records an empty answer; and
      when it fires from the last tick (one second left) the time spent is
      the limit less one. */
  lemma AutoSubmitRecords(corrected: bool, s: Session, evalReply: Reply<Evaluation>, summaryReply: Option<string>,
                          now: nat, later: nat)
    requires CurrentQuestion(s).Some? && CurrentCandidate(s.store).Some?
    ensures CurrentCandidate(HandleAutoSubmitWith(corrected, s, evalReply, summaryReply, now, later).store).Some?
    ensures var r := HandleAutoSubmitWith(corrected, s, evalReply, summaryReply, now, later);
            CurrentCandidate(r.store).Some? &&
            var qas := CurrentCandidate(r.store).value.questionsAnswers;
            var d := s.store.interview.currentAnswer;
            && |qas| >= 1
            && qas[|qas| - 1].answer == (if d == "" then NoAnswerText else d)
            && qas[|qas| - 1].answer != ""
            && (s.local.timeLeft == 1 ==> qas[|qas| - 1].timeSpent == CurrentQuestion(s).value.timeLimit - 1)
  {
    var d := s.store.interview.currentAnswer;
    SubmitRecordsAnswer(corrected, s, if d == "" then NoAnswerText else d, evalReply, summaryReply, now, later);
  }

  // ---------------------------------------------------------------------------
  // what a submission records

  /** Every submission with a current question and candidate records one
      answer, whether it advances or completes. */
  lemma SubmitRecordsAnswer(corrected: bool, s: Session, answer: string, evalReply: Reply<Evaluation>,
                            summaryReply: Option<string>, now: nat, later: nat)
    requires CurrentQuestion(s).Some? && CurrentCandidate(s.store).Some?
    ensures var r := SubmitAnswerWith(corrected, s, answer, evalReply, summaryReply, now, later);
            && CurrentCandidate(r.store).Some?
            && CurrentCandidate(r.store).value.questionsAnswers
               == CurrentCandidate(s.store).value.questionsAnswers
                  + [QaFor(CurrentQuestion(s).value, answer, s.local.timeLeft, EvaluateAnswer(evalReply, answer).score)]
  {
    if s.store.interview.currentQuestionIndex >= |s.local.questions| - 1 {
      SubmitCompletes(corrected, s, answer, evalReply, summaryReply, now, later);
    } else {
      SubmitAdvances(corrected, s, answer, evalReply, summaryReply, now, later);
    }
  }

  /** At the last question, a submit is the record step followed by the completion step. */
  lemma SubmitIsComplete(corrected: bool, s: Session, answer: string, evalReply: Reply<Evaluation>,
                         summaryReply: Option<string>, now: nat, later: nat)
    requires CurrentQuestion(s).Some? && CurrentCandidate(s.store).Some?
    requires s.store.interview.currentQuestionIndex >= |s.local.questions| - 1
    ensures var snap := CurrentCandidate(s.store).value;
            var e := EvaluateAnswer(evalReply, answer);
            var qa := QaFor(CurrentQuestion(s).value, answer, s.local.timeLeft, e.score);
            var cs := RecordAnswer(s.store.candidates, snap.id, UserMsg(answer, now), qa, FeedbackMsg(e, now));
            var meanOver := if corrected then snap.questionsAnswers + [qa] else snap.questionsAnswers;
            SubmitAnswerWith(corrected, s, answer, evalReply, summaryReply, now, later)
            == s.(store := CompleteFlow(Store(s.store.interview, cs), snap.id, meanOver, GenerateSummary(summaryReply), later))
  {
  }

  /** Recording an answer and completing leaves the session's candidate
      with the three new messages, the answer, and the completion fields. */
  lemma CompleteStep(st: Store, snap: Candidate, k: nat, m1: Message, qa: QuestionAnswer, m2: Message,
                     meanOver: seq<QuestionAnswer>, summary: string, later: nat)
    requires st.interview.currentCandidateId == Some(snap.id)
    requires FindIndex(st.candidates, snap.id) == Some(k) && st.candidates[k] == snap
    ensures var r := CompleteFlow(Store(st.interview, RecordAnswer(st.candidates, snap.id, m1, qa, m2)), snap.id, meanOver, summary, later);
            var score := MeanScore(meanOver);
            && CurrentCandidate(r)
               == Some(snap.(chatHistory := snap.chatHistory + [m1, m2, CompletionMsg(score, summary, later)],
                             questionsAnswers := snap.questionsAnswers + [qa],
                             status := Status.Completed, finalScore := score, summary := summary))
            && r.interview == CompleteInterview(st.interview)
  {
    var r := CompleteFlow(Store(st.interview, RecordAnswer(st.candidates, snap.id, m1, qa, m2)), snap.id, meanOver, summary, later);
    CompletedRecord(st.candidates, snap.id, k, m1, qa, m2, st.interview, meanOver, summary, later);
    FirstWithIdIsCurrent(r, snap.id, k);
  }

  /** Recording an answer and advancing leaves the record with the two new
      messages and the next question's message, and the answer. */
  lemma AdvancedRecord(s: Session, id: string, k: nat, m1: Message, qa: QuestionAnswer, m2: Message, now: nat)
    requires FindIndex(s.store.candidates, id) == Some(k)
    requires 0 <= s.store.interview.currentQuestionIndex < |s.local.questions| - 1
    ensures var c := s.store.candidates[k];
            var r := AdvanceFlow(s.(store := s.store.(candidates := RecordAnswer(s.store.candidates, id, m1, qa, m2))), id, now);
            && FindIndex(r.store.candidates, id) == Some(k)
            && r.store.candidates[k]
               == c.(chatHistory := c.chatHistory + [m1, m2, NextMsg(s.local.questions, s.store.interview.currentQuestionIndex, now)],
                     questionsAnswers := c.questionsAnswers + [qa])
            && |r.store.candidates| == |s.store.candidates|
            && forall j :: 0 <= j < |s.store.candidates| && j != k ==> r.store.candidates[j] == s.store.candidates[j]
  {
    var c := s.store.candidates[k];
    var m3 := NextMsg(s.local.questions, s.store.interview.currentQuestionIndex, now);
    assert c.chatHistory + [m1, m2] + [m3] == c.chatHistory + [m1, m2, m3];
  }

  /** The same, seen through the session's current-candidate lookup. */
  lemma AdvanceStep(s: Session, snap: Candidate, k: nat, m1: Message, qa: QuestionAnswer, m2: Message, now: nat)
    requires s.store.interview.currentCandidateId == Some(snap.id)
    requires FindIndex(s.store.candidates, snap.id) == Some(k) && s.store.candidates[k] == snap
    requires 0 <= s.store.interview.currentQuestionIndex < |s.local.questions| - 1
    ensures var i := s.store.interview.currentQuestionIndex;
            var r := AdvanceFlow(s.(store := s.store.(candidates := RecordAnswer(s.store.candidates, snap.id, m1, qa, m2))), snap.id, now);
            && CurrentCandidate(r.store)
               == Some(snap.(chatHistory := snap.chatHistory + [m1, m2, NextMsg(s.local.questions, i, now)],
                             questionsAnswers := snap.questionsAnswers + [qa]))
  {
    var r := AdvanceFlow(s.(store := s.store.(candidates := RecordAnswer(s.store.candidates, snap.id, m1, qa, m2))), snap.id, now);
    AdvancedRecord(s, snap.id, k, m1, qa, m2, now);
    assert r.store.interview.currentCandidateId == Some(snap.id);
    FirstWithIdIsCurrent(r.store, snap.id, k);
  }


  /** Below the last question, a submit is the record step followed by the advance step. */
  lemma SubmitIsAdvance(corrected: bool, s: Session, answer: string, evalReply: Reply<Evaluation>,
                        summaryReply: Option<string>, now: nat, later: nat)
    requires CurrentQuestion(s).Some? && CurrentCandidate(s.store).Some?
    requires s.store.interview.currentQuestionIndex < |s.local.questions| - 1
    ensures var snap := CurrentCandidate(s.store).value;
            var e := EvaluateAnswer(evalReply, answer);
            var qa := QaFor(CurrentQuestion(s).value, answer, s.local.timeLeft, e.score);
            var cs := RecordAnswer(s.store.candidates, snap.id, UserMsg(answer, now), qa, FeedbackMsg(e, now));
            SubmitAnswerWith(corrected, s, answer, evalReply, summaryReply, now, later)
            == AdvanceFlow(s.(store := s.store.(candidates := cs)), snap.id, now)
  {
  }

  /** Below the last question a submission appends the user message, the
      feedback and the next question's message, records the answer, moves
      to the next question with the draft cleared, and restarts the
      countdown at that question's limit; nothing else in the record changes. */
  lemma SubmitAdvances(corrected: bool, s: Session, answer: string, evalReply: Reply<Evaluation>,
                       summaryReply: Option<string>, now: nat, later: nat)
    requires CurrentQuestion(s).Some? && CurrentCandidate(s.store).Some?
    requires s.store.interview.currentQuestionIndex < |s.local.questions| - 1
    ensures var r := SubmitAnswerWith(corrected, s, answer, evalReply, summaryReply, now, later);
            var snap := CurrentCandidate(s.store).value;
            var e := EvaluateAnswer(evalReply, answer);
            var i := s.store.interview.currentQuestionIndex;
            && CurrentCandidate(r.store)
               == Some(snap.(chatHistory := snap.chatHistory + [UserMsg(answer, now), FeedbackMsg(e, now), NextMsg(s.local.questions, i, now)],
                             questionsAnswers := snap.questionsAnswers + [QaFor(CurrentQuestion(s).value, answer, s.local.timeLeft, e.score)]))
            && r.store.interview == SetCurrentAnswer(NextQuestion(s.store.interview), "")
            && CurrentQuestion(r) == Some(s.local.questions[i + 1])
            && r.local.timeLeft == s.local.questions[i + 1].timeLimit
            && |r.store.candidates| == |s.store.candidates|
            && FindIndex(s.store.candidates, snap.id).Some?
            && var k := FindIndex(s.store.candidates, snap.id).value;
               forall j :: 0 <= j < |s.store.candidates| && j != k ==> r.store.candidates[j] == s.store.candidates[j]
  {
    var snap := CurrentCandidate(s.store).value;
    CurrentIsFirstWithId(s.store);
    var k := FindIndex(s.store.candidates, snap.id).value;
    var e := EvaluateAnswer(evalReply, answer);
    var qa := QaFor(CurrentQuestion(s).value, answer, s.local.timeLeft, e.score);
    var i := s.store.interview.currentQuestionIndex;
    var m1, m2 := UserMsg(answer, now), FeedbackMsg(e, now);
    var s1 := s.(store := s.store.(candidates := RecordAnswer(s.store.candidates, snap.id, m1, qa, m2)));
    var r := SubmitAnswerWith(corrected, s, answer, evalReply, summaryReply, now, later);
    assert r == AdvanceFlow(s1, snap.id, now) by {
      SubmitIsAdvance(corrected, s, answer, evalReply, summaryReply, now, later);
    }
    assert CurrentCandidate(r.store)
        == Some(snap.(chatHistory := snap.chatHistory + [m1, m2, NextMsg(s.local.questions, i, now)],
                      questionsAnswers := snap.questionsAnswers + [qa])) by {
      AdvanceStep(s, snap, k, m1, qa, m2, now);
    }
    AdvancedRecord(s, snap.id, k, m1, qa, m2, now);
  }

  /** At the last question a submission appends the user message, the
      feedback and the completion message, records the answer, merges the
      completed status, the mean of `meanOver` and the summary, and
      completes the session. As written `meanOver` is the snapshot's
      answers; corrected, they include the one just recorded. */
  lemma SubmitCompletes(corrected: bool, s: Session, answer: string, evalReply: Reply<Evaluation>,
                        summaryReply: Option<string>, now: nat, later: nat)
    requires CurrentQuestion(s).Some? && CurrentCandidate(s.store).Some?
    requires s.store.interview.currentQuestionIndex >= |s.local.questions| - 1
    ensures var r := SubmitAnswerWith(corrected, s, answer, evalReply, summaryReply, now, later);
            var snap := CurrentCandidate(s.store).value;
            var e := EvaluateAnswer(evalReply, answer);
            var qa := QaFor(CurrentQuestion(s).value, answer, s.local.timeLeft, e.score);
            var score := MeanScore(if corrected then snap.questionsAnswers + [qa] else snap.questionsAnswers);
            var summary := GenerateSummary(summaryReply);
            && CurrentCandidate(r.store)
               == Some(snap.(chatHistory := snap.chatHistory + [UserMsg(answer, now), FeedbackMsg(e, now), CompletionMsg(score, summary, later)],
                             questionsAnswers := snap.questionsAnswers + [qa],
                             status := Status.Completed, finalScore := score, summary := summary))
            && r.store.interview == CompleteInterview(s.store.interview)
            && r.local == s.local
            && |r.store.candidates| == |s.store.candidates|
            && FindIndex(s.store.candidates, snap.id).Some?
            && var k := FindIndex(s.store.candidates, snap.id).value;
               forall j :: 0 <= j < |s.store.candidates| && j != k ==> r.store.candidates[j] == s.store.candidates[j]
  {
    var snap := CurrentCandidate(s.store).value;
    CurrentIsFirstWithId(s.store);
    var k := FindIndex(s.store.candidates, snap.id).value;
    var e := EvaluateAnswer(evalReply, answer);
    var qa := QaFor(CurrentQuestion(s).value, answer, s.local.timeLeft, e.score);
    var meanOver := if corrected then snap.questionsAnswers + [qa] else snap.questionsAnswers;
    SubmitIsComplete(corrected, s, answer, evalReply, summaryReply, now, later);
    CompleteStep(s.store, snap, k, UserMsg(answer, now), qa, FeedbackMsg(e, now), meanOver, GenerateSummary(summaryReply), later);
    CompletedRecord(s.store.candidates, snap.id, k, UserMsg(answer, now), qa, FeedbackMsg(e, now),
                    s.store.interview, meanOver, GenerateSummary(summaryReply), later);
  }

  /** The record-level effect of a completing submission. */
  lemma CompletedRecord(cs0: seq<Candidate>, id: string, k: nat, m1: Message, qa: QuestionAnswer, m2: Message,
                        interview: InterviewState, meanOver: seq<QuestionAnswer>, summary: string, later: nat)
    requires FindIndex(cs0, id) == Some(k)
    ensures var st := CompleteFlow(Store(interview, RecordAnswer(cs0, id, m1, qa, m2)), id, meanOver, summary, later);
            var score := MeanScore(meanOver);
            && FindIndex(st.candidates, id) == Some(k)
            && st.candidates[k]
               == cs0[k].(chatHistory := cs0[k].chatHistory + [m1, m2, CompletionMsg(score, summary, later)],
                          questionsAnswers := cs0[k].questionsAnswers + [qa],
                          status := Status.Completed, finalScore := score, summary := summary)
            && |st.candidates| == |cs0|
            && forall j :: 0 <= j < |cs0| && j != k ==> st.candidates[j] == cs0[j]
  {
    var cs := RecordAnswer(cs0, id, m1, qa, m2);
    var m3 := CompletionMsg(MeanScore(meanOver), summary, later);
    assert cs0[k].chatHistory + [m1, m2] + [m3] == cs0[k].chatHistory + [m1, m2, m3];
  }

  // ---------------------------------------------------------------------------
  // the final-score defect

  /** The final score a last-question submit stores: the mean over the
      snapshot's answers, with the new one only when `corrected`. */
  lemma SubmitFinalScore(corrected: bool, s: Session, answer: string, evalReply: Reply<Evaluation>,
                         summaryReply: Option<string>, now: nat, later: nat)
    requires CurrentQuestion(s).Some? && CurrentCandidate(s.store).Some?
    requires s.store.interview.currentQuestionIndex >= |s.local.questions| - 1
    ensures var r := SubmitAnswerWith(corrected, s, answer, evalReply, summaryReply, now, later);
            var snap := CurrentCandidate(s.store).value;
            var qa := QaFor(CurrentQuestion(s).value, answer, s.local.timeLeft, EvaluateAnswer(evalReply, answer).score);
            && CurrentCandidate(r.store).Some?
            && CurrentCandidate(r.store).value.finalScore
               == MeanScore(if corrected then snap.questionsAnswers + [qa] else snap.questionsAnswers)
  {
    SubmitCompletes(corrected, s, answer, evalReply, summaryReply, now, later);
  }

  /** As written, the final score is the mean over the answers recorded
      before the last one: the last answer never counts. */
  lemma AsWrittenMeanOmitsLastAnswer(s: Session, answer: string, evalReply: Reply<Evaluation>,
                                     summaryReply: Option<string>, now: nat, later: nat)
    requires CurrentQuestion(s).Some? && CurrentCandidate(s.store).Some?
    requires s.store.interview.currentQuestionIndex >= |s.local.questions| - 1
    ensures var c := CurrentCandidate(SubmitAnswerWith(false, s, answer, evalReply, summaryReply, now, later).store).value;
            && |c.questionsAnswers| >= 1
            && c.finalScore == MeanScore(c.questionsAnswers[..|c.questionsAnswers| - 1])
  {
    SubmitCompletes(false, s, answer, evalReply, summaryReply, now, later);
    var c := CurrentCandidate(SubmitAnswerWith(false, s, answer, evalReply, summaryReply, now, later).store).value;
    var snap := CurrentCandidate(s.store).value;
    assert c.questionsAnswers[..|c.questionsAnswers| - 1] == snap.questionsAnswers;
  }

  /** The input that shows it: a one-question interview whose answer scores
      10 ends with a final score of NaN as written (the mean of no
      answers), and of 10.0 corrected. */
  lemma OneQuestionInterviewScoresNaN(s: Session, answer: string, summaryReply: Option<string>, now: nat, later: nat)
    requires |s.local.questions| == 1 && s.store.interview.currentQuestionIndex == 0
    requires CurrentCandidate(s.store).Some? && CurrentCandidate(s.store).value.questionsAnswers == []
    ensures var asWritten := SubmitAnswerWith(false, s, answer, Parsed(Evaluation(10, "")), summaryReply, now, later);
            var fixed := SubmitAnswer(s, answer, Parsed(Evaluation(10, "")), summaryReply, now, later);
            && CurrentCandidate(asWritten.store).Some?
            && CurrentCandidate(asWritten.store).value.finalScore == NaN
            && CurrentCandidate(fixed.store).Some?
            && CurrentCandidate(fixed.store).value.finalScore == Tenths(100)
  {
    OneQuestionAsWritten(s, answer, summaryReply, now, later);
    OneQuestionCorrected(s, answer, summaryReply, now, later);
  }

  lemma OneQuestionAsWritten(s: Session, answer: string, summaryReply: Option<string>, now: nat, later: nat)
    requires |s.local.questions| == 1 && s.store.interview.currentQuestionIndex == 0
    requires CurrentCandidate(s.store).Some? && CurrentCandidate(s.store).value.questionsAnswers == []
    ensures var r := SubmitAnswerWith(false, s, answer, Parsed(Evaluation(10, "")), summaryReply, now, later);
            CurrentCandidate(r.store).Some? && CurrentCandidate(r.store).value.finalScore == NaN
  {
    SubmitFinalScore(false, s, answer, Parsed(Evaluation(10, "")), summaryReply, now, later);
  }


  lemma OneQuestionRecordsTen(s: Session, answer: string, summaryReply: Option<string>, now: nat, later: nat)
    requires |s.local.questions| == 1 && s.store.interview.currentQuestionIndex == 0
    requires CurrentCandidate(s.store).Some? && CurrentCandidate(s.store).value.questionsAnswers == []
    ensures var c := CurrentCandidate(SubmitAnswer(s, answer, Parsed(Evaluation(10, "")), summaryReply, now, later).store);
            c.Some? && |c.value.questionsAnswers| == 1 && c.value.questionsAnswers[0].score == 10
  {
    assert CurrentQuestion(s).Some?;
  }

  lemma OneQuestionCorrected(s: Session, answer: string, summaryReply: Option<string>, now: nat, later: nat)
    requires |s.local.questions| == 1 && s.store.interview.currentQuestionIndex == 0
    requires CurrentCandidate(s.store).Some? && CurrentCandidate(s.store).value.questionsAnswers == []
    ensures var r := SubmitAnswer(s, answer, Parsed(Evaluation(10, "")), summaryReply, now, later);
            CurrentCandidate(r.store).Some? && CurrentCandidate(r.store).value.finalScore == Tenths(100)
  {
    assert CurrentQuestion(s).Some?;
    OneQuestionRecordsTen(s, answer, summaryReply, now, later);
    CorrectedMeanCoversEveryAnswer(s, answer, Parsed(Evaluation(10, "")), summaryReply, now, later);
    SingleTenScoresTen(CurrentCandidate(SubmitAnswer(s, answer, Parsed(Evaluation(10, "")), summaryReply, now, later).store).value);
  }

  lemma SingleTenScoresTen(c: Candidate)
    requires c.finalScore == MeanScore(c.questionsAnswers)
    requires |c.questionsAnswers| == 1 && c.questionsAnswers[0].score == 10
    ensures c.finalScore == Tenths(100)
  {
    MeanOfEqualScores(c.questionsAnswers, 10);
  }

  /** Corrected, the final score is the mean over every recorded answer,
      the last one included, and is never NaN. */
  lemma CorrectedMeanCoversEveryAnswer(s: Session, answer: string, evalReply: Reply<Evaluation>,
                                       summaryReply: Option<string>, now: nat, later: nat)
    requires CurrentQuestion(s).Some? && CurrentCandidate(s.store).Some?
    requires s.store.interview.currentQuestionIndex >= |s.local.questions| - 1
    ensures var c := CurrentCandidate(SubmitAnswer(s, answer, evalReply, summaryReply, now, later).store).value;
            && c.finalScore == MeanScore(c.questionsAnswers)
            && c.finalScore.Tenths?
            && c.status == Status.Completed
  {
    SubmitCompletes(true, s, answer, evalReply, summaryReply, now, later);
  }

  /** No handler consults the stage: a submission in the completed stage is
      still recorded. */
  lemma SubmitIgnoresStage(s: Session, answer: string, evalReply: Reply<Evaluation>,
                           summaryReply: Option<string>, now: nat, later: nat)
    requires s.store.interview.stage == Stage.Completed
    requires CurrentQuestion(s).Some? && CurrentCandidate(s.store).Some?
    ensures var r := SubmitAnswer(s, answer, evalReply, summaryReply, now, later);
            |CurrentCandidate(r.store).value.questionsAnswers| == |CurrentCandidate(s.store).value.questionsAnswers| + 1
  {
  }

  // ---------------------------------------------------------------------------
  // missing-field form

  /** The listed fields that have a non-empty typed value: the keys of the
      update object the handler builds. */
  function FilledFields(missing: seq<ContactField>, data: map<ContactField, string>): (r: set<ContactField>)
    ensures forall f :: f in r <==> f in missing && f in data && data[f] != ""
  {
    if |missing| == 0 then {}
    else
      var f := missing[0];
      var rest := FilledFields(missing[1..], data);
      assert forall g :: g in missing <==> g == f || g in missing[1..];
      if f in data && data[f] != "" then {f} + rest else rest
  }

  /** A set drawn from a list is no larger than the list, and as large only
      when the list has no repeats and every element is drawn. */
  lemma {:induction false} FilledFieldsSize(missing: seq<ContactField>, data: map<ContactField, string>)
    ensures |FilledFields(missing, data)| <= |missing|
    ensures |FilledFields(missing, data)| == |missing| ==>
              forall i :: 0 <= i < |missing| ==> missing[i] in data && data[missing[i]] != ""
  {
    if |missing| > 0 {
      var f := missing[0];
      var rest := FilledFields(missing[1..], data);
      FilledFieldsSize(missing[1..], data);
      assert forall i :: 1 <= i < |missing| ==> missing[i] == missing[1..][i - 1];
      if f in data && data[f] != "" {
        assert |{f} + rest| <= 1 + |rest| by {
          if f in rest { assert {f} + rest == rest; }
        }
      }
    }
  }

  /** The updates the form submits: the filled listed fields only. */
  function FieldUpdates(missing: seq<ContactField>, data: map<ContactField, string>): (u: CandidateUpdates)
    ensures u == NoUpdates.(name := u.name, email := u.email, phone := u.phone)
    ensures Name in FilledFields(missing, data) ==> u.name == Some(data[Name])
    ensures Name !in FilledFields(missing, data) ==> u.name == None
    ensures Email in FilledFields(missing, data) ==> u.email == Some(data[Email])
    ensures Email !in FilledFields(missing, data) ==> u.email == None
    ensures Phone in FilledFields(missing, data) ==> u.phone == Some(data[Phone])
    ensures Phone !in FilledFields(missing, data) ==> u.phone == None
  {
    var filled := FilledFields(missing, data);
    NoUpdates.(name := if Name in filled then Some(data[Name]) else None,
               email := if Email in filled then Some(data[Email]) else None,
               phone := if Phone in filled then Some(data[Phone]) else None)
  }

  /** `handleMissingFieldSubmit`: all or nothing. When every listed field
      has a value the contact fields are merged and the interview starts;
      otherwise nothing changes. */
  function HandleMissingFieldSubmit(s: Session): (r: Session)
    ensures CurrentCandidate(s.store).None? ==> r == s
    ensures r != s ==>
              && CurrentCandidate(s.store).Some?
              && forall f :: f in s.store.interview.missingFields ==> f in s.local.missingData && s.local.missingData[f] != ""
  {
    match CurrentCandidate(s.store)
    case None => s
    case Some(c) =>
      var missing := s.store.interview.missingFields;
      var data := s.local.missingData;
      FilledFieldsSize(missing, data);
      if |FilledFields(missing, data)| == |missing| then
        var cs := UpdateCandidate(s.store.candidates, c.id, FieldUpdates(missing, data));
        s.(store := Store(StartInterview(s.store.interview, c.id), cs))
      else s
  }

  /** A complete form merges exactly the typed values into the current
      candidate and starts the interview; its answers and history are kept. */
  lemma MissingFieldSubmitMerges(s: Session)
    requires CurrentCandidate(s.store).Some?
    requires forall i :: 0 <= i < |s.store.interview.missingFields| ==>
               s.store.interview.missingFields[i] in s.local.missingData
               && s.local.missingData[s.store.interview.missingFields[i]] != ""
    requires forall i, j :: 0 <= i < j < |s.store.interview.missingFields| ==>
               s.store.interview.missingFields[i] != s.store.interview.missingFields[j]
    ensures var r := HandleMissingFieldSubmit(s);
            var c := CurrentCandidate(s.store).value;
            var data := s.local.missingData;
            var missing := s.store.interview.missingFields;
            && r.store.interview.stage == Interview
            && CurrentCandidate(r.store).Some?
            && CurrentCandidate(r.store).value == Merge(c, FieldUpdates(missing, data))
            && (Name in missing ==> CurrentCandidate(r.store).value.name == data[Name])
            && (Name !in missing ==> CurrentCandidate(r.store).value.name == c.name)
  {
    var missing := s.store.interview.missingFields;
    var data := s.local.missingData;
    var c := CurrentCandidate(s.store).value;
    DistinctFilledFieldsSize(missing, data);
    UpdateKeepsIndex(s.store.candidates, c.id, FieldUpdates(missing, data));
  }

  /** A repeat-free list whose fields are all filled gives a set as large as the list. */
  lemma {:induction false} DistinctFilledFieldsSize(missing: seq<ContactField>, data: map<ContactField, string>)
    requires forall i :: 0 <= i < |missing| ==> missing[i] in data && data[missing[i]] != ""
    requires forall i, j :: 0 <= i < j < |missing| ==> missing[i] != missing[j]
    ensures |FilledFields(missing, data)| == |missing|
  {
    if |missing| > 0 {
      DistinctFilledFieldsSize(missing[1..], data);
      assert missing[0] !in missing[1..];
      assert missing[0] !in FilledFields(missing[1..], data);
    }
  }
}
