/** The per-session cursor held on the client (src/store/slices/interviewSlice.ts):
    the interview stage, the current question index, the answer draft and
    the reducers that move them. No reducer inspects the current stage. */
module InterviewSlice {
  import opened Wrappers

  datatype Stage = Upload | CollectInfo | Interview | Completed

  /** The three contact fields the résumé parser may fail to find. */
  datatype ContactField = Name | Email | Phone

  datatype InterviewState = InterviewState(
    currentCandidateId: Option<string>,
    currentRoomCode: Option<string>,
    currentQuestionIndex: int,
    isInterviewActive: bool,
    isPaused: bool,
    currentAnswer: string,
    timerRemaining: int,
    stage: Stage,
    missingFields: seq<ContactField>)

  const Initial := InterviewState(None, None, 0, false, false, "", 0, Upload, [])

  function SetRoomCode(s: InterviewState, code: string): (r: InterviewState)
    ensures r.currentRoomCode == Some(code)
    ensures r.(currentRoomCode := s.currentRoomCode) == s
  {
    s.(currentRoomCode := Some(code))
  }

  /** `startInterview`: whatever the prior stage, the session points at
      `id`, is active, is at question 0 and is in the interview stage. */
  function StartInterview(s: InterviewState, id: string): (r: InterviewState)
    ensures r.currentCandidateId == Some(id) && r.isInterviewActive
    ensures r.currentQuestionIndex == 0 && r.stage == Interview
    ensures r.(currentCandidateId := s.currentCandidateId, isInterviewActive := s.isInterviewActive,
               currentQuestionIndex := s.currentQuestionIndex, stage := s.stage) == s
  {
    s.(currentCandidateId := Some(id), isInterviewActive := true, currentQuestionIndex := 0, stage := Interview)
  }

  function SetStage(s: InterviewState, stage: Stage): (r: InterviewState)
    ensures r.stage == stage && r.(stage := s.stage) == s
  {
    s.(stage := stage)
  }

  function SetMissingFields(s: InterviewState, fields: seq<ContactField>): (r: InterviewState)
    ensures r.missingFields == fields && r.(missingFields := s.missingFields) == s
  {
    s.(missingFields := fields)
  }

  /** `nextQuestion`: one step forward, with the draft cleared. */
  function NextQuestion(s: InterviewState): (r: InterviewState)
    ensures r.currentQuestionIndex == s.currentQuestionIndex + 1 && r.currentAnswer == ""
    ensures r.(currentQuestionIndex := s.currentQuestionIndex, currentAnswer := s.currentAnswer) == s
  {
    s.(currentQuestionIndex := s.currentQuestionIndex + 1, currentAnswer := "")
  }

  function SetCurrentAnswer(s: InterviewState, answer: string): (r: InterviewState)
    ensures r.currentAnswer == answer && r.(currentAnswer := s.currentAnswer) == s
  {
    s.(currentAnswer := answer)
  }

  function SetTimerRemaining(s: InterviewState, t: int): (r: InterviewState)
    ensures r.timerRemaining == t && r.(timerRemaining := s.timerRemaining) == s
  {
    s.(timerRemaining := t)
  }

  function PauseInterview(s: InterviewState): (r: InterviewState)
    ensures r.isPaused && r.(isPaused := s.isPaused) == s
  {
    s.(isPaused := true)
  }

  function ResumeInterview(s: InterviewState): (r: InterviewState)
    ensures !r.isPaused && r.(isPaused := s.isPaused) == s
  {
    s.(isPaused := false)
  }

  /** `completeInterview`: inactive and completed; the index, draft and
      candidate id are kept. */
  function CompleteInterview(s: InterviewState): (r: InterviewState)
    ensures !r.isInterviewActive && r.stage == Completed
    ensures r.(isInterviewActive := s.isInterviewActive, stage := s.stage) == s
  {
    s.(isInterviewActive := false, stage := Completed)
  }

  /** `resetInterview`: back to the initial state from anywhere. */
  function ResetInterview(s: InterviewState): (r: InterviewState)
    ensures r.stage == Upload && r.currentCandidateId.None? && !r.isInterviewActive
    ensures r.currentQuestionIndex == 0 && r.currentAnswer == "" && r.missingFields == []
    ensures r == Initial
  {
    Initial
  }

  // ---------------------------------------------------------------------------
  // properties of the reducers

  /** Resetting twice is resetting once, and the result does not depend on the state. */
  lemma ResetIdempotent(s: InterviewState, t: InterviewState)
    ensures ResetInterview(ResetInterview(s)) == ResetInterview(s)
    ensures ResetInterview(s) == ResetInterview(t)
  {
  }

  /** `nextQuestion` applied k times advances the index by exactly k. */
  function NextQuestionN(s: InterviewState, k: nat): InterviewState {
    if k == 0 then s else NextQuestion(NextQuestionN(s, k - 1))
  }

  lemma {:induction false} NextQuestionNAdvances(s: InterviewState, k: nat)
    ensures NextQuestionN(s, k).currentQuestionIndex == s.currentQuestionIndex + k
    ensures NextQuestionN(s, k).stage == s.stage
    ensures k > 0 ==> NextQuestionN(s, k).currentAnswer == ""
  {
    if k > 0 {
      NextQuestionNAdvances(s, k - 1);
    }
  }

  /** The setters are last-write-wins on their own field. */
  lemma SettersLastWriteWins(s: InterviewState, a: string, b: string, t1: int, t2: int, g1: Stage, g2: Stage)
    ensures SetCurrentAnswer(SetCurrentAnswer(s, a), b) == SetCurrentAnswer(s, b)
    ensures SetTimerRemaining(SetTimerRemaining(s, t1), t2) == SetTimerRemaining(s, t2)
    ensures SetStage(SetStage(s, g1), g2) == SetStage(s, g2)
  {
  }

  /** Setters of distinct fields commute. */
  lemma SettersCommute(s: InterviewState, a: string, t: int, g: Stage, f: seq<ContactField>)
    ensures SetCurrentAnswer(SetTimerRemaining(s, t), a) == SetTimerRemaining(SetCurrentAnswer(s, a), t)
    ensures SetStage(SetMissingFields(s, f), g) == SetMissingFields(SetStage(s, g), f)
    ensures SetStage(SetCurrentAnswer(s, a), g) == SetCurrentAnswer(SetStage(s, g), a)
  {
  }

  /** Pausing and then resuming restores an unpaused state. */
  lemma PauseResumeRoundTrip(s: InterviewState)
    requires !s.isPaused
    ensures ResumeInterview(PauseInterview(s)) == s
  {
  }

  /** Nothing guards the completed stage: both `setStage` and
      `startInterview` leave it. */
  lemma CompletedIsNotTerminal(s: InterviewState, id: string)
    requires s.stage == Completed
    ensures StartInterview(s, id).stage == Interview
    ensures SetStage(s, Upload).stage == Upload
  {
  }
}
