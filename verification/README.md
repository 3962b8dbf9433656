# AI Interview Assistant — a Dafny model of the interview core

This project models the deterministic core of the AI Interview Assistant. In that system:
- an interviewee uploads a résumé, fills in missing contact details, and answers a timed list of generated questions;
- each answer is scored, and the session ends with a final score and a summary;
- interviewers create rooms, and candidates join them by code.

Everything is written as pure functions over immutable datatypes:
- the interview cursor (`InterviewSlice`) and the client candidate list (`CandidatesSlice`);
- the client room list and the browser room directory (`InterviewRoomsSlice`, `RoomRegistry`);
- the chat session handlers: timer, submit, advance, complete, missing-field form and question loading (`ChatSession`);
- the résumé upload (`ResumeUpload`), and re-entry into a session (`IntervieweeTab`, `WelcomeBack`);
- the provider wrapper's defaults (`AiService`) and the résumé parser's contact extraction and routing (`ResumeParser`, `Regex`, `Text`);
- the interviewer dashboard (`InterviewerTab`), sign-in state and route guards (`AuthSlice`, `ProtectedRoute`, `JoinRoom`);
- the server's room and candidate routes over map-backed collections (`BackendModels`, `RoomsRoutes`, `CandidatesRoutes`).

The following become parameters rather than calls:
- the clock, random numbers and UUIDs;
- the language-model provider's replies, modelled as `Reply` or `Option`;
- the text the PDF/DOCX extractors return;
- the file reader's data URL;
- the token cookie and the authenticated caller id.

The JavaScript details that matter are written out:
- `Math.round(10 * sum / n)` is modelled as the integer `(20 * sum + n) / (2 * n)` in tenths of a point;
- `0 / 0` is modelled as a `NaN` score;
- `split(/\s+/)` and `trim()` are modelled exactly;
- the two contact regular expressions are modelled by a small greedy backtracking matcher;
- truthiness of `''` and `null` is modelled where a guard depends on it.

Two facts about the code that the model relies on:
- src/components/ResumeUpload.tsx:33-38 would keep an empty profile description only if `generateProfileDescription` threw, and it never throws: src/utils/aiService.ts:155-160 catches its own errors and returns a fixed text;
- no reducer or handler guards the `completed` stage, so the interview reducers still act after completion.

## Model

| member | source | states |
|---|---|---|
| InterviewSlice.SetRoomCode | src/store/slices/interviewSlice.ts:32-34 | changes the room code and nothing else |
| InterviewSlice.StartInterview | src/store/slices/interviewSlice.ts:35-40 | sets the candidate id, active, index 0 and stage `interview` whatever the prior stage; all other fields unchanged |
| InterviewSlice.SetStage | src/store/slices/interviewSlice.ts:41-43 | changes the stage and nothing else |
| InterviewSlice.SetMissingFields | src/store/slices/interviewSlice.ts:44-46 | changes the missing-field list and nothing else |
| InterviewSlice.NextQuestion | src/store/slices/interviewSlice.ts:47-50 | index + 1, draft cleared, every other field unchanged |
| InterviewSlice.SetCurrentAnswer | src/store/slices/interviewSlice.ts:51-53 | changes only the draft |
| InterviewSlice.SetTimerRemaining | src/store/slices/interviewSlice.ts:54-56 | changes only the stored timer value |
| InterviewSlice.PauseInterview | src/store/slices/interviewSlice.ts:57-59 | sets `isPaused` and nothing else |
| InterviewSlice.ResumeInterview | src/store/slices/interviewSlice.ts:60-62 | clears `isPaused` and nothing else |
| InterviewSlice.CompleteInterview | src/store/slices/interviewSlice.ts:63-66 | inactive and `completed`; nothing else changes |
| InterviewSlice.ResetInterview | src/store/slices/interviewSlice.ts:16-26 | any state becomes exactly the initial state: upload stage, no candidate or room code, inactive, unpaused, index 0, empty draft, timer 0, no missing fields |
| InterviewSlice.ResetIdempotent | src/store/slices/interviewSlice.ts:67-69 | reset twice equals reset once, and the result does not depend on the state |
| InterviewSlice.NextQuestionNAdvances | src/store/slices/interviewSlice.ts:47-50 | k steps advance the index by exactly k and keep the stage |
| InterviewSlice.SettersLastWriteWins | src/store/slices/interviewSlice.ts:41-56 | a second write to the same field overrides the first |
| InterviewSlice.SettersCommute | src/store/slices/interviewSlice.ts:41-56 | writes to different fields commute |
| InterviewSlice.PauseResumeRoundTrip | src/store/slices/interviewSlice.ts:57-62 | pausing then resuming an unpaused state restores it |
| InterviewSlice.CompletedIsNotTerminal | src/store/slices/interviewSlice.ts:35-43 | both `startInterview` and `setStage` leave the completed stage |
| CandidatesSlice.FindIndex | src/store/slices/candidatesSlice.ts:58 | the first index with the id, or none when no record has it |
| CandidatesSlice.Find | src/store/slices/candidatesSlice.ts:64 | some record with the id is found iff one exists |
| CandidatesSlice.AddCandidate | src/store/slices/candidatesSlice.ts:54-56 | appends exactly the record at the end, prefix unchanged |
| CandidatesSlice.AddCandidateKeepsDuplicates | src/store/slices/candidatesSlice.ts:54-56 | no duplicate-id check: an existing id ends up stored twice |
| CandidatesSlice.UpdateCandidate | src/store/slices/candidatesSlice.ts:57-62 | merges into the first record with the id; every other record unchanged; unknown id is a no-op |
| CandidatesSlice.UpdateCandidateIdempotent | src/store/slices/candidatesSlice.ts:57-62 | a non-renaming update applied twice equals once |
| CandidatesSlice.MergeIdempotent | src/store/slices/candidatesSlice.ts:60 | the spread merge is idempotent |
| CandidatesSlice.MergeNothing | src/store/slices/candidatesSlice.ts:60 | merging no fields changes nothing |
| CandidatesSlice.MergeAllFields | src/store/slices/candidatesSlice.ts:60 | merging a whole record yields it, except optional fields it lacks |
| CandidatesSlice.AddMessage | src/store/slices/candidatesSlice.ts:63-68 | the target's history grows by the message at the end; nothing else changes; unknown id is a no-op |
| CandidatesSlice.AddQuestionAnswer | src/store/slices/candidatesSlice.ts:69-74 | the target's answers grow by one at the end; nothing else changes; unknown id is a no-op |
| CandidatesSlice.AppendsKeepIndex | src/store/slices/candidatesSlice.ts:63-74 | the appends never change which record an id resolves to |
| CandidatesSlice.UpdateKeepsIndex | src/store/slices/candidatesSlice.ts:57-62 | a non-renaming update keeps the id resolving to the same record |
| CandidatesSlice.AppendOnlyHistory | src/store/slices/candidatesSlice.ts:63-74 | the found record's history and answers are append-only |
| InterviewRoomsSlice.CreateRoom | src/store/slices/interviewRoomsSlice.ts:27-29 | appends the room unchanged at the end |
| InterviewRoomsSlice.AddCandidateToRoom | src/store/slices/interviewRoomsSlice.ts:30-35 | adds the id to the first room with exactly that code unless already present; unknown code changes nothing |
| InterviewRoomsSlice.AddCandidateToRoomIdempotent | src/store/slices/interviewRoomsSlice.ts:30-35 | a second identical call changes nothing |
| InterviewRoomsSlice.AddCandidateToRoomNoDuplicates | src/store/slices/interviewRoomsSlice.ts:32-33 | a duplicate-free candidate list stays duplicate-free |
| InterviewRoomsSlice.DeactivateRoom | src/store/slices/interviewRoomsSlice.ts:36-41 | clears only `isActive` on the first exact match; unknown code changes nothing |
| InterviewRoomsSlice.DeactivateRoomIdempotent | src/store/slices/interviewRoomsSlice.ts:36-41 | deactivating twice equals once |
| InterviewRoomsSlice.FindRoomIndex | src/store/slices/interviewRoomsSlice.ts:31 | the first room with exactly the code, or none when no room has it |
| InterviewRoomsSlice.AddOnce | src/store/slices/interviewRoomsSlice.ts:32-33 | the id is present afterwards, appended only when absent; the member set grows by exactly the id |
| RoomRegistry.GetAllRooms | src/utils/roomRegistry.ts:16-23 | the stored list, or empty when the slot is missing or unreadable |
| RoomRegistry.RegisterRoom | src/utils/roomRegistry.ts:26-33 | appends only when no stored room has exactly the same code, else nothing is written |
| RoomRegistry.FindIgnoringCase | src/utils/roomRegistry.ts:36-39 | the first room whose code matches ignoring case, or none when none does |
| RoomRegistry.RoomExistsIffStored | src/utils/roomRegistry.ts:42-44 | a room exists iff some stored code equals the code ignoring case |
| RoomRegistry.RegisterRoomIdempotent | src/utils/roomRegistry.ts:26-33 | registering the same room twice equals once |
| RoomRegistry.RegisteredRoomIsFound | src/utils/roomRegistry.ts:26-44 | a registered room is found under its own code |
| RoomRegistry.CaseVariantIsStoredButShadowed | src/utils/roomRegistry.ts:28-38 | a case variant of a stored code is stored too, and lookup returns the earlier room |
| Text.Trim | src/utils/resumeParser.ts:53 | the result is the infix `s[i..j]` with only white space before `i` and after `j`, and has no white space at either end |
| Text.TrimEmptyIffBlank | src/utils/resumeParser.ts:49 | trimming gives the empty string iff the input is all white space |
| Text.SplitWs | src/utils/resumeParser.ts:55 | at least one piece, each free of white space; a string not starting with white space keeps its first character in the first piece |
| Text.SplitWsCount | src/utils/aiService.ts:107 | the number of pieces is the number of words, plus one for an empty or white-space-led input and one for a white-space-ended input |
| Text.SplitWsRebuild | src/utils/resumeParser.ts:55 | the pieces joined by non-empty white-space runs rebuild the input, and only the first and last piece can be empty |
| Text.WordsTrim | src/utils/aiService.ts:107 | trimming keeps the number of words |
| Text.ToUpper | backend/src/routes/rooms.js:67 | same length, each character upper-cased |
| Text.ToLower | src/components/InterviewerTab.tsx:65-66 | same length, each character lower-cased |
| Text.ToUpperIdempotent | backend/src/routes/rooms.js:67 | upper-casing twice equals once and gives an upper-cased string |
| AiService.TimeLimitFor | src/utils/aiService.ts:70 | 20 iff "Easy", 60 iff "Medium", otherwise 120 |
| AiService.QuestionIdInjective | src/utils/aiService.ts:66-67 | equal ids mean equal positions, whatever clock readings the two ids carry |
| AiService.GenerateQuestions | src/utils/aiService.ts:58-78 | parsed array gives one question per element with derived time limit, each id `q-{reading}-{index}` taking its own clock reading; no array span gives none; a throw gives the fallback set |
| AiService.GeneratedIdsDistinct | src/utils/aiService.ts:66-67 | every returned question list has pairwise distinct ids |
| AiService.FallbackQuestionsShape | src/utils/aiService.ts:164-201 | six questions, distinct ids, Easy/Easy/Medium/Medium/Hard/Hard, each with its difficulty's time limit |
| AiService.FallbackScore | src/utils/aiService.ts:107-113 | 0 for no words, 3 for 1–4, 5 for 5–19, 7 for 20–49 and 8 from 50 words on |
| AiService.FallbackScoreMonotone | src/utils/aiService.ts:109-113 | more words never score lower |
| AiService.WordCount | src/utils/aiService.ts:107 | the number of words of a non-blank answer, and 1 for a blank one |
| AiService.WordCountCountsWords | src/utils/aiService.ts:107 | on a trimmed non-blank answer every piece is a non-empty space-free word |
| AiService.BlankAnswerScoresThree | src/utils/aiService.ts:107-110 | a blank answer counts one word and scores 3, so the 0 branch is unreachable |
| AiService.EvaluateAnswer | src/utils/aiService.ts:97-119 | parsed object as is; no object span scores 5 "Answer received."; a throw uses the word-count score (3, 5, 7 or 8) with the fixed feedback |
| AiService.QaTextIsJoin | src/utils/aiService.ts:126-131 | the summary input is the QAs' numbered entries, in order, joined by blank lines, as `map` then `join` builds it |
| Text.JoinSnoc | src/utils/aiService.ts:131 | joining one more part appends the separator and that part |
| AiService.GenerateSummary | src/utils/aiService.ts:139-144 | the reply, or the fixed summary text on failure |
| AiService.GenerateProfileDescription | src/utils/aiService.ts:155-160 | the reply, or the fixed profile text on failure; never fails |
| ResumeParser.TrimFilterIsNonBlankLines | src/utils/resumeParser.ts:49 | keeping the lines whose trimmed text is non-empty is exactly keeping the lines that are not all white space |
| ResumeParser.NonBlankLinesFirst | src/utils/resumeParser.ts:49 | the filter is empty iff every line is blank, and otherwise starts with the first non-blank line |
| ResumeParser.ExtractNameIsFirstWord | src/utils/resumeParser.ts:48-59 | the name is the first white-space-free word of the first non-blank line |
| ResumeParser.ExtractNameEmptyIffBlank | src/utils/resumeParser.ts:49-52 | the name is empty iff the whole text is blank |
| ResumeParser.ExtractContactInfo | src/utils/resumeParser.ts:37-62 | email and phone are the leftmost match of their pattern, empty iff there is none; the email has one `@` and a dotted domain, the phone at least 10 digits; the name has no white space and is empty iff the text is blank |
| Regex.EmailFirstMatchShape | src/utils/resumeParser.ts:39-41 | the leftmost email match has a single `@` followed by a domain containing a dot |
| Regex.Search | src/utils/resumeParser.ts:39-46 | the leftmost position where the pattern matches, or none when it matches nowhere |
| Regex.EmailMatchShape | src/utils/resumeParser.ts:39 | any email match from a position is e-mail shaped |
| Regex.PhonePatternDigits | src/utils/resumeParser.ts:44 | every alternative of the phone pattern requires at least ten digits |
| Regex.PhoneMatchHasTenDigits | src/utils/resumeParser.ts:44-46 | every phone match holds at least ten digits |
| ResumeParser.Route | src/utils/resumeParser.ts:67-76 | PDF iff the PDF type; DOCX iff not PDF and the DOCX type or a `.docx` name; else unsupported |
| ResumeParser.ParseResume | src/utils/resumeParser.ts:64-81 | unsupported iff routing fails, with the fixed message; otherwise the routed text unchanged plus its contact fields |
| ResumeParser.RouteEdgeCases | src/utils/resumeParser.ts:67-76 | the PDF type wins over a `.docx` name; the extension test is case-sensitive |
| AppStore.CurrentCandidate | src/components/ChatInterface.tsx:26-29 | found iff an id is set and some record carries it |
| ResumeUpload.MissingFields | src/components/ResumeUpload.tsx:66-69 | exactly the empty fields among name, email, phone, in that order |
| ResumeUpload.NewCandidate | src/components/ResumeUpload.tsx:42-61 | pending, empty logs, score 0, empty summary, contact fields from the parse, timestamps from the clock |
| ResumeUpload.StageStepsAsWritten | src/components/ResumeUpload.tsx:71-79 | as written: always ends in `interview` at index 0, even when `collect-info` was set |
| ResumeUpload.StageStepsCorrected | src/components/ResumeUpload.tsx:71-76 | `collect-info` iff something is missing, else `interview` |
| ResumeUpload.HandleUploadWith | src/components/ResumeUpload.tsx:19-89 | parse or read failure leaves the store and shows the error; otherwise one candidate appended and a success notice |
| ResumeUpload.HandleUpload | src/components/ResumeUpload.tsx:19-89 | corrected upload: stage follows the missing list, the session points at the new candidate |
| ResumeUpload.AsWrittenSkipsCollectInfo | src/components/ResumeUpload.tsx:71-79 | every successful upload as written lands in `interview` |
| ResumeUpload.MissingEmailExample | src/components/ResumeUpload.tsx:66-79 | a résumé without e-mail records `[email]` yet lands in `interview`; corrected it stays in `collect-info` |
| ResumeUpload.ProfileFailureKeepsUpload | src/components/ResumeUpload.tsx:32-39 | a failed profile request still uploads, with the fallback profile text |
| ChatSession.CurrentQuestion | src/components/ChatInterface.tsx:40 | present iff the index is within the question list |
| ChatSession.Tick | src/components/ChatInterface.tsx:58-64 | above one steps down by one; at one or below goes to 0 and auto-submits |
| ChatSession.CountdownFiresOnce | src/components/ChatInterface.tsx:55-71 | from t seconds, exactly t ticks run and only the last auto-submits |
| ChatSession.ResetTimer | src/components/ChatInterface.tsx:74-78 | the countdown becomes the current question's limit; nothing else changes |
| ChatSession.MeanScore | src/components/ChatInterface.tsx:271-282 | NaN iff no answers; otherwise the tenths nearest to 10·mean, ties up |
| ChatSession.MeanScoreInRange | src/components/ChatInterface.tsx:271-282 | scores in 0..10 give a final score in 0..100 tenths |
| ChatSession.MeanOfEqualScores | src/components/ChatInterface.tsx:271-282 | equal scores average to exactly that score |
| ChatSession.SumScoresBounds | src/components/ChatInterface.tsx:271-273 | scores in 0..10 sum to between 0 and 10 per answer |
| ChatSession.FormatScore | src/components/ChatInterface.tsx:291 | integers print without a point, other tenths as sign, whole part, `.` and the tenths digit, NaN as "NaN" |
| ChatSession.FormatScoreInjective | src/components/ChatInterface.tsx:291 | distinct scores, NaN included, print as distinct texts, so the completion message names the score unambiguously |
| ChatSession.LoadQuestions | src/components/ChatInterface.tsx:143-165 | stores the questions; with at least one, posts "Question 1/N …" and marks the candidate in progress |
| ChatSession.LoadQuestionsPostsFirst | src/components/ChatInterface.tsx:151-159 | after a non-empty load the history ends with the first question's message |
| ChatSession.NoJsonSpanLoadsNothing | src/components/ChatInterface.tsx:148-161 | a reply without an array posts nothing and leaves the status |
| ChatSession.QaFor | src/components/ChatInterface.tsx:224-232 | the QA copies the question and records timeSpent + timeLeft = timeLimit |
| ChatSession.RecordAnswer | src/components/ChatInterface.tsx:215-242 | the target gains the answer and feedback messages and one QA; its index, the length and every other record unchanged |
| ChatSession.AdvanceFlow | src/components/ChatInterface.tsx:248-259 | index + 1, draft cleared, the countdown set to the next limit, and the next question's message appended to the target; every other record unchanged |
| ChatSession.SubmitAnswerWith | src/components/ChatInterface.tsx:201-266 | no current question or candidate leaves the session unchanged |
| ChatSession.HandleAutoSubmitWith | src/components/ChatInterface.tsx:186-190 | without a question or candidate nothing changes; otherwise records exactly one QA for the draft, or "No answer provided" when the draft is empty, through the as-written or the corrected submit |
| ChatSession.AutoSubmitRecords | src/components/ChatInterface.tsx:186-190 | the recorded answer is the draft or the fixed text |
| ChatSession.HandleSubmitWith | src/components/ChatInterface.tsx:192-199 | a blank draft changes nothing; otherwise the draft is submitted through the as-written or the corrected submit |
| ChatSession.SubmitAnswer | src/components/ChatInterface.tsx:201-266 | corrected submit: no question or candidate changes nothing; otherwise exactly one QA is added |
| ChatSession.SubmitRecordsAnswer | src/components/ChatInterface.tsx:214-242 | user message, QA with the evaluated score, then "Score: s/10 - feedback" |
| ChatSession.SubmitAdvances | src/components/ChatInterface.tsx:245-260 | below the last question: index + 1, draft cleared, history gains answer, feedback and the next question's message; every other record unchanged |
| ChatSession.SubmitCompletes | src/components/ChatInterface.tsx:245-246 | at the last question: completed status, score and summary, completion message, stage `completed`, no question message; every other record unchanged |
| ChatSession.CompleteFlow | src/components/ChatInterface.tsx:268-296 | the record gets completed/score/summary and the completion message; every other record unchanged; the cursor completes |
| ChatSession.CompletedRecord | src/components/ChatInterface.tsx:215-295 | the finished record carries the three messages, the QA, completed status, score and summary |
| ChatSession.AsWrittenMeanOmitsLastAnswer | src/components/ChatInterface.tsx:271-273 | as written, the score is the mean over the answers before this submission |
| ChatSession.OneQuestionInterviewScoresNaN | src/components/ChatInterface.tsx:271-282 | a one-question interview scoring 10 gets NaN as written and 10.0 corrected |
| ChatSession.CorrectedMeanCoversEveryAnswer | src/components/ChatInterface.tsx:271-282 | corrected, the score is the mean over every recorded answer |
| ChatSession.SubmitIgnoresStage | src/components/ChatInterface.tsx:201-266 | a submit in the completed stage still records an answer |
| ChatSession.FilledFields | src/components/ChatInterface.tsx:170-175 | the listed fields with a non-empty typed value |
| ChatSession.HandleMissingFieldSubmit | src/components/ChatInterface.tsx:167-184 | all or nothing: only a complete form changes the store |
| ChatSession.MissingFieldSubmitMerges | src/components/ChatInterface.tsx:167-184 | a complete form merges exactly the typed values and starts the interview |
| IntervieweeTab.RestoreStage | src/components/IntervieweeTab.tsx:26-35 | only in `upload` with a found candidate: completed → `completed`, in progress → `interview`; only the stage changes |
| IntervieweeTab.RestoreStageIdempotent | src/components/IntervieweeTab.tsx:26-35 | re-running the effect changes nothing more |
| IntervieweeTab.ChooseView | src/components/IntervieweeTab.tsx:58-62 | upload view iff stage `upload` or no truthy candidate id |
| IntervieweeTab.ReentryView | src/components/IntervieweeTab.tsx:26-62 | a returning started or finished candidate gets the chat view, a pending one the upload view |
| IntervieweeTab.RehydratedReentry | src/components/IntervieweeTab.tsx:26-62 | right after a reload no candidate is found: the effect does nothing, and a cursor past `upload` shows the chat view with no candidate |
| WelcomeBack.Check | src/components/WelcomeBackModal.tsx:15-26 | fires at most once; opens only for an interrupted session; never closes an open prompt |
| WelcomeBack.MountShowsIffInterrupted | src/components/WelcomeBackModal.tsx:18-23 | on mount the prompt opens iff the session is active, unfinished and has answers |
| WelcomeBack.CheckFiresOnce | src/components/WelcomeBackModal.tsx:8-24 | once the check has fired, later checks change nothing |
| WelcomeBack.Resume | src/components/WelcomeBackModal.tsx:28-31 | unpauses, nothing else changes, prompt closes |
| WelcomeBack.StartNew | src/components/WelcomeBackModal.tsx:33-36 | the cursor goes back to its initial state, prompt closes |
| WelcomeBack.ActionsOutcome | src/components/WelcomeBackModal.tsx:28-36 | resume keeps the session interrupted; start-new leaves nothing to resume and shows the upload view |
| WelcomeBack.RehydratedMountNeverPrompts | src/components/WelcomeBackModal.tsx:15-26 | as written, the mount check after a reload never opens the prompt, yet marks itself done whenever the cursor is active |
| WelcomeBack.InterruptedSessionNotOffered | src/components/WelcomeBackModal.tsx:15-26 | an interrupted saved session gets no prompt as written, and gets one with the candidates persisted |
| WelcomeBack.PersistedMountShowsIffInterrupted | src/components/WelcomeBackModal.tsx:18-23 | with the candidates persisted, the mount check opens the prompt iff the saved session is interrupted |
| InterviewerTab.Upsert | src/components/InterviewerTab.tsx:38-45 | known ids merged in place, unknown ones appended; stored records keep their ids |
| InterviewerTab.UpsertNeverDuplicatesKnown | src/components/InterviewerTab.tsx:38-45 | an id the snapshot knows is never added again |
| InterviewerTab.FetchCandidates | src/components/InterviewerTab.tsx:25-55 | no room code navigates without fetching; a failed fetch keeps the store |
| InterviewerTab.RefetchKeepsIdsUnique | src/components/InterviewerTab.tsx:38-45 | re-fetching never duplicates a stored candidate |
| InterviewerTab.Filter | src/components/InterviewerTab.tsx:63-68 | kept iff the lower-cased name or email, or the raw phone, contains the search |
| InterviewerTab.EmptySearchKeepsAll | src/components/InterviewerTab.tsx:63-68 | an empty search keeps every candidate in order |
| InterviewerTab.SortDesc | src/components/InterviewerTab.tsx:70 | a permutation of its input, non-increasing in score |
| InterviewerTab.SortDescStable | src/components/InterviewerTab.tsx:70 | equal scores keep their relative order |
| InterviewerTab.Rows | src/components/InterviewerTab.tsx:63-70 | exactly the matching candidates, highest score first |
| InterviewerTab.ScoreColor | src/components/InterviewerTab.tsx:121 | green iff ≥ 7, red iff below 5 or NaN, else orange |
| InterviewerTab.ScoreColorMonotone | src/components/InterviewerTab.tsx:121 | a higher score never gets a worse colour |
| InterviewerTab.ScoreLabel | src/components/InterviewerTab.tsx:122 | "s/10" for a positive score, "N/A" iff not positive |
| InterviewerTab.StatusColor | src/components/InterviewerTab.tsx:104-107 | green iff completed, blue iff in progress |
| InterviewerTab.StatusText | src/components/InterviewerTab.tsx:107 | the upper-cased status name |
| InterviewerTab.StatusTextInjective | src/components/InterviewerTab.tsx:107 | distinct statuses get distinct texts |
| AuthSlice.Login | src/store/slices/authSlice.ts:24-29 | authenticated with role, e-mail and name from the payload |
| AuthSlice.Logout | src/store/slices/authSlice.ts:30-35 | every field back to its initial value |
| AuthSlice.LogoutRestoresInitial | src/store/slices/authSlice.ts:13-35 | logout yields the initial state, is idempotent, and undoes any login |
| AuthSlice.LoginLastWins | src/store/slices/authSlice.ts:24-29 | a second login overrides the first |
| ProtectedRoute.Guard | src/components/ProtectedRoute.tsx:11-31 | renders iff authenticated, token present and role matches; otherwise `/` or the role's home |
| ProtectedRoute.RedirectTargets | src/components/ProtectedRoute.tsx:16-27 | redirects only to `/`, `/join-room` or `/interviewer/rooms`, and only on a mismatch when signed in |
| ProtectedRoute.LoginThenGuard | src/components/ProtectedRoute.tsx:15-30 | after login a role's own pages render and the other role's redirect; after logout everything goes to `/` |
| JoinRoom.Enter | src/components/JoinInterviewRoom.tsx:18-37 | signed out → interviewee login; not an interviewee → `/`; otherwise the URL code upper-cased |
| JoinRoom.Typed | src/components/JoinInterviewRoom.tsx:95-99 | at most 11 characters, upper-cased |
| JoinRoom.TypedIdempotent | src/components/JoinInterviewRoom.tsx:95-99 | re-entering the stored value changes nothing |
| JoinRoom.HandleJoin | src/components/JoinInterviewRoom.tsx:39-49 | a blank field only warns; otherwise join with the upper-cased field |
| JoinRoom.AfterJoin | src/components/JoinInterviewRoom.tsx:50-61 | success moves to the interview page; failure shows the server's message or a fixed one |
| JoinRoom.TypedRequestShape | src/components/JoinInterviewRoom.tsx:39-49 | a request from typed input carries a non-blank upper-cased code of at most 11 characters |
| BackendModels.ClientStatusesAccepted | backend/src/models/Candidate.js:58-62 | every client status is in the schema's enum |
| BackendModels.Stamp | backend/src/models/Candidate.js:81-84 | only `updatedAt` changes, to the save time |
| BackendModels.StampKeepsValidity | backend/src/models/Candidate.js:81-84 | stamping the save time does not affect validation |
| RoomsRoutes.GenerateRoomCode | backend/src/routes/rooms.js:13-15 | "INT-" plus the first six (or fewer, if fewer exist) random base-36 digits, upper-cased |
| RoomsRoutes.CreateRoom | backend/src/routes/rooms.js:18-51 | unknown caller 404; for a known caller, success iff every required field is non-empty and neither the code nor the id is taken, storing an empty room owned by the caller with their stored name; otherwise 500 and nothing stored |
| RoomsRoutes.CreateRoomKeepsValid | backend/src/models/InterviewRoom.js:3-33 | creation keeps codes unique and upper-cased, ids unique, required fields present; an empty title is refused |
| RoomsRoutes.ListRooms | backend/src/routes/rooms.js:54-62 | exactly the rooms whose interviewer is the caller |
| RoomsRoutes.GetRoom | backend/src/routes/rooms.js:65-76 | found iff the upper-cased code is stored, else 404 |
| RoomsRoutes.GetRoomIgnoresCase | backend/src/routes/rooms.js:67 | the lookup is the same whatever the letter case of the path code |
| RoomsRoutes.CreatedRoomIsFound | backend/src/routes/rooms.js:31-67 | a created room is found by its code in lower case |
| RoomsRoutes.JoinRoom | backend/src/routes/rooms.js:79-99 | unknown code 404; otherwise the caller is in the room, added at the end only if absent; nothing else changes |
| RoomsRoutes.JoinRoomIdempotent | backend/src/routes/rooms.js:86-89 | joining twice equals once; candidate lists stay duplicate-free; the collection stays valid |
| CandidatesRoutes.NewRecord | backend/src/routes/candidates.js:20-35 | pending, empty logs, score 0, empty summary, owner from the token whatever the body says |
| CandidatesRoutes.CreateCandidate | backend/src/routes/candidates.js:7-47 | stored iff the record validates and the id is new, else 500 and nothing stored; empty name or e-mail always fails |
| CandidatesRoutes.ListByRoom | backend/src/routes/candidates.js:50-58 | exactly the records whose stored room code equals the upper-cased path code |
| CandidatesRoutes.LowerCaseRoomCodeNeverListed | backend/src/routes/candidates.js:20-52 | a record created with a non-upper-cased room code is never listed |
| CandidatesRoutes.NoAttemptLimit | backend/src/routes/candidates.js:7-37 | the same caller can create two records for one room |
| CandidatesRoutes.GetCandidate | backend/src/routes/candidates.js:61-72 | the record, or 404 for an unknown id |
| CandidatesRoutes.ApplyPatch | backend/src/routes/candidates.js:82-96 | only the six permitted fields that are defined are replaced; all others unchanged |
| CandidatesRoutes.SaveExisting | backend/src/routes/candidates.js:98 | saved and stamped iff the record validates; otherwise 500 with the collection unchanged |
| CandidatesRoutes.PatchCandidate | backend/src/routes/candidates.js:75-108 | 404 for an unknown id; otherwise stored stamped iff the patched record validates |
| CandidatesRoutes.PatchLastWriteWins | backend/src/routes/candidates.js:82-98 | repeating a patch only moves the timestamp |
| CandidatesRoutes.AppendMessage | backend/src/routes/candidates.js:111-130 | one message at the end, prefix kept, record stamped |
| CandidatesRoutes.AppendAnswer | backend/src/routes/candidates.js:133-152 | one answer at the end, prefix kept, record stamped |
| CandidatesRoutes.AppendsIgnoreStatus | backend/src/routes/candidates.js:118-142 | an append succeeds iff its element passes the enum, whatever the status |
| CandidatesRoutes.DeleteCandidate | backend/src/routes/candidates.js:155-167 | removes the record, or 404 for an unknown id |
| CandidatesRoutes.UnknownIdIsNotFound | backend/src/routes/candidates.js:63-160 | get, patch, chat, answer and delete answer 404 and store nothing for an unknown id |
| CandidatesRoutes.DeleteThenGetNotFound | backend/src/routes/candidates.js:157-162 | after a delete, get and a second delete answer 404 |
| CandidatesRoutes.HandlersKeepValid | backend/src/models/Candidate.js:32-84 | every handler keeps ids unique and every record schema-valid |

## Left out

- Rendering: all JSX, layout, colours other than the tags, scrolling and the clipboard.
- Speech recognition in the chat page: a browser API.
- The provider call itself, prompt wording and `JSON.parse` of replies. Each call is reduced to what it came to: threw, no JSON span, or a parsed value.
- The summary prompt's wording around the QA listing. The listing itself is `AiService.QaText`; the summary call is given the reply as a parameter, so the stale snapshot it is built from does not reach the state.
- PDF and DOCX text extraction: library calls. The extracted text is a parameter.
- HTTP plumbing, CORS, token verification and the index migration script. The authenticated caller id is a parameter.
- The user collection: a name lookup map is a parameter of room creation.
- Signup and login pages, the token helpers and the route table: they only call APIs, navigate or configure.
- Persistence itself (storage writes and the rehydration timing). Its effect on the store is modelled: after a reload the session cursor comes back and the candidate list is empty (`AppStore.Rehydrated`).
- The interviewer room dashboard page: fetch plus UI. Its blank-title refusal is covered by the schema's required title.
- Concurrency: the interval timer is a tick function, and async handlers are sequential compositions. A pending evaluation racing a zero tick is not modelled.
- Floating point: per-answer scores are integers and final scores are integer tenths.
- Question loading's retry when the effect re-runs after a failed or empty load.
- InterviewerTab.SortKey: a NaN final score sorts as 0. That is what the server's `null` becomes under subtraction. A NaN taken directly from the local store would make the comparator inconsistent, which is not modelled.
- Text.ToUpper: case mapping covers ASCII letters only; other letters are left unchanged.
- Text.ToLower: case mapping covers ASCII letters only, so the interviewer search for "é" does not find "Émile" in the model, while the source's `toLowerCase` finds it.
- ResumeParser.ParseResume: a failed extraction (the PDF or DOCX library throwing) is not modelled; the extracted text is always supplied.
- ResumeUpload.NewCandidate: the handler reads the clock three times (id, `createdAt`, `updatedAt`); one reading stands for all three.
- ChatSession message ids and timestamps: each handler takes one clock reading (plus the fixed `+1`/`+2` offsets) where the source calls `Date.now()` for every field.
- IntervieweeTab.ReentryView: holds for a re-entry within one page session, when the candidate list is populated. Right after a reload the list is empty, so its premise fails and the effect does nothing (`IntervieweeTab.RehydratedReentry`).
- WelcomeBack.MountShowsIffInterrupted: stated over any store. The only store the mount check sees is the rehydrated one, on which the prompt never opens (see Findings).
- WelcomeBack.ActionsOutcome: its interrupted premise never holds at the as-written mount, because the candidate list is not persisted (see Findings). It describes the actions once the prompt can open.
- BackendModels.CandidateValid: an absent (undefined) enum value, which the schema accepts, is not distinguished from the empty string. A missing create-body field is modelled as the empty string, which fails `required` just as an absent one does.
- CandidatesRoutes.PatchCandidate: type casting of patch values, such as a numeric status, is not modelled. Field values arrive already typed.
- JoinRoom.AfterJoin: the half-second delay before navigating is not modelled.

## Findings

| source | as written | input that shows it | evidently intended | confidence | as-written member | corrected member |
|---|---|---|---|---|---|---|
| src/components/ResumeUpload.tsx:71-79 | after `setStage('collect-info')`, `startInterview` always sets the stage to `interview`, so the missing-field form is never shown after an upload | a résumé "Ada 555-123-4567" with no e-mail: missing list `[email]`, stage `interview` | stay in `collect-info` until the missing-field form completes and starts the interview | not executed | ResumeUpload.MissingEmailExample | ResumeUpload.HandleUpload |
| src/components/ChatInterface.tsx:271-273 | the final score averages the render-time candidate's answers, which exclude the answer just recorded | a one-question interview whose answer scores 10: `0 / 0` gives a final score of NaN ("NaN/10") | average over every recorded answer, including the last one (10.0 here) | not executed | ChatSession.OneQuestionInterviewScoresNaN | ChatSession.SubmitAnswer |
| src/components/WelcomeBackModal.tsx:15-26 | the prompt is mounted once, at the root, and checks the store only on mount. The candidate list is not persisted (src/store/store.ts:26), so after a reload the check never finds the candidate; it still marks itself done, and the prompt never opens | a saved session active on candidate `c1` in stage `interview`, whose candidate has answered one question and is in progress: after a reload the candidate list is `[]` and no prompt is shown | offer to resume an interrupted session after a reload | not executed | WelcomeBack.RehydratedMountNeverPrompts | WelcomeBack.PersistedMountShowsIffInterrupted |
