/** The upload handler (src/components/ResumeUpload.tsx:19-89): parse the
    résumé, build and store a new candidate, record the missing contact
    fields and pick the next stage. The parse result, the file reader's
    data URL, the profile provider's reply and the clock are parameters. */
module ResumeUpload {
  import opened Wrappers
  import opened Text
  import opened InterviewSlice
  import opened CandidatesSlice
  import opened AppStore
  import opened AiService
  import opened ResumeParser

  /** The toast the handler ends with. */
  datatype Notice = Success(text: string) | Error(text: string)

  datatype UploadResult = UploadResult(store: Store, notice: Notice)

  const UploadedText := "Resume uploaded successfully!"
  const UploadFailedText := "Failed to parse resume"

  /** Position of a contact field in the name, email, phone order. */
  function Rank(f: ContactField): nat {
    match f
    case Name => 0
    case Email => 1
    case Phone => 2
  }

  /** The empty contact fields among name, email and phone, in that order. */
  function MissingFields(name: string, email: string, phone: string): (r: seq<ContactField>)
    ensures Name in r <==> name == ""
    ensures Email in r <==> email == ""
    ensures Phone in r <==> phone == ""
    ensures forall i, j :: 0 <= i < j < |r| ==> Rank(r[i]) < Rank(r[j])
  {
    (if name == "" then [Name] else [])
      + (if email == "" then [Email] else [])
      + (if phone == "" then [Phone] else [])
  }

  /** The record the handler stores for a parsed résumé. The handler reads
      the clock three times (for the id, `createdAt` and `updatedAt`); one
      reading `now` stands for all three. */
  function NewCandidate(p: ParsedResume, fileName: string, mime: string, data: string, profile: string, now: nat): (c: Candidate)
    ensures c.id == "candidate-" + NatToString(now)
    ensures c.name == p.name && c.email == p.email && c.phone == p.phone && c.resumeText == p.text
    ensures c.resumeFile == Some(ResumeFile(fileName, mime, data))
    ensures c.profileDescription == Some(profile)
    ensures c.status == Pending && c.chatHistory == [] && c.questionsAnswers == []
    ensures c.finalScore == Tenths(0) && c.summary == ""
    ensures c.createdAt == now && c.updatedAt == now
  {
    Candidate("candidate-" + NatToString(now), p.name, p.email, p.phone, p.text,
      Some(ResumeFile(fileName, mime, data)), Some(profile), Pending, [], [], Tenths(0), "", now, now)
  }

  /** The stage dispatches that follow `addCandidate`, as written: the
      missing list and `collect-info` when something is missing, otherwise
      `interview`, and then `startInterview` in every case. */
  function StageStepsAsWritten(s: InterviewState, missing: seq<ContactField>, id: string): (r: InterviewState)
    ensures r.stage == Interview && r.currentQuestionIndex == 0
    ensures r.currentCandidateId == Some(id) && r.isInterviewActive
    ensures r.missingFields == (if missing != [] then missing else s.missingFields)
  {
    var s1 := if missing != [] then SetStage(SetMissingFields(s, missing), CollectInfo) else SetStage(s, Interview);
    StartInterview(s1, id)
  }

  /** The evidently intended stage selection: the session still points at
      the new candidate, but stays in `collect-info` while something is
      missing; the missing-field form starts the interview itself. */
  function StageStepsCorrected(s: InterviewState, missing: seq<ContactField>, id: string): (r: InterviewState)
    ensures r.stage == (if missing != [] then CollectInfo else Interview)
    ensures r.currentCandidateId == Some(id) && r.currentQuestionIndex == 0
    ensures r.missingFields == (if missing != [] then missing else s.missingFields)
  {
    var s1 := StartInterview(s, id);
    if missing != [] then SetStage(SetMissingFields(s1, missing), CollectInfo) else s1
  }

  /** `handleUpload`. A parse or file-read failure leaves the store as it
      was and shows the error; otherwise the candidate is appended and the
      stage steps run (`corrected` selects which version of them). */
  function HandleUploadWith(corrected: bool, st: Store, parsed: ParseOutcome, fileName: string, mime: string,
                            fileData: Option<string>, profileReply: Option<string>, now: nat): (r: UploadResult)
    ensures parsed.Unsupported? ==> r == UploadResult(st, Error(parsed.message))
    ensures parsed.Parsed? && fileData.None? ==> r == UploadResult(st, Error(UploadFailedText))
    ensures parsed.Parsed? && fileData.Some? ==>
              && r.notice == Success(UploadedText)
              && |r.store.candidates| == |st.candidates| + 1
              && r.store.candidates[..|st.candidates|] == st.candidates
              && r.store.candidates[|st.candidates|]
                 == NewCandidate(parsed.resume, fileName, mime, fileData.value, GenerateProfileDescription(profileReply), now)
  {
    match parsed
    case Unsupported(msg) => UploadResult(st, Error(msg))
    case Parsed(p) =>
      match fileData
      case None => UploadResult(st, Error(UploadFailedText))
      case Some(data) =>
        var c := NewCandidate(p, fileName, mime, data, GenerateProfileDescription(profileReply), now);
        var missing := MissingFields(p.name, p.email, p.phone);
        var interview := if corrected then StageStepsCorrected(st.interview, missing, c.id)
                         else StageStepsAsWritten(st.interview, missing, c.id);
        UploadResult(Store(interview, AddCandidate(st.candidates, c)), Success(UploadedText))
  }

  function HandleUpload(st: Store, parsed: ParseOutcome, fileName: string, mime: string,
                        fileData: Option<string>, profileReply: Option<string>, now: nat): (r: UploadResult)
    ensures parsed.Parsed? && fileData.Some? ==>
              var missing := MissingFields(parsed.resume.name, parsed.resume.email, parsed.resume.phone);
              && r.store.interview.stage == (if missing != [] then CollectInfo else Interview)
              && r.store.interview.currentCandidateId == Some("candidate-" + NatToString(now))
              && r.store.interview.missingFields == (if missing != [] then missing else st.interview.missingFields)
    ensures !(parsed.Parsed? && fileData.Some?) ==> r.store == st && r.notice.Error?
  {
    HandleUploadWith(true, st, parsed, fileName, mime, fileData, profileReply, now)
  }

  /** As written, the upload always ends in the interview stage at question
      0, even when contact fields are missing and `collect-info` was just set. */
  lemma AsWrittenSkipsCollectInfo(st: Store, parsed: ParseOutcome, fileName: string, mime: string,
                                  fileData: Option<string>, profileReply: Option<string>, now: nat)
    requires parsed.Parsed? && fileData.Some?
    ensures var r := HandleUploadWith(false, st, parsed, fileName, mime, fileData, profileReply, now);
            && r.store.interview.stage == Interview
            && r.store.interview.currentQuestionIndex == 0
  {
  }

  /** A concrete upload that shows it: a résumé with no e-mail address
      records `[Email]` as missing yet lands in the interview stage, while
      the corrected steps stay in `collect-info`. */
  lemma MissingEmailExample(st: Store, now: nat)
    ensures var parsed := ParseOutcome.Parsed(ParsedResume("Ada 555-123-4567", "Ada", "", "555-123-4567"));
            var asWritten := HandleUploadWith(false, st, parsed, "cv.pdf", PdfMime, Some("data:"), None, now);
            var fixed := HandleUpload(st, parsed, "cv.pdf", PdfMime, Some("data:"), None, now);
            && asWritten.store.interview.missingFields == [Email]
            && asWritten.store.interview.stage == Interview
            && fixed.store.interview.stage == CollectInfo
  {
  }

  /** A failed profile request does not abort the upload; the candidate
      carries the provider wrapper's fixed fallback text. */
  lemma ProfileFailureKeepsUpload(st: Store, p: ParsedResume, fileName: string, mime: string, data: string, now: nat)
    ensures var r := HandleUpload(st, ParseOutcome.Parsed(p), fileName, mime, Some(data), None, now);
            && r.notice == Success(UploadedText)
            && r.store.candidates[|st.candidates|].profileDescription == Some(FallbackProfile)
  {
  }
}
