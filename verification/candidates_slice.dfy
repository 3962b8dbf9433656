/** The client-side candidate store (src/store/slices/candidatesSlice.ts):
    the Message / QuestionAnswer / Candidate records and the four reducers
    over the ordered candidate list. */
module CandidatesSlice {
  import opened Wrappers

  datatype MessageType = User | Bot | System

  datatype Message = Message(id: string, kind: MessageType, content: string, timestamp: int)

  /** One answered question. `difficulty` is the text the question carried,
      which the client never validates. */
  datatype QuestionAnswer = QuestionAnswer(
    questionId: string,
    question: string,
    answer: string,
    difficulty: string,
    timeLimit: int,
    timeSpent: int,
    score: int)

  datatype Status = Pending | InProgress | Completed

  /** The text a status carries on the client and on the wire. */
  function StatusName(s: Status): string {
    match s
    case Pending => "pending"
    case InProgress => "in-progress"
    case Completed => "completed"
  }

  datatype ResumeFile = ResumeFile(name: string, mime: string, data: string)

  /** A final score in tenths of a point. `NaN` is what `0 / 0` gives when
      the mean is taken over no answers. */
  datatype ScoreValue = Tenths(tenths: int) | NaN

  datatype Candidate = Candidate(
    id: string,
    name: string,
    email: string,
    phone: string,
    resumeText: string,
    resumeFile: Option<ResumeFile>,
    profileDescription: Option<string>,
    status: Status,
    chatHistory: seq<Message>,
    questionsAnswers: seq<QuestionAnswer>,
    finalScore: ScoreValue,
    summary: string,
    createdAt: int,
    updatedAt: int)

  /** `Partial<Candidate>`: a field is replaced exactly when it is `Some`. */
  datatype CandidateUpdates = CandidateUpdates(
    id: Option<string>,
    name: Option<string>,
    email: Option<string>,
    phone: Option<string>,
    resumeText: Option<string>,
    resumeFile: Option<ResumeFile>,
    profileDescription: Option<string>,
    status: Option<Status>,
    chatHistory: Option<seq<Message>>,
    questionsAnswers: Option<seq<QuestionAnswer>>,
    finalScore: Option<ScoreValue>,
    summary: Option<string>,
    createdAt: Option<int>,
    updatedAt: Option<int>)

  const NoUpdates := CandidateUpdates(None, None, None, None, None, None, None, None, None, None, None, None, None, None)

  /** Updates that carry every field of `c` (the whole-record refresh). */
  function AllFieldsOf(c: Candidate): CandidateUpdates {
    CandidateUpdates(Some(c.id), Some(c.name), Some(c.email), Some(c.phone), Some(c.resumeText),
      c.resumeFile, c.profileDescription, Some(c.status), Some(c.chatHistory),
      Some(c.questionsAnswers), Some(c.finalScore), Some(c.summary), Some(c.createdAt), Some(c.updatedAt))
  }

  /** `{ ...c, ...u }`. The two optional fields of `c` are overwritten only
      when the update carries them. */
  function Merge(c: Candidate, u: CandidateUpdates): Candidate {
    Candidate(
      u.id.GetOr(c.id),
      u.name.GetOr(c.name),
      u.email.GetOr(c.email),
      u.phone.GetOr(c.phone),
      u.resumeText.GetOr(c.resumeText),
      if u.resumeFile.Some? then u.resumeFile else c.resumeFile,
      if u.profileDescription.Some? then u.profileDescription else c.profileDescription,
      u.status.GetOr(c.status),
      u.chatHistory.GetOr(c.chatHistory),
      u.questionsAnswers.GetOr(c.questionsAnswers),
      u.finalScore.GetOr(c.finalScore),
      u.summary.GetOr(c.summary),
      u.createdAt.GetOr(c.createdAt),
      u.updatedAt.GetOr(c.updatedAt))
  }

  /** Merging the same updates twice is merging them once. */
  lemma MergeIdempotent(c: Candidate, u: CandidateUpdates)
    ensures Merge(Merge(c, u), u) == Merge(c, u)
  {
  }

  /** Merging no updates changes nothing. */
  lemma MergeNothing(c: Candidate)
    ensures Merge(c, NoUpdates) == c
  {
  }

  /** Merging every field of `d` yields `d`, except that an optional field
      absent from `d` keeps the value it had in `c`. */
  lemma MergeAllFields(c: Candidate, d: Candidate)
    ensures Merge(c, AllFieldsOf(d))
         == d.(resumeFile := if d.resumeFile.Some? then d.resumeFile else c.resumeFile,
               profileDescription := if d.profileDescription.Some? then d.profileDescription else c.profileDescription)
  {
  }

  // ---------------------------------------------------------------------------
  // lookup

  /** `findIndex(c => c.id === id)`, with `None` for -1. */
  function FindIndex(cs: seq<Candidate>, id: string): (r: Option<nat>)
    ensures r.Some? ==> r.value < |cs| && cs[r.value].id == id
    ensures r.Some? ==> forall j :: 0 <= j < r.value ==> cs[j].id != id
    ensures r.None? ==> forall j :: 0 <= j < |cs| ==> cs[j].id != id
  {
    if |cs| == 0 then None
    else if cs[0].id == id then Some(0)
    else
      match FindIndex(cs[1..], id)
      case Some(k) => Some(k + 1)
      case None => None
  }

  /** `find(c => c.id === id)`. */
  function Find(cs: seq<Candidate>, id: string): (r: Option<Candidate>)
    ensures r.Some? <==> exists j :: 0 <= j < |cs| && cs[j].id == id
    ensures r.Some? ==> r.value in cs && r.value.id == id
  {
    match FindIndex(cs, id)
    case Some(k) => Some(cs[k])
    case None => None
  }

  // ---------------------------------------------------------------------------
  // reducers

  /** `addCandidate`: pushes the record, with no check for an existing id. */
  function AddCandidate(cs: seq<Candidate>, c: Candidate): (r: seq<Candidate>)
    ensures |r| == |cs| + 1 && r[..|cs|] == cs && r[|cs|] == c
  {
    cs + [c]
  }

  /** Adding a record whose id is already stored leaves two records with that id. */
  lemma AddCandidateKeepsDuplicates(cs: seq<Candidate>, c: Candidate, j: nat)
    requires j < |cs| && cs[j].id == c.id
    ensures var r := AddCandidate(cs, c); j < |cs| < |r| && r[j].id == r[|cs|].id
  {
  }

  /** `updateCandidate`: shallow-merges into the first record with the id;
      no-op when the id is unknown. */
  function UpdateCandidate(cs: seq<Candidate>, id: string, u: CandidateUpdates): (r: seq<Candidate>)
    ensures |r| == |cs|
    ensures FindIndex(cs, id).None? ==> r == cs
    ensures FindIndex(cs, id).Some? ==>
              var k := FindIndex(cs, id).value;
              && r[k] == Merge(cs[k], u)
              && forall j :: 0 <= j < |cs| && j != k ==> r[j] == cs[j]
  {
    match FindIndex(cs, id)
    case Some(k) => cs[k := Merge(cs[k], u)]
    case None => cs
  }

  /** Applying the same update twice equals applying it once, provided the
      update does not rename the record. */
  lemma UpdateCandidateIdempotent(cs: seq<Candidate>, id: string, u: CandidateUpdates)
    requires u.id.None? || u.id == Some(id)
    ensures UpdateCandidate(UpdateCandidate(cs, id, u), id, u) == UpdateCandidate(cs, id, u)
  {
    var r := UpdateCandidate(cs, id, u);
    match FindIndex(cs, id)
    case None =>
    case Some(k) =>
      assert FindIndex(r, id) == Some(k) by {
        assert r[k].id == id;
        assert forall j :: 0 <= j < k ==> r[j] == cs[j];
        FindIndexUnique(r, id, k);
      }
      MergeIdempotent(cs[k], u);
  }

  /** The first index with the id is the only candidate for `FindIndex`. */
  lemma FindIndexUnique(cs: seq<Candidate>, id: string, k: nat)
    requires k < |cs| && cs[k].id == id
    requires forall j :: 0 <= j < k ==> cs[j].id != id
    ensures FindIndex(cs, id) == Some(k)
  {
  }

  /** `addMessageToCandidate`: appends to the chat history of the first record
      with the id; no-op when the id is unknown. */
  function AddMessage(cs: seq<Candidate>, id: string, m: Message): (r: seq<Candidate>)
    ensures |r| == |cs|
    ensures FindIndex(cs, id).None? ==> r == cs
    ensures FindIndex(cs, id).Some? ==>
              var k := FindIndex(cs, id).value;
              && r[k].chatHistory == cs[k].chatHistory + [m]
              && r[k] == cs[k].(chatHistory := r[k].chatHistory)
              && forall j :: 0 <= j < |cs| && j != k ==> r[j] == cs[j]
  {
    match FindIndex(cs, id)
    case Some(k) => cs[k := cs[k].(chatHistory := cs[k].chatHistory + [m])]
    case None => cs
  }

  /** `addQuestionAnswer`: appends to the answer list of the first record
      with the id; no-op when the id is unknown. */
  function AddQuestionAnswer(cs: seq<Candidate>, id: string, qa: QuestionAnswer): (r: seq<Candidate>)
    ensures |r| == |cs|
    ensures FindIndex(cs, id).None? ==> r == cs
    ensures FindIndex(cs, id).Some? ==>
              var k := FindIndex(cs, id).value;
              && r[k].questionsAnswers == cs[k].questionsAnswers + [qa]
              && r[k] == cs[k].(questionsAnswers := r[k].questionsAnswers)
              && forall j :: 0 <= j < |cs| && j != k ==> r[j] == cs[j]
  {
    match FindIndex(cs, id)
    case Some(k) => cs[k := cs[k].(questionsAnswers := cs[k].questionsAnswers + [qa])]
    case None => cs
  }

  /** The appends never change which record an id resolves to, so the target
      keeps being found by the same id. */
  lemma AppendsKeepIndex(cs: seq<Candidate>, id: string, m: Message, qa: QuestionAnswer)
    ensures FindIndex(AddMessage(cs, id, m), id) == FindIndex(cs, id)
    ensures FindIndex(AddQuestionAnswer(cs, id, qa), id) == FindIndex(cs, id)
  {
    match FindIndex(cs, id)
    case None =>
    case Some(k) =>
      FindIndexUnique(AddMessage(cs, id, m), id, k);
      FindIndexUnique(AddQuestionAnswer(cs, id, qa), id, k);
  }

  /** An update that does not rename the record leaves the id resolving to the same index. */
  lemma UpdateKeepsIndex(cs: seq<Candidate>, id: string, u: CandidateUpdates)
    requires u.id.None?
    ensures FindIndex(UpdateCandidate(cs, id, u), id) == FindIndex(cs, id)
  {
    match FindIndex(cs, id)
    case None =>
    case Some(k) =>
      FindIndexUnique(UpdateCandidate(cs, id, u), id, k);
  }

  /** Whatever the two appends do, the found record's history only grows. */
  lemma {:induction false} AppendOnlyHistory(cs: seq<Candidate>, id: string, m: Message, qa: QuestionAnswer)
    requires Find(cs, id).Some?
    ensures Find(AddMessage(cs, id, m), id).value.chatHistory == Find(cs, id).value.chatHistory + [m]
    ensures Find(AddQuestionAnswer(cs, id, qa), id).value.questionsAnswers
         == Find(cs, id).value.questionsAnswers + [qa]
  {
    AppendsKeepIndex(cs, id, m, qa);
  }
}
