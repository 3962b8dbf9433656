/** The candidate routes (backend/src/routes/candidates.js). The caller id
    (from the verified token) and the clock are parameters; a field the
    request body leaves out is the empty string for the create body and
    `None` for the patch body. */
module CandidatesRoutes {
  import opened Wrappers
  import opened Text
  import opened CandidatesSlice
  import opened BackendModels

  datatype CreateBody = CreateBody(
    id: string,
    roomCode: string,
    name: string,
    email: string,
    phone: string,
    resumeText: string,
    resumeFile: Option<ResumeFile>,
    profileDescription: Option<string>)

  /** The six fields a patch may carry; `None` is `undefined`. */
  datatype PatchBody = PatchBody(
    status: Option<string>,
    chatHistory: Option<seq<StoredMessage>>,
    questionsAnswers: Option<seq<StoredAnswer>>,
    finalScore: Option<int>,
    summary: Option<string>,
    profileDescription: Option<string>)

  datatype CandidatesResult<T> = CandidatesResult(candidates: map<string, StoredCandidate>, response: Response<T>)

  const CandidateNotFound := "Candidate not found"
  const CreateFailed := "Error creating candidate"
  const UpdateFailed := "Error updating candidate"
  const ChatFailed := "Error adding chat message"
  const AnswerFailed := "Error adding question answer"
  const Deleted := "Candidate deleted successfully"

  // ---------------------------------------------------------------------------
  // create and list

  /** The record `POST /api/candidates` builds: the body's identity, contact
      and résumé fields, the caller as owner, and fixed initial progress
      whatever else the body says. */
  function NewRecord(caller: string, b: CreateBody, now: int): (c: StoredCandidate)
    ensures c.id == b.id && c.userId == caller && c.roomCode == b.roomCode
    ensures c.name == b.name && c.email == b.email && c.phone == b.phone && c.resumeText == b.resumeText
    ensures c.resumeFile == b.resumeFile && c.profileDescription == b.profileDescription
    ensures c.status == "pending" && c.chatHistory == [] && c.questionsAnswers == []
    ensures c.finalScore == 0 && c.summary == ""
    ensures c.createdAt == now && c.updatedAt == now
  {
    StoredCandidate(b.id, caller, b.roomCode, b.name, b.email, b.phone, b.resumeText, b.resumeFile,
      b.profileDescription, "pending", [], [], 0, "", now, now)
  }

  /** `POST /api/candidates`. The save fails (500, nothing stored) when a
      required field is empty or the id is taken. Nothing checks that the
      room exists, the room code is stored as sent, and the same caller may
      create any number of candidates. */
  function CreateCandidate(cs: map<string, StoredCandidate>, caller: string, b: CreateBody, now: int)
    : (r: CandidatesResult<StoredCandidate>)
    ensures r.response.Ok? <==> CandidateValid(NewRecord(caller, b, now)) && b.id !in cs
    ensures r.response.Ok? ==> r.response.value == NewRecord(caller, b, now) && r.candidates == cs[b.id := r.response.value]
    ensures r.response.Err? ==> r.candidates == cs && r.response.error == ServerError(CreateFailed)
    ensures b.name == "" || b.email == "" || caller == "" ==> r.response.Err?
  {
    var c := NewRecord(caller, b, now);
    if !CandidateValid(c) || b.id in cs then CandidatesResult(cs, Err(ServerError(CreateFailed)))
    else CandidatesResult(cs[b.id := c], Ok(c))
  }

  /** `GET /api/candidates/room/:roomCode`: the records whose stored room
      code equals the upper-cased path code. */
  function ListByRoom(cs: map<string, StoredCandidate>, code: string): (r: set<StoredCandidate>)
    ensures forall c :: c in r <==> c in cs.Values && c.roomCode == ToUpper(code)
  {
    set id | id in cs && cs[id].roomCode == ToUpper(code) :: cs[id]
  }

  /** A record created with a room code that is not upper-cased is stored
      fine but never listed, whatever code the interviewer asks for. */
  lemma LowerCaseRoomCodeNeverListed(cs: map<string, StoredCandidate>, caller: string, b: CreateBody, now: int, code: string)
    requires CreateCandidate(cs, caller, b, now).response.Ok?
    requires !IsUpperCased(b.roomCode)
    ensures var r := CreateCandidate(cs, caller, b, now);
            && b.id in r.candidates
            && r.candidates[b.id] !in ListByRoom(r.candidates, code)
  {
    ToUpperIdempotent(code);
  }

  /** No attempt limit: the same caller creates two records for the same
      room as long as the ids differ. */
  lemma NoAttemptLimit(cs: map<string, StoredCandidate>, caller: string, b: CreateBody, id2: string, now: int)
    requires CandidatesValid(cs) && CreateCandidate(cs, caller, b, now).response.Ok?
    requires id2 != b.id && id2 !in cs && id2 != ""
    ensures var first := CreateCandidate(cs, caller, b, now);
            var second := CreateCandidate(first.candidates, caller, b.(id := id2), now);
            && second.response.Ok?
            && second.candidates[b.id].userId == second.candidates[id2].userId == caller
            && second.candidates[b.id].roomCode == second.candidates[id2].roomCode
  {
  }

  // ---------------------------------------------------------------------------
  // get, patch, appends, delete

  /** `GET /api/candidates/:id`. */
  function GetCandidate(cs: map<string, StoredCandidate>, id: string): (r: Response<StoredCandidate>)
    ensures r.Ok? <==> id in cs
    ensures r.Ok? ==> r.value == cs[id]
    ensures r.Err? ==> r.error == NotFound(CandidateNotFound)
  {
    if id in cs then Ok(cs[id]) else Err(NotFound(CandidateNotFound))
  }

  /** Saving the changed record found under `id`: it must validate (else 500 and nothing
      changes), and the pre-save hook stamps it with the save time. */
  function SaveExisting(cs: map<string, StoredCandidate>, id: string, c: StoredCandidate, now: int, failure: string)
    : (r: CandidatesResult<StoredCandidate>)
    ensures r.response.Ok? <==> CandidateValid(c)
    ensures r.response.Ok? ==> r.response.value == Stamp(c, now) && r.candidates == cs[id := Stamp(c, now)]
    ensures r.response.Err? ==> r == CandidatesResult(cs, Err(ServerError(failure)))
  {
    if CandidateValid(c) then CandidatesResult(cs[id := Stamp(c, now)], Ok(Stamp(c, now)))
    else CandidatesResult(cs, Err(ServerError(failure)))
  }

  /** The defined fields of the body replace the record's; nothing else does. */
  function ApplyPatch(c: StoredCandidate, b: PatchBody): (r: StoredCandidate)
    ensures b.status.Some? ==> r.status == b.status.value
    ensures b.status.None? ==> r.status == c.status
    ensures b.chatHistory.Some? ==> r.chatHistory == b.chatHistory.value
    ensures b.chatHistory.None? ==> r.chatHistory == c.chatHistory
    ensures b.questionsAnswers.Some? ==> r.questionsAnswers == b.questionsAnswers.value
    ensures b.questionsAnswers.None? ==> r.questionsAnswers == c.questionsAnswers
    ensures b.finalScore.Some? ==> r.finalScore == b.finalScore.value
    ensures b.finalScore.None? ==> r.finalScore == c.finalScore
    ensures b.summary.Some? ==> r.summary == b.summary.value
    ensures b.summary.None? ==> r.summary == c.summary
    ensures r.profileDescription == if b.profileDescription.Some? then b.profileDescription else c.profileDescription
    ensures r.(status := c.status, chatHistory := c.chatHistory, questionsAnswers := c.questionsAnswers,
               finalScore := c.finalScore, summary := c.summary, profileDescription := c.profileDescription) == c
  {
    c.(status := b.status.GetOr(c.status),
       chatHistory := b.chatHistory.GetOr(c.chatHistory),
       questionsAnswers := b.questionsAnswers.GetOr(c.questionsAnswers),
       finalScore := b.finalScore.GetOr(c.finalScore),
       summary := b.summary.GetOr(c.summary),
       profileDescription := if b.profileDescription.Some? then b.profileDescription else c.profileDescription)
  }

  /** `PATCH /api/candidates/:id`. */
  function PatchCandidate(cs: map<string, StoredCandidate>, id: string, b: PatchBody, now: int)
    : (r: CandidatesResult<StoredCandidate>)
    ensures id !in cs ==> r == CandidatesResult(cs, Err(NotFound(CandidateNotFound)))
    ensures id in cs && CandidatesValid(cs) ==>
              (r.response.Ok? <==> CandidateValid(ApplyPatch(cs[id], b)))
    ensures r.response.Ok? ==> id in cs && r.candidates == cs[id := Stamp(ApplyPatch(cs[id], b), now)]
    ensures r.response.Err? ==> r.candidates == cs
  {
    if id !in cs then CandidatesResult(cs, Err(NotFound(CandidateNotFound)))
    else SaveExisting(cs, id, ApplyPatch(cs[id], b), now, UpdateFailed)
  }

  /** Sending the same patch again only moves the timestamp. */
  lemma PatchLastWriteWins(cs: map<string, StoredCandidate>, id: string, b: PatchBody, t1: int, t2: int)
    requires CandidatesValid(cs)
    ensures PatchCandidate(PatchCandidate(cs, id, b, t1).candidates, id, b, t2) == PatchCandidate(cs, id, b, t2)
  {
    var first := PatchCandidate(cs, id, b, t1);
    if first.response.Ok? {
      var p := ApplyPatch(cs[id], b);
      assert ApplyPatch(Stamp(p, t1), b) == Stamp(p, t1);
      assert cs[id := Stamp(p, t1)][id := Stamp(p, t2)] == cs[id := Stamp(p, t2)];
    }
  }

  /** `POST /api/candidates/:id/chat`: one message at the end, whatever the
      record's status. */
  function AppendMessage(cs: map<string, StoredCandidate>, id: string, m: StoredMessage, now: int)
    : (r: CandidatesResult<StoredCandidate>)
    ensures id !in cs ==> r == CandidatesResult(cs, Err(NotFound(CandidateNotFound)))
    ensures r.response.Ok? ==>
              && id in cs
              && r.response.value.chatHistory == cs[id].chatHistory + [m]
              && r.response.value == Stamp(cs[id], now).(chatHistory := r.response.value.chatHistory)
              && r.candidates == cs[id := r.response.value]
    ensures r.response.Err? ==> r.candidates == cs
  {
    if id !in cs then CandidatesResult(cs, Err(NotFound(CandidateNotFound)))
    else SaveExisting(cs, id, cs[id].(chatHistory := cs[id].chatHistory + [m]), now, ChatFailed)
  }

  /** `POST /api/candidates/:id/answer`: one answer at the end, whatever the
      record's status. */
  function AppendAnswer(cs: map<string, StoredCandidate>, id: string, qa: StoredAnswer, now: int)
    : (r: CandidatesResult<StoredCandidate>)
    ensures id !in cs ==> r == CandidatesResult(cs, Err(NotFound(CandidateNotFound)))
    ensures r.response.Ok? ==>
              && id in cs
              && r.response.value.questionsAnswers == cs[id].questionsAnswers + [qa]
              && r.response.value == Stamp(cs[id], now).(questionsAnswers := r.response.value.questionsAnswers)
              && r.candidates == cs[id := r.response.value]
    ensures r.response.Err? ==> r.candidates == cs
  {
    if id !in cs then CandidatesResult(cs, Err(NotFound(CandidateNotFound)))
    else SaveExisting(cs, id, cs[id].(questionsAnswers := cs[id].questionsAnswers + [qa]), now, AnswerFailed)
  }

  /** On a valid collection an append succeeds exactly when the record
      exists and the new element passes its enum — a completed interview
      included. */
  lemma AppendsIgnoreStatus(cs: map<string, StoredCandidate>, id: string, m: StoredMessage, qa: StoredAnswer, now: int)
    requires CandidatesValid(cs) && id in cs
    ensures AppendMessage(cs, id, m, now).response.Ok? <==> m.kind in MessageKinds
    ensures AppendAnswer(cs, id, qa, now).response.Ok? <==> qa.difficulty in Difficulties
  {
    var c := cs[id];
    var cm := c.(chatHistory := c.chatHistory + [m]);
    var ca := c.(questionsAnswers := c.questionsAnswers + [qa]);
    assert cm.chatHistory[|c.chatHistory|] == m;
    assert ca.questionsAnswers[|c.questionsAnswers|] == qa;
  }

  /** `DELETE /api/candidates/:id`. */
  function DeleteCandidate(cs: map<string, StoredCandidate>, id: string): (r: CandidatesResult<string>)
    ensures id !in cs ==> r == CandidatesResult(cs, Err(NotFound(CandidateNotFound)))
    ensures id in cs ==> r == CandidatesResult(cs - {id}, Ok(Deleted))
    ensures id !in r.candidates
  {
    if id !in cs then CandidatesResult(cs, Err(NotFound(CandidateNotFound)))
    else CandidatesResult(cs - {id}, Ok(Deleted))
  }

  // ---------------------------------------------------------------------------
  // properties across handlers

  /** For an unknown id every single-record handler answers 404 and stores nothing. */
  lemma UnknownIdIsNotFound(cs: map<string, StoredCandidate>, id: string, b: PatchBody, m: StoredMessage,
                            qa: StoredAnswer, now: int)
    requires id !in cs
    ensures GetCandidate(cs, id) == Err(NotFound(CandidateNotFound))
    ensures PatchCandidate(cs, id, b, now) == CandidatesResult(cs, Err(NotFound(CandidateNotFound)))
    ensures AppendMessage(cs, id, m, now) == CandidatesResult(cs, Err(NotFound(CandidateNotFound)))
    ensures AppendAnswer(cs, id, qa, now) == CandidatesResult(cs, Err(NotFound(CandidateNotFound)))
    ensures DeleteCandidate(cs, id) == CandidatesResult(cs, Err(NotFound(CandidateNotFound)))
  {
  }

  /** After a delete the record is gone: a get on its id is 404, and so is
      a second delete. */
  lemma DeleteThenGetNotFound(cs: map<string, StoredCandidate>, id: string)
    ensures GetCandidate(DeleteCandidate(cs, id).candidates, id) == Err(NotFound(CandidateNotFound))
    ensures DeleteCandidate(DeleteCandidate(cs, id).candidates, id).response == Err(NotFound(CandidateNotFound))
  {
  }

  /** Every handler keeps the collection as the schema requires it. */
  lemma HandlersKeepValid(cs: map<string, StoredCandidate>, caller: string, cb: CreateBody, id: string,
                          b: PatchBody, m: StoredMessage, qa: StoredAnswer, now: int)
    requires CandidatesValid(cs)
    ensures CandidatesValid(CreateCandidate(cs, caller, cb, now).candidates)
    ensures CandidatesValid(PatchCandidate(cs, id, b, now).candidates)
    ensures CandidatesValid(AppendMessage(cs, id, m, now).candidates)
    ensures CandidatesValid(AppendAnswer(cs, id, qa, now).candidates)
    ensures CandidatesValid(DeleteCandidate(cs, id).candidates)
  {
    CreateKeepsValid(cs, caller, cb, now);
    PatchKeepsValid(cs, id, b, now);
    AppendsKeepValid(cs, id, m, qa, now);
    DeleteKeepsValid(cs, id);
  }

  lemma CreateKeepsValid(cs: map<string, StoredCandidate>, caller: string, cb: CreateBody, now: int)
    requires CandidatesValid(cs)
    ensures CandidatesValid(CreateCandidate(cs, caller, cb, now).candidates)
  {
  }

  lemma PatchKeepsValid(cs: map<string, StoredCandidate>, id: string, b: PatchBody, now: int)
    requires CandidatesValid(cs)
    ensures CandidatesValid(PatchCandidate(cs, id, b, now).candidates)
  {
  }

  lemma AppendsKeepValid(cs: map<string, StoredCandidate>, id: string, m: StoredMessage, qa: StoredAnswer, now: int)
    requires CandidatesValid(cs)
    ensures CandidatesValid(AppendMessage(cs, id, m, now).candidates)
    ensures CandidatesValid(AppendAnswer(cs, id, qa, now).candidates)
  {
    MessageKeepsValid(cs, id, m, now);
    AnswerKeepsValid(cs, id, qa, now);
  }

  lemma MessageKeepsValid(cs: map<string, StoredCandidate>, id: string, m: StoredMessage, now: int)
    requires CandidatesValid(cs)
    ensures CandidatesValid(AppendMessage(cs, id, m, now).candidates)
  {
  }

  lemma AnswerKeepsValid(cs: map<string, StoredCandidate>, id: string, qa: StoredAnswer, now: int)
    requires CandidatesValid(cs)
    ensures CandidatesValid(AppendAnswer(cs, id, qa, now).candidates)
  {
  }


  lemma DeleteKeepsValid(cs: map<string, StoredCandidate>, id: string)
    requires CandidatesValid(cs)
    ensures CandidatesValid(DeleteCandidate(cs, id).candidates)
  {
  }

}
