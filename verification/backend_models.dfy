/** The server's two collections as the schemas shape them
    (backend/src/models/InterviewRoom.js and backend/src/models/Candidate.js):
    the stored records, what a save accepts, and the error outcomes the
    route handlers answer with. Each collection is a map keyed by its unique
    field: rooms by code, candidates by id. */
module BackendModels {
  import opened Wrappers
  import opened Text
  import opened CandidatesSlice

  // ---------------------------------------------------------------------------
  // responses

  datatype ApiError = NotFound(message: string) | ServerError(message: string)

  /** A handler's answer: the document(s) it returns, or an error status. */
  datatype Response<T> = Ok(value: T) | Err(error: ApiError)

  // ---------------------------------------------------------------------------
  // rooms

  datatype Room = Room(
    roomId: string,
    roomCode: string,
    interviewerId: string,
    interviewerName: string,
    title: string,
    candidateIds: seq<string>,
    isActive: bool,
    createdAt: int)

  /** The room schema's `required` fields: a string must be non-empty. */
  predicate RoomFieldsPresent(r: Room) {
    r.roomId != "" && r.roomCode != "" && r.interviewerId != "" && r.interviewerName != "" && r.title != ""
  }

  /** The stored room collection: every room sits under its own code, the
      code is upper-cased and the required fields are present, and no two
      rooms share a `roomId` (both fields carry a unique index). */
  predicate RoomsValid(rooms: map<string, Room>) {
    && (forall code :: code in rooms ==>
          rooms[code].roomCode == code && IsUpperCased(code) && RoomFieldsPresent(rooms[code]))
    && (forall a, b :: a in rooms && b in rooms && a != b ==> rooms[a].roomId != rooms[b].roomId)
  }

  /** Some stored room already has this `roomId`. */
  predicate RoomIdTaken(rooms: map<string, Room>, roomId: string) {
    exists code :: code in rooms && rooms[code].roomId == roomId
  }

  // ---------------------------------------------------------------------------
  // candidates

  /** A chat message as stored: the type is free text on the wire and
      checked against the enum on save. */
  datatype StoredMessage = StoredMessage(id: string, kind: string, content: string, timestamp: int)

  datatype StoredAnswer = StoredAnswer(
    questionId: string,
    question: string,
    answer: string,
    difficulty: string,
    timeLimit: int,
    timeSpent: int,
    score: int)

  /** A stored candidate. `finalScore` is held in tenths of a point. */
  datatype StoredCandidate = StoredCandidate(
    id: string,
    userId: string,
    roomCode: string,
    name: string,
    email: string,
    phone: string,
    resumeText: string,
    resumeFile: Option<ResumeFile>,
    profileDescription: Option<string>,
    status: string,
    chatHistory: seq<StoredMessage>,
    questionsAnswers: seq<StoredAnswer>,
    finalScore: int,
    summary: string,
    createdAt: int,
    updatedAt: int)

  const StatusNames: set<string> := {"pending", "in-progress", "completed"}
  const MessageKinds: set<string> := {"user", "bot", "system"}
  const Difficulties: set<string> := {"Easy", "Medium", "Hard"}

  /** Every status the client knows is one the schema accepts. */
  lemma ClientStatusesAccepted(s: Status)
    ensures StatusName(s) in StatusNames
  {
  }

  /** What the candidate schema accepts on save: the five required strings
      are non-empty, the status is one of the three names, every message
      type and every answer difficulty is in its enum. */
  predicate CandidateValid(c: StoredCandidate) {
    && c.id != "" && c.userId != "" && c.roomCode != "" && c.name != "" && c.email != ""
    && c.status in StatusNames
    && (forall i :: 0 <= i < |c.chatHistory| ==> c.chatHistory[i].kind in MessageKinds)
    && (forall i :: 0 <= i < |c.questionsAnswers| ==> c.questionsAnswers[i].difficulty in Difficulties)
  }

  /** The stored candidate collection: every record sits under its own id
      (the unique index) and passed validation. */
  predicate CandidatesValid(cs: map<string, StoredCandidate>) {
    forall id :: id in cs ==> cs[id].id == id && CandidateValid(cs[id])
  }

  /** The pre-save hook: the record is stamped with the save time. */
  function Stamp(c: StoredCandidate, now: int): (r: StoredCandidate)
    ensures r.updatedAt == now && r.(updatedAt := c.updatedAt) == c
  {
    c.(updatedAt := now)
  }

  /** Stamping does not change whether a record validates. */
  lemma StampKeepsValidity(c: StoredCandidate, now: int)
    ensures CandidateValid(Stamp(c, now)) <==> CandidateValid(c)
  {
  }
}
