/** The client-side room list (src/store/slices/interviewRoomsSlice.ts).
    Room codes are compared exactly (case-sensitively) here. */
module InterviewRoomsSlice {
  import opened Wrappers

  datatype InterviewRoom = InterviewRoom(
    roomId: string,
    roomCode: string,
    interviewerId: string,
    interviewerName: string,
    title: string,
    candidateIds: seq<string>,
    createdAt: int,
    isActive: bool)

  /** No element occurs twice. */
  predicate NoDuplicates<T(==)>(xs: seq<T>) {
    forall i, j :: 0 <= i < j < |xs| ==> xs[i] != xs[j]
  }

  /** `rooms.find(r => r.roomCode === code)`, as an index. */
  function FindRoomIndex(rooms: seq<InterviewRoom>, code: string): (r: Option<nat>)
    ensures r.Some? ==> r.value < |rooms| && rooms[r.value].roomCode == code
    ensures r.Some? ==> forall j :: 0 <= j < r.value ==> rooms[j].roomCode != code
    ensures r.None? ==> forall j :: 0 <= j < |rooms| ==> rooms[j].roomCode != code
  {
    if |rooms| == 0 then None
    else if rooms[0].roomCode == code then Some(0)
    else
      match FindRoomIndex(rooms[1..], code)
      case Some(k) => Some(k + 1)
      case None => None
  }

  /** `createRoom`: pushes the room as given. */
  function CreateRoom(rooms: seq<InterviewRoom>, room: InterviewRoom): (r: seq<InterviewRoom>)
    ensures |r| == |rooms| + 1 && r[..|rooms|] == rooms && r[|rooms|] == room
  {
    rooms + [room]
  }

  /** Appends `id` to a candidate list unless it is already there. */
  function AddOnce(ids: seq<string>, id: string): (r: seq<string>)
    ensures id in r
    ensures id in ids ==> r == ids
    ensures id !in ids ==> r == ids + [id]
    ensures forall x :: x in r <==> x in ids || x == id
  {
    if id in ids then ids else ids + [id]
  }

  /** Adding an id once keeps a duplicate-free list duplicate-free. */
  lemma AddOncePreservesNoDuplicates(ids: seq<string>, id: string)
    requires NoDuplicates(ids)
    ensures NoDuplicates(AddOnce(ids, id))
  {
  }

  /** `addCandidateToRoom`: adds the id to the first room with exactly this
      code, unless already present; no-op for an unknown code. */
  function AddCandidateToRoom(rooms: seq<InterviewRoom>, code: string, id: string): (r: seq<InterviewRoom>)
    ensures |r| == |rooms|
    ensures FindRoomIndex(rooms, code).None? ==> r == rooms
    ensures FindRoomIndex(rooms, code).Some? ==>
              var k := FindRoomIndex(rooms, code).value;
              && id in r[k].candidateIds
              && (forall x :: x in r[k].candidateIds <==> x in rooms[k].candidateIds || x == id)
              && r[k] == rooms[k].(candidateIds := r[k].candidateIds)
              && forall j :: 0 <= j < |rooms| && j != k ==> r[j] == rooms[j]
  {
    match FindRoomIndex(rooms, code)
    case Some(k) => rooms[k := rooms[k].(candidateIds := AddOnce(rooms[k].candidateIds, id))]
    case None => rooms
  }

  /** `deactivateRoom`: clears `isActive` on the first room with exactly
      this code; no-op for an unknown code. */
  function DeactivateRoom(rooms: seq<InterviewRoom>, code: string): (r: seq<InterviewRoom>)
    ensures |r| == |rooms|
    ensures FindRoomIndex(rooms, code).None? ==> r == rooms
    ensures FindRoomIndex(rooms, code).Some? ==>
              var k := FindRoomIndex(rooms, code).value;
              && r[k] == rooms[k].(isActive := false)
              && forall j :: 0 <= j < |rooms| && j != k ==> r[j] == rooms[j]
  {
    match FindRoomIndex(rooms, code)
    case Some(k) => rooms[k := rooms[k].(isActive := false)]
    case None => rooms
  }

  /** The first room with the code is what `FindRoomIndex` finds. */
  lemma FindRoomIndexUnique(rooms: seq<InterviewRoom>, code: string, k: nat)
    requires k < |rooms| && rooms[k].roomCode == code
    requires forall j :: 0 <= j < k ==> rooms[j].roomCode != code
    ensures FindRoomIndex(rooms, code) == Some(k)
  {
  }

  /** A second `addCandidateToRoom` with the same arguments changes nothing. */
  lemma {:induction false} AddCandidateToRoomIdempotent(rooms: seq<InterviewRoom>, code: string, id: string)
    ensures AddCandidateToRoom(AddCandidateToRoom(rooms, code, id), code, id) == AddCandidateToRoom(rooms, code, id)
  {
    var r := AddCandidateToRoom(rooms, code, id);
    match FindRoomIndex(rooms, code)
    case None =>
    case Some(k) =>
      FindRoomIndexUnique(r, code, k);
      assert r[k := r[k].(candidateIds := AddOnce(r[k].candidateIds, id))] == r;
  }

  /** `addCandidateToRoom` keeps every room's candidate list duplicate-free. */
  lemma {:induction false} AddCandidateToRoomNoDuplicates(rooms: seq<InterviewRoom>, code: string, id: string)
    requires forall j :: 0 <= j < |rooms| ==> NoDuplicates(rooms[j].candidateIds)
    ensures var r := AddCandidateToRoom(rooms, code, id);
            forall j :: 0 <= j < |r| ==> NoDuplicates(r[j].candidateIds)
  {
    match FindRoomIndex(rooms, code)
    case None =>
    case Some(k) =>
      AddOncePreservesNoDuplicates(rooms[k].candidateIds, id);
  }

  /** Deactivating twice is deactivating once. */
  lemma {:induction false} DeactivateRoomIdempotent(rooms: seq<InterviewRoom>, code: string)
    ensures DeactivateRoom(DeactivateRoom(rooms, code), code) == DeactivateRoom(rooms, code)
  {
    var r := DeactivateRoom(rooms, code);
    match FindRoomIndex(rooms, code)
    case None =>
    case Some(k) =>
      FindRoomIndexUnique(r, code, k);
      assert r[k := r[k].(isActive := false)] == r;
  }
}
