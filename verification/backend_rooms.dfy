/** The room routes (backend/src/routes/rooms.js). The caller id (from the
    verified token), the user collection's name lookup, the random UUID,
    the random base-36 text and the clock are parameters. */
module RoomsRoutes {
  import opened Wrappers
  import opened Text
  import opened InterviewRoomsSlice
  import opened BackendModels

  // ---------------------------------------------------------------------------
  // room codes

  /** A character `Number.prototype.toString(36)` writes for a digit. */
  predicate IsBase36Digit(c: char) { '0' <= c <= '9' || 'a' <= c <= 'z' }

  /** An upper-cased base-36 digit: `[0-9A-Z]`. */
  predicate IsCodeChar(c: char) { '0' <= c <= '9' || 'A' <= c <= 'Z' }

  /** `Math.random().toString(36)` for a random number whose base-36
      fraction digits are `frac`: `0` for zero, otherwise `0.` and the digits. */
  function RandomToString36(frac: string): string {
    if frac == "" then "0" else "0." + frac
  }

  /** `s.substring(a, b)` for `a <= b`: both ends are clamped to the length. */
  function Substring(s: string, a: nat, b: nat): (r: string)
    requires a <= b
    ensures |r| <= b - a
  {
    var i := if a <= |s| then a else |s|;
    var j := if b <= |s| then b else |s|;
    s[i..j]
  }

  /** `generateRoomCode`: `INT-` and at most six upper-cased base-36 digits. */
  function GenerateRoomCode(frac: string): (code: string)
    requires forall i :: 0 <= i < |frac| ==> IsBase36Digit(frac[i])
    ensures |code| == 4 + (if |frac| < 6 then |frac| else 6) && code[..4] == "INT-"
    ensures forall i :: 4 <= i < |code| ==> IsCodeChar(code[i])
    ensures IsUpperCased(code)
    ensures |code| - 4 <= |frac| && code[4..] == ToUpper(frac[..|code| - 4])
  {
    var s := RandomToString36(frac);
    var d := Substring(s, 2, 8);
    assert |d| <= |frac| && d == frac[..|d|];
    assert forall i :: 0 <= i < |d| ==> IsBase36Digit(d[i]);
    var code := "INT-" + ToUpper(d);
    assert code[4..] == ToUpper(d);
    code
  }

  // ---------------------------------------------------------------------------
  // handlers

  const RoomNotFound := "Room not found"
  const InvalidRoomCode := "Invalid room code"
  const UserNotFound := "User not found"
  const CreateRoomFailed := "Error creating room"

  datatype RoomsResult<T> = RoomsResult(rooms: map<string, Room>, response: Response<T>)

  /** `POST /api/rooms`. An unknown caller gets 404. The room is built with
      a fresh code, no candidates and the caller's stored name; the save
      upper-cases the code and fails (500, nothing stored) when a required
      field is empty or either unique index already holds the value — the
      code is never checked, nor retried, beforehand. */
  function CreateRoom(rooms: map<string, Room>, users: map<string, string>, caller: string, title: string,
                      roomId: string, frac: string, now: int): (r: RoomsResult<Room>)
    requires forall i :: 0 <= i < |frac| ==> IsBase36Digit(frac[i])
    ensures caller !in users ==> r == RoomsResult(rooms, Err(NotFound(UserNotFound)))
    ensures r.response.Ok? ==>
              var room := r.response.value;
              && room == Room(roomId, GenerateRoomCode(frac), caller, users[caller], title, [], true, now)
              && room.roomCode !in rooms
              && r.rooms == rooms[room.roomCode := room]
    ensures r.response.Err? ==> r.rooms == rooms
    ensures caller in users && GenerateRoomCode(frac) in rooms ==> r.response == Err(ServerError(CreateRoomFailed))
    ensures caller in users ==>
              (r.response.Ok? <==>
                 && RoomFieldsPresent(Room(roomId, GenerateRoomCode(frac), caller, users[caller], title, [], true, now))
                 && GenerateRoomCode(frac) !in rooms
                 && !RoomIdTaken(rooms, roomId))
    ensures caller in users && r.response.Err? ==> r.response.error == ServerError(CreateRoomFailed)
  {
    if caller !in users then RoomsResult(rooms, Err(NotFound(UserNotFound)))
    else
      var code := GenerateRoomCode(frac);
      ToUpperFixesUpperCased(code);
      var room := Room(roomId, ToUpper(code), caller, users[caller], title, [], true, now);
      if !RoomFieldsPresent(room) || room.roomCode in rooms || RoomIdTaken(rooms, roomId) then
        RoomsResult(rooms, Err(ServerError(CreateRoomFailed)))
      else RoomsResult(rooms[room.roomCode := room], Ok(room))
  }

  /** A successful create keeps the collection valid, and a blank title is
      always refused. */
  lemma CreateRoomKeepsValid(rooms: map<string, Room>, users: map<string, string>, caller: string, title: string,
                             roomId: string, frac: string, now: int)
    requires forall i :: 0 <= i < |frac| ==> IsBase36Digit(frac[i])
    requires RoomsValid(rooms)
    ensures RoomsValid(CreateRoom(rooms, users, caller, title, roomId, frac, now).rooms)
    ensures title == "" ==> CreateRoom(rooms, users, caller, title, roomId, frac, now).response.Err?
  {
    var r := CreateRoom(rooms, users, caller, title, roomId, frac, now);
    if r.response.Ok? {
      var room := r.response.value;
      assert !RoomIdTaken(rooms, roomId);
      forall a, b | a in r.rooms && b in r.rooms && a != b ensures r.rooms[a].roomId != r.rooms[b].roomId {
        if a == room.roomCode {
          assert r.rooms[b] == rooms[b];
        } else if b == room.roomCode {
          assert r.rooms[a] == rooms[a];
        }
      }
    }
  }

  /** `GET /api/rooms`: exactly the caller's rooms. */
  function ListRooms(rooms: map<string, Room>, caller: string): (r: set<Room>)
    ensures forall room :: room in r <==> room in rooms.Values && room.interviewerId == caller
  {
    set code | code in rooms && rooms[code].interviewerId == caller :: rooms[code]
  }

  /** `GET /api/rooms/:roomCode`: the path code is upper-cased before the lookup. */
  function GetRoom(rooms: map<string, Room>, code: string): (r: Response<Room>)
    ensures r.Ok? <==> ToUpper(code) in rooms
    ensures r.Ok? ==> r.value == rooms[ToUpper(code)]
    ensures r.Err? ==> r.error == NotFound(RoomNotFound)
  {
    if ToUpper(code) in rooms then Ok(rooms[ToUpper(code)]) else Err(NotFound(RoomNotFound))
  }

  /** The room is found whatever letter case the code is written in. */
  lemma GetRoomIgnoresCase(rooms: map<string, Room>, code: string)
    ensures GetRoom(rooms, ToLower(code)) == GetRoom(rooms, ToUpper(code))
    ensures GetRoom(rooms, ToUpper(code)) == GetRoom(rooms, code)
  {
    ToUpperIdempotent(code);
    assert ToUpper(ToLower(code)) == ToUpper(code);
  }

  /** A room just created is found by its code in any letter case. */
  lemma CreatedRoomIsFound(rooms: map<string, Room>, users: map<string, string>, caller: string, title: string,
                           roomId: string, frac: string, now: int)
    requires forall i :: 0 <= i < |frac| ==> IsBase36Digit(frac[i])
    requires CreateRoom(rooms, users, caller, title, roomId, frac, now).response.Ok?
    ensures var r := CreateRoom(rooms, users, caller, title, roomId, frac, now);
            GetRoom(r.rooms, ToLower(r.response.value.roomCode)) == Ok(r.response.value)
  {
    var r := CreateRoom(rooms, users, caller, title, roomId, frac, now);
    var code := r.response.value.roomCode;
    GetRoomIgnoresCase(r.rooms, code);
    ToUpperFixesUpperCased(code);
  }

  /** `POST /api/rooms/:roomCode/join`: 404 for an unknown code; otherwise
      the caller is added to the room's candidates unless already there,
      and the (possibly updated) room is returned. */
  function JoinRoom(rooms: map<string, Room>, code: string, caller: string): (r: RoomsResult<Room>)
    ensures ToUpper(code) !in rooms ==> r == RoomsResult(rooms, Err(NotFound(InvalidRoomCode)))
    ensures ToUpper(code) in rooms ==>
              var key := ToUpper(code);
              var room := rooms[key];
              && r.response.Ok?
              && r.rooms == rooms[key := r.response.value]
              && r.response.value == room.(candidateIds := r.response.value.candidateIds)
              && caller in r.response.value.candidateIds
              && (caller in room.candidateIds ==> r.rooms == rooms)
              && (caller !in room.candidateIds ==> r.response.value.candidateIds == room.candidateIds + [caller])
  {
    var key := ToUpper(code);
    if key !in rooms then RoomsResult(rooms, Err(NotFound(InvalidRoomCode)))
    else
      var room := rooms[key];
      var joined := room.(candidateIds := AddOnce(room.candidateIds, caller));
      RoomsResult(rooms[key := joined], Ok(joined))
  }

  /** Joining twice is joining once, a duplicate-free candidate list stays
      duplicate-free, and joining keeps the collection valid. */
  lemma JoinRoomIdempotent(rooms: map<string, Room>, code: string, caller: string)
    requires RoomsValid(rooms)
    ensures var once := JoinRoom(rooms, code, caller);
            && JoinRoom(once.rooms, code, caller) == once
            && RoomsValid(once.rooms)
    ensures ToUpper(code) in rooms && NoDuplicates(rooms[ToUpper(code)].candidateIds) ==>
              NoDuplicates(JoinRoom(rooms, code, caller).rooms[ToUpper(code)].candidateIds)
  {
    var key := ToUpper(code);
    if key in rooms {
      if NoDuplicates(rooms[key].candidateIds) {
        AddOncePreservesNoDuplicates(rooms[key].candidateIds, caller);
      }
      var once := JoinRoom(rooms, code, caller);
      assert once.rooms[key := once.response.value] == once.rooms;
      forall a, b | a in once.rooms && b in once.rooms && a != b
        ensures once.rooms[a].roomId != once.rooms[b].roomId
      {
        assert once.rooms[a].roomId == rooms[a].roomId && once.rooms[b].roomId == rooms[b].roomId;
      }
    }
  }
}
