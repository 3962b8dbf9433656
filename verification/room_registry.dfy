/** The browser-storage room directory (src/utils/roomRegistry.ts). The
    storage slot is a parameter: absent, holding a room list, or holding
    text that does not parse. Registration dedupes by exact code while lookup
    ignores case. */
module RoomRegistry {
  import opened Wrappers
  import opened Text

  datatype RoomData = RoomData(
    roomCode: string,
    interviewerId: string,
    interviewerName: string,
    title: string,
    createdAt: int)

  /** What `localStorage.getItem` finds under the registry's key. */
  datatype Stored = Missing | Unreadable | Rooms(rooms: seq<RoomData>)

  /** `getAllRooms`: the stored list, or the empty list when the slot is
      missing or does not parse. */
  function GetAllRooms(st: Stored): (r: seq<RoomData>)
    ensures st.Rooms? ==> r == st.rooms
    ensures !st.Rooms? ==> r == []
  {
    match st
    case Rooms(rooms) => rooms
    case _ => []
  }

  /** `rooms.find(r => r.roomCode === code)`, exact comparison. */
  function FindExact(rooms: seq<RoomData>, code: string): (r: Option<RoomData>)
    ensures r.Some? <==> exists j :: 0 <= j < |rooms| && rooms[j].roomCode == code
  {
    if |rooms| == 0 then None
    else if rooms[0].roomCode == code then Some(rooms[0])
    else
      var r := FindExact(rooms[1..], code);
      assert forall j :: 1 <= j < |rooms| ==> rooms[j] == rooms[1..][j - 1];
      r
  }

  /** `registerRoom`: appends and writes back only when no stored room has
      exactly the same code; otherwise nothing is written. */
  function RegisterRoom(st: Stored, room: RoomData): (r: Stored)
    ensures FindExact(GetAllRooms(st), room.roomCode).Some? ==> r == st
    ensures FindExact(GetAllRooms(st), room.roomCode).None? ==> r == Rooms(GetAllRooms(st) + [room])
  {
    if FindExact(GetAllRooms(st), room.roomCode).Some? then st
    else Rooms(GetAllRooms(st) + [room])
  }

  /** Upper-cased code comparison used by lookup. */
  predicate SameCodeIgnoringCase(a: string, b: string) {
    ToUpper(a) == ToUpper(b)
  }

  /** First room whose code matches ignoring case. */
  function FindIgnoringCase(rooms: seq<RoomData>, code: string): (r: Option<RoomData>)
    ensures r.Some? ==> exists j :: 0 <= j < |rooms| && rooms[j] == r.value
                                    && SameCodeIgnoringCase(rooms[j].roomCode, code)
                                    && forall i :: 0 <= i < j ==> !SameCodeIgnoringCase(rooms[i].roomCode, code)
    ensures r.None? ==> forall j :: 0 <= j < |rooms| ==> !SameCodeIgnoringCase(rooms[j].roomCode, code)
  {
    if |rooms| == 0 then None
    else if SameCodeIgnoringCase(rooms[0].roomCode, code) then Some(rooms[0])
    else
      var r := FindIgnoringCase(rooms[1..], code);
      assert forall j :: 1 <= j < |rooms| ==> rooms[j] == rooms[1..][j - 1];
      if r.Some? then
        var j :| 0 <= j < |rooms[1..]| && rooms[1..][j] == r.value
                 && SameCodeIgnoringCase(rooms[1..][j].roomCode, code)
                 && forall i :: 0 <= i < j ==> !SameCodeIgnoringCase(rooms[1..][i].roomCode, code);
        assert rooms[j + 1] == r.value;
        r
      else r
  }

  /** `findRoom`: the first stored room whose code equals `code` ignoring case, or null. */
  function FindRoom(st: Stored, code: string): Option<RoomData> {
    FindIgnoringCase(GetAllRooms(st), code)
  }

  /** `roomExists`. */
  function RoomExists(st: Stored, code: string): bool {
    FindRoom(st, code) != None
  }

  /** A room exists exactly when some stored room's code equals `code` ignoring case. */
  lemma RoomExistsIffStored(st: Stored, code: string)
    ensures RoomExists(st, code) <==>
              exists j :: 0 <= j < |GetAllRooms(st)| && SameCodeIgnoringCase(GetAllRooms(st)[j].roomCode, code)
  {
  }

  /** Registering the same room twice is registering it once. */
  lemma {:induction false} RegisterRoomIdempotent(st: Stored, room: RoomData)
    ensures RegisterRoom(RegisterRoom(st, room), room) == RegisterRoom(st, room)
  {
    var rooms := GetAllRooms(st);
    if FindExact(rooms, room.roomCode).None? {
      var r := rooms + [room];
      assert r[|rooms|].roomCode == room.roomCode;
    }
  }

  /** A registered room can be found afterwards under its own code. */
  lemma {:induction false} RegisteredRoomIsFound(st: Stored, room: RoomData)
    ensures RoomExists(RegisterRoom(st, room), room.roomCode)
  {
    var rooms := GetAllRooms(st);
    var after := GetAllRooms(RegisterRoom(st, room));
    if FindExact(rooms, room.roomCode).Some? {
      var j :| 0 <= j < |rooms| && rooms[j].roomCode == room.roomCode;
      assert SameCodeIgnoringCase(after[j].roomCode, room.roomCode);
    } else {
      assert SameCodeIgnoringCase(after[|rooms|].roomCode, room.roomCode);
    }
    RoomExistsIffStored(RegisterRoom(st, room), room.roomCode);
  }

  /** Dedupe is case-sensitive but lookup is not: a code differing from a
      stored one only in case is stored as a second room, and lookup by it
      still returns the earlier room. */
  lemma CaseVariantIsStoredButShadowed(earlier: RoomData, room: RoomData)
    requires earlier.roomCode != room.roomCode && SameCodeIgnoringCase(earlier.roomCode, room.roomCode)
    ensures RegisterRoom(Rooms([earlier]), room) == Rooms([earlier, room])
    ensures FindRoom(RegisterRoom(Rooms([earlier]), room), room.roomCode) == Some(earlier)
  {
  }
}
