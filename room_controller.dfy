/**
 * The HTTP room endpoints (controllers/roomController.js): creating a room
 * with a generated code, and read-only views of the room and participant
 * tables.
 */
module RoomController {
  import opened Wrappers
  import opened Db
  import RoomCodes
  import RoomModel
  import ParticipantModel

  datatype CreateReply =
    | Created(roomCode: string, roomUrl: string)
    | CreateFailed(error: DbError)
  {
    function Status(): int { if Created? then 201 else 500 }
  }

  /** `createdBy || 'anonymous'`. */
  function Creator(createdBy: Option<string>): (c: string)
    ensures createdBy.Some? && createdBy.value != "" ==> c == createdBy.value
    ensures !(createdBy.Some? && createdBy.value != "") ==> c == "anonymous"
  {
    if createdBy.Some? && createdBy.value != "" then createdBy.value else "anonymous"
  }

  /** The inactivity threshold of the periodic sweep. */
  const CleanupHours := 24

  /**
   * `createRoom`: a new active room with no participants under a generated
   * code, answered with its URL; the insert can still fail on a code that is
   * already taken or a creator name too long for its column (one whose
   * excess is all spaces is cut instead).
   */
  method CreateRoom(rooms: RoomModel.RoomTable, picks: seq<int>, createdBy: Option<string>, now: int)
    returns (reply: CreateReply)
    requires rooms.Valid()
    requires |picks| == 10 && forall i :: 0 <= i < |picks| ==> 0 <= picks[i] < 26
    modifies rooms
    ensures rooms.Valid()
    ensures var code := RoomCodes.Join(RoomCodes.Letters(picks[..3]), RoomCodes.Letters(picks[3..7]),
                                       RoomCodes.Letters(picks[7..]));
            && (reply.Created? <==> Varchar(Creator(createdBy), RoomModel.MaxCreatedByLength).Some?
                                    && RoomModel.FindByRoomCode(old(rooms.rows), code).None?)
            && (reply.Created? ==> reply.roomCode == code)
    ensures reply.Created? ==>
              && RoomCodes.IsValidRoomCode(reply.roomCode) && |reply.roomCode| == 12
              && reply.roomUrl == "/meet/" + reply.roomCode
              && rooms.rows == old(rooms.rows) + [RoomModel.Room(old(rooms.nextId), reply.roomCode,
                                                                 Varchar(Creator(createdBy), RoomModel.MaxCreatedByLength).value,
                                                                 true, 0, now, now)]
    ensures reply.CreateFailed? ==> rooms.rows == old(rooms.rows)
  {
    var code := RoomCodes.GenerateRoomCode(picks);
    var r := rooms.Create(code, Creator(createdBy), now);
    match r
    case Ok(_) => reply := Created(code, "/meet/" + code);
    case Err(e) => reply := CreateFailed(e);
  }

  /** One participant as `getRoom` lists it. */
  datatype ParticipantView = ParticipantView(userName: string, language: string, speakingLanguage: string, joinedAt: int)

  function View(p: ParticipantModel.Participant): ParticipantView {
    ParticipantView(p.userName, p.language, p.speakingLanguage, p.joinedAt)
  }

  function Views(ps: seq<ParticipantModel.Participant>): (vs: seq<ParticipantView>)
    ensures |vs| == |ps|
    ensures forall i :: 0 <= i < |ps| ==> vs[i] == View(ps[i])
  {
    if ps == [] then [] else [View(ps[0])] + Views(ps[1..])
  }

  datatype RoomView = RoomView(roomCode: string, createdAt: int, active: bool,
                               participantCount: nat, participants: seq<ParticipantView>)

  datatype GetRoomReply =
    | InvalidCode    // 400 'Invalid room code format'
    | NotFound       // 404 'Room not found'
    | Found(room: RoomView)

  /**
   * `getRoom`: a malformed code is refused before any lookup; the count
   * reported is the number of active participants, not the stored counter.
   */
  function GetRoom(rooms: seq<RoomModel.Room>, participants: seq<ParticipantModel.Participant>,
                   roomCode: string): (r: GetRoomReply)
    ensures r == InvalidCode <==> !RoomCodes.IsValidRoomCode(roomCode)
    ensures r == NotFound <==> RoomCodes.IsValidRoomCode(roomCode) && RoomModel.FindByRoomCode(rooms, roomCode).None?
    ensures r.Found? ==>
              var room := rooms[RoomModel.FindByRoomCode(rooms, roomCode).value];
              && r.room.roomCode == roomCode == room.roomCode
              && r.room.createdAt == room.createdAt && r.room.active == room.active
              && r.room.participantCount == ParticipantModel.CountByRoomId(participants, room.id)
              && r.room.participants == Views(ParticipantModel.FindByRoomId(participants, room.id))
  {
    if !RoomCodes.IsValidRoomCode(roomCode) then InvalidCode
    else match RoomModel.FindByRoomCode(rooms, roomCode)
      case None => NotFound
      case Some(i) =>
        var members := ParticipantModel.FindByRoomId(participants, rooms[i].id);
        Found(RoomView(rooms[i].roomCode, rooms[i].createdAt, rooms[i].active, |members|, Views(members)))
  }

  datatype ExistsReply =
    | InvalidFormat                                  // exists: false, 'Invalid room code format'
    | Checked(exists_: bool, roomCode: string, active: bool)

  /** `roomExists`: a room exists for the caller only when it is found and still active. */
  function RoomExists(rooms: seq<RoomModel.Room>, roomCode: string): (r: ExistsReply)
    requires RoomModel.UniqueCodes(rooms)
    ensures r.InvalidFormat? <==> !RoomCodes.IsValidRoomCode(roomCode)
    ensures r.Checked? ==> r.roomCode == roomCode && r.exists_ == r.active
    ensures r.Checked? ==>
              (r.exists_ <==> exists i :: 0 <= i < |rooms| && rooms[i].roomCode == roomCode && rooms[i].active)
  {
    if !RoomCodes.IsValidRoomCode(roomCode) then InvalidFormat
    else match RoomModel.FindByRoomCode(rooms, roomCode)
      case None => Checked(false, roomCode, false)
      case Some(i) => Checked(rooms[i].active, roomCode, rooms[i].active)
  }

  /** One room as `getAllRooms` lists it. */
  datatype RoomSummary = RoomSummary(roomCode: string, createdAt: int, participantCount: int, lastActivity: int)

  function Summaries(rs: seq<RoomModel.Room>): (ss: seq<RoomSummary>)
    ensures |ss| == |rs|
    ensures forall i :: 0 <= i < |rs| ==>
              ss[i] == RoomSummary(rs[i].roomCode, rs[i].createdAt, rs[i].participantCount, rs[i].lastActivity)
  {
    if rs == [] then []
    else [RoomSummary(rs[0].roomCode, rs[0].createdAt, rs[0].participantCount, rs[0].lastActivity)]
         + Summaries(rs[1..])
  }

  datatype AllRoomsReply = AllRooms(count: nat, rooms: seq<RoomSummary>)

  /** `getAllRooms`: the active rooms, with a count equal to the list's length. */
  function GetAllRooms(rooms: seq<RoomModel.Room>): (r: AllRoomsReply)
    ensures r.count == |r.rooms| == |RoomModel.FindActiveRooms(rooms)|
    ensures forall s :: s in r.rooms <==>
              exists x :: x in rooms && x.active && s == RoomSummary(x.roomCode, x.createdAt, x.participantCount, x.lastActivity)
  {
    var active := RoomModel.FindActiveRooms(rooms);
    var summaries := Summaries(active);
    assert forall s :: s in summaries ==> exists i :: 0 <= i < |active| && s == summaries[i];
    AllRooms(|active|, summaries)
  }

  /** The periodic sweep with its 24-hour threshold; failures are swallowed. */
  method CleanupInactiveRooms(rooms: RoomModel.RoomTable, now: int)
    requires rooms.Valid()
    modifies rooms
    ensures rooms.Valid()
    ensures rooms.rows == RoomModel.Swept(old(rooms.rows), RoomModel.Cutoff(now, CleanupHours))
  {
    var _ := rooms.CleanupInactiveRooms(now, CleanupHours);
  }
}
