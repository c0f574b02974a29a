/**
 * The `participants` table (models/ParticipantModel.js): one row per socket
 * that ever joined a room. Leaving does not delete the row; it clears the
 * active flag and stamps the leaving time, and every lookup sees active rows
 * only.
 */
module ParticipantModel {
  import opened Wrappers
  import opened Db
  import Seqs
  import RoomModel

  datatype Participant = Participant(
    id: nat,
    socketId: string,
    userName: string,
    language: string,          // the language the participant wants to receive
    speakingLanguage: string,  // the language the participant speaks
    roomId: RoomModel.RoomId,
    active: bool,
    joinedAt: int,
    leftAt: Option<int>)

  const MaxSocketIdLength := 100
  const MaxUserNameLength := 100
  const MaxLanguageLength := 10

  predicate UniqueSocketIds(rows: seq<Participant>) {
    forall i, j :: 0 <= i < j < |rows| ==> rows[i].socketId != rows[j].socketId
  }

  /** The column limits of the table: VARCHAR(100) socket id and user name, VARCHAR(10) languages. */
  predicate FitsColumns(socketId: string, userName: string, language: string, speakingLanguage: string) {
    |socketId| <= MaxSocketIdLength && |userName| <= MaxUserNameLength
    && |language| <= MaxLanguageLength && |speakingLanguage| <= MaxLanguageLength
  }

  /** Whether each value fits its VARCHAR column, once trailing spaces over the limit are cut. */
  predicate Storable(socketId: string, userName: string, language: string, speakingLanguage: string) {
    && Varchar(socketId, MaxSocketIdLength).Some? && Varchar(userName, MaxUserNameLength).Some?
    && Varchar(language, MaxLanguageLength).Some? && Varchar(speakingLanguage, MaxLanguageLength).Some?
  }

  /** The socket id a row made for `socketId` holds. */
  function StoredSocketId(socketId: string): (s: string)
    requires Varchar(socketId, MaxSocketIdLength).Some?
    ensures s <= socketId && |s| <= MaxSocketIdLength
    ensures |socketId| <= MaxSocketIdLength ==> s == socketId
  {
    Varchar(socketId, MaxSocketIdLength).value
  }

  /** The row `create` inserts: active, joined at `now`, each value as its column keeps it. */
  function NewRow(id: nat, socketId: string, userName: string, language: string, speakingLanguage: string,
                  roomId: RoomModel.RoomId, now: int): (p: Participant)
    requires Storable(socketId, userName, language, speakingLanguage)
    ensures FitsColumns(p.socketId, p.userName, p.language, p.speakingLanguage)
    ensures p.id == id && p.roomId == roomId && p.active && p.joinedAt == now && p.leftAt.None?
    ensures p.socketId == StoredSocketId(socketId)
    ensures p.userName <= userName && p.language <= language && p.speakingLanguage <= speakingLanguage
    ensures FitsColumns(socketId, userName, language, speakingLanguage) ==>
              p.userName == userName && p.language == language && p.speakingLanguage == speakingLanguage
  {
    Participant(id, StoredSocketId(socketId), Varchar(userName, MaxUserNameLength).value,
                Varchar(language, MaxLanguageLength).value, Varchar(speakingLanguage, MaxLanguageLength).value,
                roomId, true, now, None)
  }

  predicate WellFormed(rows: seq<Participant>, nextId: nat) {
    && UniqueSocketIds(rows)
    && (forall i, j :: 0 <= i < j < |rows| ==> rows[i].id != rows[j].id)
    && forall i :: 0 <= i < |rows| ==>
         rows[i].id < nextId
         && FitsColumns(rows[i].socketId, rows[i].userName, rows[i].language, rows[i].speakingLanguage)
  }

  /** `findBySocketId`: the active row of a socket, if any. */
  function FindBySocketId(rows: seq<Participant>, socketId: string): (r: Option<nat>)
    ensures r.Some? ==> r.value < |rows| && rows[r.value].socketId == socketId && rows[r.value].active
    ensures r.None? <==> forall j :: 0 <= j < |rows| ==> !(rows[j].socketId == socketId && rows[j].active)
  {
    if rows == [] then None
    else if rows[0].socketId == socketId && rows[0].active then Some(0)
    else match FindBySocketId(rows[1..], socketId)
      case None => None
      case Some(k) => Some(k + 1)
  }

  /** The unique index on `socketId`: whether any row, active or not, holds the id. */
  function SocketIdTaken(rows: seq<Participant>, socketId: string): (b: bool)
    ensures b <==> exists j :: 0 <= j < |rows| && rows[j].socketId == socketId
  {
    if rows == [] then false
    else rows[0].socketId == socketId || SocketIdTaken(rows[1..], socketId)
  }

  /** Whether a row is an active member of room `roomId`. */
  function InRoom(roomId: RoomModel.RoomId): Participant -> bool {
    (p: Participant) => p.active && p.roomId == roomId
  }

  /** `findByRoomId`: the active members of a room, in table order. */
  function FindByRoomId(rows: seq<Participant>, roomId: RoomModel.RoomId): (r: seq<Participant>)
    ensures forall p :: p in r <==> p in rows && p.active && p.roomId == roomId
    ensures forall i :: 0 <= i < |r| ==> r[i].active && r[i].roomId == roomId
  {
    Seqs.Filter(rows, InRoom(roomId))
  }

  /** `countByRoomId`. */
  function CountByRoomId(rows: seq<Participant>, roomId: RoomModel.RoomId): (n: nat)
    ensures n == |FindByRoomId(rows, roomId)|
  {
    Seqs.CountIsFilterLength(rows, InRoom(roomId));
    Seqs.Count(rows, InRoom(roomId))
  }

  /** The row after `leave`. */
  function Left(p: Participant, now: int): (q: Participant)
    ensures !q.active && q.leftAt == Some(now)
    ensures q.socketId == p.socketId && q.roomId == p.roomId && q.joinedAt == p.joinedAt
  {
    p.(active := false, leftAt := Some(now))
  }

  /** Socket ids are unique over the whole table, so a socket that has left is
      found no more, and its room has one active member fewer. */
  lemma LeaveHidesParticipant(rows: seq<Participant>, i: nat, now: int)
    requires UniqueSocketIds(rows) && i < |rows|
    ensures FindBySocketId(rows[i := Left(rows[i], now)], rows[i].socketId).None?
    ensures Left(rows[i], now) !in FindByRoomId(rows[i := Left(rows[i], now)], rows[i].roomId)
    ensures CountByRoomId(rows[i := Left(rows[i], now)], rows[i].roomId)
              == CountByRoomId(rows, rows[i].roomId) - (if rows[i].active then 1 else 0)
  {
    Seqs.CountUpdate(rows, i, Left(rows[i], now), InRoom(rows[i].roomId));
  }

  /** Leaving one row leaves the other rooms' member counts alone. */
  lemma LeaveKeepsOtherRooms(rows: seq<Participant>, i: nat, now: int, roomId: RoomModel.RoomId)
    requires i < |rows| && roomId != rows[i].roomId
    ensures CountByRoomId(rows[i := Left(rows[i], now)], roomId) == CountByRoomId(rows, roomId)
  {
    Seqs.CountUpdate(rows, i, Left(rows[i], now), InRoom(roomId));
  }

  /** Inserting a row adds one member to its own room and none to any other. */
  lemma InsertCounts(rows: seq<Participant>, p: Participant, roomId: RoomModel.RoomId)
    ensures CountByRoomId(rows + [p], roomId)
              == CountByRoomId(rows, roomId) + (if p.active && p.roomId == roomId then 1 else 0)
  {
    Seqs.CountAppend(rows, [p], InRoom(roomId));
  }

  class ParticipantTable {
    var rows: seq<Participant>
    var nextId: nat

    ghost predicate Valid()
      reads this
    {
      WellFormed(rows, nextId)
    }

    constructor ()
      ensures Valid() && rows == []
    {
      rows := [];
      nextId := 0;
    }

    /** `ParticipantModel.create`: refused when a value does not fit its column,
        or when the socket id the row would hold is already in the table,
        active or not. */
    method Create(socketId: string, userName: string, language: string, speakingLanguage: string,
                  roomId: RoomModel.RoomId, now: int) returns (r: Result<nat, DbError>)
      requires Valid()
      modifies this
      ensures Valid()
      ensures r.Err? <==> (!Storable(socketId, userName, language, speakingLanguage)
                           || SocketIdTaken(old(rows), StoredSocketId(socketId)))
      ensures r.Err? ==> rows == old(rows)
                         && r.error == (if Storable(socketId, userName, language, speakingLanguage)
                                        then UniqueViolation else ValueTooLong)
      ensures r.Ok? ==> (r.value == |old(rows)| && rows == old(rows) +
                         [NewRow(old(nextId), socketId, userName, language, speakingLanguage, roomId, now)])
    {
      if !Storable(socketId, userName, language, speakingLanguage) {
        return Err(ValueTooLong);
      }
      var p := NewRow(nextId, socketId, userName, language, speakingLanguage, roomId, now);
      if SocketIdTaken(rows, p.socketId) {
        return Err(UniqueViolation);
      }
      rows := rows + [p];
      nextId := nextId + 1;
      r := Ok(|rows| - 1);
    }

    /** `leave`: the row goes inactive with the leaving time; nothing else changes. */
    method Leave(i: nat, now: int)
      requires Valid() && i < |rows|
      modifies this
      ensures Valid() && nextId == old(nextId)
      ensures rows == old(rows)[i := Left(old(rows)[i], now)]
    {
      rows := rows[i := rows[i].(active := false, leftAt := Some(now))];
    }
  }
}
