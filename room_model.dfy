/**
 * The `rooms` table (models/RoomModel.js): one row per room code, with an
 * active flag, a participant counter and a last-activity timestamp. The
 * instance methods change one row; the sweep deactivates every stale row at
 * once. Times are milliseconds passed in by the caller.
 */
module RoomModel {
  import opened Wrappers
  import opened Db
  import RoomCodes
  import Seqs

  type RoomId = nat

  datatype Room = Room(
    id: RoomId,
    roomCode: string,
    createdBy: string,
    active: bool,
    participantCount: int,
    lastActivity: int,
    createdAt: int)

  const HourMs := 60 * 60 * 1000
  const MaxCreatedByLength := 100

  predicate UniqueCodes(rows: seq<Room>) {
    forall i, j :: 0 <= i < j < |rows| ==> rows[i].roomCode != rows[j].roomCode
  }

  predicate UniqueIds(rows: seq<Room>) {
    forall i, j :: 0 <= i < j < |rows| ==> rows[i].id != rows[j].id
  }

  /** The row invariants the table's constraints and methods keep. */
  predicate WellFormed(rows: seq<Room>, nextId: nat) {
    && UniqueCodes(rows)
    && UniqueIds(rows)
    && forall i :: 0 <= i < |rows| ==>
         rows[i].id < nextId && RoomCodes.IsValidRoomCode(rows[i].roomCode) && rows[i].participantCount >= 0
  }

  /** `findByRoomCode`: the first row holding `code`, if any. */
  function FindByRoomCode(rows: seq<Room>, code: string): (r: Option<nat>)
    ensures r.Some? ==> r.value < |rows| && rows[r.value].roomCode == code
    ensures r.Some? ==> forall j :: 0 <= j < r.value ==> rows[j].roomCode != code
    ensures r.None? <==> forall j :: 0 <= j < |rows| ==> rows[j].roomCode != code
  {
    if rows == [] then None
    else if rows[0].roomCode == code then Some(0)
    else match FindByRoomCode(rows[1..], code)
      case None => None
      case Some(k) => Some(k + 1)
  }

  /** The row with primary key `id`, if any. */
  function FindById(rows: seq<Room>, id: RoomId): (r: Option<nat>)
    ensures r.Some? ==> r.value < |rows| && rows[r.value].id == id
    ensures r.Some? ==> forall j :: 0 <= j < r.value ==> rows[j].id != id
    ensures r.None? <==> forall j :: 0 <= j < |rows| ==> rows[j].id != id
  {
    if rows == [] then None
    else if rows[0].id == id then Some(0)
    else match FindById(rows[1..], id)
      case None => None
      case Some(k) => Some(k + 1)
  }

  /** Codes are unique, so the lookup returns the one row that holds the code. */
  lemma FindsTheRoomWithCode(rows: seq<Room>, code: string, i: nat)
    requires UniqueCodes(rows) && i < |rows| && rows[i].roomCode == code
    ensures FindByRoomCode(rows, code) == Some(i)
  {
  }

  predicate IsActive(r: Room) { r.active }

  /** `findActiveRooms`: the active rows, in table order. */
  function FindActiveRooms(rows: seq<Room>): (r: seq<Room>)
    ensures forall x :: x in r <==> x in rows && x.active
    ensures |r| == Seqs.Count(rows, IsActive)
  {
    Seqs.CountIsFilterLength(rows, IsActive);
    Seqs.Filter(rows, IsActive)
  }

  /** The row after `decrementParticipants`. */
  function Decremented(r: Room): (d: Room)
    ensures d.participantCount >= 0
    ensures r.participantCount >= 1 ==> d.participantCount == r.participantCount - 1
    ensures r.participantCount <= 1 ==> d.participantCount == 0
    ensures d.active <==> r.active && d.participantCount != 0
    ensures d == r.(participantCount := d.participantCount, active := d.active)
  {
    var count := if r.participantCount - 1 > 0 then r.participantCount - 1 else 0;
    r.(participantCount := count, active := if count == 0 then false else r.active)
  }

  /** The row after `incrementParticipants`. */
  function Incremented(r: Room): (r': Room)
    ensures r'.participantCount == r.participantCount + 1
    ensures r'.id == r.id && r'.roomCode == r.roomCode && r'.active == r.active && r'.lastActivity == r.lastActivity
  {
    r.(participantCount := r.participantCount + 1)
  }

  /** A join followed by a leave restores the row when someone else is still in the room. */
  lemma JoinThenLeaveRestores(r: Room)
    requires r.participantCount >= 1
    ensures Decremented(Incremented(r)) == r
  {
  }

  /** Neither counter update ever turns an inactive room active again. */
  lemma CounterUpdatesNeverReactivate(r: Room)
    requires !r.active
    ensures !Incremented(r).active && !Decremented(r).active
  {
  }

  /** The last-activity time before which an active room counts as abandoned. */
  function Cutoff(now: int, hoursInactive: int): (c: int)
    ensures hoursInactive >= 0 ==> c <= now
    ensures now - c == hoursInactive * HourMs
  {
    now - hoursInactive * HourMs
  }

  predicate IsStale(r: Room, cutoff: int) {
    r.active && r.lastActivity < cutoff
  }

  /** The table after `cleanupInactiveRooms`' bulk update. */
  function Swept(rows: seq<Room>, cutoff: int): (s: seq<Room>)
    ensures |s| == |rows|
  {
    seq(|rows|, i requires 0 <= i < |rows| =>
      if IsStale(rows[i], cutoff) then rows[i].(active := false) else rows[i])
  }

  /** The number of rows the bulk update touches. */
  function CountStale(rows: seq<Room>, cutoff: int): nat {
    Seqs.Count(rows, StaleAt(cutoff))
  }

  function StaleAt(cutoff: int): Room -> bool {
    (r: Room) => IsStale(r, cutoff)
  }

  /** The sweep deactivates exactly the stale rooms and changes nothing else. */
  lemma SweptChangesExactlyStale(rows: seq<Room>, cutoff: int, i: nat)
    requires i < |rows|
    ensures Swept(rows, cutoff)[i] != rows[i] <==> IsStale(rows[i], cutoff)
    ensures Swept(rows, cutoff)[i] == rows[i].(active := rows[i].active && !IsStale(rows[i], cutoff))
  {
  }

  /** After the sweep no stale room remains, so a second sweep changes nothing. */
  lemma SweepIdempotent(rows: seq<Room>, cutoff: int)
    ensures CountStale(Swept(rows, cutoff), cutoff) == 0
    ensures Swept(Swept(rows, cutoff), cutoff) == Swept(rows, cutoff)
  {
    Seqs.CountZero(Swept(rows, cutoff), StaleAt(cutoff));
  }

  /** The count the sweep returns is the number of rooms it took out of the active list. */
  lemma {:induction false} SweepCount(rows: seq<Room>, cutoff: int)
    ensures Seqs.Count(rows, IsActive) == Seqs.Count(Swept(rows, cutoff), IsActive) + CountStale(rows, cutoff)
  {
    if rows != [] {
      assert Swept(rows, cutoff)[1..] == Swept(rows[1..], cutoff);
      SweepCount(rows[1..], cutoff);
    }
  }

  lemma SweptWellFormed(rows: seq<Room>, nextId: nat, cutoff: int)
    requires WellFormed(rows, nextId)
    ensures WellFormed(Swept(rows, cutoff), nextId)
  {
  }

  class RoomTable {
    var rows: seq<Room>
    var nextId: nat

    ghost predicate Valid()
      reads this
    {
      WellFormed(rows, nextId)
    }

    constructor ()
      ensures Valid() && rows == []
    {
      rows := [];
      nextId := 0;
    }

    /** `RoomModel.create`: the `is` pattern rule, the VARCHAR(100) creator column
        and the unique code are checked before the row is added. A code that
        passes the pattern has at most 15 characters, so its VARCHAR(20)
        column never refuses or cuts it. */
    method Create(roomCode: string, createdBy: string, now: int) returns (r: Result<nat, DbError>)
      requires Valid()
      modifies this
      ensures Valid()
      ensures r.Err? <==> (!RoomCodes.IsValidRoomCode(roomCode) || Varchar(createdBy, MaxCreatedByLength).None?
                           || FindByRoomCode(old(rows), roomCode).Some?)
      ensures r.Err? ==> rows == old(rows)
      ensures r.Ok? ==> r.value == |old(rows)|
                        && rows == old(rows) + [Room(old(nextId), roomCode, Varchar(createdBy, MaxCreatedByLength).value,
                                                     true, 0, now, now)]
    {
      if !RoomCodes.IsValidRoomCode(roomCode) {
        return Err(ValidationError);
      }
      var kept := Varchar(createdBy, MaxCreatedByLength);
      if kept.None? {
        return Err(ValueTooLong);
      }
      if FindByRoomCode(rows, roomCode).Some? {
        return Err(UniqueViolation);
      }
      rows := rows + [Room(nextId, roomCode, kept.value, true, 0, now, now)];
      nextId := nextId + 1;
      r := Ok(|rows| - 1);
    }

    /** `updateActivity`: only the last-activity time changes. */
    method UpdateActivity(i: nat, now: int)
      requires Valid() && i < |rows|
      modifies this
      ensures Valid() && nextId == old(nextId)
      ensures rows == old(rows)[i := old(rows)[i].(lastActivity := now)]
    {
      rows := rows[i := rows[i].(lastActivity := now)];
    }

    /** `incrementParticipants`: the counter rises by one; the active flag is left alone. */
    method IncrementParticipants(i: nat)
      requires Valid() && i < |rows|
      modifies this
      ensures Valid() && nextId == old(nextId)
      ensures rows == old(rows)[i := Incremented(old(rows)[i])]
    {
      rows := rows[i := rows[i].(participantCount := rows[i].participantCount + 1)];
    }

    /** `decrementParticipants`: the counter falls by one, floored at zero, and
        the room goes inactive when it reaches zero. */
    method DecrementParticipants(i: nat)
      requires Valid() && i < |rows|
      modifies this
      ensures Valid() && nextId == old(nextId)
      ensures rows == old(rows)[i := Decremented(old(rows)[i])]
    {
      var count := if rows[i].participantCount - 1 > 0 then rows[i].participantCount - 1 else 0;
      var active := rows[i].active;
      if count == 0 {
        active := false;
      }
      rows := rows[i := rows[i].(participantCount := count, active := active)];
    }

    /** `cleanupInactiveRooms(hoursInactive)`: one bulk update of every active
        row last used before the cutoff; returns the number of rows updated. */
    method CleanupInactiveRooms(now: int, hoursInactive: int) returns (updated: nat)
      requires Valid()
      modifies this
      ensures Valid() && nextId == old(nextId)
      ensures rows == Swept(old(rows), Cutoff(now, hoursInactive))
      ensures updated == CountStale(old(rows), Cutoff(now, hoursInactive))
    {
      var cutoff := Cutoff(now, hoursInactive);
      updated := CountStale(rows, cutoff);
      SweptWellFormed(rows, nextId, cutoff);
      rows := Swept(rows, cutoff);
    }
  }
}
