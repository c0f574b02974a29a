/**
 * The in-memory meeting room (models/Room.js): a room code, its creator and
 * a JavaScript `Map` from user id to participant details. A `Map` iterates
 * in insertion order and keeps a key's position when its value is replaced,
 * so the model keeps the keys in `order` beside the map.
 */
module InMemoryRoom {
  import opened Wrappers

  datatype UserData = UserData(userName: string, language: string, speakingLanguage: string)

  datatype ParticipantInfo = ParticipantInfo(
    userId: string,
    userName: string,
    language: string,
    speakingLanguage: string,
    joinedAt: int)

  datatype RoomJson = RoomJson(
    roomCode: string,
    createdAt: int,
    createdBy: string,
    participantCount: nat,
    participants: seq<ParticipantInfo>,
    active: bool)

  predicate Distinct(s: seq<string>) {
    forall i, j :: 0 <= i < j < |s| ==> s[i] != s[j]
  }

  /** `s` without the element `k`. */
  function Without(s: seq<string>, k: string): (r: seq<string>)
    ensures forall x :: x in r <==> x in s && x != k
    ensures Distinct(s) ==> Distinct(r)
  {
    if s == [] then []
    else if s[0] == k then Without(s[1..], k)
    else
      var rest := Without(s[1..], k);
      assert Distinct(s) ==> s[0] !in s[1..];
      [s[0]] + rest
  }

  /** A sequence without repeats has as many elements as its set of elements. */
  lemma {:induction false} DistinctCardinality(s: seq<string>)
    requires Distinct(s)
    ensures |set x | x in s| == |s|
  {
    if s != [] {
      DistinctCardinality(s[1..]);
      assert (set x | x in s) == {s[0]} + (set x | x in s[1..]);
      assert s[0] !in s[1..];
    }
  }

  class Room {
    var roomCode: string
    var createdAt: int
    var createdBy: string
    var order: seq<string>
    var participants: map<string, ParticipantInfo>
    var active: bool

    ghost predicate Valid()
      reads this
    {
      && Distinct(order)
      && (forall k :: k in participants <==> k in order)
      && forall k :: k in participants ==> participants[k].userId == k
    }

    /** `new Room(roomCode, createdBy = 'anonymous')`. */
    constructor (roomCode: string, createdBy: Option<string>, now: int)
      ensures Valid()
      ensures this.roomCode == roomCode && this.createdBy == createdBy.GetOr("anonymous")
      ensures createdAt == now && active
      ensures participants == map[] && order == []
    {
      this.roomCode := roomCode;
      this.createdAt := now;
      this.createdBy := createdBy.GetOr("anonymous");
      this.participants := map[];
      this.order := [];
      this.active := true;
    }

    /** `addParticipant`: sets the entry of `userId`; a new id goes last, a known
        id keeps its place and gets the new details. */
    method AddParticipant(userId: string, data: UserData, now: int)
      requires Valid()
      modifies this
      ensures Valid()
      ensures participants == old(participants)[userId :=
                ParticipantInfo(userId, data.userName, data.language, data.speakingLanguage, now)]
      ensures order == if userId in old(participants) then old(order) else old(order) + [userId]
      ensures roomCode == old(roomCode) && createdAt == old(createdAt) && createdBy == old(createdBy)
      ensures active == old(active)
    {
      if userId !in participants {
        order := order + [userId];
      }
      participants := participants[userId :=
        ParticipantInfo(userId, data.userName, data.language, data.speakingLanguage, now)];
    }

    /** `removeParticipant`: deletes that key only; an absent key changes nothing. */
    method RemoveParticipant(userId: string)
      requires Valid()
      modifies this
      ensures Valid()
      ensures participants == old(participants) - {userId}
      ensures order == Without(old(order), userId)
      ensures userId !in old(participants) ==> order == old(order)
      ensures roomCode == old(roomCode) && createdAt == old(createdAt) && createdBy == old(createdBy)
      ensures active == old(active)
    {
      if userId !in order {
        WithoutAbsent(order, userId);
      }
      participants := participants - {userId};
      order := Without(order, userId);
    }

    /** `getParticipant`: the entry of `userId`, or nothing. */
    function GetParticipant(userId: string): (r: Option<ParticipantInfo>)
      reads this
      requires Valid()
      ensures r.Some? <==> userId in order
      ensures r.Some? ==> r.value == participants[userId] && r.value.userId == userId
    {
      if userId in participants then Some(participants[userId]) else None
    }

    /** `getAllParticipants`: the entries in insertion order. */
    function GetAllParticipants(): (r: seq<ParticipantInfo>)
      reads this
      requires Valid()
      ensures |r| == |order|
      ensures forall i :: 0 <= i < |r| ==> r[i] == participants[order[i]] && r[i].userId == order[i]
    {
      LookupAll(participants, order)
    }

    /** `getParticipantCount`: the map's size, which is the number of distinct ids. */
    function GetParticipantCount(): (n: nat)
      reads this
      requires Valid()
      ensures n == |order|
    {
      assert participants.Keys == set x | x in order;
      DistinctCardinality(order);
      |participants|
    }

    function IsEmpty(): (b: bool)
      reads this
      requires Valid()
      ensures b <==> order == []
    {
      GetParticipantCount() == 0
    }

    /** `toJSON`: the participant count agrees with the list it reports. */
    function ToJson(): (j: RoomJson)
      reads this
      requires Valid()
      ensures j.participantCount == |j.participants| == |order|
      ensures j.participants == GetAllParticipants()
      ensures j.roomCode == roomCode && j.createdBy == createdBy && j.active == active
      ensures j.createdAt == createdAt
    {
      RoomJson(roomCode, createdAt, createdBy, GetParticipantCount(), GetAllParticipants(), active)
    }
  }

  /** The values of `m` at the keys `ks`, in that order. */
  function LookupAll(m: map<string, ParticipantInfo>, ks: seq<string>): (r: seq<ParticipantInfo>)
    requires forall k :: k in ks ==> k in m
    ensures |r| == |ks|
    ensures forall i :: 0 <= i < |r| ==> r[i] == m[ks[i]]
  {
    if ks == [] then [] else [m[ks[0]]] + LookupAll(m, ks[1..])
  }

  lemma {:induction false} WithoutAbsent(s: seq<string>, k: string)
    requires k !in s
    ensures Without(s, k) == s
  {
    if s != [] {
      WithoutAbsent(s[1..], k);
    }
  }

  /** Adding a new id and then removing it gives back the key order it had. */
  lemma {:induction false} AddThenRemoveRestoresOrder(order: seq<string>, k: string)
    requires k !in order
    ensures Without(order + [k], k) == order
  {
    if order == [] {
    } else {
      assert (order + [k])[1..] == order[1..] + [k];
      AddThenRemoveRestoresOrder(order[1..], k);
    }
  }
}
