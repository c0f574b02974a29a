/**
 * The socket.io signaling server (server.js): joining a room, relaying
 * WebRTC offers, answers and ICE candidates, fanning a transcript out to
 * the other members of a room in each member's language, and tearing a
 * socket down when it disconnects. Emitted events are appended to an
 * outbox instead of being sent; the clock, the translator and the
 * translation-log failures are parameters.
 */
module Server {
  import opened Wrappers
  import Js
  import Seqs
  import Validation
  import RoomModel
  import ParticipantModel
  import RateLimit
  import RoomCodes

  type Participant = ParticipantModel.Participant

  /** Where an event goes: one socket, or every socket in a socket.io room
      except the sender. */
  datatype Target = ToSocket(socketId: string) | ToRoomExcept(roomCode: string, except: string)

  /** A peer as `existing-users` describes it. */
  datatype Peer = Peer(userId: string, userName: string, language: string, speakingLanguage: string)

  datatype SignalKind = Offer | Answer | IceCandidate

  datatype Event =
    | Error(message: string)
    | RateLimited(message: string, retryAfter: string)
    | UserJoined(peer: Peer)
    | ExistingUsers(users: seq<Peer>)
    | RoomJoined(roomCode: string, participantCount: nat)
    | Signal(kind: SignalKind, payload: string, from: string)
    | TranslatedText(original: string, translated: string, from: string, fromLanguage: string, toLanguage: string)
    | UserLeft(userId: string)

  datatype Emit = Emit(target: Target, event: Event)

  /** A row of the translation log; the measured translation time is not modelled. */
  datatype LogEntry = LogEntry(
    roomId: RoomModel.RoomId, originalText: string, translatedText: string,
    sourceLanguage: string, targetLanguage: string, fromSocketId: string, toSocketId: string)

  /** A translator: text, target language, source language. */
  type Translator = (string, string, string) -> string

  const JoinFailed := "Failed to join room"

  // ---------------------------------------------------------------- join

  function PeerOf(p: Participant): Peer {
    Peer(p.socketId, p.userName, p.language, p.speakingLanguage)
  }

  /** `existing-users`: the room's members other than the joiner, in table order. */
  function Peers(ps: seq<Participant>, me: string): (r: seq<Peer>)
    ensures forall u :: u in r ==> u.userId != me
    ensures forall p :: p in ps && p.socketId != me ==> PeerOf(p) in r
    ensures forall u :: u in r ==> exists p :: p in ps && u == PeerOf(p)
  {
    if ps == [] then []
    else (if ps[0].socketId != me then [PeerOf(ps[0])] else []) + Peers(ps[1..], me)
  }

  // ------------------------------------------------------------- fan-out

  /** What one recipient reads: the text itself when it already speaks the
      sender's language or when the log write for it failed, the
      translation otherwise. */
  function TranslationFor(p: Participant, text: string, language: string, translate: Translator,
                          logFails: set<string>): (r: string)
    ensures r == text || r == translate(text, p.language, language)
    ensures p.language == language ==> r == text
    ensures p.language != language && p.socketId !in logFails ==> r == translate(text, p.language, language)
  {
    if p.language == language || p.socketId in logFails then text
    else translate(text, p.language, language)
  }

  /** The `translated-text` event one member of the room receives. */
  function Deliver(p: Participant, sender: string, text: string, language: string,
                   translate: Translator, logFails: set<string>): (r: seq<Emit>)
    ensures |r| <= 1 && (r == [] <==> p.socketId == sender)
    ensures r != [] ==> r[0].target == ToSocket(p.socketId) && r[0].event.TranslatedText?
                        && r[0].event.original == text && r[0].event.from == sender
                        && r[0].event.toLanguage == p.language
  {
    if p.socketId == sender then []
    else [Emit(ToSocket(p.socketId),
               TranslatedText(text, TranslationFor(p, text, language, translate, logFails),
                              sender, language, p.language))]
  }

  /** The log row written for one member: only a translated delivery whose
      log write succeeds leaves one. */
  function LogFor(p: Participant, roomId: RoomModel.RoomId, sender: string, text: string, language: string,
                  translate: Translator, logFails: set<string>): (r: seq<LogEntry>)
    ensures |r| <= 1
    ensures r != [] <==> p.socketId != sender && p.language != language && p.socketId !in logFails
    ensures r != [] ==> r[0].toSocketId == p.socketId && r[0].fromSocketId == sender
                        && r[0].translatedText == TranslationFor(p, text, language, translate, logFails)
  {
    if p.socketId == sender || p.language == language || p.socketId in logFails then []
    else [LogEntry(roomId, text, translate(text, p.language, language), language, p.language, sender, p.socketId)]
  }

  /** The events the fan-out loop emits for the first `n` members. */
  function FanOutFirst(ps: seq<Participant>, n: nat, sender: string, text: string, language: string,
                       translate: Translator, logFails: set<string>): (r: seq<Emit>)
    requires n <= |ps|
    ensures |r| <= n
  {
    if n == 0 then []
    else FanOutFirst(ps, n - 1, sender, text, language, translate, logFails)
         + Deliver(ps[n - 1], sender, text, language, translate, logFails)
  }

  lemma AppendAssoc<T>(a: seq<T>, b: seq<T>, c: seq<T>)
    ensures a + b + c == a + (b + c)
  {
  }

  /** Every event the fan-out loop emits, member by member. */
  function FanOut(ps: seq<Participant>, sender: string, text: string, language: string,
                  translate: Translator, logFails: set<string>): (r: seq<Emit>)
    ensures |r| <= |ps|
    ensures forall e :: e in r ==> e.target.ToSocket? && e.target.socketId != sender
  {
    FanOutShape(ps, |ps|, sender, text, language, translate, logFails);
    FanOutFirst(ps, |ps|, sender, text, language, translate, logFails)
  }

  /** The log rows the fan-out loop writes for the first `n` members. */
  function FanOutLogFirst(ps: seq<Participant>, n: nat, roomId: RoomModel.RoomId, sender: string, text: string,
                          language: string, translate: Translator, logFails: set<string>): seq<LogEntry>
    requires n <= |ps|
  {
    if n == 0 then []
    else FanOutLogFirst(ps, n - 1, roomId, sender, text, language, translate, logFails)
         + LogFor(ps[n - 1], roomId, sender, text, language, translate, logFails)
  }

  /** Every log row the fan-out loop writes. */
  function FanOutLog(ps: seq<Participant>, roomId: RoomModel.RoomId, sender: string, text: string,
                     language: string, translate: Translator, logFails: set<string>): seq<LogEntry>
  {
    FanOutLogFirst(ps, |ps|, roomId, sender, text, language, translate, logFails)
  }

  /** Whether an emit goes to socket `id`. */
  function SentTo(id: string): Emit -> bool {
    (e: Emit) => e.target == ToSocket(id)
  }

  /** Whether a row belongs to socket `id`. */
  function HasSocket(id: string): Participant -> bool {
    (p: Participant) => p.socketId == id
  }

  /** Each fan-out event carries the original text from the sender, goes to
      a single other socket, and is untranslated when the recipient shares
      the sender's language or its log write failed. */
  lemma {:induction false} FanOutShape(ps: seq<Participant>, n: nat, sender: string, text: string, language: string,
                                        translate: Translator, logFails: set<string>)
    requires n <= |ps|
    ensures forall e :: e in FanOutFirst(ps, n, sender, text, language, translate, logFails) ==>
              && e.target.ToSocket? && e.target.socketId != sender
              && e.event.TranslatedText? && e.event.original == text && e.event.from == sender
              && e.event.fromLanguage == language
              && (e.event.toLanguage == language ==> e.event.translated == text)
              && (e.target.socketId in logFails ==> e.event.translated == text)
  {
    if n > 0 {
      FanOutShape(ps, n - 1, sender, text, language, translate, logFails);
    }
  }

  /** The sender is never sent its own transcript. */
  lemma SenderGetsNothing(ps: seq<Participant>, sender: string, text: string, language: string,
                          translate: Translator, logFails: set<string>)
    ensures Seqs.Count(FanOut(ps, sender, text, language, translate, logFails), SentTo(sender)) == 0
  {
    var es := FanOut(ps, sender, text, language, translate, logFails);
    FanOutShape(ps, |ps|, sender, text, language, translate, logFails);
    Seqs.CountZero(es, SentTo(sender));
    forall i | 0 <= i < |es|
      ensures !SentTo(sender)(es[i])
    {
      assert es[i] in es;
    }
  }

  /** Any other socket receives one event per row among the first `n` it
      owns. */
  lemma {:induction false} OthersGetOwn(ps: seq<Participant>, n: nat, sender: string, text: string,
                                         language: string, translate: Translator, logFails: set<string>,
                                         id: string)
    requires n <= |ps| && id != sender
    ensures Seqs.Count(FanOutFirst(ps, n, sender, text, language, translate, logFails), SentTo(id))
              == Seqs.Count(ps[..n], HasSocket(id))
  {
    if n == 0 {
      assert ps[..n] == [];
    } else {
      var p := ps[n - 1];
      var before := FanOutFirst(ps, n - 1, sender, text, language, translate, logFails);
      var d := Deliver(p, sender, text, language, translate, logFails);
      OthersGetOwn(ps, n - 1, sender, text, language, translate, logFails, id);
      Seqs.CountAppend(before, d, SentTo(id));
      DeliverCount(p, sender, text, language, translate, logFails, id);
      assert ps[..n] == ps[..n - 1] + [p];
      Seqs.CountAppend(ps[..n - 1], [p], HasSocket(id));
    }
  }

  /** One member's delivery reaches another socket `id` once exactly when
      the member owns that socket. */
  lemma DeliverCount(p: Participant, sender: string, text: string, language: string,
                     translate: Translator, logFails: set<string>, id: string)
    requires id != sender
    ensures Seqs.Count(Deliver(p, sender, text, language, translate, logFails), SentTo(id))
              == Seqs.Count([p], HasSocket(id))
  {
    var d := Deliver(p, sender, text, language, translate, logFails);
    if d != [] {
      assert d[1..] == [];
      assert SentTo(id)(d[0]) <==> p.socketId == id;
    }
    assert [p][1..] == [];
  }

  /** Filtering never adds matches. */
  lemma {:induction false} CountFilterAtMost<T(!new)>(s: seq<T>, p: T -> bool, q: T -> bool)
    ensures Seqs.Count(Seqs.Filter(s, p), q) <= Seqs.Count(s, q)
  {
    if s != [] {
      CountFilterAtMost(s[1..], p, q);
      var head := if p(s[0]) then [s[0]] else [];
      Seqs.CountAppend(head, Seqs.Filter(s[1..], p), q);
    }
  }

  /** With unique socket ids a table has at most one row per socket. */
  lemma {:induction false} AtMostOneRow(rows: seq<Participant>, id: string)
    requires ParticipantModel.UniqueSocketIds(rows)
    ensures Seqs.Count(rows, HasSocket(id)) <= 1
  {
    if rows != [] {
      assert ParticipantModel.UniqueSocketIds(rows[1..]) by {
        forall i, j | 0 <= i < j < |rows[1..]|
          ensures rows[1..][i].socketId != rows[1..][j].socketId
        {
          assert rows[1..][i] == rows[i + 1] && rows[1..][j] == rows[j + 1];
        }
      }
      AtMostOneRow(rows[1..], id);
      if rows[0].socketId == id {
        Seqs.CountZero(rows[1..], HasSocket(id));
        forall i | 0 <= i < |rows[1..]|
          ensures !HasSocket(id)(rows[1..][i])
        {
          assert rows[1..][i] == rows[i + 1];
        }
      }
    }
  }

  /** Every active member of the room other than the sender receives exactly
      one `translated-text` event, and the sender receives none. */
  lemma EachOtherMemberOnce(rows: seq<Participant>, roomId: RoomModel.RoomId, p: Participant,
                            sender: string, text: string, language: string,
                            translate: Translator, logFails: set<string>)
    requires ParticipantModel.UniqueSocketIds(rows)
    requires p in rows && p.active && p.roomId == roomId
    ensures var members := ParticipantModel.FindByRoomId(rows, roomId);
            && Seqs.Count(FanOut(members, sender, text, language, translate, logFails), SentTo(sender)) == 0
            && (p.socketId != sender ==>
                  Seqs.Count(FanOut(members, sender, text, language, translate, logFails), SentTo(p.socketId)) == 1)
  {
    var members := ParticipantModel.FindByRoomId(rows, roomId);
    SenderGetsNothing(members, sender, text, language, translate, logFails);
    if p.socketId != sender {
      OthersGetOwn(members, |members|, sender, text, language, translate, logFails, p.socketId);
      assert members[..|members|] == members;
    }
    CountFilterAtMost(rows, ParticipantModel.InRoom(roomId), HasSocket(p.socketId));
    AtMostOneRow(rows, p.socketId);
    assert p in members;
    var k :| 0 <= k < |members| && members[k] == p;
    Seqs.CountZero(members, HasSocket(p.socketId));
    assert HasSocket(p.socketId)(members[k]);
  }

  /** A room where everyone shares the sender's language needs no
      translator: the fan-out is the same whichever one is given. */
  lemma {:induction false} SameLanguageNeedsNoTranslator(ps: seq<Participant>, n: nat, sender: string,
                                                          text: string, language: string,
                                                          t1: Translator, t2: Translator, logFails: set<string>)
    requires n <= |ps|
    requires forall i :: 0 <= i < |ps| ==> ps[i].language == language
    ensures FanOutFirst(ps, n, sender, text, language, t1, logFails)
         == FanOutFirst(ps, n, sender, text, language, t2, logFails)
  {
    if n > 0 {
      SameLanguageNeedsNoTranslator(ps, n - 1, sender, text, language, t1, t2, logFails);
    }
  }

  // ---------------------------------------------------- table consistency

  /** Every room's counter equals its number of active members, and every
      active member's room exists. */
  predicate Consistent(rs: seq<RoomModel.Room>, ps: seq<Participant>) {
    && (forall i :: 0 <= i < |rs| ==> rs[i].participantCount == ParticipantModel.CountByRoomId(ps, rs[i].id))
    && (forall j :: 0 <= j < |ps| && ps[j].active ==> RoomModel.FindById(rs, ps[j].roomId).Some?)
  }

  /** A room nobody belongs to has no members. */
  lemma NoMembers(ps: seq<Participant>, id: RoomModel.RoomId)
    requires forall j :: 0 <= j < |ps| && ps[j].active ==> ps[j].roomId != id
    ensures ParticipantModel.CountByRoomId(ps, id) == 0
  {
    var members := ParticipantModel.FindByRoomId(ps, id);
    if members != [] {
      assert members[0] in ps;
    }
  }

  /** A room with an active member has a positive member count. */
  lemma SomeMember(ps: seq<Participant>, i: nat)
    requires i < |ps| && ps[i].active
    ensures ParticipantModel.CountByRoomId(ps, ps[i].roomId) >= 1
  {
    assert ps[i] in ParticipantModel.FindByRoomId(ps, ps[i].roomId);
  }

  /** Changing a room row but not its id or counter keeps every room reachable. */
  lemma SameIds(rs: seq<RoomModel.Room>, j: nat, r: RoomModel.Room, id: RoomModel.RoomId)
    requires j < |rs| && r.id == rs[j].id
    ensures RoomModel.FindById(rs[j := r], id).Some? <==> RoomModel.FindById(rs, id).Some?
  {
    if RoomModel.FindById(rs, id).Some? {
      var k := RoomModel.FindById(rs, id).value;
      assert rs[j := r][k].id == id;
    }
    if RoomModel.FindById(rs[j := r], id).Some? {
      var k := RoomModel.FindById(rs[j := r], id).value;
      assert rs[k].id == id;
    }
  }

  lemma ConsistentAfterActivity(rs: seq<RoomModel.Room>, ps: seq<Participant>, j: nat, now: int)
    requires Consistent(rs, ps) && j < |rs|
    ensures Consistent(rs[j := rs[j].(lastActivity := now)], ps)
  {
    var rs' := rs[j := rs[j].(lastActivity := now)];
    forall k | 0 <= k < |ps| && ps[k].active
      ensures RoomModel.FindById(rs', ps[k].roomId).Some?
    {
      SameIds(rs, j, rs[j].(lastActivity := now), ps[k].roomId);
    }
  }

  lemma ConsistentAfterNewRoom(rs: seq<RoomModel.Room>, ps: seq<Participant>, nextId: nat, r: RoomModel.Room)
    requires Consistent(rs, ps) && RoomModel.WellFormed(rs, nextId)
    requires r.id == nextId && r.participantCount == 0
    ensures Consistent(rs + [r], ps)
  {
    forall k | 0 <= k < |ps| && ps[k].active
      ensures ps[k].roomId != nextId
      ensures RoomModel.FindById(rs + [r], ps[k].roomId).Some?
    {
      var i := RoomModel.FindById(rs, ps[k].roomId).value;
      assert (rs + [r])[i].id == ps[k].roomId;
    }
    NoMembers(ps, nextId);
  }

  lemma ConsistentAfterJoin(rs: seq<RoomModel.Room>, ps: seq<Participant>, j: nat, p: Participant)
    requires Consistent(rs, ps) && RoomModel.UniqueIds(rs) && j < |rs|
    requires p.active && p.roomId == rs[j].id
    ensures Consistent(rs[j := RoomModel.Incremented(rs[j])], ps + [p])
  {
    var rs' := rs[j := RoomModel.Incremented(rs[j])];
    forall i | 0 <= i < |rs'|
      ensures rs'[i].participantCount == ParticipantModel.CountByRoomId(ps + [p], rs'[i].id)
    {
      ParticipantModel.InsertCounts(ps, p, rs[i].id);
    }
    forall k | 0 <= k < |ps + [p]| && (ps + [p])[k].active
      ensures RoomModel.FindById(rs', (ps + [p])[k].roomId).Some?
    {
      SameIds(rs, j, RoomModel.Incremented(rs[j]), (ps + [p])[k].roomId);
      if k == |ps| {
        assert rs[j].id == p.roomId;
      }
    }
  }

  lemma ConsistentAfterLeave(rs: seq<RoomModel.Room>, ps: seq<Participant>, i: nat, j: nat, now: int)
    requires Consistent(rs, ps) && RoomModel.UniqueIds(rs) && ParticipantModel.UniqueSocketIds(ps)
    requires i < |ps| && ps[i].active && j < |rs| && rs[j].id == ps[i].roomId
    ensures Consistent(rs[j := RoomModel.Decremented(rs[j])], ps[i := ParticipantModel.Left(ps[i], now)])
  {
    var rs' := rs[j := RoomModel.Decremented(rs[j])];
    var ps' := ps[i := ParticipantModel.Left(ps[i], now)];
    SomeMember(ps, i);
    ParticipantModel.LeaveHidesParticipant(ps, i, now);
    forall k | 0 <= k < |rs'|
      ensures rs'[k].participantCount == ParticipantModel.CountByRoomId(ps', rs'[k].id)
    {
      if k != j {
        ParticipantModel.LeaveKeepsOtherRooms(ps, i, now, rs[k].id);
      }
    }
    forall k | 0 <= k < |ps'| && ps'[k].active
      ensures RoomModel.FindById(rs', ps'[k].roomId).Some?
    {
      SameIds(rs, j, RoomModel.Decremented(rs[j]), ps'[k].roomId);
    }
  }

  // ---------------------------------------------------------- the server

  /** When a `join-room` with valid user data adds its participant row:
      the room exists or its code is valid enough to create it, the values
      fit their columns and the socket id the row would hold is not taken yet. */
  predicate JoinAdmits(roomRows: seq<RoomModel.Room>, memberRows: seq<Participant>, socketId: string, roomCode: string,
                       userName: string, language: string, speakingLanguage: string)
  {
    && (RoomModel.FindByRoomCode(roomRows, roomCode).Some? || RoomCodes.IsValidRoomCode(roomCode))
    && ParticipantModel.Storable(socketId, userName, language, speakingLanguage)
    && !ParticipantModel.SocketIdTaken(memberRows, ParticipantModel.StoredSocketId(socketId))
  }

  /** Where the room `join-room` opens sits: the row found by code, or the
      row appended after the table's last. */
  function OpenedAt(rows: seq<RoomModel.Room>, roomCode: string): (k: nat)
    ensures k <= |rows|
    ensures k < |rows| <==> RoomModel.FindByRoomCode(rows, roomCode).Some?
  {
    match RoomModel.FindByRoomCode(rows, roomCode)
    case Some(i) => i
    case None => |rows|
  }

  /** The room table once `join-room` has found its room by code, or created
      it under the next id with creator 'user', and refreshed its activity. */
  function Opened(rows: seq<RoomModel.Room>, nextId: nat, roomCode: string, now: int): (r: seq<RoomModel.Room>)
    ensures var k := OpenedAt(rows, roomCode);
            && k < |r| && r[k].roomCode == roomCode && r[k].lastActivity == now
            && |r| == |rows| + (if k == |rows| then 1 else 0)
            && (forall i :: 0 <= i < |rows| && i != k ==> r[i] == rows[i])
            && (k < |rows| ==> r[k] == rows[k].(lastActivity := now))
            && (k == |rows| ==> r[k] == RoomModel.Room(nextId, roomCode, "user", true, 0, now, now))
  {
    match RoomModel.FindByRoomCode(rows, roomCode)
    case Some(i) => rows[i := rows[i].(lastActivity := now)]
    case None => rows + [RoomModel.Room(nextId, roomCode, "user", true, 0, now, now)]
  }

  /** What a successful `join-room` emits, in order, given the joiner's own
      request and the member table after the insert into room `roomId`:
      `user-joined` with the request's values to the rest of the room, then
      `existing-users` (the stored rows of the other sockets) and
      `room-joined` to the joiner. */
  function JoinEmits(roomCode: string, asked: Peer, roomId: RoomModel.RoomId, rows: seq<Participant>): seq<Emit> {
    [Emit(ToRoomExcept(roomCode, asked.userId), UserJoined(asked)),
     Emit(ToSocket(asked.userId), ExistingUsers(Peers(ParticipantModel.FindByRoomId(rows, roomId), asked.userId))),
     Emit(ToSocket(asked.userId), RoomJoined(roomCode, ParticipantModel.CountByRoomId(rows, roomId)))]
  }

  lemma {:induction false} PeersAppend(a: seq<Participant>, b: seq<Participant>, me: string)
    ensures Peers(a + b, me) == Peers(a, me) + Peers(b, me)
  {
    if a == [] {
      assert a + b == b;
    } else {
      assert (a + b)[0] == a[0];
      assert (a + b)[1..] == a[1..] + b;
      PeersAppend(a[1..], b, me);
    }
  }

  lemma {:induction false} PeersOfStrangers(ps: seq<Participant>, me: string)
    requires forall i :: 0 <= i < |ps| ==> ps[i].socketId != me
    ensures |Peers(ps, me)| == |ps|
  {
    if ps != [] {
      PeersOfStrangers(ps[1..], me);
    }
  }

  /** An appended row whose socket id no earlier row holds is the one
      `findBySocketId` finds for it. */
  lemma FoundAtEnd(rows: seq<Participant>, joiner: Participant)
    requires joiner.active && !ParticipantModel.SocketIdTaken(rows, joiner.socketId)
    ensures ParticipantModel.FindBySocketId(rows + [joiner], joiner.socketId) == Some(|rows|)
  {
    assert (rows + [joiner])[|rows|] == joiner;
    assert forall i :: 0 <= i < |rows| ==> (rows + [joiner])[i] == rows[i];
  }

  /** What the joiner learns: once its row is inserted it is found by its
      socket id, `existing-users` lists exactly the room's members from
      before the join, and the `room-joined` count is that list's length
      plus the joiner. */
  lemma JoinerSeesRoom(rows: seq<Participant>, joiner: Participant)
    requires joiner.active && !ParticipantModel.SocketIdTaken(rows, joiner.socketId)
    ensures ParticipantModel.FindBySocketId(rows + [joiner], joiner.socketId) == Some(|rows|)
    ensures Peers(ParticipantModel.FindByRoomId(rows + [joiner], joiner.roomId), joiner.socketId)
              == Peers(ParticipantModel.FindByRoomId(rows, joiner.roomId), joiner.socketId)
    ensures ParticipantModel.CountByRoomId(rows + [joiner], joiner.roomId)
              == |Peers(ParticipantModel.FindByRoomId(rows, joiner.roomId), joiner.socketId)| + 1
  {
    FoundAtEnd(rows, joiner);
    var id := joiner.roomId;
    var me := joiner.socketId;
    var before := ParticipantModel.FindByRoomId(rows, id);
    Seqs.FilterAppend(rows, [joiner], ParticipantModel.InRoom(id));
    assert Seqs.Filter([joiner], ParticipantModel.InRoom(id)) == [joiner];
    PeersAppend(before, [joiner], me);
    assert Peers([joiner], me) == [];
    forall i | 0 <= i < |before| ensures before[i].socketId != me {
      assert before[i] in rows;
    }
    PeersOfStrangers(before, me);
  }

  /** The server's state: the two tables it writes, the `translationCounts`
      map of per-socket windows, the translation log and every event sent. */
  class SignalingServer {
    const rooms: RoomModel.RoomTable
    const members: ParticipantModel.ParticipantTable
    var translationCounts: map<string, RateLimit.Window>
    var translationLog: seq<LogEntry>
    var outbox: seq<Emit>

    ghost predicate Valid()
      reads this, rooms, members
    {
      && rooms.Valid() && members.Valid()
      && Consistent(rooms.rows, members.rows)
      && forall s :: s in translationCounts ==> 0 <= translationCounts[s].count <= RateLimit.MaxPerWindow
    }

    constructor ()
      ensures Valid() && fresh(rooms) && fresh(members)
      ensures rooms.rows == [] && members.rows == []
      ensures translationCounts == map[] && translationLog == [] && outbox == []
    {
      rooms := new RoomModel.RoomTable();
      members := new ParticipantModel.ParticipantTable();
      translationCounts := map[];
      translationLog := [];
      outbox := [];
    }

    /** The window a socket's entry holds, if it has one. */
    function Entry(socketId: string): Option<RateLimit.Window>
      reads this
    {
      if socketId in translationCounts then Some(translationCounts[socketId]) else None
    }

    /** The first half of `join-room`: find the room by code or create it,
        then refresh its activity time. `None` when the room had to be
        created and the insert was refused. */
    method OpenRoom(roomCode: string, now: int) returns (j: Option<nat>)
      requires Valid()
      modifies rooms
      ensures Valid()
      ensures j.Some? <==> RoomModel.FindByRoomCode(old(rooms.rows), roomCode).Some? || RoomCodes.IsValidRoomCode(roomCode)
      ensures j.None? ==> rooms.rows == old(rooms.rows)
      ensures j.Some? ==> && RoomModel.FindByRoomCode(rooms.rows, roomCode) == j
                          && j.value == OpenedAt(old(rooms.rows), roomCode)
                          && rooms.rows == Opened(old(rooms.rows), old(rooms.nextId), roomCode, now)
    {
      var found := RoomModel.FindByRoomCode(rooms.rows, roomCode);
      var k: nat;
      if found.None? {
        ghost var before := rooms.rows;
        ghost var beforeId := rooms.nextId;
        var created := rooms.Create(roomCode, "user", now);
        if created.Err? {
          return None;
        }
        ConsistentAfterNewRoom(before, members.rows, beforeId, rooms.rows[created.value]);
        k := created.value;
        assert rooms.rows[k := rooms.rows[k].(lastActivity := now)] == Opened(before, beforeId, roomCode, now);
      } else {
        k := found.value;
      }
      Refresh(k, roomCode, now);
      j := Some(k);
    }

    /** `updateActivity` on the room found or created by `join-room`. */
    method Refresh(k: nat, roomCode: string, now: int)
      requires Valid() && k < |rooms.rows| && rooms.rows[k].roomCode == roomCode
      modifies rooms
      ensures Valid()
      ensures rooms.rows == old(rooms.rows)[k := old(rooms.rows)[k].(lastActivity := now)]
      ensures RoomModel.FindByRoomCode(rooms.rows, roomCode) == Some(k)
    {
      ConsistentAfterActivity(rooms.rows, members.rows, k, now);
      rooms.UpdateActivity(k, now);
      RoomModel.FindsTheRoomWithCode(rooms.rows, roomCode, k);
    }

    /** The second half of `join-room`, once the user data is valid: insert
        the socket's participant row into the open room, count it, and tell
        the room and the joiner. */
    method Enter(socketId: string, roomCode: string, j: nat, userName: string, language: string,
                 speakingLanguage: string, now: int)
      requires Valid() && RoomModel.FindByRoomCode(rooms.rows, roomCode) == Some(j)
      modifies this, rooms, members
      ensures Valid()
      ensures translationCounts == old(translationCounts) && translationLog == old(translationLog)
      ensures var id := old(rooms.rows)[j].id;
              if !ParticipantModel.Storable(socketId, userName, language, speakingLanguage)
                 || ParticipantModel.SocketIdTaken(old(members.rows), ParticipantModel.StoredSocketId(socketId)) then
                && members.rows == old(members.rows) && rooms.rows == old(rooms.rows)
                && outbox == old(outbox) + [Emit(ToSocket(socketId), Error(JoinFailed))]
              else
                && members.rows == old(members.rows)
                     + [ParticipantModel.NewRow(old(members.nextId), socketId, userName, language, speakingLanguage, id, now)]
                && rooms.rows == old(rooms.rows)[j := RoomModel.Incremented(old(rooms.rows)[j])]
                && outbox == old(outbox) + JoinEmits(roomCode, Peer(socketId, userName, language, speakingLanguage), id, members.rows)
    {
      var id := rooms.rows[j].id;
      ghost var before := members.rows;
      var made := members.Create(socketId, userName, language, speakingLanguage, id, now);
      if made.Err? {
        outbox := outbox + [Emit(ToSocket(socketId), Error(JoinFailed))];
        return;
      }
      ConsistentAfterJoin(rooms.rows, before, j, members.rows[|before|]);
      assert members.rows == before + [members.rows[|before|]];
      rooms.IncrementParticipants(j);
      outbox := outbox + JoinEmits(roomCode, Peer(socketId, userName, language, speakingLanguage), id, members.rows);
    }

    /** `join-room` once the user data is valid: open the room, then enter
        it. The member table grows exactly when `JoinAdmits` holds;
        otherwise the joiner gets 'Failed to join room'. */
    method JoinValid(socketId: string, roomCode: string, userName: string, language: string,
                     speakingLanguage: string, now: int)
      requires Valid()
      modifies this, rooms, members
      ensures Valid()
      ensures translationCounts == old(translationCounts) && translationLog == old(translationLog)
      ensures var rs := Opened(old(rooms.rows), old(rooms.nextId), roomCode, now);
              var k := OpenedAt(old(rooms.rows), roomCode);
              if JoinAdmits(old(rooms.rows), old(members.rows), socketId, roomCode, userName, language, speakingLanguage) then
                && members.rows == old(members.rows)
                     + [ParticipantModel.NewRow(old(members.nextId), socketId, userName, language, speakingLanguage, rs[k].id, now)]
                && rooms.rows == rs[k := RoomModel.Incremented(rs[k])]
                && outbox == old(outbox) + JoinEmits(roomCode, Peer(socketId, userName, language, speakingLanguage), rs[k].id, members.rows)
              else
                && members.rows == old(members.rows)
                && rooms.rows == (if RoomModel.FindByRoomCode(old(rooms.rows), roomCode).Some?
                                     || RoomCodes.IsValidRoomCode(roomCode) then rs else old(rooms.rows))
                && outbox == old(outbox) + [Emit(ToSocket(socketId), Error(JoinFailed))]
    {
      var j := OpenRoom(roomCode, now);
      if j.None? {
        outbox := outbox + [Emit(ToSocket(socketId), Error(JoinFailed))];
        return;
      }
      Enter(socketId, roomCode, j.value, userName, language, speakingLanguage, now);
    }

    /** `join-room`. Invalid user data is answered with the validator's
        message and changes nothing. Otherwise the room is opened; if that
        or the participant insert fails the joiner gets 'Failed to join
        room' and what was already written stays. */
    method JoinRoom(socketId: string, roomCode: string, userName: Js.Value, language: Js.Value,
                    speakingLanguage: Js.Value, now: int)
      requires Valid()
      modifies this, rooms, members
      ensures Valid()
      ensures translationCounts == old(translationCounts) && translationLog == old(translationLog)
      ensures Validation.ValidateUserData(userName, language, speakingLanguage).UserInvalid? ==>
                && outbox == old(outbox) + [Emit(ToSocket(socketId),
                     Error(Validation.ValidateUserData(userName, language, speakingLanguage).message))]
                && rooms.rows == old(rooms.rows) && members.rows == old(members.rows)
      ensures Validation.ValidateUserData(userName, language, speakingLanguage).UserValid? ==>
                var rs := Opened(old(rooms.rows), old(rooms.nextId), roomCode, now);
                var k := OpenedAt(old(rooms.rows), roomCode);
                if JoinAdmits(old(rooms.rows), old(members.rows), socketId, roomCode, userName.s, language.s,
                              speakingLanguage.s) then
                  && members.rows == old(members.rows)
                       + [ParticipantModel.NewRow(old(members.nextId), socketId, userName.s, language.s, speakingLanguage.s,
                                                  rs[k].id, now)]
                  && rooms.rows == rs[k := RoomModel.Incremented(rs[k])]
                  && outbox == old(outbox)
                       + JoinEmits(roomCode, Peer(socketId, userName.s, language.s, speakingLanguage.s), rs[k].id, members.rows)
                else
                  && members.rows == old(members.rows)
                  && rooms.rows == (if RoomModel.FindByRoomCode(old(rooms.rows), roomCode).Some?
                                       || RoomCodes.IsValidRoomCode(roomCode) then rs else old(rooms.rows))
                  && outbox == old(outbox) + [Emit(ToSocket(socketId), Error(JoinFailed))]
    {
      var check := Validation.ValidateUserData(userName, language, speakingLanguage);
      if check.UserInvalid? {
        outbox := outbox + [Emit(ToSocket(socketId), Error(check.message))];
        return;
      }
      JoinValid(socketId, roomCode, userName.s, language.s, speakingLanguage.s, now);
    }

    /** `offer`, `answer` and `ice-candidate`: the payload goes unchanged,
        stamped with the sender, through `socket.to(to)` — to every socket
        in the socket.io room named `to` except the sender. Each socket sits
        in the room named by its own id, so a socket id as `to` reaches
        that one peer. */
    method Relay(kind: SignalKind, payload: string, to: string, from: string)
      requires Valid()
      modifies this
      ensures Valid()
      ensures outbox == old(outbox) + [Emit(ToRoomExcept(to, from), Signal(kind, payload, from))]
      ensures translationCounts == old(translationCounts) && translationLog == old(translationLog)
    {
      outbox := outbox + [Emit(ToRoomExcept(to, from), Signal(kind, payload, from))];
    }

    /** The loop of `transcription` over the room's members. */
    method Broadcast(ps: seq<Participant>, roomId: RoomModel.RoomId, socketId: string, text: string,
                     language: string, translate: Translator, logFails: set<string>)
      modifies this
      ensures translationCounts == old(translationCounts)
      ensures outbox == old(outbox) + FanOut(ps, socketId, text, language, translate, logFails)
      ensures translationLog == old(translationLog) + FanOutLog(ps, roomId, socketId, text, language, translate, logFails)
    {
      var k := 0;
      while k < |ps|
        invariant 0 <= k <= |ps|
        invariant translationCounts == old(translationCounts)
        invariant outbox == old(outbox) + FanOutFirst(ps, k, socketId, text, language, translate, logFails)
        invariant translationLog == old(translationLog) + FanOutLogFirst(ps, k, roomId, socketId, text, language, translate, logFails)
      {
        ghost var sent := FanOutFirst(ps, k, socketId, text, language, translate, logFails);
        ghost var logged := FanOutLogFirst(ps, k, roomId, socketId, text, language, translate, logFails);
        Send(ps[k], roomId, socketId, text, language, translate, logFails);
        AppendAssoc(old(outbox), sent, Deliver(ps[k], socketId, text, language, translate, logFails));
        AppendAssoc(old(translationLog), logged, LogFor(ps[k], roomId, socketId, text, language, translate, logFails));
        k := k + 1;
      }
    }

    /** One pass of the `transcription` loop: a member other than the
        sender gets the text, translated (and logged) when its language
        differs and the log write succeeds. */
    method Send(p: Participant, roomId: RoomModel.RoomId, socketId: string, text: string,
                language: string, translate: Translator, logFails: set<string>)
      modifies this
      ensures translationCounts == old(translationCounts)
      ensures outbox == old(outbox) + Deliver(p, socketId, text, language, translate, logFails)
      ensures translationLog == old(translationLog) + LogFor(p, roomId, socketId, text, language, translate, logFails)
    {
      if p.socketId != socketId {
        var translated := text;
        if p.language != language {
          var translation := translate(text, p.language, language);
          if p.socketId !in logFails {
            translationLog := translationLog + [LogEntry(roomId, text, translation, language, p.language, socketId, p.socketId)];
            translated := translation;
          }
        }
        outbox := outbox + [Emit(ToSocket(p.socketId), TranslatedText(text, translated, socketId, language, p.language))];
      }
    }

    /** What `transcription` does once the event is admitted: nothing when
        the room does not exist; otherwise every other active member
        receives the text in its language, translated ones are logged, and
        the room's activity time is refreshed. */
    method Forward(socketId: string, roomCode: string, text: string, language: string, now: int,
                   translate: Translator, logFails: set<string>)
      requires Valid()
      modifies this, rooms
      ensures Valid()
      ensures members.rows == old(members.rows) && translationCounts == old(translationCounts)
      ensures RoomModel.FindByRoomCode(old(rooms.rows), roomCode).None? ==>
                outbox == old(outbox) && rooms.rows == old(rooms.rows) && translationLog == old(translationLog)
      ensures RoomModel.FindByRoomCode(old(rooms.rows), roomCode).Some? ==>
                var j := RoomModel.FindByRoomCode(old(rooms.rows), roomCode).value;
                var ps := ParticipantModel.FindByRoomId(members.rows, old(rooms.rows)[j].id);
                && outbox == old(outbox) + FanOut(ps, socketId, text, language, translate, logFails)
                && translationLog == old(translationLog)
                     + FanOutLog(ps, old(rooms.rows)[j].id, socketId, text, language, translate, logFails)
                && rooms.rows == old(rooms.rows)[j := old(rooms.rows)[j].(lastActivity := now)]
    {
      var found := RoomModel.FindByRoomCode(rooms.rows, roomCode);
      if found.None? {
        return;
      }
      var roomId := rooms.rows[found.value].id;
      var ps := ParticipantModel.FindByRoomId(members.rows, roomId);
      Broadcast(ps, roomId, socketId, text, language, translate, logFails);
      ConsistentAfterActivity(rooms.rows, members.rows, found.value, now);
      rooms.UpdateActivity(found.value, now);
    }

    /** `transcription`. The socket's window is created or reset and then
        checked; a full window answers the sender with the wait and does
        nothing else. An admitted event counts even when the room does not
        exist; then the event is forwarded. */
    method Transcription(socketId: string, roomCode: string, text: string, language: string, now: int,
                         translate: Translator, logFails: set<string>)
      requires Valid()
      modifies this, rooms
      ensures Valid()
      ensures members.rows == old(members.rows)
      ensures translationCounts == old(translationCounts)[socketId := RateLimit.Admit(old(Entry(socketId)), now).0]
      ensures RateLimit.Admit(old(Entry(socketId)), now).1.Rejected? ==>
                && outbox == old(outbox) + [Emit(ToSocket(socketId), RateLimited(RateLimit.LimitMessage,
                     RateLimit.RetryText(RateLimit.Admit(old(Entry(socketId)), now).1.retryAfter)))]
                && rooms.rows == old(rooms.rows) && translationLog == old(translationLog)
      ensures RateLimit.Admit(old(Entry(socketId)), now).1.Admitted? && RoomModel.FindByRoomCode(old(rooms.rows), roomCode).None? ==>
                outbox == old(outbox) && rooms.rows == old(rooms.rows) && translationLog == old(translationLog)
      ensures RateLimit.Admit(old(Entry(socketId)), now).1.Admitted? && RoomModel.FindByRoomCode(old(rooms.rows), roomCode).Some? ==>
                var j := RoomModel.FindByRoomCode(old(rooms.rows), roomCode).value;
                var ps := ParticipantModel.FindByRoomId(members.rows, old(rooms.rows)[j].id);
                && outbox == old(outbox) + FanOut(ps, socketId, text, language, translate, logFails)
                && translationLog == old(translationLog)
                     + FanOutLog(ps, old(rooms.rows)[j].id, socketId, text, language, translate, logFails)
                && rooms.rows == old(rooms.rows)[j := old(rooms.rows)[j].(lastActivity := now)]
    {
      var (w, verdict) := RateLimit.Admit(Entry(socketId), now);
      RateLimit.AdmitKeepsBound(Entry(socketId), now);
      translationCounts := translationCounts[socketId := w];
      if verdict.Rejected? {
        outbox := outbox + [Emit(ToSocket(socketId), RateLimited(RateLimit.LimitMessage, RateLimit.RetryText(verdict.retryAfter)))];
        return;
      }
      Forward(socketId, roomCode, text, language, now, translate, logFails);
    }

    /** The participant half of `disconnect`: the socket's active row is
        marked left, its room's counter falls once, and the rest of the room
        hears `user-left`. */
    method Depart(i: nat, now: int)
      requires Valid() && i < |members.rows| && members.rows[i].active
      modifies this, rooms, members
      ensures Valid()
      ensures translationCounts == old(translationCounts) && translationLog == old(translationLog)
      ensures var p := old(members.rows)[i];
              && RoomModel.FindById(old(rooms.rows), p.roomId).Some?
              && var j := RoomModel.FindById(old(rooms.rows), p.roomId).value;
                 && members.rows == old(members.rows)[i := ParticipantModel.Left(p, now)]
                 && rooms.rows == old(rooms.rows)[j := RoomModel.Decremented(old(rooms.rows)[j])]
                 && rooms.rows[j].participantCount == old(rooms.rows)[j].participantCount - 1
                 && outbox == old(outbox) + [Emit(ToRoomExcept(old(rooms.rows)[j].roomCode, p.socketId), UserLeft(p.socketId))]
      ensures ParticipantModel.FindBySocketId(members.rows, old(members.rows)[i].socketId).None?
    {
      var p := members.rows[i];
      var j := RoomModel.FindById(rooms.rows, p.roomId).value;
      ConsistentAfterLeave(rooms.rows, members.rows, i, j, now);
      SomeMember(members.rows, i);
      ParticipantModel.LeaveHidesParticipant(members.rows, i, now);
      var roomCode := rooms.rows[j].roomCode;
      members.Leave(i, now);
      rooms.DecrementParticipants(j);
      outbox := outbox + [Emit(ToRoomExcept(roomCode, p.socketId), UserLeft(p.socketId))];
    }

    /** `disconnect`. The socket's rate-limit entry always goes. When the
        socket has an active participant row it departs; otherwise nothing
        else changes. Afterwards the socket has no active row. */
    method Disconnect(socketId: string, now: int)
      requires Valid()
      modifies this, rooms, members
      ensures Valid()
      ensures translationCounts == old(translationCounts) - {socketId} && translationLog == old(translationLog)
      ensures ParticipantModel.FindBySocketId(old(members.rows), socketId).None? ==>
                outbox == old(outbox) && rooms.rows == old(rooms.rows) && members.rows == old(members.rows)
      ensures ParticipantModel.FindBySocketId(old(members.rows), socketId).Some? ==>
                var p := old(members.rows)[ParticipantModel.FindBySocketId(old(members.rows), socketId).value];
                && RoomModel.FindById(old(rooms.rows), p.roomId).Some?
                && var j := RoomModel.FindById(old(rooms.rows), p.roomId).value;
                   && members.rows == old(members.rows)[ParticipantModel.FindBySocketId(old(members.rows), socketId).value
                                                         := ParticipantModel.Left(p, now)]
                   && rooms.rows == old(rooms.rows)[j := RoomModel.Decremented(old(rooms.rows)[j])]
                   && outbox == old(outbox) + [Emit(ToRoomExcept(old(rooms.rows)[j].roomCode, socketId), UserLeft(socketId))]
      ensures ParticipantModel.FindBySocketId(members.rows, socketId).None?
    {
      translationCounts := translationCounts - {socketId};
      var found := ParticipantModel.FindBySocketId(members.rows, socketId);
      if found.Some? {
        Depart(found.value, now);
      }
    }
  }
}
