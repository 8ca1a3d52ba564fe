/**
 * The room handlers of socketHandler.js: presence (`join-room`, `disconnect`), playback
 * synchronisation (`player-state-change`, `change-video`) and the chat broadcasts
 * (`send-message`, `send-reaction`). Each handler runs to completion on the shared
 * table and returns the emissions it made, in order.
 */
module SocketHandler {
  import opened Domain
  import opened Users
  import opened PropertyOrder
  import opened Store
  import opened VoiceHandler

  /** The record `join-room` stores: the client's name, the socket's id, the room, not in voice. */
  function JoinedRecord(sender: SocketId, name: string, roomId: RoomId): (u: User)
    ensures u.id == sender && u.roomId == roomId && u.name == name
    ensures u.voiceState == VoiceState(false, false) && u.blockedVoiceUsers == None
  {
    User(sender, name, roomId, VoiceState(false, false), None)
  }

  /** The room `join-room` finds or, when the key is absent, creates empty with the initial playback state. */
  function RoomOrNew(rooms: map<RoomId, Room>, roomId: RoomId): (room: Room)
    ensures roomId in rooms ==> room == rooms[roomId]
    ensures roomId !in rooms ==> room.users == [] && room.videoState == InitialVideoState && room.currentVideo == None
  {
    if roomId in rooms then rooms[roomId] else Room([], InitialVideoState, None)
  }

  /**
   * `join-room`: a falsy room id changes and emits nothing. Otherwise the room is created
   * if absent, the sender's record is inserted or replaces its earlier one in place, the
   * sender alone receives the room state (which includes it), and the rest of the room
   * is sent the new record. The socket stays in any room it joined before.
   */
  method JoinRoom(store: RoomStore, sender: SocketId, roomId: RoomId, name: string) returns (emitted: seq<Emit>)
    requires store.Valid()
    modifies store
    ensures store.Valid()
    ensures !Truthy(roomId) ==>
      store.rooms == old(store.rooms) && store.keyOrder == old(store.keyOrder) && emitted == []
    ensures Truthy(roomId) ==>
      var joined := JoinedRecord(sender, name, roomId);
      var before := RoomOrNew(old(store.rooms), roomId);
      var after := before.(users := Upsert(before.users, joined));
      && store.rooms == old(store.rooms)[roomId := after]
      && store.keyOrder == (if roomId in old(store.rooms) then old(store.keyOrder) else old(store.keyOrder) + [roomId])
      && emitted == [Emit(ToSender, RoomState(after.users, after.videoState, after.currentVideo)),
                     Emit(ToRoomExceptSender(roomId), UserJoined(joined))]
    ensures Truthy(roomId) ==> IsOnlyRecord(store.rooms[roomId].users, JoinedRecord(sender, name, roomId))
  {
    if !Truthy(roomId) {
      return [];
    }
    var userWithSocketId := User(sender, name, roomId, VoiceState(false, false), None);
    if roomId !in store.rooms {
      store.rooms := store.rooms[roomId := Room([], InitialVideoState, None)];
      store.keyOrder := store.keyOrder + [roomId];
    }
    var room := store.rooms[roomId];
    ghost var before := room;
    var existingUserIndex := IndexOf(room.users, sender);
    if existingUserIndex == -1 {
      room := room.(users := room.users + [userWithSocketId]);
    } else {
      room := room.(users := room.users[existingUserIndex := userWithSocketId]);
    }
    assert room.users == Upsert(before.users, userWithSocketId);
    UpsertOnlyRecord(before.users, userWithSocketId);
    UpsertKeepsRoomValid(roomId, before, userWithSocketId);
    PutRoomKeepsValid(old(store.rooms), old(store.keyOrder), roomId, room);
    store.rooms := store.rooms[roomId := room];
    emitted := [Emit(ToSender, RoomState(room.users, room.videoState, room.currentVideo)),
                Emit(ToRoomExceptSender(roomId), UserJoined(userWithSocketId))];
  }

  /** The list holds `u`, and `u` is its only record with `u`'s id. */
  ghost predicate IsOnlyRecord(users: seq<User>, u: User) {
    u in users && forall k :: 0 <= k < |users| && users[k].id == u.id ==> users[k] == u
  }

  /**
   * `player-state-change`: in an existing room the playback state is overwritten verbatim
   * and sent to everyone else; users and video are untouched. A missing room is a no-op.
   */
  method PlayerStateChange(store: RoomStore, roomId: RoomId, state: VideoState) returns (emitted: seq<Emit>)
    requires store.Valid()
    modifies store
    ensures store.Valid() && store.keyOrder == old(store.keyOrder)
    ensures roomId !in old(store.rooms) ==> store.rooms == old(store.rooms) && emitted == []
    ensures roomId in old(store.rooms) ==>
      && store.rooms == old(store.rooms)[roomId := old(store.rooms)[roomId].(videoState := state)]
      && emitted == [Emit(ToRoomExceptSender(roomId), PlayerStateUpdate(state))]
  {
    emitted := [];
    if roomId in store.rooms {
      store.rooms := store.rooms[roomId := store.rooms[roomId].(videoState := state)];
      emitted := [Emit(ToRoomExceptSender(roomId), PlayerStateUpdate(state))];
    }
  }

  /**
   * `change-video`: in an existing room the video is replaced and playback restarts from
   * zero at normal speed whatever it was, and the whole room, sender included, is told.
   * A missing room is a no-op.
   */
  method ChangeVideo(store: RoomStore, roomId: RoomId, video: Video) returns (emitted: seq<Emit>)
    requires store.Valid()
    modifies store
    ensures store.Valid() && store.keyOrder == old(store.keyOrder)
    ensures roomId !in old(store.rooms) ==> store.rooms == old(store.rooms) && emitted == []
    ensures roomId in old(store.rooms) ==>
      && store.rooms == old(store.rooms)[roomId := old(store.rooms)[roomId].(currentVideo := Some(video), videoState := RestartVideoState)]
      && emitted == [Emit(ToRoom(roomId), VideoChanged(video))]
  {
    emitted := [];
    if roomId in store.rooms {
      store.rooms := store.rooms[roomId := store.rooms[roomId].(currentVideo := Some(video))];
      store.rooms := store.rooms[roomId := store.rooms[roomId].(videoState := VideoState(true, 0.0, 1.0))];
      emitted := [Emit(ToRoom(roomId), VideoChanged(video))];
    }
  }

  /** `send-message`: one broadcast to the whole room, with no check that the room exists. */
  function SendMessage(roomId: RoomId, message: Message): (emitted: seq<Emit>)
    ensures emitted == [Emit(ToRoom(roomId), NewMessage(message))]
  {
    [Emit(ToRoom(roomId), NewMessage(message))]
  }

  /** `send-reaction`: one broadcast to the whole room of the reaction stamped with the sender's id. */
  function SendReaction(sender: SocketId, roomId: RoomId, reaction: Reaction): (emitted: seq<Emit>)
    ensures |emitted| == 1 && emitted[0].scope == ToRoom(roomId)
    ensures emitted[0].event == NewReaction(reaction, sender)
  {
    [Emit(ToRoom(roomId), NewReaction(reaction, sender))]
  }

  /** The first of `keys` whose room holds the sender, or `None`. */
  function FirstRoomWith(rooms: map<RoomId, Room>, keys: seq<RoomId>, sender: SocketId): (r: Option<RoomId>)
    ensures r.None? <==> forall k :: 0 <= k < |keys| ==> !Present(rooms, keys[k], sender)
    ensures r.Some? ==> exists i :: 0 <= i < |keys| && keys[i] == r.value && Present(rooms, keys[i], sender) &&
                                  (forall j :: 0 <= j < i ==> !Present(rooms, keys[j], sender))
  {
    if keys == [] then None
    else if Present(rooms, keys[0], sender) then Some(keys[0])
    else
      var r := FirstRoomWith(rooms, keys[1..], sender);
      assert forall k :: 1 <= k < |keys| ==> keys[k] == keys[1..][k - 1];
      if r.Some? then
        var i :| 0 <= i < |keys[1..]| && keys[1..][i] == r.value && Present(rooms, keys[1..][i], sender) &&
                 (forall j :: 0 <= j < i ==> !Present(rooms, keys[1..][j], sender));
        assert keys[i + 1] == r.value;
        r
      else r
  }

  /** The first key whose room holds the sender is the one `FirstRoomWith` finds. */
  lemma {:induction false} FirstRoomWithIs(rooms: map<RoomId, Room>, keys: seq<RoomId>, n: nat, sender: SocketId)
    requires n < |keys| && Present(rooms, keys[n], sender)
    requires forall j :: 0 <= j < n ==> !Present(rooms, keys[j], sender)
    ensures FirstRoomWith(rooms, keys, sender) == Some(keys[n])
  {
    if n > 0 {
      assert forall j :: 0 <= j < n - 1 ==> keys[1..][j] == keys[j + 1];
      FirstRoomWithIs(rooms, keys[1..], n - 1, sender);
    }
  }

  /**
   * The body of `disconnect` for the room found to hold the departing user at position
   * `i`: `splice` it out, tell the room it left (and left voice, if it was in voice), and
   * `delete` the room once it has no users.
   */
  method RemoveFromRoom(store: RoomStore, roomId: RoomId, i: nat) returns (emitted: seq<Emit>)
    requires store.Valid() && roomId in store.rooms && i < |store.rooms[roomId].users|
    modifies store
    ensures store.Valid()
    ensures var room := old(store.rooms)[roomId];
      var rest := RemoveAt(room.users, i);
      var departing := room.users[i];
      && (rest == [] ==> store.rooms == old(store.rooms) - {roomId} && store.keyOrder == RemoveKey(old(store.keyOrder), roomId))
      && (rest != [] ==> store.rooms == old(store.rooms)[roomId := room.(users := rest)] && store.keyOrder == old(store.keyOrder))
      && !Present(store.rooms, roomId, departing.id)
      && emitted == [Emit(ToRoom(roomId), UserLeft(departing.id))] +
                    (if departing.voiceState.isJoined then HandleVoiceDisconnect(roomId, departing.id) else [])
  {
    var room := store.rooms[roomId];
    var departingUser := room.users[i];
    var rest := RemoveAt(room.users, i);
    assert UniqueIds(room.users) by {
      assert RoomValid(roomId, room);
    }
    assert !HasUser(rest, departingUser.id);
    RemoveUserKeepsValid(store.rooms, store.keyOrder, roomId, i);
    emitted := [Emit(ToRoom(roomId), UserLeft(departingUser.id))];
    if departingUser.voiceState.isJoined {
      emitted := emitted + HandleVoiceDisconnect(roomId, departingUser.id);
    }
    if |rest| == 0 {
      store.rooms, store.keyOrder := store.rooms - {roomId}, RemoveKey(store.keyOrder, roomId);
    } else {
      store.rooms := store.rooms[roomId := room.(users := rest)];
    }
  }

  /**
   * `disconnect`: the rooms are visited in `for ... in` order and the sender is removed
   * from the first one that holds it, and from no other. That room is told `user-left`,
   * then `user-left-voice` if the removed record was in voice, and it is deleted when it
   * has no users left.
   */
  method Disconnect(store: RoomStore, sender: SocketId) returns (emitted: seq<Emit>)
    requires store.Valid()
    modifies store
    ensures store.Valid()
    ensures FirstRoomWith(old(store.rooms), Enumeration(old(store.keyOrder)), sender).None? ==>
      store.rooms == old(store.rooms) && store.keyOrder == old(store.keyOrder) && emitted == []
    ensures FirstRoomWith(old(store.rooms), Enumeration(old(store.keyOrder)), sender).Some? ==>
      var roomId := FirstRoomWith(old(store.rooms), Enumeration(old(store.keyOrder)), sender).value;
      var room := old(store.rooms)[roomId];
      var i := IndexOf(room.users, sender);
      var rest := RemoveAt(room.users, i);
      && (rest == [] ==> store.rooms == old(store.rooms) - {roomId} && store.keyOrder == RemoveKey(old(store.keyOrder), roomId))
      && (rest != [] ==> store.rooms == old(store.rooms)[roomId := room.(users := rest)] && store.keyOrder == old(store.keyOrder))
      && !Present(store.rooms, roomId, sender)
      && emitted == [Emit(ToRoom(roomId), UserLeft(sender))] +
                    (if room.users[i].voiceState.isJoined then HandleVoiceDisconnect(roomId, sender) else [])
  {
    var keys := Enumeration(store.keyOrder);
    emitted := [];
    var n := 0;
    while n < |keys|
      invariant 0 <= n <= |keys|
      invariant forall j :: 0 <= j < n ==> !Present(store.rooms, keys[j], sender)
      invariant store.rooms == old(store.rooms) && store.keyOrder == old(store.keyOrder) && emitted == []
    {
      var roomId := keys[n];
      var room := store.rooms[roomId];
      var userIndex := IndexOf(room.users, sender);
      if userIndex != -1 {
        FirstRoomWithIs(store.rooms, keys, n, sender);
        emitted := RemoveFromRoom(store, roomId, userIndex);
        break;
      }
      n := n + 1;
    }
  }
}
