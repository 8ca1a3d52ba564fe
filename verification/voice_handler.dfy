/**
 * The voice-chat handlers of voiceHandler.js: per-user voice state and block list in the
 * shared table, the roster sent to a joiner, and the pass-through relay of the WebRTC
 * offer and answer. Each handler takes the sender's socket id; a missing room or user
 * makes it a silent no-op except where noted.
 */
module VoiceHandler {
  import opened Domain
  import opened Users
  import opened Store

  /** The sender's record in a room where it is present. */
  function SenderRecord(rooms: map<RoomId, Room>, roomId: RoomId, sender: SocketId): (u: User)
    requires Present(rooms, roomId, sender)
    ensures u in rooms[roomId].users && u.id == sender
  {
    rooms[roomId].users[IndexOf(rooms[roomId].users, sender)]
  }

  /**
   * The rooms table after the sender's record in `roomId` is replaced by `u`: the in-place
   * write through the object `find` returned, which changes nothing else.
   */
  function WithSenderRecord(rooms: map<RoomId, Room>, roomId: RoomId, sender: SocketId, u: User): (r: map<RoomId, Room>)
    requires Present(rooms, roomId, sender)
    ensures r.Keys == rooms.Keys
    ensures forall id :: id in rooms && id != roomId ==> r[id] == rooms[id]
    ensures r[roomId].videoState == rooms[roomId].videoState && r[roomId].currentVideo == rooms[roomId].currentVideo
    ensures |r[roomId].users| == |rooms[roomId].users|
    ensures r[roomId].users[IndexOf(rooms[roomId].users, sender)] == u
    ensures forall k :: 0 <= k < |rooms[roomId].users| && k != IndexOf(rooms[roomId].users, sender) ==>
      r[roomId].users[k] == rooms[roomId].users[k]
  {
    var room := rooms[roomId];
    rooms[roomId := room.(users := room.users[IndexOf(room.users, sender) := u])]
  }

  /**
   * `join-voice-chat`: the sender enters voice unmuted, its block list is created if it
   * never was, and the sender alone receives the roster of the other users already in
   * voice, each flagged by the sender's own block list.
   */
  method JoinVoiceChat(store: RoomStore, sender: SocketId, roomId: RoomId) returns (emitted: seq<Emit>)
    requires store.Valid()
    modifies store
    ensures store.Valid() && store.keyOrder == old(store.keyOrder)
    ensures !Present(old(store.rooms), roomId, sender) ==> store.rooms == old(store.rooms) && emitted == []
    ensures Present(old(store.rooms), roomId, sender) ==>
      var user := SenderRecord(old(store.rooms), roomId, sender);
      var blocked := BlockedList(user);
      && store.rooms == WithSenderRecord(old(store.rooms), roomId, sender,
           user.(voiceState := VoiceState(true, false), blockedVoiceUsers := Some(blocked)))
      && emitted == [Emit(ToSender, AllVoiceUsers(Roster(OthersInVoice(old(store.rooms)[roomId].users, sender), blocked)))]
  {
    if roomId !in store.rooms {
      return [];
    }
    var room := store.rooms[roomId];
    var i := IndexOf(room.users, sender);
    if i == -1 {
      return [];
    }
    var user := room.users[i];
    var otherUsersInVoice := OthersInVoice(room.users, sender);
    if user.blockedVoiceUsers.None? {
      user := user.(blockedVoiceUsers := Some([]));
    }
    user := user.(voiceState := VoiceState(true, false));
    ReplaceUserKeepsRoomValid(roomId, room, i, user);
    store.rooms := store.rooms[roomId := room.(users := room.users[i := user])];
    emitted := [Emit(ToSender, AllVoiceUsers(Roster(otherUsersInVoice, user.blockedVoiceUsers.value)))];
  }

  /**
   * The roster does not depend on the sender's own record, so building it before or after
   * the sender's update gives the same list.
   */
  lemma {:induction false} OthersInVoiceIgnoresSender(users: seq<User>, i: nat, u: User)
    requires i < |users| && users[i].id == u.id
    ensures OthersInVoice(users[i := u], u.id) == OthersInVoice(users, u.id)
  {
    if i > 0 {
      assert users[i := u][1..] == users[1..][i - 1 := u];
      OthersInVoiceIgnoresSender(users[1..], i - 1, u);
    } else {
      assert users[i := u][1..] == users[1..];
    }
  }

  /**
   * `voice-state-change`: only `isMuted` of the sender's voice state changes, whether or
   * not the sender is in voice, and the others in the room are told the new state.
   */
  method VoiceStateChange(store: RoomStore, sender: SocketId, roomId: RoomId, isMuted: bool) returns (emitted: seq<Emit>)
    requires store.Valid()
    modifies store
    ensures store.Valid() && store.keyOrder == old(store.keyOrder)
    ensures !Present(old(store.rooms), roomId, sender) ==> store.rooms == old(store.rooms) && emitted == []
    ensures Present(old(store.rooms), roomId, sender) ==>
      var user := SenderRecord(old(store.rooms), roomId, sender);
      var voiceState := user.voiceState.(isMuted := isMuted);
      && store.rooms == WithSenderRecord(old(store.rooms), roomId, sender, user.(voiceState := voiceState))
      && emitted == [Emit(ToRoomExceptSender(roomId), UserVoiceStateUpdated(sender, voiceState))]
  {
    if roomId !in store.rooms {
      return [];
    }
    var room := store.rooms[roomId];
    var i := IndexOf(room.users, sender);
    if i == -1 {
      return [];
    }
    var user := room.users[i];
    user := user.(voiceState := user.voiceState.(isMuted := isMuted));
    ReplaceUserKeepsRoomValid(roomId, room, i, user);
    store.rooms := store.rooms[roomId := room.(users := room.users[i := user])];
    emitted := [Emit(ToRoomExceptSender(roomId), UserVoiceStateUpdated(sender, user.voiceState))];
  }

  /**
   * `block-voice-user`: adds the target to the sender's block list unless it is already
   * there, creating the list if needed; emits nothing. A falsy target, a missing room or
   * a missing sender change nothing.
   */
  method BlockVoiceUser(store: RoomStore, sender: SocketId, roomId: RoomId, blockedUserId: SocketId) returns (emitted: seq<Emit>)
    requires store.Valid()
    modifies store
    ensures store.Valid() && store.keyOrder == old(store.keyOrder)
    ensures emitted == []
    ensures !(Present(old(store.rooms), roomId, sender) && Truthy(blockedUserId)) ==> store.rooms == old(store.rooms)
    ensures Present(old(store.rooms), roomId, sender) && Truthy(blockedUserId) ==>
      var user := SenderRecord(old(store.rooms), roomId, sender);
      store.rooms == WithSenderRecord(old(store.rooms), roomId, sender,
        user.(blockedVoiceUsers := Some(AddBlocked(user.blockedVoiceUsers, blockedUserId))))
  {
    emitted := [];
    if roomId !in store.rooms || !Truthy(blockedUserId) {
      return;
    }
    var room := store.rooms[roomId];
    var i := IndexOf(room.users, sender);
    if i == -1 {
      return;
    }
    var blockingUser := room.users[i];
    var list := blockingUser.blockedVoiceUsers.GetOr([]);
    if blockedUserId !in list {
      list := list + [blockedUserId];
    }
    blockingUser := blockingUser.(blockedVoiceUsers := Some(list));
    ReplaceUserKeepsRoomValid(roomId, room, i, blockingUser);
    store.rooms := store.rooms[roomId := room.(users := room.users[i := blockingUser])];
  }

  /**
   * Blocking is one-sided: after `a` blocks `b`, `a`'s roster flags `b`, while `b`'s
   * roster, which only `b`'s own list decides, is exactly what it was before.
   */
  lemma BlockingIsAsymmetric(users: seq<User>, ia: nat, ib: nat)
    requires UniqueIds(users) && ia < |users| && ib < |users| && ia != ib
    requires users[ib].voiceState.isJoined
    ensures var a, b := users[ia], users[ib];
      var after := users[ia := a.(blockedVoiceUsers := Some(AddBlocked(a.blockedVoiceUsers, b.id)))];
      && PeerOf(b, BlockedList(after[ia])) in Roster(OthersInVoice(after, a.id), BlockedList(after[ia]))
      && PeerOf(b, BlockedList(after[ia])).isBlockedByYou
      && BlockedList(after[ib]) == BlockedList(b)
      && Roster(OthersInVoice(after, b.id), BlockedList(after[ib])) == Roster(OthersInVoice(users, b.id), BlockedList(b))
  {
    var a, b := users[ia], users[ib];
    var after := users[ia := a.(blockedVoiceUsers := Some(AddBlocked(a.blockedVoiceUsers, b.id)))];
    assert after[ib] == b && b.id != a.id;
    RosterIsOtherVoiceUsers(after, a.id, BlockedList(after[ia]));
    assert SameButBlockLists(after, users);
    RosterIgnoresBlockLists(after, users, b.id, BlockedList(b));
  }

  /**
   * `get-blocked-voice-users`: changes nothing; the sender alone is sent its block list,
   * or an empty list if it never had one.
   */
  function GetBlockedVoiceUsers(rooms: map<RoomId, Room>, sender: SocketId, roomId: RoomId): (emitted: seq<Emit>)
    ensures |emitted| <= 1
    ensures emitted != [] <==> Present(rooms, roomId, sender)
    ensures emitted != [] ==>
      emitted[0].scope == ToSender && emitted[0].event.BlockedVoiceUsersList? &&
      var user := SenderRecord(rooms, roomId, sender);
      (user.blockedVoiceUsers.None? ==> emitted[0].event.blockedUserIds == []) &&
      (user.blockedVoiceUsers.Some? ==> emitted[0].event.blockedUserIds == user.blockedVoiceUsers.value)
  {
    if !Present(rooms, roomId, sender) then []
    else [Emit(ToSender, BlockedVoiceUsersList(BlockedList(SenderRecord(rooms, roomId, sender))))]
  }

  /**
   * After a successful block, the list the sender is sent back contains the target and
   * everything it held before, in the same order.
   */
  lemma BlockThenListed(rooms: map<RoomId, Room>, sender: SocketId, roomId: RoomId, target: SocketId)
    requires Present(rooms, roomId, sender) && UniqueIds(rooms[roomId].users)
    ensures var user := SenderRecord(rooms, roomId, sender);
      var after := WithSenderRecord(rooms, roomId, sender, user.(blockedVoiceUsers := Some(AddBlocked(user.blockedVoiceUsers, target))));
      var reply := GetBlockedVoiceUsers(after, sender, roomId);
      && |reply| == 1
      && target in reply[0].event.blockedUserIds
      && BlockedList(user) == reply[0].event.blockedUserIds[..|BlockedList(user)|]
  {
    var users := rooms[roomId].users;
    var i := IndexOf(users, sender);
    var user := users[i];
    var u := user.(blockedVoiceUsers := Some(AddBlocked(user.blockedVoiceUsers, target)));
    SameIdsLookups(users, users[i := u], sender);
  }

  /**
   * `sending-signal`: the offer is forwarded untouched to the one addressed socket, with
   * the caller id and name the payload carries; nothing is stored.
   */
  function SendingSignal(userToSignal: SocketId, signal: Signal, callerId: SocketId, callerName: string): (emitted: seq<Emit>)
    ensures |emitted| == 1 && emitted[0].scope == ToSocket(userToSignal)
    ensures emitted[0].event == UserJoinedVoice(signal, callerId, callerName)
  {
    [Emit(ToSocket(userToSignal), UserJoinedVoice(signal, callerId, callerName))]
  }

  /**
   * `returning-signal`: the answer is forwarded untouched to the caller named in the
   * payload, stamped with the sender's id; nothing is stored.
   */
  function ReturningSignal(sender: SocketId, callerId: SocketId, signal: Signal): (emitted: seq<Emit>)
    ensures |emitted| == 1 && emitted[0].scope == ToSocket(callerId)
    ensures emitted[0].event.ReceivingReturnedSignal? && emitted[0].event.signal == signal && emitted[0].event.id == sender
  {
    [Emit(ToSocket(callerId), ReceivingReturnedSignal(signal, sender))]
  }

  /**
   * The two relays complete a handshake: when `b` answers the offer it received from
   * `a`, using the caller id the offer carried, the answer reaches `a` stamped with `b`'s
   * id and with `b`'s signal untouched.
   */
  lemma SignalRoundTrip(a: SocketId, b: SocketId, offer: Signal, answer: Signal, name: string)
    ensures var received := SendingSignal(b, offer, a, name)[0];
      var returned := ReturningSignal(b, received.event.callerId, answer)[0];
      && received.scope == ToSocket(b) && received.event.signal == offer
      && returned.scope == ToSocket(a) && returned.event == ReceivingReturnedSignal(answer, b)
  {
  }

  /**
   * `leave-voice-chat`: in an existing room the sender's `isJoined` is cleared (its mute
   * flag stays), and the whole room, sender included, is told, even when the sender is
   * not among the room's users.
   */
  method LeaveVoiceChat(store: RoomStore, sender: SocketId, roomId: RoomId) returns (emitted: seq<Emit>)
    requires store.Valid()
    modifies store
    ensures store.Valid() && store.keyOrder == old(store.keyOrder)
    ensures roomId !in old(store.rooms) ==> store.rooms == old(store.rooms) && emitted == []
    ensures roomId in old(store.rooms) ==> emitted == [Emit(ToRoom(roomId), UserLeftVoice(sender))]
    ensures roomId in old(store.rooms) && !Present(old(store.rooms), roomId, sender) ==> store.rooms == old(store.rooms)
    ensures Present(old(store.rooms), roomId, sender) ==>
      var user := SenderRecord(old(store.rooms), roomId, sender);
      store.rooms == WithSenderRecord(old(store.rooms), roomId, sender,
        user.(voiceState := user.voiceState.(isJoined := false)))
  {
    if roomId !in store.rooms {
      return [];
    }
    var room := store.rooms[roomId];
    var i := IndexOf(room.users, sender);
    if i != -1 {
      var user := room.users[i];
      user := user.(voiceState := user.voiceState.(isJoined := false));
      ReplaceUserKeepsRoomValid(roomId, room, i, user);
      store.rooms := store.rooms[roomId := room.(users := room.users[i := user])];
    }
    emitted := [Emit(ToRoom(roomId), UserLeftVoice(sender))];
  }

  /**
   * `handleVoiceDisconnect`: one `user-left-voice` for the departed user to the whole
   * room; it reads no state, since the user's record is already gone.
   */
  function HandleVoiceDisconnect(roomId: RoomId, userId: SocketId): (emitted: seq<Emit>)
    ensures |emitted| == 1 && emitted[0] == Emit(ToRoom(roomId), UserLeftVoice(userId))
  {
    [Emit(ToRoom(roomId), UserLeftVoice(userId))]
  }
}
