/**
 * The in-memory `rooms` table shared by every socket handler (socketHandler.js:20):
 * room id to `{users, videoState, currentVideo}`. Both handler modules receive the
 * one `RoomStore` object and update it in place.
 */
module Store {
  import opened Domain
  import opened Users

  /** The room exists and holds a user with the sender's id (`rooms[roomId]` and `users.find`). */
  predicate Present(rooms: map<RoomId, Room>, roomId: RoomId, sender: SocketId) {
    roomId in rooms && HasUser(rooms[roomId].users, sender)
  }

  /** A block list, once created, holds no id twice and no falsy id. */
  ghost predicate BlockListOk(u: User) {
    u.blockedVoiceUsers.Some? ==>
      NoDuplicates(u.blockedVoiceUsers.value) &&
      forall k :: 0 <= k < |u.blockedVoiceUsers.value| ==> Truthy(u.blockedVoiceUsers.value[k])
  }

  /** What every room kept in the table satisfies. */
  ghost predicate RoomValid(id: RoomId, room: Room) {
    && room.users != []
    && UniqueIds(room.users)
    && forall k :: 0 <= k < |room.users| ==> room.users[k].roomId == id && BlockListOk(room.users[k])
  }

  /** Replacing one user record by one with the same id, room and a sound block list keeps a room valid. */
  lemma ReplaceUserKeepsRoomValid(id: RoomId, room: Room, i: nat, u: User)
    requires RoomValid(id, room) && i < |room.users|
    requires u.id == room.users[i].id && u.roomId == id && BlockListOk(u)
    ensures RoomValid(id, room.(users := room.users[i := u]))
  {
    SameIdsLookups(room.users, room.users[i := u], u.id);
  }

  /** Inserting or replacing a fresh record of the room keeps the room valid (and makes an empty one valid). */
  lemma UpsertKeepsRoomValid(id: RoomId, room: Room, u: User)
    requires room.users == [] || RoomValid(id, room)
    requires u.roomId == id && u.blockedVoiceUsers == None
    ensures RoomValid(id, room.(users := Upsert(room.users, u)))
  {
    var r := Upsert(room.users, u);
    assert UniqueIds(room.users);
    UpsertOnlyRecord(room.users, u);
    forall k | 0 <= k < |r|
      ensures r[k].roomId == id && BlockListOk(r[k])
    {
      if r[k].id != u.id {
        assert r[k] == room.users[k];
      }
    }
  }

  /** `delete` of a key: the key is gone from the creation order, the others keep theirs. */
  function RemoveKey(order: seq<RoomId>, key: RoomId): (r: seq<RoomId>)
    ensures forall x :: x in r <==> x in order && x != key
    ensures NoDuplicates(order) ==> NoDuplicates(r)
    ensures key !in order ==> r == order
    ensures forall i :: 0 <= i < |order| && order[i] == key && NoDuplicates(order) ==> r == order[..i] + order[i + 1..]
  {
    if order == [] then []
    else
      var rest := RemoveKey(order[1..], key);
      assert NoDuplicates(order) ==> NoDuplicates(order[1..]) && order[0] !in order[1..];
      (if order[0] == key then [] else [order[0]]) + rest
  }

  /**
   * The table's invariant: the creation order lists each key once and exactly the keys
   * of the table, no stored room is empty or keyed by a falsy id, user ids are unique
   * within a room, and each user record names the room it is in.
   */
  ghost predicate TableValid(rooms: map<RoomId, Room>, keyOrder: seq<RoomId>) {
    && NoDuplicates(keyOrder)
    && (forall id :: id in rooms <==> id in keyOrder)
    && (forall id :: id in rooms ==> Truthy(id) && RoomValid(id, rooms[id]))
  }

  /** Storing a valid room under a truthy key, new keys going last, keeps the table valid. */
  lemma PutRoomKeepsValid(rooms: map<RoomId, Room>, keyOrder: seq<RoomId>, id: RoomId, room: Room)
    requires TableValid(rooms, keyOrder) && Truthy(id) && RoomValid(id, room)
    ensures TableValid(rooms[id := room], if id in rooms then keyOrder else keyOrder + [id])
  {
  }

  /**
   * Taking user `i` out of room `roomId` keeps the table valid, provided the room is
   * deleted, key and all, once it has no users left.
   */
  lemma RemoveUserKeepsValid(rooms: map<RoomId, Room>, keyOrder: seq<RoomId>, roomId: RoomId, i: nat)
    requires TableValid(rooms, keyOrder) && roomId in rooms && i < |rooms[roomId].users|
    ensures var room := rooms[roomId];
      var rest := RemoveAt(room.users, i);
      && (rest == [] ==> TableValid(rooms - {roomId}, RemoveKey(keyOrder, roomId)))
      && (rest != [] ==> TableValid(rooms[roomId := room.(users := rest)], keyOrder))
  {
    var room := rooms[roomId];
    var rest := RemoveAt(room.users, i);
    if rest != [] {
      assert RoomValid(roomId, room.(users := rest)) by {
        forall k | 0 <= k < |rest|
          ensures rest[k].roomId == roomId && BlockListOk(rest[k])
        {
          assert rest[k] == room.users[if k < i then k else k + 1];
        }
      }
    }
  }

  class RoomStore {
    /** The `rooms` table. */
    var rooms: map<RoomId, Room>
    /** The table's keys in the order they were created; `for ... in` depends on it. */
    var keyOrder: seq<RoomId>

    /** See `TableValid`. */
    ghost predicate Valid()
      reads this
    {
      TableValid(rooms, keyOrder)
    }

    /** `const rooms = {}`. */
    constructor ()
      ensures Valid()
      ensures rooms == map[] && keyOrder == []
    {
      rooms := map[];
      keyOrder := [];
    }
  }
}
