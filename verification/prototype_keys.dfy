/**
 * How `rooms[roomId]` behaves on the plain object `{}` of socketHandler.js:20 when
 * `roomId` names a property every object inherits from `Object.prototype`: the lookup
 * yields that inherited member, which is truthy, so `join-room` skips creating the room
 * and then reads `.users.findIndex` of a value whose `users` is undefined, which throws a
 * TypeError. The rest of the model tests own keys only (`roomId in rooms`), which is what
 * the handler evidently means.
 */
module PrototypeKeys {
  import opened Domain
  import opened Users
  import SocketHandler

  /** The property names of `Object.prototype`, inherited by `{}`. */
  const ObjectPrototypeKeys: set<string> := {
    "constructor", "__proto__", "toString", "toLocaleString", "valueOf", "hasOwnProperty",
    "isPrototypeOf", "propertyIsEnumerable", "__defineGetter__", "__defineSetter__",
    "__lookupGetter__", "__lookupSetter__"}

  /** What `rooms[key]` evaluates to on a plain object. */
  datatype Lookup = OwnRoom(room: Room) | InheritedMember | Undefined

  function LookupAsWritten(rooms: map<RoomId, Room>, key: RoomId): (r: Lookup)
    ensures r.OwnRoom? <==> key in rooms
    ensures r.InheritedMember? <==> key !in rooms && key in ObjectPrototypeKeys
    ensures r.OwnRoom? ==> r.room == rooms[key]
  {
    if key in rooms then OwnRoom(rooms[key])
    else if key in ObjectPrototypeKeys then InheritedMember
    else Undefined
  }

  /** A handler either runs to completion with a new table, or throws. */
  datatype Outcome = Completed(rooms: map<RoomId, Room>) | ThrewTypeError

  /** The table update of `join-room` as written, with the truthiness test on the inherited lookup. */
  function JoinRoomAsWritten(rooms: map<RoomId, Room>, sender: SocketId, roomId: RoomId, name: string): (r: Outcome)
    ensures !Truthy(roomId) ==> r == Completed(rooms)
    ensures Truthy(roomId) && roomId in ObjectPrototypeKeys && roomId !in rooms ==> r == ThrewTypeError
    ensures Truthy(roomId) && !(roomId in ObjectPrototypeKeys && roomId !in rooms) ==>
      var joined := SocketHandler.JoinedRecord(sender, name, roomId);
      var before := SocketHandler.RoomOrNew(rooms, roomId);
      r == Completed(rooms[roomId := before.(users := Upsert(before.users, joined))])
  {
    var joined := SocketHandler.JoinedRecord(sender, name, roomId);
    if !Truthy(roomId) then Completed(rooms)
    else
      match LookupAsWritten(rooms, roomId)
      case Undefined => Completed(rooms[roomId := Room(Upsert([], joined), InitialVideoState, None)])
      case OwnRoom(room) => Completed(rooms[roomId := room.(users := Upsert(room.users, joined))])
      // `rooms[roomId].users` is undefined, so `.findIndex(...)` throws.
      case InheritedMember => ThrewTypeError
  }

  /** A client joining room "constructor" makes the handler throw instead of creating the room. */
  lemma JoinRoomConstructorThrows()
    ensures JoinRoomAsWritten(map[], "c1", "constructor", "Ann") == ThrewTypeError
  {
    assert "constructor" in ObjectPrototypeKeys;
  }

  /** Every inherited name that is not already a room makes `join-room` throw. */
  lemma JoinRoomThrowsOnInheritedKeys(rooms: map<RoomId, Room>, sender: SocketId, roomId: RoomId, name: string)
    requires roomId in ObjectPrototypeKeys && roomId !in rooms
    ensures JoinRoomAsWritten(rooms, sender, roomId, name) == ThrewTypeError
  {
    assert Truthy(roomId);
  }

  /**
   * For every other room id the code as written does what the own-key model
   * `SocketHandler.JoinRoom` states: the room is found or created and the record upserted.
   */
  lemma JoinRoomAsWrittenAgreesElsewhere(rooms: map<RoomId, Room>, sender: SocketId, roomId: RoomId, name: string)
    requires Truthy(roomId) && roomId !in ObjectPrototypeKeys
    ensures var joined := SocketHandler.JoinedRecord(sender, name, roomId);
      var before := SocketHandler.RoomOrNew(rooms, roomId);
      JoinRoomAsWritten(rooms, sender, roomId, name) == Completed(rooms[roomId := before.(users := Upsert(before.users, joined))])
  {
  }
}
