/**
 * Two sessions driven through the handlers, checked against the handlers' contracts
 * alone: a watch-together session from first join to last disconnect, a socket in two
 * rooms, and a voice session with a block.
 */
module Scenarios {
  import opened Domain
  import opened Users
  import opened Store
  import opened VoiceHandler
  import opened SocketHandler

  const Ann := JoinedRecord("c1", "Ann", "R1")
  const Bob := JoinedRecord("c2", "Bob", "R1")

  /** Two users join one room, neither in voice yet. */
  method TwoInRoom() returns (store: RoomStore)
    ensures fresh(store) && store.Valid() && store.keyOrder == ["R1"]
    ensures store.rooms == map["R1" := Room([Ann, Bob], InitialVideoState, None)]
  {
    store := OneInRoom();
    var e := JoinRoom(store, "c2", "R1", "Bob");
    assert IndexOf([Ann], "c2") == -1;
    assert Upsert([Ann], Bob) == [Ann, Bob];
    assert e[1] == Emit(ToRoomExceptSender("R1"), UserJoined(Bob));
  }

  /** The first joiner creates the room and is sent its initial state. */
  method OneInRoom() returns (store: RoomStore)
    ensures fresh(store) && store.Valid() && store.keyOrder == ["R1"]
    ensures store.rooms == map["R1" := Room([Ann], InitialVideoState, None)]
  {
    store := new RoomStore();
    var e := JoinRoom(store, "c1", "R1", "Ann");
    assert Upsert([], Ann) == [Ann];
    assert e[0] == Emit(ToSender, RoomState([Ann], InitialVideoState, None));
  }

  /** Where `disconnect` looks in a table whose only key is "R1", and what it finds there. */
  lemma OneRoomLookups()
    ensures PropertyOrder.Enumeration(["R1"]) == ["R1"]
    ensures IndexOf([Ann, Bob], "c1") == 0 && RemoveAt([Ann, Bob], 0) == [Bob]
    ensures IndexOf([Bob], "c2") == 0 && RemoveAt([Bob], 0) == []
  {
    NoIndexKeys();
  }

  /** Neither room id is an array index, so `for ... in` keeps them in creation order. */
  lemma NoIndexKeys()
    ensures PropertyOrder.Enumeration(["R1"]) == ["R1"]
    ensures PropertyOrder.Enumeration(["R1", "R2"]) == ["R1", "R2"]
  {
    assert !PropertyOrder.IsArrayIndex("R1") && !PropertyOrder.IsArrayIndex("R2");
    assert PropertyOrder.KeysWhere(["R1"], true) == [] && PropertyOrder.KeysWhere(["R1"], false) == ["R1"];
    assert PropertyOrder.KeysWhere(["R2"], true) == [] && PropertyOrder.KeysWhere(["R2"], false) == ["R2"];
    assert ["R1", "R2"][1..] == ["R2"];
    assert PropertyOrder.KeysWhere(["R1", "R2"], true) == [];
    assert PropertyOrder.KeysWhere(["R1", "R2"], false) == ["R1", "R2"];
  }

  method WatchTogether() {
    var store := TwoInRoom();

    // c1 picks a video: everyone, c1 included, restarts it from zero.
    var e := ChangeVideo(store, "R1", Video("youtube", "abc"));
    assert e == [Emit(ToRoom("R1"), VideoChanged(Video("youtube", "abc")))];
    assert store.rooms["R1"].videoState.time == 0.0;

    // c2 seeks: only the others hear of it.
    e := PlayerStateChange(store, "R1", VideoState(true, 42.0, 1.0));
    assert e == [Emit(ToRoomExceptSender("R1"), PlayerStateUpdate(VideoState(true, 42.0, 1.0)))];
    assert store.rooms["R1"].currentVideo == Some(Video("youtube", "abc"));
    assert store.rooms["R1"].users == [Ann, Bob];
  }

  /** c1 leaves; the room survives with c2 alone, and the room is told. */
  method AnnLeaves() returns (store: RoomStore)
    ensures fresh(store) && store.Valid() && store.keyOrder == ["R1"]
    ensures store.rooms.Keys == {"R1"} && store.rooms["R1"] == Room([Bob], InitialVideoState, None)
  {
    store := TwoInRoom();
    OneRoomLookups();
    ghost var before := store.rooms;
    assert FirstRoomWith(before, ["R1"], "c1") == Some("R1");
    var e := Disconnect(store, "c1");
    assert before["R1"].(users := [Bob]) == Room([Bob], InitialVideoState, None);
    assert e == [Emit(ToRoom("R1"), UserLeft("c1"))];
  }

  /** The last one out closes the room; afterwards only chat still reaches "R1". */
  method LastOneOut() {
    var store := AnnLeaves();
    OneRoomLookups();
    var e := Disconnect(store, "c2");
    assert e == [Emit(ToRoom("R1"), UserLeft("c2"))];
    assert store.rooms == map[] && store.keyOrder == [];

    e := PlayerStateChange(store, "R1", VideoState(false, 1.0, 2.0));
    assert e == [] && store.rooms == map[];
    assert SendMessage("R1", "hi") == [Emit(ToRoom("R1"), NewMessage("hi"))];
  }

  /** The same user's record in a second room "R2". */
  const AnnInR2 := JoinedRecord("c1", "Ann", "R2")

  /** c1 also joins "R2", without leaving "R1". */
  method InTwoRooms() returns (store: RoomStore)
    ensures fresh(store) && store.Valid() && store.keyOrder == ["R1", "R2"]
    ensures store.rooms == map["R1" := Room([Ann], InitialVideoState, None), "R2" := Room([AnnInR2], InitialVideoState, None)]
  {
    store := OneInRoom();
    var e := JoinRoom(store, "c1", "R2", "Ann");
    assert Upsert([], AnnInR2) == [AnnInR2];
  }

  /** `for ... in` over "R1" then "R2" visits them in that order and finds c1 first in "R1". */
  lemma TwoRoomLookups()
    ensures PropertyOrder.Enumeration(["R1", "R2"]) == ["R1", "R2"]
    ensures IndexOf([Ann], "c1") == 0 && RemoveAt([Ann], 0) == []
    ensures RemoveKey(["R1", "R2"], "R1") == ["R2"]
  {
    NoIndexKeys();
    assert ["R1", "R2"][0] == "R1";
  }

  /**
   * `join-room` does not leave the sender's earlier room and `disconnect` cleans up only
   * the first room holding the sender, so a socket that joined two rooms stays listed in
   * the second after it is gone.
   */
  method StaleRecordInSecondRoom() {
    var store := InTwoRooms();
    TwoRoomLookups();
    var e := Disconnect(store, "c1");
    assert e == [Emit(ToRoom("R1"), UserLeft("c1"))];
    assert store.keyOrder == ["R2"];
    assert store.rooms["R2"].users == [AnnInR2];
  }

  method VoiceRoster() {
    var store := TwoInRoom();
    assert IndexOf([Ann, Bob], "c1") == 0;

    // The first one in voice hears of nobody.
    var e := JoinVoiceChat(store, "c1", "R1");
    assert OthersInVoice([Ann, Bob], "c1") == [];
    assert e == [Emit(ToSender, AllVoiceUsers([]))];
    var annInVoice := Ann.(voiceState := VoiceState(true, false), blockedVoiceUsers := Some([]));
    assert store.rooms["R1"].users == [annInVoice, Bob];

    // The second one is told of the first, not blocked.
    assert IndexOf([annInVoice, Bob], "c2") == 1;
    e := JoinVoiceChat(store, "c2", "R1");
    assert OthersInVoice([annInVoice, Bob], "c2") == [annInVoice];
    assert Roster([annInVoice], []) == [PeerOf(annInVoice, [])];
    assert e == [Emit(ToSender, AllVoiceUsers([VoicePeer("c1", "Ann", VoiceState(true, false), false)]))];
  }

  method BlockAndLeave() {
    var store := TwoInRoom();
    assert IndexOf([Ann, Bob], "c1") == 0 && IndexOf([Ann, Bob], "c2") == 1;

    // c2 blocks c1; no one is told, and asking back shows it.
    var e := BlockVoiceUser(store, "c2", "R1", "c1");
    assert e == [];
    var bobBlocking := Bob.(blockedVoiceUsers := Some(["c1"]));
    assert store.rooms["R1"].users == [Ann, bobBlocking];
    assert IndexOf([Ann, bobBlocking], "c2") == 1;
    assert GetBlockedVoiceUsers(store.rooms, "c2", "R1") == [Emit(ToSender, BlockedVoiceUsersList(["c1"]))];
    assert GetBlockedVoiceUsers(store.rooms, "c1", "R1") == [Emit(ToSender, BlockedVoiceUsersList([]))];

    // Leaving voice is announced to the whole room even by someone who never joined it.
    assert IndexOf([Ann, bobBlocking], "c1") == 0;
    e := LeaveVoiceChat(store, "c1", "R1");
    assert e == [Emit(ToRoom("R1"), UserLeftVoice("c1"))];
    assert store.rooms["R1"].users == [Ann, bobBlocking];
  }
}
