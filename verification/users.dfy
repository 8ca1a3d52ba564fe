/**
 * Operations on one room's `users` array: the `findIndex`/`find` lookups, the insert-or-
 * replace of `join-room`, the `splice` of `disconnect`, the `filter`/`map` that builds the
 * voice roster, and the block-list update of `block-voice-user`.
 */
module Users {
  import opened Domain

  /** Some user of the list has connection id `id`. */
  predicate HasUser(users: seq<User>, id: SocketId) {
    exists k :: 0 <= k < |users| && users[k].id == id
  }

  /** No two users of the list share a connection id. */
  ghost predicate UniqueIds(users: seq<User>) {
    forall i, j :: 0 <= i < |users| && 0 <= j < |users| && users[i].id == users[j].id ==> i == j
  }

  /** Two lists hold the same connection ids at the same positions. */
  ghost predicate SameIds(a: seq<User>, b: seq<User>) {
    |a| == |b| && forall k :: 0 <= k < |a| ==> a[k].id == b[k].id
  }

  /**
   * `users.findIndex(u => u.id === id)`: the position of the first user with that id,
   * or -1 when there is none.
   */
  function IndexOf(users: seq<User>, id: SocketId): (r: int)
    ensures -1 <= r < |users|
    ensures r == -1 <==> !HasUser(users, id)
    ensures 0 <= r ==> users[r].id == id && forall k :: 0 <= k < r ==> users[k].id != id
  {
    if users == [] then -1
    else if users[0].id == id then 0
    else
      var k := IndexOf(users[1..], id);
      if k == -1 then
        assert forall j :: 1 <= j < |users| ==> users[j] == users[1..][j - 1];
        -1
      else k + 1
  }

  /** With unique ids, the position of a user's id is that user's position. */
  lemma IndexOfUnique(users: seq<User>, k: nat)
    requires UniqueIds(users) && k < |users|
    ensures IndexOf(users, users[k].id) == k
  {
    var i := IndexOf(users, users[k].id);
    assert users[i].id == users[k].id;
  }

  /** Rewriting records without touching ids keeps every lookup where it was. */
  lemma SameIdsLookups(a: seq<User>, b: seq<User>, id: SocketId)
    requires SameIds(a, b)
    ensures UniqueIds(a) <==> UniqueIds(b)
    ensures HasUser(a, id) <==> HasUser(b, id)
    ensures IndexOf(a, id) == IndexOf(b, id)
  {
    if HasUser(a, id) {
      var k :| 0 <= k < |a| && a[k].id == id;
      assert b[k].id == id;
    }
    if HasUser(b, id) {
      var k :| 0 <= k < |b| && b[k].id == id;
      assert a[k].id == id;
    }
  }

  /**
   * The insert-or-replace of `join-room`: a record whose id is already present replaces
   * the first such record in place; otherwise it is appended.
   */
  function Upsert(users: seq<User>, u: User): (r: seq<User>)
    ensures |r| == if HasUser(users, u.id) then |users| else |users| + 1
    ensures IndexOf(r, u.id) == if HasUser(users, u.id) then IndexOf(users, u.id) else |users|
    ensures r[IndexOf(r, u.id)] == u
    ensures forall k :: 0 <= k < |users| && k != IndexOf(users, u.id) ==> r[k] == users[k]
    ensures UniqueIds(users) ==> UniqueIds(r)
  {
    var i := IndexOf(users, u.id);
    if i == -1 then
      var r := users + [u];
      assert r[|users|].id == u.id;
      r
    else
      var r := users[i := u];
      assert SameIds(users, r);
      SameIdsLookups(users, r, u.id);
      r
  }

  /** In a list with unique ids the upserted record is the only one with its id. */
  lemma UpsertOnlyRecord(users: seq<User>, u: User)
    requires UniqueIds(users)
    ensures forall k :: 0 <= k < |Upsert(users, u)| && Upsert(users, u)[k].id == u.id ==> Upsert(users, u)[k] == u
  {
    var r := Upsert(users, u);
    forall k | 0 <= k < |r| && r[k].id == u.id
      ensures r[k] == u
    {
      IndexOfUnique(r, k);
    }
  }

  /** `users.splice(i, 1)`: the user at position `i` is taken out, the others keep their order. */
  function RemoveAt(users: seq<User>, i: nat): (r: seq<User>)
    requires i < |users|
    ensures |r| == |users| - 1
    ensures multiset(r) + multiset{users[i]} == multiset(users)
    ensures forall k :: 0 <= k < |r| ==> r[k] == users[if k < i then k else k + 1]
    ensures UniqueIds(users) ==> UniqueIds(r) && !HasUser(r, users[i].id)
  {
    assert users == users[..i] + [users[i]] + users[i + 1..];
    users[..i] + users[i + 1..]
  }

  /**
   * The roster filter of `join-voice-chat`: the users other than `sender` that are in
   * voice, in room order.
   */
  function OthersInVoice(users: seq<User>, sender: SocketId): (r: seq<User>)
    ensures forall v :: v in r <==> v in users && v.id != sender && v.voiceState.isJoined
    ensures |r| <= |users|
  {
    if users == [] then []
    else
      var rest := OthersInVoice(users[1..], sender);
      assert forall v :: v in users <==> v == users[0] || v in users[1..];
      if users[0].id != sender && users[0].voiceState.isJoined then [users[0]] + rest else rest
  }

  /** Filtering distributes over concatenation, so the roster keeps the room's order. */
  lemma {:induction false} OthersInVoiceAppend(a: seq<User>, b: seq<User>, sender: SocketId)
    ensures OthersInVoice(a + b, sender) == OthersInVoice(a, sender) + OthersInVoice(b, sender)
  {
    if a == [] {
      assert a + b == b;
    } else {
      assert (a + b)[1..] == a[1..] + b;
      OthersInVoiceAppend(a[1..], b, sender);
    }
  }

  /** The roster entry of `join-voice-chat` for one user, as seen by a joiner with block list `blocked`. */
  function PeerOf(u: User, blocked: seq<SocketId>): (p: VoicePeer)
    ensures p.id == u.id && p.name == u.name && p.voiceState == u.voiceState
    ensures p.isBlockedByYou <==> exists k :: 0 <= k < |blocked| && blocked[k] == u.id
  {
    VoicePeer(u.id, u.name, u.voiceState, u.id in blocked)
  }

  /** The roster map of `join-voice-chat`. */
  function Roster(others: seq<User>, blocked: seq<SocketId>): (r: seq<VoicePeer>)
    ensures |r| == |others|
    ensures forall k :: 0 <= k < |r| ==> r[k] == PeerOf(others[k], blocked)
  {
    seq(|others|, k requires 0 <= k < |others| => PeerOf(others[k], blocked))
  }

  /**
   * The roster sent to a joiner lists exactly the other users in voice: each entry is the
   * public view of such a user, flagged blocked iff its id is in the joiner's list, and
   * the joiner itself never appears.
   */
  lemma RosterIsOtherVoiceUsers(users: seq<User>, sender: SocketId, blocked: seq<SocketId>)
    ensures forall p :: p in Roster(OthersInVoice(users, sender), blocked) ==>
      p.id != sender && p.voiceState.isJoined && (p.isBlockedByYou <==> p.id in blocked) &&
      exists u :: u in users && p == PeerOf(u, blocked)
    ensures forall u :: u in users && u.id != sender && u.voiceState.isJoined ==>
      PeerOf(u, blocked) in Roster(OthersInVoice(users, sender), blocked)
  {
    var others := OthersInVoice(users, sender);
    var r := Roster(others, blocked);
    forall p | p in r
      ensures p.id != sender && p.voiceState.isJoined && (p.isBlockedByYou <==> p.id in blocked)
      ensures exists u :: u in users && p == PeerOf(u, blocked)
    {
      var k :| 0 <= k < |r| && r[k] == p;
      assert others[k] in others;
    }
    forall u | u in users && u.id != sender && u.voiceState.isJoined
      ensures PeerOf(u, blocked) in r
    {
      var k :| 0 <= k < |others| && others[k] == u;
      assert r[k] == PeerOf(u, blocked);
    }
  }

  /** Two lists that differ at most in their users' block lists. */
  ghost predicate SameButBlockLists(a: seq<User>, b: seq<User>) {
    |a| == |b| && forall k :: 0 <= k < |a| ==> a[k].(blockedVoiceUsers := None) == b[k].(blockedVoiceUsers := None)
  }

  /** Nobody's block list shows in anybody's roster; only the joiner's own list sets the flags. */
  lemma {:induction false} RosterIgnoresBlockLists(a: seq<User>, b: seq<User>, sender: SocketId, blocked: seq<SocketId>)
    requires SameButBlockLists(a, b)
    ensures Roster(OthersInVoice(a, sender), blocked) == Roster(OthersInVoice(b, sender), blocked)
  {
    if a != [] {
      assert a[0].(blockedVoiceUsers := None) == b[0].(blockedVoiceUsers := None);
      assert a[0].id == b[0].id && a[0].name == b[0].name && a[0].voiceState == b[0].voiceState;
      assert SameButBlockLists(a[1..], b[1..]) by {
        forall k | 0 <= k < |a| - 1
          ensures a[1..][k].(blockedVoiceUsers := None) == b[1..][k].(blockedVoiceUsers := None)
        {
          assert a[1..][k] == a[k + 1] && b[1..][k] == b[k + 1];
        }
      }
      RosterIgnoresBlockLists(a[1..], b[1..], sender, blocked);
      RosterOfCons(a, sender, blocked);
      RosterOfCons(b, sender, blocked);
    }
  }

  /** One step of the roster computation. */
  lemma RosterOfCons(users: seq<User>, sender: SocketId, blocked: seq<SocketId>)
    requires users != []
    ensures Roster(OthersInVoice(users, sender), blocked) ==
      (if users[0].id != sender && users[0].voiceState.isJoined then [PeerOf(users[0], blocked)] else []) +
      Roster(OthersInVoice(users[1..], sender), blocked)
  {
  }

  /** The list `get-blocked-voice-users` reports: `user.blockedVoiceUsers || []`. */
  function BlockedList(u: User): (r: seq<SocketId>)
    ensures u.blockedVoiceUsers.Some? ==> r == u.blockedVoiceUsers.value
    ensures u.blockedVoiceUsers.None? ==> r == []
  {
    u.blockedVoiceUsers.GetOr([])
  }

  /**
   * The update of `block-voice-user`: create the list if it was never created, and
   * append `target` unless it is already there.
   */
  function AddBlocked(list: Option<seq<SocketId>>, target: SocketId): (r: seq<SocketId>)
    ensures forall x :: x in r <==> x in list.GetOr([]) || x == target
    ensures |list.GetOr([])| <= |r| && r[..|list.GetOr([])|] == list.GetOr([])
    ensures NoDuplicates(list.GetOr([])) ==> NoDuplicates(r)
    ensures |r| <= |list.GetOr([])| + 1
    ensures target in list.GetOr([]) ==> r == list.GetOr([])
  {
    var l := list.GetOr([]);
    if target in l then l else l + [target]
  }

  /** Blocking the same user twice leaves the list as blocking once did. */
  lemma AddBlockedIdempotent(list: Option<seq<SocketId>>, target: SocketId)
    ensures AddBlocked(Some(AddBlocked(list, target)), target) == AddBlocked(list, target)
  {
    assert target in AddBlocked(list, target);
  }
}
