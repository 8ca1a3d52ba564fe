# Watch-party room coordinator: a verified Dafny model

This project models the real-time core of a watch-party server. Clients share a room,
keep one video's playback in sync, chat, send reactions and hold a peer-to-peer voice
chat. The server stores all of this in one in-memory table, `rooms`, which maps a room id
to `{users, videoState, currentVideo}`. Socket.IO event handlers update the table and emit
events back to clients.

The model is split into these modules:

- **`Domain`** (`domain.dfy`) holds the stored values and the emitted events.
  - Emitted events keep their audience symbolic:
    - the sender (`socket.emit`);
    - the room except the sender (`socket.to(room)`);
    - the whole room (`io.to(room)`);
    - one socket (`io.to(socketId)`).
- **`Users`** (`users.dfy`) covers the array operations the handlers perform on a room's user list:
  - `findIndex`/`find` by socket id;
  - push-or-replace on join;
  - `splice` on disconnect;
  - the roster filter and map of `join-voice-chat`;
  - the de-duplicating block-list push.
- **`PropertyOrder`** (`property_order.dfy`) gives the order in which `for (const roomId in rooms)` visits keys.
  - Keys that are array indices come first, in ascending numeric value.
  - Every other key follows, in creation order.
  - `disconnect` stops at the first room that holds the departing socket, so this order decides which room that is.
- **`Store`** (`store.dfy`) defines the shared table as the class `RoomStore` and its invariant `TableValid`. The invariant says:
  - the creation order lists each key exactly once;
  - no stored room is empty or has a falsy key;
  - socket ids are unique within a room;
  - every record names its room;
  - block lists hold no duplicates and no falsy ids.
- **`VoiceHandler`** (`voice_handler.dfy`) and **`SocketHandler`** (`socket_handler.dfy`) hold one member per event handler.
  - Handlers that change the table are module-level methods that take the shared `RoomStore` and modify it. Each one:
    - preserves `Valid()`;
    - states the new table exactly;
    - returns the emissions it made, in order.
  - Handlers that only relay are functions.
- **`PrototypeKeys`** (`prototype_keys.dfy`) models `join-room` as written for room ids that `{}` inherits from `Object.prototype` (see Findings).
- **`Scenarios`** (`scenarios.dfy`) drives concrete sessions through the handlers' contracts:
  - joining, syncing, leaving and closing a room;
  - a socket that joined two rooms and stays listed in the second after it disconnects;
  - the voice roster;
  - blocking and leaving voice.

In several places the code departs from what one would expect. The model follows the code:

- `voice-state-change` updates `isMuted` even for a user who is not in voice.
- `disconnect` emits `user-left` even when it then deletes the now-empty room.
- `leave-voice-chat` announces the leave to the whole room even when the sender has no record there.
- `send-message` and `send-reaction` broadcast without checking that the room exists.
- `sending-signal` forwards whatever caller id the payload carries.
- `join-room` does not take the socket out of a room it joined earlier. Because `disconnect` cleans up only the first room holding the socket, stale records can remain.
- The `room-state` sent on join exposes every user's whole record, block lists included.

## Model

| member | source | states |
|---|---|---|
| Users.IndexOf | src/services/socketHandler.js:54-56 | the result is -1 exactly when no user has the id; otherwise it is the position of the first user with that id |
| Users.IndexOfUnique | src/services/voiceHandler.js:23 | with unique ids, looking up a user's id finds that user's own position |
| Users.SameIdsLookups | src/services/voiceHandler.js:37 | replacing records in place without changing ids keeps every id lookup and id uniqueness as they were |
| Users.Upsert | src/services/socketHandler.js:53-62 | a new id is appended at the end; an existing id is replaced at its first position; every other position keeps its record; unique ids stay unique |
| Users.UpsertOnlyRecord | src/services/socketHandler.js:53-62 | after the upsert the joined record is the only one with its id, so a rejoin never duplicates a user |
| Users.RemoveAt | src/services/socketHandler.js:111 | `splice(i, 1)` drops exactly record `i` (as a multiset); the others keep their order; with unique ids the departed id is gone |
| Users.OthersInVoice | src/services/voiceHandler.js:27-29 | a record is kept iff it is in the room, is not the sender's and is in voice; the list never grows |
| Users.OthersInVoiceAppend | src/services/voiceHandler.js:27-29 | the filter distributes over concatenation of user lists |
| Users.PeerOf | src/services/voiceHandler.js:44-47 | a roster entry copies the user's id, name and voice state and is flagged iff the user's id is in the joiner's block list |
| Users.Roster | src/services/voiceHandler.js:43-48 | one entry per user, in order, with id, name and voice state copied and `isBlockedByYou` set from the joiner's list |
| Users.RosterIsOtherVoiceUsers | src/services/voiceHandler.js:42-49 | a roster entry exists for a user iff that user is another member of the room in voice; it is flagged iff the joiner blocked them |
| Users.RosterIgnoresBlockLists | src/services/voiceHandler.js:43-48 | the roster depends on the other users' ids, names and voice states, never on their own block lists |
| Users.BlockedList | src/services/voiceHandler.js:104 | `user.blockedVoiceUsers \|\| []`: the stored list, or empty when none was ever created |
| Users.AddBlocked | src/services/voiceHandler.js:80-89 | afterwards the list holds exactly the old entries plus the target; the old list is a prefix; at most one entry is added, none when the target is already listed; no duplicates are introduced |
| Users.AddBlockedIdempotent | src/services/voiceHandler.js:86-87 | blocking the same user twice leaves the list as blocking once |
| PropertyOrder.InsertBy | src/services/socketHandler.js:106 | inserting into a list sorted by key value keeps it sorted and a permutation of key plus list |
| PropertyOrder.SortBy | src/services/socketHandler.js:106 | the result is sorted by value and is a permutation of its input |
| PropertyOrder.KeysWhere | src/services/socketHandler.js:106 | a key is selected iff it is one of the keys and is (or is not) an array index; the selection is never longer than the keys |
| PropertyOrder.KeysWhereAppend | src/services/socketHandler.js:106 | selecting by kind distributes over concatenation, so selected keys keep their relative creation order |
| PropertyOrder.KeysWhereAll | src/services/socketHandler.js:106 | a list of keys all of one kind is its own selection, and selecting the other kind gives nothing |
| PropertyOrder.KeysWhereSplit | src/services/socketHandler.js:106 | index keys and other keys together are a permutation of all keys |
| PropertyOrder.IndexKeysFirst | src/services/socketHandler.js:106 | sorted array indices followed by other keys put every array index first, in ascending numeric value |
| PropertyOrder.RearrangedIndexKeys | src/services/socketHandler.js:106 | any rearrangement of the array-index keys holds array indices only |
| PropertyOrder.IndexKeysThenOthers | src/services/socketHandler.js:106 | array indices in ascending order followed by the other keys in creation order visit every key exactly as often as it exists |
| PropertyOrder.Enumeration | src/services/socketHandler.js:106 | `for ... in` visits every key exactly as often as it exists: array indices first in ascending numeric value, then the other keys in exactly their creation order |
| Store.ReplaceUserKeepsRoomValid | src/services/voiceHandler.js:37 | replacing a record by one with the same id and room and a sound block list keeps the room valid |
| Store.UpsertKeepsRoomValid | src/services/socketHandler.js:44-62 | a join's upsert makes a fresh room valid and keeps a valid room valid |
| Store.RemoveKey | src/services/socketHandler.js:121 | `delete` removes exactly that key from the creation order: an absent key changes nothing, and in a duplicate-free order the key's one entry is cut out with the others keeping their order |
| Store.PutRoomKeepsValid | src/services/socketHandler.js:44-51 | storing a valid room under a truthy key, with a new key going last in the creation order, keeps the table valid |
| Store.RemoveUserKeepsValid | src/services/socketHandler.js:110-123 | removing a user keeps the table valid, provided a room left empty is deleted together with its key |
| Store.RoomStore.constructor | src/services/socketHandler.js:20 | the table starts empty, with an empty creation order, and valid |
| SocketHandler.JoinedRecord | src/services/socketHandler.js:36-42 | the stored record carries the socket's id, the room, the client's name, voice off and unmuted, and no block list |
| SocketHandler.RoomOrNew | src/services/socketHandler.js:44-51 | an existing room is used as is; otherwise a new empty room starts paused at time 0, speed 1, with no video |
| SocketHandler.JoinRoom | src/services/socketHandler.js:30-76 | a falsy id is a no-op; otherwise the room is found or created (new keys go last), the record is upserted and is its id's only record, the sender gets the room state and the others get `user-joined` |
| SocketHandler.PlayerStateChange | src/services/socketHandler.js:79-84 | in an existing room only the playback state is overwritten and the others are told; a missing room changes and emits nothing |
| SocketHandler.ChangeVideo | src/services/socketHandler.js:86-92 | in an existing room the video is replaced, playback restarts at 0 playing at speed 1, and the whole room is told; otherwise nothing happens |
| SocketHandler.SendMessage | src/services/socketHandler.js:95-97 | exactly one `new-message` goes to the whole room, whether or not the room is in the table |
| SocketHandler.SendReaction | src/services/socketHandler.js:99-101 | exactly one `new-reaction` goes to the whole room, stamped with the sender's id |
| SocketHandler.FirstRoomWith | src/services/socketHandler.js:106-110 | None iff no visited room holds the sender; otherwise a visited room that holds it, with no earlier room holding it |
| SocketHandler.FirstRoomWithIs | src/services/socketHandler.js:106-125 | the room where the loop stops is the first in enumeration order that holds the sender |
| SocketHandler.RemoveFromRoom | src/services/socketHandler.js:110-123 | the departing record is removed; `user-left` is sent, then `user-left-voice` if the user was in voice; an emptied room is deleted with its key; the table stays valid |
| SocketHandler.Disconnect | src/services/socketHandler.js:104-127 | the sender is removed from the first room in `for ... in` order that holds it and from no other; with no such room nothing changes or is emitted |
| VoiceHandler.SenderRecord | src/services/voiceHandler.js:23 | when present, the sender's record is one of the room's users and has the sender's id |
| VoiceHandler.WithSenderRecord | src/services/voiceHandler.js:37 | writing through the found record replaces exactly the sender's entry in its room; the room's other users, its playback state and video, and every other room are unchanged |
| VoiceHandler.JoinVoiceChat | src/services/voiceHandler.js:19-52 | a missing room or sender is a no-op; otherwise the record goes into voice unmuted, its block list is created if absent, and only the sender receives the roster of the others in voice |
| VoiceHandler.OthersInVoiceIgnoresSender | src/services/voiceHandler.js:27-37 | building the roster before or after the sender's own update gives the same list |
| VoiceHandler.VoiceStateChange | src/services/voiceHandler.js:57-69 | only the sender's `isMuted` changes, in voice or not, and the rest of the room is sent the new voice state; otherwise a no-op |
| VoiceHandler.BlockVoiceUser | src/services/voiceHandler.js:74-90 | emits nothing; with a present sender and a truthy target the block list gains the target once; otherwise the table is unchanged |
| VoiceHandler.BlockingIsAsymmetric | src/services/voiceHandler.js:43-48 | after `a` blocks `b`, `a`'s roster flags `b`, while `b`'s own list and roster are exactly what they were |
| VoiceHandler.GetBlockedVoiceUsers | src/services/voiceHandler.js:96-106 | the sender gets a reply iff present; it is sent only to them and holds the stored list, or empty if none was ever created |
| VoiceHandler.BlockThenListed | src/services/voiceHandler.js:74-106 | after a block, the list returned to the sender holds the target, with the earlier entries in order as a prefix |
| VoiceHandler.SendingSignal | src/services/voiceHandler.js:112-119 | one `user-joined-voice` goes to the addressed socket, carrying the signal, caller id and caller name unchanged |
| VoiceHandler.ReturningSignal | src/services/voiceHandler.js:125-131 | one `receiving-returned-signal` goes to the named caller, carrying the signal unchanged and the sender's id |
| VoiceHandler.SignalRoundTrip | src/services/voiceHandler.js:112-131 | an offer relayed from `a` to `b`, answered back with the caller id it carried, reaches `a` with `b`'s id and signal |
| VoiceHandler.LeaveVoiceChat | src/services/voiceHandler.js:136-147 | in an existing room, the whole room is told, sender or no sender; a present sender's `isJoined` is cleared with its mute flag kept; a missing room is a no-op |
| VoiceHandler.HandleVoiceDisconnect | src/services/voiceHandler.js:154-157 | exactly one `user-left-voice` for the departed user goes to the whole room |
| PrototypeKeys.LookupAsWritten | src/services/socketHandler.js:44 | `rooms[key]` is the stored room iff the key is an own key; it is an inherited member iff the key is an `Object.prototype` name that is not a room |
| PrototypeKeys.JoinRoomAsWritten | src/services/socketHandler.js:30-62 | `join-room` as written: a falsy id leaves the table as it was; an inherited name that is not a room throws; any other id finds or creates the room and upserts the record |
| PrototypeKeys.JoinRoomConstructorThrows | src/services/socketHandler.js:44-58 | joining room "constructor" on an empty table throws instead of creating the room |
| PrototypeKeys.JoinRoomThrowsOnInheritedKeys | src/services/socketHandler.js:44-58 | every `Object.prototype` name that is not yet a room makes `join-room` throw |
| PrototypeKeys.JoinRoomAsWrittenAgreesElsewhere | src/services/socketHandler.js:44-62 | for every other truthy id, the code as written stores exactly what `SocketHandler.JoinRoom` states |

## Findings

| source | as written | input that shows it | evidently intended | confidence | as-written member | corrected member |
|---|---|---|---|---|---|---|
| src/services/socketHandler.js:44-58 | `if (!rooms[roomId])` on the plain object `{}` is false for inherited names such as "constructor", so no room is created and `rooms[roomId].users.findIndex` throws a TypeError | `join-room` with roomId "constructor" (or "toString", "__proto__") on a table with no such room | treat only own keys as existing rooms, so the room is created and joined | medium, not executed | PrototypeKeys.JoinRoomConstructorThrows | SocketHandler.JoinRoom |

## Left out

- Socket.IO itself is not modelled. This covers connecting, `socket.join`, room membership on the transport side and delivery. Emissions are returned as symbolic (audience, event) pairs, in order.
- `console.log` output is not modelled. It does not change state or emissions, with one exception: socketHandler.js:75 reads `user.name`, so a `join-room` payload without `user` throws after both emissions. A missing `user` is one of the untyped payloads left out below.
- The client-supplied `user` object that `join-room` spreads into the record is reduced to `name`. The spread also copies any client-supplied `blockedVoiceUsers` (socketHandler.js:37), so the table invariant's clause that block lists hold no duplicates and no falsy ids holds only because of this reduction. The reaction payload is reduced to one content field, so a client field named `id` overridden by the socket id is not represented.
- Payloads are typed. A `roomId` that is not a string, a `state` or `video` of arbitrary shape, and falsy non-string values are not modelled. Playback times are reals with no arithmetic on them.
- The other handlers do not model the inherited-key lookup. They test own keys, as the corrected `join-room` does. As written, `player-state-change` and `change-video` with roomId "__proto__" write into `Object.prototype`, and the voice handlers throw on inherited names. After such a write, `videoState` and `currentVideo` are enumerable inherited keys, which `for (const roomId in rooms)` (socketHandler.js:106) visits after the own keys. A later `disconnect` of a socket that is in no room then calls `.users.findIndex` on the client's payload and throws. `PropertyOrder.Enumeration` assumes there are no enumerable inherited keys, so it does not capture this. Only the `join-room` case appears under Findings.
- Handlers run to completion one at a time, as on Node's single event loop. No interleaving is modelled.
- User records and rooms are values. No object in the table is shared between two places, so in-place mutation through `find` is modelled as replacing the record at its index.
- The HTTP side is not part of this model. This covers the Google Drive streamer, the room controller and the server bootstrap.
