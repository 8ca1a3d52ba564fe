/**
 * The values the room coordinator stores and the events it emits.
 *
 * A user record in the source is a plain object built by `join-room`; here it is a
 * datatype holding the fields the coordinator reads or writes. The client-supplied
 * fields that `join-room` spreads into the record are reduced to `name`.
 */
module Domain {

  datatype Option<+T> = None | Some(value: T) {
    /** The value, or `default` when absent (the source's `x || default`). */
    function GetOr(default: T): T {
      match this
      case Some(v) => v
      case None => default
    }
  }

  /** A Socket.IO connection id, assigned by the transport. */
  type SocketId = string

  /** A room key of the `rooms` table. */
  type RoomId = string

  /** JavaScript truthiness of a string: only the empty string is falsy. */
  predicate Truthy(s: string) {
    s != ""
  }

  /** No string occurs twice. */
  predicate NoDuplicates(s: seq<string>) {
    forall i, j :: 0 <= i < j < |s| ==> s[i] != s[j]
  }

  datatype VoiceState = VoiceState(isJoined: bool, isMuted: bool)

  /**
   * A participant record. `blockedVoiceUsers` is `None` while the array was never
   * created (the source creates it lazily).
   */
  datatype User = User(
    id: SocketId,
    name: string,
    roomId: RoomId,
    voiceState: VoiceState,
    blockedVoiceUsers: Option<seq<SocketId>>)

  /** Playback position and speed are JavaScript numbers; no arithmetic is done on them. */
  datatype VideoState = VideoState(isPlaying: bool, time: real, speed: real)

  /** The selected video, e.g. source "youtube" and a video id, or "gdrive" and a URL. */
  datatype Video = Video(source: string, id: string)

  datatype Room = Room(users: seq<User>, videoState: VideoState, currentVideo: Option<Video>)

  /** Client payloads the coordinator only passes along. */
  type Message = string
  type Signal = string
  datatype Reaction = Reaction(content: string)

  /** The state a room starts with, set by its first joiner. */
  const InitialVideoState := VideoState(false, 0.0, 1.0)

  /** The state `change-video` resets playback to. */
  const RestartVideoState := VideoState(true, 0.0, 1.0)

  /** A roster entry of `all-voice-users`. */
  datatype VoicePeer = VoicePeer(id: SocketId, name: string, voiceState: VoiceState, isBlockedByYou: bool)

  /**
   * Who an emission is addressed to, kept symbolic:
   * `socket.emit` (ToSender), `socket.to(room)` (ToRoomExceptSender),
   * `io.to(room)` (ToRoom) and `io.to(socketId)` (ToSocket).
   */
  datatype Scope =
    | ToSender
    | ToRoomExceptSender(room: RoomId)
    | ToRoom(room: RoomId)
    | ToSocket(socket: SocketId)

  /** The outbound events, one constructor per event name. */
  datatype Event =
    | RoomState(users: seq<User>, videoState: VideoState, currentVideo: Option<Video>)  // room-state
    | UserJoined(user: User)                                                            // user-joined
    | PlayerStateUpdate(state: VideoState)                                              // player-state-update
    | VideoChanged(video: Video)                                                        // video-changed
    | NewMessage(message: Message)                                                      // new-message
    | NewReaction(reaction: Reaction, id: SocketId)                                     // new-reaction
    | UserLeft(userId: SocketId)                                                        // user-left
    | AllVoiceUsers(peers: seq<VoicePeer>)                                              // all-voice-users
    | UserVoiceStateUpdated(userId: SocketId, voiceState: VoiceState)                   // user-voice-state-updated
    | BlockedVoiceUsersList(blockedUserIds: seq<SocketId>)                              // blocked-voice-users-list
    | UserJoinedVoice(signal: Signal, callerId: SocketId, callerName: string)           // user-joined-voice
    | ReceivingReturnedSignal(signal: Signal, id: SocketId)                             // receiving-returned-signal
    | UserLeftVoice(userId: SocketId)                                                   // user-left-voice

  datatype Emit = Emit(scope: Scope, event: Event)
}
