/** The socket.io events the server emits, as data appended to an outbox. */
module Events {
  import opened Common
  import opened MessageModel

  /** One `{ messageId, seenAt }` entry of a per-message seen notice. */
  datatype SeenEntry = SeenEntry(messageId: MessageId, seenAt: int)

  datatype Payload =
    | OnlineUsers(userIds: set<UserId>)                              // "getOnlineUsers"
    | MessagesSeen(receiverId: UserId, seenMessages: seq<SeenEntry>) // "message-seen" from the socket handler
    | ThreadSeen(receiverId: UserId, seenAt: int)                    // "message-seen" from the thread fetch
    | Typing(senderId: UserId)                                       // "typing"
    | StopTyping(senderId: UserId)                                   // "stop-typing"
    | NewMessage(message: Message, fullName: string, profilePic: string) // "new-message"
    | MessageDeleted(messageId: MessageId, deletedAt: int)           // "message-deleted"

  /** `io.emit(...)` reaches every connected socket, `io.to(id).emit(...)` one socket. */
  datatype Event = Broadcast(payload: Payload) | EmitTo(socketId: SocketId, payload: Payload)

  /** The socket.io event name a payload travels under. */
  function EventName(p: Payload): string {
    match p
    case OnlineUsers(_) => "getOnlineUsers"
    case MessagesSeen(_, _) => "message-seen"
    case ThreadSeen(_, _) => "message-seen"
    case Typing(_) => "typing"
    case StopTyping(_) => "stop-typing"
    case NewMessage(_, _, _) => "new-message"
    case MessageDeleted(_, _) => "message-deleted"
  }

  /** Emit `p` to the socket bound to `userId`, or nothing when the user is offline. */
  function EmitIfBound(sockets: map<UserId, SocketId>, userId: UserId, p: Payload): (e: seq<Event>)
    ensures userId in sockets ==> e == [EmitTo(sockets[userId], p)]
    ensures userId !in sockets ==> e == []
  {
    if userId in sockets then [EmitTo(sockets[userId], p)] else []
  }
}
