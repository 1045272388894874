/** The client chat store (frontend/src/store/UseChatStore.js): the state record and the
    transitions the store's actions and socket subscriptions apply to it. The selected user is
    kept by id; an action that awaits the server is the sequence of states its `set` calls
    produce, with the server's answer as a parameter. */
module ChatStore {
  import opened Common
  import opened MessageModel
  import opened UserModel
  import opened Events
  import Socket
  import MessageController

  datatype Status = Idle | Pending | Success | Error

  datatype MessageStatus = MessageStatus(isUserLoading: Status, isMessagesLoading: Status, isDeletingMessage: Status)

  datatype ChatState = ChatState(
    messages: seq<Message>,
    users: seq<Document>,
    selectedUser: Option<UserId>,
    typingStatus: map<UserId, bool>,
    unreadMessages: map<UserId, bool>,
    messageStatus: MessageStatus)

  /** What the client sends back over the socket. */
  datatype ClientEmit = MarkMessagesSeen(senderId: UserId)

  /** The state after a `new-message` event, and what the handler emitted. */
  datatype NewMessageStep = NewMessageStep(state: ChatState, emits: seq<ClientEmit>)

  /** The store as created: empty lists and maps, nobody selected, every status idle. */
  function Initial(): (s: ChatState)
    ensures s.messages == [] && s.users == [] && s.selectedUser.None?
    ensures s.typingStatus == map[] && s.unreadMessages == map[]
    ensures s.messageStatus == MessageStatus(Idle, Idle, Idle)
  {
    ChatState([], [], None, map[], map[], MessageStatus(Idle, Idle, Idle))
  }

  // ---------------------------------------------------------------------------------------------
  // Synchronous setters

  /** `markMessageAsDeleted(messageId, deletedAt)`, which the `message-deleted` handler calls. */
  function MarkMessageAsDeleted(s: ChatState, messageId: MessageId, deletedAt: int): (r: ChatState)
    ensures r == s.(messages := r.messages)
    ensures |r.messages| == |s.messages|
    ensures forall i :: 0 <= i < |s.messages| && s.messages[i].id != messageId ==> r.messages[i] == s.messages[i]
    ensures forall i :: 0 <= i < |s.messages| && s.messages[i].id == messageId ==>
      r.messages[i].isDeleted && r.messages[i].deletedAt == Some(deletedAt)
      && r.messages[i] == s.messages[i].(isDeleted := true, deletedAt := Some(deletedAt))
  {
    s.(messages := seq(|s.messages|, i requires 0 <= i < |s.messages| =>
      if s.messages[i].id == messageId then s.messages[i].(isDeleted := true, deletedAt := Some(deletedAt))
      else s.messages[i]))
  }

  /** `setTypingStatus(userId, status)`, which the `typing` (true) and `stop-typing` (false)
      handlers call. */
  function SetTypingStatus(s: ChatState, userId: UserId, status: bool): (r: ChatState)
    ensures r == s.(typingStatus := r.typingStatus)
    ensures userId in r.typingStatus && r.typingStatus[userId] == status
    ensures forall u :: u != userId ==> (u in r.typingStatus <==> u in s.typingStatus)
    ensures forall u :: u != userId && u in s.typingStatus ==> r.typingStatus[u] == s.typingStatus[u]
  {
    s.(typingStatus := s.typingStatus[userId := status])
  }

  /** `setUnreadMessage(userId, value)`. */
  function SetUnreadMessage(s: ChatState, userId: UserId, value: bool): (r: ChatState)
    ensures r == s.(unreadMessages := r.unreadMessages)
    ensures userId in r.unreadMessages && r.unreadMessages[userId] == value
    ensures forall u :: u != userId ==> (u in r.unreadMessages <==> u in s.unreadMessages)
    ensures forall u :: u != userId && u in s.unreadMessages ==> r.unreadMessages[u] == s.unreadMessages[u]
  {
    s.(unreadMessages := s.unreadMessages[userId := value])
  }

  /** `setSelectedUser(user)`: the user becomes selected and its unread flag is cleared. For
      `null` the first `set` happens and then `user._id` throws, so the flags stay as they were. */
  function SetSelectedUser(s: ChatState, user: Option<UserId>): (r: ChatState)
    ensures r.selectedUser == user
    ensures user.Some? ==> r == SetUnreadMessage(s.(selectedUser := user), user.value, false)
    ensures user.None? ==> r == s.(selectedUser := None)
  {
    var selected := s.(selectedUser := user);
    if user.None? then selected else selected.(unreadMessages := selected.unreadMessages[user.value := false])
  }

  // ---------------------------------------------------------------------------------------------
  // Socket subscriptions

  /** The `new-message` handler. `selected` is the user selected when the subscription was made,
      which the handler's closure keeps (the subscription is only made when a user is selected). */
  function OnNewMessage(s: ChatState, selected: UserId, m: Message): (r: NewMessageStep)
    ensures (m.senderId == selected || m.receiverId == selected) ==> r.state.messages == s.messages + [m]
    ensures !(m.senderId == selected || m.receiverId == selected) ==> r.state.messages == s.messages
    ensures m.senderId != selected ==> r.state == SetUnreadMessage(s.(messages := r.state.messages), m.senderId, true)
    ensures m.senderId == selected ==> r.state == s.(messages := r.state.messages)
    ensures r.emits == if m.senderId == selected then [MarkMessagesSeen(selected)] else []
  {
    var appended := if m.senderId == selected || m.receiverId == selected then s.(messages := s.messages + [m]) else s;
    var flagged := if selected != m.senderId then appended.(unreadMessages := appended.unreadMessages[m.senderId := true]) else appended;
    NewMessageStep(flagged, if m.senderId == selected then [MarkMessagesSeen(selected)] else [])
  }

  /** The entry `seenMessages.find(sm => sm.messageId === id)` returns. */
  function FindSeenEntry(entries: seq<SeenEntry>, id: MessageId): (r: Option<nat>)
    ensures r.Some? ==> r.value < |entries| && entries[r.value].messageId == id
    ensures r.Some? ==> forall k :: 0 <= k < r.value ==> entries[k].messageId != id
    ensures r.None? <==> forall k :: 0 <= k < |entries| ==> entries[k].messageId != id
  {
    FirstIndex(entries, (e: SeenEntry) => e.messageId == id)
  }

  /** The `message-seen` handler. A notice without a `seenMessages` list (the one the thread
      fetch sends) finds nothing and leaves every message as it was. */
  function OnMessageSeen(s: ChatState, seenMessages: Option<seq<SeenEntry>>): (r: ChatState)
    ensures r == s.(messages := r.messages)
    ensures |r.messages| == |s.messages|
    ensures seenMessages.None? ==> r == s
    ensures seenMessages.Some? ==> forall i :: 0 <= i < |s.messages| ==>
      match FindSeenEntry(seenMessages.value, s.messages[i].id)
      case None => r.messages[i] == s.messages[i]
      case Some(k) => r.messages[i] == s.messages[i].(seen := true, seenAt := Some(seenMessages.value[k].seenAt))
  {
    if seenMessages.None? then s
    else
      var entries := seenMessages.value;
      s.(messages := seq(|s.messages|, i requires 0 <= i < |s.messages| =>
        match FindSeenEntry(entries, s.messages[i].id)
        case None => s.messages[i]
        case Some(k) => s.messages[i].(seen := true, seenAt := Some(entries[k].seenAt))))
  }

  // ---------------------------------------------------------------------------------------------
  // Actions that await the server

  function WithUserLoading(s: ChatState, st: Status): ChatState {
    s.(messageStatus := s.messageStatus.(isUserLoading := st))
  }

  function WithMessagesLoading(s: ChatState, st: Status): ChatState {
    s.(messageStatus := s.messageStatus.(isMessagesLoading := st))
  }

  function WithDeleting(s: ChatState, st: Status): ChatState {
    s.(messageStatus := s.messageStatus.(isDeletingMessage := st))
  }

  /** The last state of an action's sequence of states. */
  function Final(trace: seq<ChatState>): ChatState
    requires |trace| > 0
  {
    trace[|trace| - 1]
  }

  /** `getUsers`: pending, then the list and success or error, then idle in `finally`. */
  function GetUsers(s: ChatState, response: Option<seq<Document>>): (trace: seq<ChatState>)
    ensures |trace| == 3
    ensures trace[0].messageStatus.isUserLoading == Pending
    ensures trace[1].messageStatus.isUserLoading == if response.Some? then Success else Error
    ensures Final(trace) == (if response.Some? then s.(users := response.value) else s).(messageStatus := s.messageStatus.(isUserLoading := Idle))
  {
    var pending := WithUserLoading(s, Pending);
    var settled := if response.Some? then WithUserLoading(pending.(users := response.value), Success) else WithUserLoading(pending, Error);
    [pending, settled, WithUserLoading(settled, Idle)]
  }

  /** `getMessages(userId)`: the same three steps for the thread. */
  function GetMessages(s: ChatState, response: Option<seq<Message>>): (trace: seq<ChatState>)
    ensures |trace| == 3
    ensures trace[0].messageStatus.isMessagesLoading == Pending
    ensures trace[1].messageStatus.isMessagesLoading == if response.Some? then Success else Error
    ensures Final(trace) == (if response.Some? then s.(messages := response.value) else s).(messageStatus := s.messageStatus.(isMessagesLoading := Idle))
  {
    var pending := WithMessagesLoading(s, Pending);
    var settled := if response.Some? then WithMessagesLoading(pending.(messages := response.value), Success) else WithMessagesLoading(pending, Error);
    [pending, settled, WithMessagesLoading(settled, Idle)]
  }

  /** The revert of the error branch of `deleteMessage`. */
  function RevertDeleted(s: ChatState, messageId: MessageId): (r: ChatState)
    ensures r == s.(messages := r.messages)
    ensures |r.messages| == |s.messages|
    ensures forall i :: 0 <= i < |s.messages| && s.messages[i].id != messageId ==> r.messages[i] == s.messages[i]
    ensures forall i :: 0 <= i < |s.messages| && s.messages[i].id == messageId ==>
      r.messages[i] == s.messages[i].(isDeleted := false, deletedAt := None)
  {
    s.(messages := seq(|s.messages|, i requires 0 <= i < |s.messages| =>
      if s.messages[i].id == messageId then s.messages[i].(isDeleted := false, deletedAt := None)
      else s.messages[i]))
  }

  /** `deleteMessage(id)`: pending, then success, or the revert with error, then idle. */
  function DeleteMessage(s: ChatState, messageId: MessageId, ok: bool): (trace: seq<ChatState>)
    ensures |trace| == 3
    ensures trace[0].messageStatus.isDeletingMessage == Pending
    ensures trace[1].messageStatus.isDeletingMessage == if ok then Success else Error
    ensures ok ==> Final(trace) == s.(messageStatus := s.messageStatus.(isDeletingMessage := Idle))
    ensures !ok ==> Final(trace) == RevertDeleted(s, messageId).(messageStatus := s.messageStatus.(isDeletingMessage := Idle))
  {
    var pending := WithDeleting(s, Pending);
    var settled := if ok then WithDeleting(pending, Success) else WithDeleting(RevertDeleted(pending, messageId), Error);
    [pending, settled, WithDeleting(settled, Idle)]
  }

  // ---------------------------------------------------------------------------------------------
  // Properties

  /** Every awaited action leaves its status idle, on success and on failure, and leaves the
      other two statuses as they were. */
  lemma StatusesEndIdle(s: ChatState, users: Option<seq<Document>>, thread: Option<seq<Message>>, id: MessageId, ok: bool)
    ensures Final(GetUsers(s, users)).messageStatus == s.messageStatus.(isUserLoading := Idle)
    ensures Final(GetMessages(s, thread)).messageStatus == s.messageStatus.(isMessagesLoading := Idle)
    ensures Final(DeleteMessage(s, id, ok)).messageStatus == s.messageStatus.(isDeletingMessage := Idle)
  {
  }

  /** A failed delete undoes a local mark of a message that was not deleted before. */
  lemma RevertUndoesMark(s: ChatState, messageId: MessageId, deletedAt: int)
    requires forall i :: 0 <= i < |s.messages| && s.messages[i].id == messageId ==>
      !s.messages[i].isDeleted && s.messages[i].deletedAt.None?
    ensures RevertDeleted(MarkMessageAsDeleted(s, messageId, deletedAt), messageId) == s
  {
    var r := RevertDeleted(MarkMessageAsDeleted(s, messageId, deletedAt), messageId);
    assert forall i :: 0 <= i < |s.messages| ==> r.messages[i] == s.messages[i];
  }

  /** Marking the same message deleted twice is marking it once with the later time. */
  lemma MarkDeletedTwice(s: ChatState, messageId: MessageId, first: int, second: int)
    ensures MarkMessageAsDeleted(MarkMessageAsDeleted(s, messageId, first), messageId, second)
         == MarkMessageAsDeleted(s, messageId, second)
  {
    var a := MarkMessageAsDeleted(MarkMessageAsDeleted(s, messageId, first), messageId, second);
    var b := MarkMessageAsDeleted(s, messageId, second);
    assert forall i :: 0 <= i < |s.messages| ==> a.messages[i] == b.messages[i];
  }

  /** The client follows the server on deletion: when its list is the server's collection, the
      `message-deleted` notice of a delete at position `i` turns it into the server's new
      collection. */
  lemma DeletionConverges(s: ChatState, i: nat, now: int)
    requires i < |s.messages| && UniqueIds(s.messages)
    ensures MarkMessageAsDeleted(s, s.messages[i].id, now).messages == MessageController.MarkDeleted(s.messages, i, now)
  {
    var r := MarkMessageAsDeleted(s, s.messages[i].id, now).messages;
    assert forall j :: 0 <= j < |s.messages| ==> r[j] == MessageController.MarkDeleted(s.messages, i, now)[j];
  }

  /** A message the report does not name is one the server left alone. */
  lemma UnreportedIsUnchanged(ms: seq<Message>, sender: UserId, viewer: UserId, clock: nat -> int, i: nat)
    requires i < |ms|
    requires FindSeenEntry(Socket.SeenReport(ms, sender, viewer, clock), ms[i].id).None?
    ensures Socket.MarkSeen(ms, sender, viewer, clock)[i] == ms[i]
  {
    var unseen := Socket.UnseenIndices(ms, sender, viewer, 0);
    Socket.UnseenIndicesIncreasing(ms, sender, viewer, 0);
    Socket.UnseenIndicesComplete(ms, sender, viewer, 0);
    var report := Socket.SeenReport(ms, sender, viewer, clock);
    Socket.StampSeenAt(ms, unseen, |unseen|, clock);
    assert unseen[..|unseen|] == unseen;
    forall k | 0 <= k < |unseen| ensures unseen[k] != i {
      assert report[k].messageId != ms[i].id;
    }
  }

  /** With unique ids, the entry the client finds for a message is the one the server stamped
      it with. */
  lemma ReportedIsStamped(ms: seq<Message>, sender: UserId, viewer: UserId, clock: nat -> int, i: nat, k: nat)
    requires UniqueIds(ms) && i < |ms|
    requires FindSeenEntry(Socket.SeenReport(ms, sender, viewer, clock), ms[i].id) == Some(k)
    ensures Socket.MarkSeen(ms, sender, viewer, clock)[i]
         == ms[i].(seen := true, seenAt := Some(Socket.SeenReport(ms, sender, viewer, clock)[k].seenAt))
  {
    var unseen := Socket.UnseenIndices(ms, sender, viewer, 0);
    Socket.UnseenIndicesIncreasing(ms, sender, viewer, 0);
    Socket.UnseenIndicesComplete(ms, sender, viewer, 0);
    var report := Socket.SeenList(ms, unseen, |unseen|, clock);
    assert report == Socket.SeenReport(ms, sender, viewer, clock);
    assert report[k] == SeenEntry(ms[unseen[k]].id, clock(k));
    var j := unseen[k];
    assert j == i by {
      assert ms[j].id == ms[i].id;
    }
    Socket.StampSeenAt(ms, unseen, |unseen|, clock);
    assert Socket.StampSeen(ms, unseen, |unseen|, clock)[j] == ms[j].(seen := true, seenAt := Some(clock(k)));
  }

  /** The client follows the server on seen marks: when its list is the server's collection, the
      report of `mark-messages-seen` turns it into the server's new collection. */
  lemma SeenConverges(s: ChatState, sender: UserId, viewer: UserId, clock: nat -> int)
    requires UniqueIds(s.messages)
    ensures OnMessageSeen(s, Some(Socket.SeenReport(s.messages, sender, viewer, clock))).messages
         == Socket.MarkSeen(s.messages, sender, viewer, clock)
  {
    var client := OnMessageSeen(s, Some(Socket.SeenReport(s.messages, sender, viewer, clock))).messages;
    var server := Socket.MarkSeen(s.messages, sender, viewer, clock);
    var report := Socket.SeenReport(s.messages, sender, viewer, clock);
    forall i | 0 <= i < |s.messages| ensures client[i] == server[i] {
      match FindSeenEntry(report, s.messages[i].id)
      case None => UnreportedIsUnchanged(s.messages, sender, viewer, clock, i);
      case Some(k) => ReportedIsStamped(s.messages, sender, viewer, clock, i, k);
    }
  }

  /** A message from the open chat is shown, not flagged unread, and answered with one
      `mark-messages-seen`; one from anybody else is flagged unread. */
  lemma NewMessageFromSelected(s: ChatState, selected: UserId, m: Message)
    ensures m.senderId == selected ==>
      && OnNewMessage(s, selected, m).state.messages == s.messages + [m]
      && OnNewMessage(s, selected, m).state.unreadMessages == s.unreadMessages
      && |OnNewMessage(s, selected, m).emits| == 1
    ensures m.senderId != selected ==>
      m.senderId in OnNewMessage(s, selected, m).state.unreadMessages
      && OnNewMessage(s, selected, m).state.unreadMessages[m.senderId]
      && OnNewMessage(s, selected, m).emits == []
  {
  }

  /** Opening a chat clears exactly that user's unread flag. */
  lemma SelectClearsUnread(s: ChatState, u: UserId)
    ensures var r := SetSelectedUser(s, Some(u));
      && r.selectedUser == Some(u) && u in r.unreadMessages && !r.unreadMessages[u]
      && (forall v :: v != u && v in s.unreadMessages ==> v in r.unreadMessages && r.unreadMessages[v] == s.unreadMessages[v])
      && r.messages == s.messages && r.typingStatus == s.typingStatus
  {
  }
}
