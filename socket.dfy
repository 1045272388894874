/** The presence registry and socket event handlers (backend/src/config/socket.js): the in-memory
    `userSocketMap` from user id to socket id, the Message collection the handlers update, and the
    outbox of everything the server has emitted. The closure variable `userId` of a connection is
    passed to each of its handlers; the empty string stands for a connection without one. */
module Socket {
  import opened Common
  import opened MessageModel
  import opened Events

  /** Positions, in collection order from `from` on, of the unseen messages from `sender` to
      `receiver`: the list `Message.find({ senderId, receiverId, seen: false })` returns. */
  function UnseenIndices(ms: seq<Message>, sender: UserId, receiver: UserId, from: nat): (r: seq<nat>)
    requires from <= |ms|
    ensures forall k :: 0 <= k < |r| ==> from <= r[k] < |ms| && UnseenFrom(ms[r[k]], sender, receiver)
    decreases |ms| - from
  {
    if from == |ms| then []
    else
      var rest := UnseenIndices(ms, sender, receiver, from + 1);
      if UnseenFrom(ms[from], sender, receiver) then [from] + rest else rest
  }

  /** Positions listed in strictly increasing order. */
  predicate Increasing(idx: seq<nat>) {
    forall a, b :: 0 <= a < b < |idx| ==> idx[a] < idx[b]
  }

  /** The positions come in collection order. */
  lemma {:induction false} UnseenIndicesIncreasing(ms: seq<Message>, sender: UserId, receiver: UserId, from: nat)
    requires from <= |ms|
    ensures Increasing(UnseenIndices(ms, sender, receiver, from))
    decreases |ms| - from
  {
    if from < |ms| && UnseenFrom(ms[from], sender, receiver) {
      UnseenIndicesIncreasing(ms, sender, receiver, from + 1);
      var rest := UnseenIndices(ms, sender, receiver, from + 1);
      var r := [from] + rest;
      assert r == UnseenIndices(ms, sender, receiver, from);
      forall a, b | 0 <= a < b < |r| ensures r[a] < r[b] {
        assert r[b] == rest[b - 1];
        if a > 0 {
          assert r[a] == rest[a - 1];
        }
      }
    } else if from < |ms| {
      UnseenIndicesIncreasing(ms, sender, receiver, from + 1);
    }
  }

  /** No unseen message from `from` on is missed. */
  lemma {:induction false} UnseenIndicesComplete(ms: seq<Message>, sender: UserId, receiver: UserId, from: nat)
    requires from <= |ms|
    ensures forall i :: from <= i < |ms| && UnseenFrom(ms[i], sender, receiver) ==> i in UnseenIndices(ms, sender, receiver, from)
    decreases |ms| - from
  {
    if from < |ms| {
      UnseenIndicesComplete(ms, sender, receiver, from + 1);
    }
  }

  /** The collection after the loop over `idx` has marked its first `n` entries: the entry at
      position k receives `seen = true` and the time `clock(k)`. */
  function StampSeen(ms: seq<Message>, idx: seq<nat>, n: nat, clock: nat -> int): (r: seq<Message>)
    requires n <= |idx|
    requires forall k :: 0 <= k < |idx| ==> idx[k] < |ms|
    ensures |r| == |ms|
  {
    if n == 0 then ms
    else
      var p := StampSeen(ms, idx, n - 1, clock);
      p[idx[n - 1] := p[idx[n - 1]].(seen := true, seenAt := Some(clock(n - 1)))]
  }

  /** The `seenMessages` list after `n` turns of the loop: one `{ messageId, seenAt }` per
      marked message. */
  function SeenList(ms: seq<Message>, idx: seq<nat>, n: nat, clock: nat -> int): (r: seq<SeenEntry>)
    requires n <= |idx|
    requires forall k :: 0 <= k < |idx| ==> idx[k] < |ms|
    ensures |r| == n
    ensures forall k :: 0 <= k < n ==> r[k] == SeenEntry(ms[idx[k]].id, clock(k))
  {
    if n == 0 then [] else SeenList(ms, idx, n - 1, clock) + [SeenEntry(ms[idx[n - 1]].id, clock(n - 1))]
  }

  /** Marking only sets `seen` and `seenAt`: ids, parties, contents and deletion fields stay. */
  lemma {:induction false} StampSeenKeeps(ms: seq<Message>, idx: seq<nat>, n: nat, clock: nat -> int, i: nat)
    requires n <= |idx|
    requires forall k :: 0 <= k < |idx| ==> idx[k] < |ms|
    requires i < |ms|
    ensures StampSeen(ms, idx, n, clock)[i] == ms[i].(seen := StampSeen(ms, idx, n, clock)[i].seen,
                                                       seenAt := StampSeen(ms, idx, n, clock)[i].seenAt)
  {
    if n > 0 {
      StampSeenKeeps(ms, idx, n - 1, clock, i);
    }
  }

  /** With increasing positions, the k-th listed message is marked with `clock(k)` and every
      position not among the first `n` is untouched. */
  lemma {:induction false} StampSeenAt(ms: seq<Message>, idx: seq<nat>, n: nat, clock: nat -> int)
    requires n <= |idx|
    requires forall k :: 0 <= k < |idx| ==> idx[k] < |ms|
    requires Increasing(idx)
    ensures forall k :: 0 <= k < n ==>
      StampSeen(ms, idx, n, clock)[idx[k]] == ms[idx[k]].(seen := true, seenAt := Some(clock(k)))
    ensures forall i :: 0 <= i < |ms| && i !in idx[..n] ==> StampSeen(ms, idx, n, clock)[i] == ms[i]
  {
    if n > 0 {
      StampSeenAt(ms, idx, n - 1, clock);
      assert idx[..n] == idx[..n - 1] + [idx[n - 1]];
    }
  }

  /** The collection after `mark-messages-seen` from `sender` to `viewer`. */
  function MarkSeen(ms: seq<Message>, sender: UserId, viewer: UserId, clock: nat -> int): (r: seq<Message>)
    ensures |r| == |ms|
  {
    var unseen := UnseenIndices(ms, sender, viewer, 0);
    StampSeen(ms, unseen, |unseen|, clock)
  }

  /** The `seenMessages` list that `mark-messages-seen` reports. */
  function SeenReport(ms: seq<Message>, sender: UserId, viewer: UserId, clock: nat -> int): (r: seq<SeenEntry>)
  {
    var unseen := UnseenIndices(ms, sender, viewer, 0);
    SeenList(ms, unseen, |unseen|, clock)
  }

  /** Exactly the unseen messages from the sender to the viewer change, and each of them only
      gains `seen = true` and a `seenAt` time. */
  lemma MarkSeenUpdates(ms: seq<Message>, sender: UserId, viewer: UserId, clock: nat -> int)
    ensures forall i :: 0 <= i < |ms| && !UnseenFrom(ms[i], sender, viewer) ==> MarkSeen(ms, sender, viewer, clock)[i] == ms[i]
    ensures forall i :: 0 <= i < |ms| && UnseenFrom(ms[i], sender, viewer) ==>
      (MarkSeen(ms, sender, viewer, clock)[i].seenAt.Some?
       && MarkSeen(ms, sender, viewer, clock)[i] == ms[i].(seen := true, seenAt := MarkSeen(ms, sender, viewer, clock)[i].seenAt))
  {
    var unseen := UnseenIndices(ms, sender, viewer, 0);
    UnseenIndicesIncreasing(ms, sender, viewer, 0);
    UnseenIndicesComplete(ms, sender, viewer, 0);
    StampSeenAt(ms, unseen, |unseen|, clock);
    assert unseen[..|unseen|] == unseen;
    forall i | 0 <= i < |ms| && UnseenFrom(ms[i], sender, viewer)
      ensures MarkSeen(ms, sender, viewer, clock)[i].seenAt.Some?
      ensures MarkSeen(ms, sender, viewer, clock)[i] == ms[i].(seen := true, seenAt := MarkSeen(ms, sender, viewer, clock)[i].seenAt)
    {
      var k :| 0 <= k < |unseen| && unseen[k] == i;
    }
  }

  /** Afterwards every message from the sender to the viewer is seen. */
  lemma MarkSeenAllSeen(ms: seq<Message>, sender: UserId, viewer: UserId, clock: nat -> int)
    ensures forall i :: 0 <= i < |ms| && ms[i].senderId == sender && ms[i].receiverId == viewer ==>
      MarkSeen(ms, sender, viewer, clock)[i].seen
  {
    MarkSeenUpdates(ms, sender, viewer, clock);
  }

  /** The marks keep the collection well formed: ids stay unique and each stamp comes with its flag. */
  lemma MarkSeenKeepsValid(ms: seq<Message>, sender: UserId, viewer: UserId, clock: nat -> int)
    requires ValidStore(ms)
    ensures ValidStore(MarkSeen(ms, sender, viewer, clock))
  {
    MarkSeenUpdates(ms, sender, viewer, clock);
  }

  /** Every reported entry names a message that was unseen and carries the stamp it received. */
  lemma SeenReportIsMarked(ms: seq<Message>, sender: UserId, viewer: UserId, clock: nat -> int)
    ensures var report := SeenReport(ms, sender, viewer, clock);
      forall k :: 0 <= k < |report| ==>
        exists i :: 0 <= i < |ms| && UnseenFrom(ms[i], sender, viewer) && report[k].messageId == ms[i].id
                    && MarkSeen(ms, sender, viewer, clock)[i].seenAt == Some(report[k].seenAt)
  {
    var unseen := UnseenIndices(ms, sender, viewer, 0);
    UnseenIndicesIncreasing(ms, sender, viewer, 0);
    UnseenIndicesComplete(ms, sender, viewer, 0);
    var report := SeenList(ms, unseen, |unseen|, clock);
    var marked := StampSeen(ms, unseen, |unseen|, clock);
    assert report == SeenReport(ms, sender, viewer, clock);
    assert marked == MarkSeen(ms, sender, viewer, clock);
    StampSeenAt(ms, unseen, |unseen|, clock);
    forall k | 0 <= k < |report|
      ensures exists i :: 0 <= i < |ms| && UnseenFrom(ms[i], sender, viewer) && report[k].messageId == ms[i].id
                          && marked[i].seenAt == Some(report[k].seenAt)
    {
      var i := unseen[k];
      assert report[k] == SeenEntry(ms[i].id, clock(k));
      assert marked[i].seenAt == Some(clock(k));
    }
  }

  /** Every message that was unseen is reported. */
  lemma SeenReportComplete(ms: seq<Message>, sender: UserId, viewer: UserId, clock: nat -> int)
    ensures var report := SeenReport(ms, sender, viewer, clock);
      forall i :: 0 <= i < |ms| && UnseenFrom(ms[i], sender, viewer) ==>
        exists k :: 0 <= k < |report| && report[k].messageId == ms[i].id
  {
    var unseen := UnseenIndices(ms, sender, viewer, 0);
    UnseenIndicesIncreasing(ms, sender, viewer, 0);
    UnseenIndicesComplete(ms, sender, viewer, 0);
    var report := SeenReport(ms, sender, viewer, clock);
    forall i | 0 <= i < |ms| && UnseenFrom(ms[i], sender, viewer)
      ensures exists k :: 0 <= k < |report| && report[k].messageId == ms[i].id
    {
      var k :| 0 <= k < |unseen| && unseen[k] == i;
      assert report[k].messageId == ms[i].id;
    }
  }

  /** A notice goes out exactly when there was something unseen. */
  lemma SeenReportNonEmpty(ms: seq<Message>, sender: UserId, viewer: UserId, clock: nat -> int)
    ensures |SeenReport(ms, sender, viewer, clock)| > 0 <==> exists i :: 0 <= i < |ms| && UnseenFrom(ms[i], sender, viewer)
  {
    var unseen := UnseenIndices(ms, sender, viewer, 0);
    UnseenIndicesIncreasing(ms, sender, viewer, 0);
    UnseenIndicesComplete(ms, sender, viewer, 0);
    if |unseen| > 0 {
      assert UnseenFrom(ms[unseen[0]], sender, viewer);
    }
  }

  /** The loop of the handler over the unseen messages: the k-th one is flagged seen with the
      time `clock(k)` and reported. */
  method StampAll(ms: seq<Message>, idx: seq<nat>, clock: nat -> int) returns (marked: seq<Message>, report: seq<SeenEntry>)
    requires forall k :: 0 <= k < |idx| ==> idx[k] < |ms|
    ensures marked == StampSeen(ms, idx, |idx|, clock)
    ensures report == SeenList(ms, idx, |idx|, clock)
  {
    marked := ms;
    report := [];
    for k := 0 to |idx|
      invariant marked == StampSeen(ms, idx, k, clock)
      invariant report == SeenList(ms, idx, k, clock)
    {
      var i := idx[k];
      StampSeenKeeps(ms, idx, k, clock, i);
      var msg := marked[i].(seen := true, seenAt := Some(clock(k)));
      marked := marked[i := msg];
      report := report + [SeenEntry(msg.id, msg.seenAt.value)];
    }
  }

  class SocketServer {
    var userSocketMap: map<UserId, SocketId>
    var messages: seq<Message>
    var outbox: seq<Event>

    /** Only connections that carried a user id are bound; the stored messages stay well formed. */
    ghost predicate Valid()
      reads this
    {
      "" !in userSocketMap && ValidStore(messages)
    }

    /** A freshly started server: nobody is online, nothing has been emitted. */
    constructor (messages: seq<Message>)
      requires ValidStore(messages)
      ensures Valid()
      ensures userSocketMap == map[] && this.messages == messages && outbox == []
    {
      userSocketMap := map[];
      this.messages := messages;
      outbox := [];
    }

    /** `getReceiverSocketId(userId)`: the socket the user is bound to, if any. */
    function GetReceiverSocketId(userId: UserId): (r: Option<SocketId>)
      reads this
      ensures r.Some? <==> userId in userSocketMap
      ensures r.Some? ==> r.value == userSocketMap[userId]
    {
      if userId in userSocketMap then Some(userSocketMap[userId]) else None
    }

    /** The "connection" handler: a connection with a user id binds it, replacing any earlier
        socket of that user; then the online set is broadcast. */
    method OnConnection(socketId: SocketId, userId: string)
      requires Valid()
      modifies this
      ensures Valid()
      ensures userSocketMap == if userId != "" then old(userSocketMap)[userId := socketId] else old(userSocketMap)
      ensures forall u :: u in old(userSocketMap) && u != userId ==> u in userSocketMap && userSocketMap[u] == old(userSocketMap)[u]
      ensures messages == old(messages)
      ensures outbox == old(outbox) + [Broadcast(OnlineUsers(userSocketMap.Keys))]
    {
      if userId != "" {
        userSocketMap := userSocketMap[userId := socketId];
      }
      outbox := outbox + [Broadcast(OnlineUsers(userSocketMap.Keys))];
    }

    /** The "disconnect" handler: the user's entry goes whichever socket it holds, so the
        disconnect of a stale tab also unbinds a newer one; then the online set is broadcast. */
    method OnDisconnect(userId: string)
      requires Valid()
      modifies this
      ensures Valid()
      ensures userSocketMap == old(userSocketMap) - {userId}
      ensures userId !in userSocketMap
      ensures messages == old(messages)
      ensures outbox == old(outbox) + [Broadcast(OnlineUsers(userSocketMap.Keys))]
    {
      userSocketMap := userSocketMap - {userId};
      outbox := outbox + [Broadcast(OnlineUsers(userSocketMap.Keys))];
    }

    /** The "mark-messages-seen" handler of the connection of `userId`: every unseen message from
        `senderId` to it is marked seen, the k-th one with the time `clock(k)` that its
        `new Date()` reads (`MarkSeen`, whose effect the lemmas above state); the marked
        ids are reported to the sender's socket if it is bound. */
    method OnMarkMessagesSeen(userId: UserId, senderId: UserId, clock: nat -> int) returns (seenMessages: seq<SeenEntry>)
      requires Valid()
      modifies this
      ensures Valid()
      ensures userSocketMap == old(userSocketMap)
      ensures messages == MarkSeen(old(messages), senderId, userId, clock)
      ensures seenMessages == SeenReport(old(messages), senderId, userId, clock)
      ensures outbox == old(outbox) + if |seenMessages| > 0 then EmitIfBound(userSocketMap, senderId, MessagesSeen(userId, seenMessages)) else []
    {
      var unseen := UnseenIndices(messages, senderId, userId, 0);
      ghost var before := messages;
      var marked;
      marked, seenMessages := StampAll(messages, unseen, clock);
      assert marked == MarkSeen(before, senderId, userId, clock);
      assert seenMessages == SeenReport(before, senderId, userId, clock);
      MarkSeenKeepsValid(before, senderId, userId, clock);
      messages := marked;
      if |seenMessages| > 0 {
        var senderSocketId := GetReceiverSocketId(senderId);
        if senderSocketId.Some? {
          outbox := outbox + [EmitTo(senderSocketId.value, MessagesSeen(userId, seenMessages))];
        }
      }
    }

    /** The "typing" handler: `{ senderId }` goes to the receiver's socket if it is bound. */
    method OnTyping(senderId: UserId, receiverId: UserId)
      requires Valid()
      modifies this
      ensures Valid()
      ensures userSocketMap == old(userSocketMap) && messages == old(messages)
      ensures outbox == old(outbox) + EmitIfBound(userSocketMap, receiverId, Typing(senderId))
    {
      var receiverSocketId := GetReceiverSocketId(receiverId);
      if receiverSocketId.Some? {
        outbox := outbox + [EmitTo(receiverSocketId.value, Typing(senderId))];
      }
    }

    /** The "stop-typing" handler, the same routing with the other event. */
    method OnStopTyping(senderId: UserId, receiverId: UserId)
      requires Valid()
      modifies this
      ensures Valid()
      ensures userSocketMap == old(userSocketMap) && messages == old(messages)
      ensures outbox == old(outbox) + EmitIfBound(userSocketMap, receiverId, StopTyping(senderId))
    {
      var receiverSocketId := GetReceiverSocketId(receiverId);
      if receiverSocketId.Some? {
        outbox := outbox + [EmitTo(receiverSocketId.value, StopTyping(senderId))];
      }
    }
  }
}
