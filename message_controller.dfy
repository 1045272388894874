/** The conversation handlers (backend/src/controllers/message.controller.js): the user list, the
    thread fetch behind a write-invalidate cache, delete-for-everyone and send. The Message
    collection and the socket registry are those of the `SocketServer`; the Redis cache is a map
    from key to value and expiry in seconds; the User collection, which these handlers only
    read, is a parameter. Each handler is one atomic step. */
module MessageController {
  import opened Common
  import opened Strings
  import opened MessageModel
  import opened UserModel
  import opened Events
  import opened Socket

  const UsersTtl: nat := 300
  const MessagesTtl: nat := 120
  const MaxDeleteAge := 60 * 60 * 1000

  /** What a cache key holds: a user list or a thread. */
  datatype CachedValue = CachedUsers(users: seq<Document>) | CachedMessages(messages: seq<Message>)

  /** A cache entry with its `EX` expiry; expiry itself is not modelled. */
  datatype CacheEntry = CacheEntry(value: CachedValue, ex: nat)

  datatype Body =
    | Notice(message: string)
    | Json(value: CachedValue)
    | NewMessageSent(message: string, payload: Payload)

  datatype Response = Response(status: nat, body: Body)

  // ---------------------------------------------------------------------------------------------
  // Cache keys

  /** `messages:` followed by the two ids sorted with the default string order and joined by ':'. */
  function ConversationKey(a: UserId, b: UserId): string {
    if LessEq(a, b) then "messages:" + a + ":" + b else "messages:" + b + ":" + a
  }

  /** `users:except:<id>`. */
  function UsersKey(id: UserId): string {
    "users:except:" + id
  }

  /** Both participants compute the same key. */
  lemma ConversationKeySymmetric(a: UserId, b: UserId)
    ensures ConversationKey(a, b) == ConversationKey(b, a)
  {
    LessEqTotal(a, b);
    if LessEq(a, b) && LessEq(b, a) {
      LessEqAntisymmetric(a, b);
    }
  }

  /** The text after the prefix splits back into the two ids when neither contains ':'. */
  lemma SplitPair(x: string, y: string)
    requires ':' !in x && ':' !in y
    ensures Split(x + ":" + y, ':') == [x, y]
  {
    SplitAtFirst(x, ':', y);
    SplitWithout(y, ':');
  }

  /** For ids without ':', different unordered pairs get different keys. */
  lemma ConversationKeyInjective(a: UserId, b: UserId, c: UserId, d: UserId)
    requires ':' !in a && ':' !in b && ':' !in c && ':' !in d
    requires ConversationKey(a, b) == ConversationKey(c, d)
    ensures (a == c && b == d) || (a == d && b == c)
  {
    var prefix := "messages:";
    var x, y := if LessEq(a, b) then a else b, if LessEq(a, b) then b else a;
    var z, w := if LessEq(c, d) then c else d, if LessEq(c, d) then d else c;
    assert ConversationKey(a, b) == prefix + (x + ":" + y);
    assert ConversationKey(c, d) == prefix + (z + ":" + w);
    assert x + ":" + y == ConversationKey(a, b)[|prefix|..];
    assert z + ":" + w == ConversationKey(c, d)[|prefix|..];
    SplitPair(x, y);
    SplitPair(z, w);
  }

  /** A user-list key is never a thread key, so invalidating threads leaves user lists alone. */
  lemma UsersKeyIsNotConversationKey(id: UserId, a: UserId, b: UserId)
    ensures UsersKey(id) != ConversationKey(a, b)
  {
    assert UsersKey(id)[0] == 'u';
    assert ConversationKey(a, b)[0] == 'm';
  }

  // ---------------------------------------------------------------------------------------------
  // Queries

  /** `User.find({ _id: { $ne: me } })`: every user but the requester, in natural order. */
  function Others(users: seq<User>, me: UserId): (r: seq<User>)
    ensures |r| <= |users|
    ensures forall u :: u in r <==> u in users && u.id != me
  {
    if |users| == 0 then []
    else
      var rest := Others(users[1..], me);
      assert forall u :: u in users <==> u == users[0] || u in users[1..];
      if users[0].id != me then [users[0]] + rest else rest
  }

  /** The same query with the projection applied to each user found. */
  function OthersView(users: seq<User>, me: UserId): (r: seq<Document>)
    ensures |r| == |Others(users, me)|
    ensures forall i :: 0 <= i < |r| ==> r[i] == PublicView(Others(users, me)[i])
  {
    var found := Others(users, me);
    seq(|found|, i requires 0 <= i < |found| => PublicView(found[i]))
  }

  /** The list is empty exactly when nobody but the requester is registered. */
  lemma OthersViewEmpty(users: seq<User>, me: UserId)
    ensures |OthersView(users, me)| == 0 <==> forall k :: 0 <= k < |users| ==> users[k].id == me
  {
    var found := Others(users, me);
    if |found| > 0 {
      assert found[0] in users && found[0].id != me;
    }
    if exists k :: 0 <= k < |users| && users[k].id != me {
      var k :| 0 <= k < |users| && users[k].id != me;
      assert users[k] in found;
    }
  }

  /** The messages exchanged between `a` and `b`, in either direction, in collection order. */
  function Conversation(ms: seq<Message>, a: UserId, b: UserId): (r: seq<Message>)
    ensures |r| <= |ms|
    ensures forall m :: m in r <==> m in ms && Between(m, a, b)
  {
    if |ms| == 0 then []
    else
      var rest := Conversation(ms[1..], a, b);
      assert forall m :: m in ms <==> m == ms[0] || m in ms[1..];
      if Between(ms[0], a, b) then [ms[0]] + rest else rest
  }

  /** Which participant asks makes no difference to the selection. */
  lemma {:induction false} ConversationSymmetric(ms: seq<Message>, a: UserId, b: UserId)
    ensures Conversation(ms, a, b) == Conversation(ms, b, a)
  {
    if |ms| > 0 {
      ConversationSymmetric(ms[1..], a, b);
    }
  }

  predicate SortedByCreatedAt(s: seq<Message>) {
    forall i, j :: 0 <= i < j < |s| ==> s[i].createdAt <= s[j].createdAt
  }

  /** Insert `m` before the first message that is not older than it. */
  function InsertByCreatedAt(m: Message, s: seq<Message>): (r: seq<Message>)
    ensures |r| == |s| + 1
    ensures multiset(r) == multiset(s) + multiset{m}
    ensures r[0] == m || (|s| > 0 && r[0] == s[0])
  {
    if |s| == 0 then [m]
    else if m.createdAt <= s[0].createdAt then [m] + s
    else
      var rest := InsertByCreatedAt(m, s[1..]);
      assert s == [s[0]] + s[1..];
      [s[0]] + rest
  }

  /** A message no newer than the head of a sorted list can go in front of it. */
  lemma PrependKeepsSorted(x: Message, t: seq<Message>)
    requires SortedByCreatedAt(t)
    requires |t| > 0 ==> x.createdAt <= t[0].createdAt
    ensures SortedByCreatedAt([x] + t)
  {
    var r := [x] + t;
    forall i, j | 0 <= i < j < |r| ensures r[i].createdAt <= r[j].createdAt {
      assert r[j] == t[j - 1];
      if i > 0 {
        assert r[i] == t[i - 1];
      }
    }
  }

  /** Inserting into a sorted list keeps it sorted. */
  lemma {:induction false} InsertKeepsSorted(m: Message, s: seq<Message>)
    requires SortedByCreatedAt(s)
    ensures SortedByCreatedAt(InsertByCreatedAt(m, s))
  {
    if |s| == 0 {
    } else if m.createdAt <= s[0].createdAt {
      PrependKeepsSorted(m, s);
    } else {
      var tail := s[1..];
      assert SortedByCreatedAt(tail);
      InsertKeepsSorted(m, tail);
      var rest := InsertByCreatedAt(m, tail);
      assert rest[0] == m || rest[0] == tail[0];
      PrependKeepsSorted(s[0], rest);
    }
  }

  /** `.sort({ createdAt: 1 })`, written as an insertion sort; the order among equal times is not modelled. */
  function SortByCreatedAt(ms: seq<Message>): (r: seq<Message>)
    ensures multiset(r) == multiset(ms)
    ensures SortedByCreatedAt(r)
  {
    if |ms| == 0 then []
    else
      assert ms == [ms[0]] + ms[1..];
      var sorted := SortByCreatedAt(ms[1..]);
      InsertKeepsSorted(ms[0], sorted);
      InsertByCreatedAt(ms[0], sorted)
  }

  /** The thread a cache miss returns. */
  function Thread(ms: seq<Message>, a: UserId, b: UserId): seq<Message> {
    SortByCreatedAt(Conversation(ms, a, b))
  }

  /** The thread holds every message between the pair and no other, oldest first, and is the same
      for both participants. */
  lemma ThreadContents(ms: seq<Message>, a: UserId, b: UserId)
    ensures forall m :: m in Thread(ms, a, b) <==> m in ms && Between(m, a, b)
    ensures SortedByCreatedAt(Thread(ms, a, b))
    ensures Thread(ms, a, b) == Thread(ms, b, a)
  {
    var c := Conversation(ms, a, b);
    assert forall m :: m in Thread(ms, a, b) <==> m in multiset(c);
    ConversationSymmetric(ms, a, b);
  }

  // ---------------------------------------------------------------------------------------------
  // The bulk seen update of a thread fetch

  /** How many messages `updateMany({ senderId: partner, receiverId: viewer, seen: false })` matches. */
  function CountUnseen(ms: seq<Message>, partner: UserId, viewer: UserId): (n: nat)
    ensures n <= |ms|
    ensures n > 0 <==> exists i :: 0 <= i < |ms| && UnseenFrom(ms[i], partner, viewer)
  {
    if |ms| == 0 then 0
    else
      var rest := CountUnseen(ms[1..], partner, viewer);
      assert forall i :: 1 <= i < |ms| ==> ms[i] == ms[1..][i - 1];
      assert rest > 0 ==> exists i :: 0 <= i < |ms| && UnseenFrom(ms[i], partner, viewer) by {
        if rest > 0 {
          var i :| 0 <= i < |ms| - 1 && UnseenFrom(ms[1..][i], partner, viewer);
          assert UnseenFrom(ms[i + 1], partner, viewer);
        }
      }
      (if UnseenFrom(ms[0], partner, viewer) then 1 else 0) + rest
  }

  /** `$set: { seen: true, seenAt: at }` on every matched message. */
  function MarkThreadSeen(ms: seq<Message>, partner: UserId, viewer: UserId, at: int): (r: seq<Message>)
    ensures |r| == |ms|
  {
    seq(|ms|, i requires 0 <= i < |ms| =>
      if UnseenFrom(ms[i], partner, viewer) then ms[i].(seen := true, seenAt := Some(at)) else ms[i])
  }

  /** After the update every matched message is seen with the one shared stamp and nothing else
      about it changes, nothing from the partner to the viewer is unseen, every other message is
      untouched, and the collection stays well formed. */
  lemma MarkThreadSeenEffect(ms: seq<Message>, partner: UserId, viewer: UserId, at: int)
    ensures forall i :: 0 <= i < |ms| && UnseenFrom(ms[i], partner, viewer) ==>
      MarkThreadSeen(ms, partner, viewer, at)[i] == ms[i].(seen := true, seenAt := Some(at))
    ensures CountUnseen(MarkThreadSeen(ms, partner, viewer, at), partner, viewer) == 0
    ensures forall i :: 0 <= i < |ms| && !UnseenFrom(ms[i], partner, viewer) ==>
      MarkThreadSeen(ms, partner, viewer, at)[i] == ms[i]
    ensures ValidStore(ms) ==> ValidStore(MarkThreadSeen(ms, partner, viewer, at))
  {
    var r := MarkThreadSeen(ms, partner, viewer, at);
    assert forall i :: 0 <= i < |r| ==> !UnseenFrom(r[i], partner, viewer);
    assert forall i :: 0 <= i < |r| ==> r[i].id == ms[i].id;
  }

  /** The update modifies something exactly when it matched something. */
  lemma MarkThreadSeenChanges(ms: seq<Message>, partner: UserId, viewer: UserId, at: int)
    ensures MarkThreadSeen(ms, partner, viewer, at) != ms <==> CountUnseen(ms, partner, viewer) > 0
  {
    var r := MarkThreadSeen(ms, partner, viewer, at);
    if CountUnseen(ms, partner, viewer) > 0 {
      var i :| 0 <= i < |ms| && UnseenFrom(ms[i], partner, viewer);
      assert r[i].seen != ms[i].seen;
    } else {
      assert forall i :: 0 <= i < |ms| ==> r[i] == ms[i];
    }
  }

  /** A second fetch finds nothing more to mark. */
  lemma MarkThreadSeenIdempotent(ms: seq<Message>, partner: UserId, viewer: UserId, at: int, later: int)
    ensures MarkThreadSeen(MarkThreadSeen(ms, partner, viewer, at), partner, viewer, later)
         == MarkThreadSeen(ms, partner, viewer, at)
  {
    MarkThreadSeenEffect(ms, partner, viewer, at);
    MarkThreadSeenChanges(MarkThreadSeen(ms, partner, viewer, at), partner, viewer, later);
  }

  /** The socket handler and the thread fetch mark the same messages: with one time for all,
      the handler's loop is this bulk update. */
  lemma SocketMarkAgrees(ms: seq<Message>, partner: UserId, viewer: UserId, at: int)
    ensures MarkSeen(ms, partner, viewer, (k: nat) => at) == MarkThreadSeen(ms, partner, viewer, at)
  {
    var clock := (k: nat) => at;
    var r := MarkSeen(ms, partner, viewer, clock);
    var s := MarkThreadSeen(ms, partner, viewer, at);
    MarkSeenUpdates(ms, partner, viewer, clock);
    var unseen := UnseenIndices(ms, partner, viewer, 0);
    UnseenIndicesIncreasing(ms, partner, viewer, 0);
    UnseenIndicesComplete(ms, partner, viewer, 0);
    StampSeenAt(ms, unseen, |unseen|, clock);
    assert unseen[..|unseen|] == unseen;
    forall i | 0 <= i < |ms| ensures r[i] == s[i] {
      if UnseenFrom(ms[i], partner, viewer) {
        var k :| 0 <= k < |unseen| && unseen[k] == i;
      }
    }
  }

  // ---------------------------------------------------------------------------------------------
  // Delete for everyone

  /** The guards of delete-for-everyone, in their order; `Ok(i)` names the message to delete. */
  function CheckDelete(ms: seq<Message>, requester: UserId, id: MessageId, now: int): (r: Result<nat, Response>)
    ensures FindById(ms, id).None? <==> r == Err(Response(400, Notice("Message not found")))
    ensures FindById(ms, id).Some? && ms[FindById(ms, id).value].senderId != requester
        <==> r == Err(Response(403, Notice("You are not authorized to delete this message")))
    ensures FindById(ms, id).Some? && ms[FindById(ms, id).value].senderId == requester
            && now - ms[FindById(ms, id).value].createdAt > MaxDeleteAge
        <==> r == Err(Response(400, Notice("Messages older than 1 hour cannot be deleted for everyone")))
    ensures r.Ok? <==> FindById(ms, id).Some? && ms[FindById(ms, id).value].senderId == requester
                       && now - ms[FindById(ms, id).value].createdAt <= MaxDeleteAge
    ensures r.Ok? ==> r.value < |ms| && ms[r.value].id == id && ms[r.value].senderId == requester
                      && now - ms[r.value].createdAt <= MaxDeleteAge
  {
    match FindById(ms, id)
    case None => Err(Response(400, Notice("Message not found")))
    case Some(i) =>
      if ms[i].senderId != requester then Err(Response(403, Notice("You are not authorized to delete this message")))
      else if now - ms[i].createdAt > MaxDeleteAge then
        Err(Response(400, Notice("Messages older than 1 hour cannot be deleted for everyone")))
      else Ok(i)
  }

  /** A message sent exactly one hour ago may still be deleted; one millisecond later it may not. */
  lemma DeleteWindowBoundary(m: Message, requester: UserId)
    requires m.senderId == requester
    ensures CheckDelete([m], requester, m.id, m.createdAt + MaxDeleteAge).Ok?
    ensures CheckDelete([m], requester, m.id, m.createdAt + MaxDeleteAge + 1)
         == Err(Response(400, Notice("Messages older than 1 hour cannot be deleted for everyone")))
  {
    assert FindById([m], m.id) == Some(0);
  }

  /** `isDeleted = true; deletedAt = now` on the message at `i`, then `save()`. */
  function MarkDeleted(ms: seq<Message>, i: nat, now: int): (r: seq<Message>)
    requires i < |ms|
    ensures |r| == |ms|
  {
    ms[i := ms[i].(isDeleted := true, deletedAt := Some(now))]
  }

  /** Deleting sets only the two deletion fields of the target, so its text, image, parties and
      seen state stay; every other message stays too, and the collection stays well formed. */
  lemma MarkDeletedEffect(ms: seq<Message>, i: nat, now: int)
    requires i < |ms|
    ensures var r := MarkDeleted(ms, i, now);
      && r[i] == ms[i].(isDeleted := true, deletedAt := Some(now))
      && r[i].text == ms[i].text && r[i].image == ms[i].image
      && forall j :: 0 <= j < |ms| && j != i ==> r[j] == ms[j]
    ensures ValidStore(ms) ==> ValidStore(MarkDeleted(ms, i, now))
  {
    var r := MarkDeleted(ms, i, now);
    assert forall j :: 0 <= j < |r| ==> r[j].id == ms[j].id;
  }

  // ---------------------------------------------------------------------------------------------
  // The self-send guard of sendMessage

  /** The two kinds of value the guard compares: the route parameter is a string, while
      `req.user._id` of the Mongoose document the middleware attached is an ObjectId object. */
  datatype JsValue = JsString(text: string) | JsObjectId(hex: string)

  /** `a === b` on these values: strings are equal by contents; a string is never strictly equal
      to an object, and two ObjectId instances are distinct objects. */
  function StrictEquals(a: JsValue, b: JsValue): (r: bool)
    ensures r <==> a.JsString? && b.JsString? && a.text == b.text
  {
    match (a, b)
    case (JsString(x), JsString(y)) => x == y
    case _ => false
  }

  /** The guard as written never fires, even when the route names the requester. */
  lemma SelfSendGuardNeverFires(routeId: string, me: string)
    ensures !StrictEquals(JsString(routeId), JsObjectId(me))
  {
  }

  // ---------------------------------------------------------------------------------------------
  // Handlers

  class MessageController {
    const io: SocketServer
    var cache: map<string, CacheEntry>

    ghost predicate Valid()
      reads this, io
    {
      io.Valid()
    }

    constructor (io: SocketServer)
      requires io.Valid()
      ensures Valid()
      ensures this.io == io && cache == map[]
    {
      this.io := io;
      cache := map[];
    }

    /** `getAllUsers`: a cached list is returned as it is; otherwise every other user is read,
        an empty result is 404 and caches nothing, a non-empty one is cached for 300 seconds. */
    method GetAllUsers(me: UserId, users: seq<User>) returns (r: Response)
      requires Valid()
      modifies this
      ensures Valid()
      ensures UsersKey(me) in old(cache) ==> r == Response(200, Json(old(cache)[UsersKey(me)].value)) && cache == old(cache)
      ensures UsersKey(me) !in old(cache) && |OthersView(users, me)| == 0 ==>
        r == Response(404, Notice("No users found")) && cache == old(cache)
      ensures UsersKey(me) !in old(cache) && |OthersView(users, me)| > 0 ==>
        && r == Response(200, Json(CachedUsers(OthersView(users, me))))
        && cache == old(cache)[UsersKey(me) := CacheEntry(CachedUsers(OthersView(users, me)), UsersTtl)]
    {
      var cacheKey := UsersKey(me);
      if cacheKey in cache {
        return Response(200, Json(cache[cacheKey].value));
      }
      var found := OthersView(users, me);
      if |found| == 0 {
        return Response(404, Notice("No users found"));
      }
      cache := cache[cacheKey := CacheEntry(CachedUsers(found), UsersTtl)];
      r := Response(200, Json(CachedUsers(found)));
    }

    /** `getConversationMessages`: a missing partner id is 400; a cached thread is returned with
        no other effect; otherwise the thread is read and cached for 120 seconds, the partner's
        unseen messages to the viewer are marked seen at `now`, and if any was, the key is
        dropped again and the partner's socket is told at `emitNow`. The response is the thread
        as read before the update. */
    method GetConversationMessages(viewer: UserId, partner: UserId, now: int, emitNow: int) returns (r: Response)
      requires Valid()
      modifies this, io
      ensures Valid()
      ensures io.userSocketMap == old(io.userSocketMap)
      ensures partner == "" ==>
        r == Response(400, Notice("User ID is required"))
        && cache == old(cache) && io.messages == old(io.messages) && io.outbox == old(io.outbox)
      ensures partner != "" && ConversationKey(viewer, partner) in old(cache) ==>
        r == Response(200, Json(old(cache)[ConversationKey(viewer, partner)].value))
        && cache == old(cache) && io.messages == old(io.messages) && io.outbox == old(io.outbox)
      ensures partner != "" && ConversationKey(viewer, partner) !in old(cache) ==>
        && r == Response(200, Json(CachedMessages(Thread(old(io.messages), viewer, partner))))
        && io.messages == MarkThreadSeen(old(io.messages), partner, viewer, now)
      ensures partner != "" && ConversationKey(viewer, partner) !in old(cache) && CountUnseen(old(io.messages), partner, viewer) > 0 ==>
        && cache == old(cache) - {ConversationKey(viewer, partner)}
        && io.outbox == old(io.outbox) + EmitIfBound(io.userSocketMap, partner, ThreadSeen(viewer, emitNow))
      ensures partner != "" && ConversationKey(viewer, partner) !in old(cache) && CountUnseen(old(io.messages), partner, viewer) == 0 ==>
        && cache == old(cache)[ConversationKey(viewer, partner) := CacheEntry(CachedMessages(Thread(old(io.messages), viewer, partner)), MessagesTtl)]
        && io.outbox == old(io.outbox)
    {
      if partner == "" {
        return Response(400, Notice("User ID is required"));
      }
      var cacheKey := ConversationKey(viewer, partner);
      if cacheKey in cache {
        return Response(200, Json(cache[cacheKey].value));
      }
      var before := io.messages;
      var messages := Thread(before, viewer, partner);
      cache := cache[cacheKey := CacheEntry(CachedMessages(messages), MessagesTtl)];
      var modifiedCount := CountUnseen(before, partner, viewer);
      var after := MarkThreadSeen(before, partner, viewer, now);
      MarkThreadSeenEffect(before, partner, viewer, now);
      io.messages := after;
      if modifiedCount > 0 {
        cache := cache - {cacheKey};
        var senderSocketId := io.GetReceiverSocketId(partner);
        if senderSocketId.Some? {
          io.outbox := io.outbox + [EmitTo(senderSocketId.value, ThreadSeen(viewer, emitNow))];
        }
      }
      r := Response(200, Json(CachedMessages(messages)));
    }

    /** `deleteMessageForEveryone`: a rejected request changes nothing; an accepted one marks the
        message deleted at `now` (keeping its contents), drops the pair's thread key and tells
        the receiver's and then the sender's socket. An already deleted message is deleted again. */
    method DeleteMessageForEveryone(requester: UserId, id: MessageId, now: int) returns (r: Response)
      requires Valid()
      modifies this, io
      ensures Valid()
      ensures io.userSocketMap == old(io.userSocketMap)
      ensures CheckDelete(old(io.messages), requester, id, now).Err? ==>
        r == CheckDelete(old(io.messages), requester, id, now).error
        && cache == old(cache) && io.messages == old(io.messages) && io.outbox == old(io.outbox)
      ensures CheckDelete(old(io.messages), requester, id, now).Ok? ==>
        var i := CheckDelete(old(io.messages), requester, id, now).value;
        var m := old(io.messages)[i];
        && r == Response(200, Notice("Message deleted for everyone"))
        && io.messages == MarkDeleted(old(io.messages), i, now)
        && cache == old(cache) - {ConversationKey(m.senderId, m.receiverId)}
        && io.outbox == old(io.outbox) + EmitIfBound(io.userSocketMap, m.receiverId, MessageDeleted(m.id, now))
                                       + EmitIfBound(io.userSocketMap, requester, MessageDeleted(m.id, now))
    {
      var check := CheckDelete(io.messages, requester, id, now);
      if check.Err? {
        return check.error;
      }
      var i := check.value;
      var message := io.messages[i];
      MarkDeletedEffect(io.messages, i, now);
      io.messages := io.messages[i := message.(isDeleted := true, deletedAt := Some(now))];
      cache := cache - {ConversationKey(requester, message.receiverId)};
      var payload := MessageDeleted(message.id, now);
      var receiverSocketId := io.GetReceiverSocketId(message.receiverId);
      if receiverSocketId.Some? {
        io.outbox := io.outbox + [EmitTo(receiverSocketId.value, payload)];
      }
      var senderSocketId := io.GetReceiverSocketId(requester);
      if senderSocketId.Some? {
        io.outbox := io.outbox + [EmitTo(senderSocketId.value, payload)];
      }
      r := Response(200, Notice("Message deleted for everyone"));
    }

    /** The part of `sendMessage` after the self-send guard. An image is uploaded first, and a
        failed upload is 500 with no effect. Then the message is stored with `seen = false` and
        the pair's thread key dropped; if the sender's user record cannot be read the handler
        fails with 500 there, otherwise the enriched message goes to the sender's and then the
        receiver's socket and the response is 201. */
    method StoreAndNotify(sender: UserId, receiver: UserId, text: Option<string>, image: Option<string>,
                          users: seq<User>, newId: MessageId, now: int, upload: string -> Option<string>)
      returns (r: Response)
      requires Valid()
      requires forall k :: 0 <= k < |io.messages| ==> io.messages[k].id != newId
      modifies this, io
      ensures Valid()
      ensures io.userSocketMap == old(io.userSocketMap)
      ensures image.Some? && image.value != "" && upload(image.value).None? ==>
        r == Response(500, Notice("Internal server error"))
        && cache == old(cache) && io.messages == old(io.messages) && io.outbox == old(io.outbox)
      ensures !(image.Some? && image.value != "" && upload(image.value).None?) ==>
        var imageUrl := if image.Some? && image.value != "" then upload(image.value) else None;
        && io.messages == old(io.messages) + [Message(newId, sender, receiver, text, imageUrl, false, None, false, None, now)]
        && cache == old(cache) - {ConversationKey(sender, receiver)}
      ensures !(image.Some? && image.value != "" && upload(image.value).None?)
              && FindUserById(users, sender).None? ==>
        r == Response(500, Notice("Internal server error")) && io.outbox == old(io.outbox)
      ensures !(image.Some? && image.value != "" && upload(image.value).None?)
              && FindUserById(users, sender).Some? ==>
        var imageUrl := if image.Some? && image.value != "" then upload(image.value) else None;
        var m := Message(newId, sender, receiver, text, imageUrl, false, None, false, None, now);
        var u := users[FindUserById(users, sender).value];
        var payload := Payload.NewMessage(m, u.fullName, u.profilePic);
        && r == Response(201, NewMessageSent("Message sent successfully", payload))
        && io.outbox == old(io.outbox) + EmitIfBound(io.userSocketMap, sender, payload)
                                       + EmitIfBound(io.userSocketMap, receiver, payload)
    {
      var imageUrl: Option<string> := None;
      if image.Some? && image.value != "" {
        var uploadImageResponse := upload(image.value);
        if uploadImageResponse.None? {
          return Response(500, Notice("Internal server error"));
        }
        imageUrl := uploadImageResponse;
      }
      var user := FindUserById(users, sender);
      var created := MessageModel.NewMessage(newId, Some(sender), Some(receiver), text, imageUrl, now);
      var newMessage := created.value;
      AppendKeepsValid(io.messages, newMessage);
      io.messages := io.messages + [newMessage];
      cache := cache - {ConversationKey(sender, receiver)};
      if user.None? {
        return Response(500, Notice("Internal server error"));
      }
      var u := users[user.value];
      var payload := Payload.NewMessage(newMessage, u.fullName, u.profilePic);
      var senderSocketId := io.GetReceiverSocketId(sender);
      var receiverSocketId := io.GetReceiverSocketId(receiver);
      if senderSocketId.Some? {
        io.outbox := io.outbox + [EmitTo(senderSocketId.value, payload)];
      }
      if receiverSocketId.Some? {
        io.outbox := io.outbox + [EmitTo(receiverSocketId.value, payload)];
      }
      r := Response(201, NewMessageSent("Message sent successfully", payload));
    }

    /** `sendMessage` with the self-send guard as intended: sending to oneself is 400 with no
        effect, and any other request is `StoreAndNotify`. */
    method SendMessage(sender: UserId, receiver: UserId, text: Option<string>, image: Option<string>,
                       users: seq<User>, newId: MessageId, now: int, upload: string -> Option<string>)
      returns (r: Response)
      requires Valid()
      requires forall k :: 0 <= k < |io.messages| ==> io.messages[k].id != newId
      modifies this, io
      ensures Valid()
      ensures io.userSocketMap == old(io.userSocketMap)
      ensures receiver == sender ==>
        r == Response(400, Notice("You cannot send a message to yourself"))
        && cache == old(cache) && io.messages == old(io.messages) && io.outbox == old(io.outbox)
      ensures receiver != sender && image.Some? && image.value != "" && upload(image.value).None? ==>
        r == Response(500, Notice("Internal server error"))
        && cache == old(cache) && io.messages == old(io.messages) && io.outbox == old(io.outbox)
      ensures receiver != sender && !(image.Some? && image.value != "" && upload(image.value).None?) ==>
        var imageUrl := if image.Some? && image.value != "" then upload(image.value) else None;
        && io.messages == old(io.messages) + [Message(newId, sender, receiver, text, imageUrl, false, None, false, None, now)]
        && cache == old(cache) - {ConversationKey(sender, receiver)}
      ensures receiver != sender && !(image.Some? && image.value != "" && upload(image.value).None?)
              && FindUserById(users, sender).None? ==>
        r == Response(500, Notice("Internal server error")) && io.outbox == old(io.outbox)
      ensures receiver != sender && !(image.Some? && image.value != "" && upload(image.value).None?)
              && FindUserById(users, sender).Some? ==>
        var imageUrl := if image.Some? && image.value != "" then upload(image.value) else None;
        var m := Message(newId, sender, receiver, text, imageUrl, false, None, false, None, now);
        var u := users[FindUserById(users, sender).value];
        var payload := Payload.NewMessage(m, u.fullName, u.profilePic);
        && r == Response(201, NewMessageSent("Message sent successfully", payload))
        && io.outbox == old(io.outbox) + EmitIfBound(io.userSocketMap, sender, payload)
                                       + EmitIfBound(io.userSocketMap, receiver, payload)
    {
      if receiver == sender {
        return Response(400, Notice("You cannot send a message to yourself"));
      }
      r := StoreAndNotify(sender, receiver, text, image, users, newId, now, upload);
    }

    /** `sendMessage` as the source writes its guard: the route parameter, a string, is compared
        with `req.user._id`, an ObjectId, by `===`, which never holds. A request to oneself is
        therefore stored and, when the sender is online, delivered twice to the sender's socket. */
    method SendMessageAsWritten(sender: UserId, routeId: UserId, text: Option<string>, image: Option<string>,
                                users: seq<User>, newId: MessageId, now: int, upload: string -> Option<string>)
      returns (r: Response)
      requires Valid()
      requires forall k :: 0 <= k < |io.messages| ==> io.messages[k].id != newId
      modifies this, io
      ensures Valid()
      ensures io.userSocketMap == old(io.userSocketMap)
      ensures routeId == sender && image.None? ==>
        && io.messages == old(io.messages) + [Message(newId, sender, sender, text, None, false, None, false, None, now)]
        && cache == old(cache) - {ConversationKey(sender, sender)}
      ensures routeId == sender && image.None? && FindUserById(users, sender).Some? && sender in io.userSocketMap ==>
        var m := Message(newId, sender, sender, text, None, false, None, false, None, now);
        var u := users[FindUserById(users, sender).value];
        var payload := Payload.NewMessage(m, u.fullName, u.profilePic);
        && r == Response(201, NewMessageSent("Message sent successfully", payload))
        && io.outbox == old(io.outbox) + [EmitTo(io.userSocketMap[sender], payload), EmitTo(io.userSocketMap[sender], payload)]
    {
      if StrictEquals(JsString(routeId), JsObjectId(sender)) {
        // the 400 "You cannot send a message to yourself" reply is never reached
        assert false;
      }
      r := StoreAndNotify(sender, routeId, text, image, users, newId, now, upload);
    }
  }
}
