/** The `Message` schema (backend/src/models/message.model.js): its fields, which are required,
    their defaults and the automatic creation timestamp. Times are milliseconds since the epoch. */
module MessageModel {
  import opened Common

  datatype Message = Message(
    id: MessageId,
    senderId: UserId,
    receiverId: UserId,
    text: Option<string>,
    image: Option<string>,
    seen: bool,
    seenAt: Option<int>,
    isDeleted: bool,
    deletedAt: Option<int>,
    createdAt: int)

  /** A validation failure lists the required paths that were missing. */
  datatype ValidationError = ValidationError(missing: set<string>)

  /** `new Message({...})` followed by `save()`: the two parties are required, text and image are
      optional, the seen and deletion flags take their defaults and `createdAt` is the save time. */
  function NewMessage(id: MessageId, senderId: Option<UserId>, receiverId: Option<UserId>,
                      text: Option<string>, image: Option<string>, now: int): (r: Result<Message, ValidationError>)
    ensures r.Err? <==> senderId.None? || receiverId.None?
    ensures r.Err? ==> ("senderId" in r.error.missing <==> senderId.None?)
    ensures r.Err? ==> ("receiverId" in r.error.missing <==> receiverId.None?)
    ensures r.Ok? ==> var m := r.value;
      && m.id == id && Some(m.senderId) == senderId && Some(m.receiverId) == receiverId
      && m.text == text && m.image == image && m.createdAt == now
      && !m.seen && m.seenAt.None? && !m.isDeleted && m.deletedAt.None?
      && Consistent(m)
  {
    if senderId.None? || receiverId.None? then
      Err(ValidationError((if senderId.None? then {"senderId"} else {})
                          + (if receiverId.None? then {"receiverId"} else {})))
    else
      Ok(Message(id, senderId.value, receiverId.value, text, image, false, None, false, None, now))
  }

  /** `seenAt` is stamped exactly when `seen` is set, `deletedAt` exactly when `isDeleted` is. */
  predicate Consistent(m: Message) {
    (m.seen <==> m.seenAt.Some?) && (m.isDeleted <==> m.deletedAt.Some?)
  }

  /** No two stored messages share an id. */
  predicate UniqueIds(ms: seq<Message>) {
    forall i, j :: 0 <= i < j < |ms| ==> ms[i].id != ms[j].id
  }

  /** The invariant of the stored collection. */
  predicate ValidStore(ms: seq<Message>) {
    UniqueIds(ms) && forall i :: 0 <= i < |ms| ==> Consistent(ms[i])
  }

  /** Storing a consistent message under a fresh id keeps the collection well formed. */
  lemma AppendKeepsValid(ms: seq<Message>, m: Message)
    requires ValidStore(ms) && Consistent(m)
    requires forall k :: 0 <= k < |ms| ==> ms[k].id != m.id
    ensures ValidStore(ms + [m])
  {
  }

  /** The message was exchanged between `a` and `b`, in either direction. */
  predicate Between(m: Message, a: UserId, b: UserId) {
    (m.senderId == a && m.receiverId == b) || (m.senderId == b && m.receiverId == a)
  }

  /** The message went from `sender` to `receiver` and has not been seen yet. */
  predicate UnseenFrom(m: Message, sender: UserId, receiver: UserId) {
    m.senderId == sender && m.receiverId == receiver && !m.seen
  }

  /** `Message.findById(id)`. */
  function FindById(ms: seq<Message>, id: MessageId): (r: Option<nat>)
    ensures r.Some? ==> r.value < |ms| && ms[r.value].id == id
    ensures r.None? <==> forall k :: 0 <= k < |ms| ==> ms[k].id != id
  {
    FirstIndex(ms, (m: Message) => m.id == id)
  }
}
