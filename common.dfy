/** Identifiers and small wrappers shared by every part of the chat backend and client. */
module Common {

  /** A user's database id, as the string the handlers compare and concatenate. */
  type UserId = string

  /** A message's database id. */
  type MessageId = string

  /** A socket.io connection id; socket.io never hands out an empty one. */
  type SocketId = s: string | |s| > 0 witness "s"

  datatype Option<T> = None | Some(value: T)

  datatype Result<T, E> = Ok(value: T) | Err(error: E)

  /** Position of the first element satisfying `p`: what a scan of a collection in its natural
      order finds (`findOne`, `findById`, `Array.prototype.find`). */
  function FirstIndex<T>(s: seq<T>, p: T -> bool): (r: Option<nat>)
    ensures r.Some? ==> r.value < |s| && p(s[r.value])
    ensures r.Some? ==> forall k :: 0 <= k < r.value ==> !p(s[k])
    ensures r.None? <==> forall k :: 0 <= k < |s| ==> !p(s[k])
  {
    if |s| == 0 then None
    else if p(s[0]) then Some(0)
    else match FirstIndex(s[1..], p)
      case None => None
      case Some(i) => Some(i + 1)
  }
}
