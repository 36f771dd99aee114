/** The request normaliser of the chat relay: the inbound `messages` list
    reduced to the `{role, content}` pairs the vendor accepts. */
module Normaliser {
  import opened Wrappers
  import opened Js
  import opened Seqs

  /** A message as sent to the vendor. The role is whatever truthy value the
      caller sent; only its truthiness is checked. */
  datatype ChatMessage = ChatMessage(role: JsValue, content: string)

  /** The error response of the handler: an HTTP status and the `error` text. */
  datatype HttpError = HttpError(status: int, error: string)

  const MessagesRequired := "Messages are required."

  /** `message && message.role && typeof message.content === 'string'`. */
  predicate Keep(v: JsValue) {
    Truthy(v) && Truthy(Get(v, "role")) && Get(v, "content").Str?
  }

  /** `({ role: message.role, content: message.content })`. */
  function Project(v: JsValue): ChatMessage
    requires Keep(v)
  {
    ChatMessage(Get(v, "role"), Get(v, "content").s)
  }

  function ProjectAll(vs: seq<JsValue>): (r: seq<ChatMessage>)
    requires forall k :: 0 <= k < |vs| ==> Keep(vs[k])
    ensures |r| == |vs|
    ensures forall k :: 0 <= k < |vs| ==> r[k] == Project(vs[k])
  {
    if vs == [] then [] else ProjectAll(vs[..|vs| - 1]) + [Project(vs[|vs| - 1])]
  }

  /** The `filter`/`map` chain over an inbound array. */
  function NormaliseList(items: seq<JsValue>): (r: seq<ChatMessage>)
    ensures |r| == Count(items, Keep) && |r| <= |items|
    ensures forall k :: 0 <= k < |r| ==> Truthy(r[k].role)
  {
    ProjectAll(Filter(items, Keep))
  }

  /** `Array.isArray(req.body?.messages) ? … : []`. */
  function MessagesOf(body: JsValue): (r: seq<ChatMessage>)
    ensures !Get(body, "messages").Arr? ==> r == []
    ensures Get(body, "messages").Arr? ==> r == NormaliseList(Get(body, "messages").items)
  {
    match Get(body, "messages")
    case Arr(items) => NormaliseList(items)
    case _ => []
  }

  /** The output is exactly the kept inputs, in order: input `j`, when kept,
      is output number (kept inputs before `j`), projected to role and content. */
  lemma NormaliseKeepsInOrder(items: seq<JsValue>, j: nat)
    requires j < |items| && Keep(items[j])
    ensures Count(items[..j], Keep) < |NormaliseList(items)|
    ensures NormaliseList(items)[Count(items[..j], Keep)] == ChatMessage(Get(items[j], "role"), Get(items[j], "content").s)
  {
    FilterAt(items, Keep, j);
  }

  /** A normalised message as the JSON object it is sent as. */
  function ToJs(m: ChatMessage): JsValue {
    Obj(map["role" := m.role, "content" := Str(m.content)])
  }

  function ToJsList(ms: seq<ChatMessage>): (r: seq<JsValue>)
    ensures |r| == |ms| && forall k :: 0 <= k < |ms| ==> r[k] == ToJs(ms[k])
  {
    if ms == [] then [] else ToJsList(ms[..|ms| - 1]) + [ToJs(ms[|ms| - 1])]
  }

  /** A list of messages with truthy roles passes the normaliser unchanged. */
  lemma {:induction false} NormaliseWellFormed(ms: seq<ChatMessage>)
    requires forall k :: 0 <= k < |ms| ==> Truthy(ms[k].role)
    ensures NormaliseList(ToJsList(ms)) == ms
  {
    var vs := ToJsList(ms);
    assert forall k :: 0 <= k < |vs| ==> Get(vs[k], "role") == ms[k].role && Get(vs[k], "content") == Str(ms[k].content);
    FilterAllKept(vs, Keep);
    assert ProjectAll(vs) == ms;
  }

  /** Normalising twice gives what normalising once gives. */
  lemma NormaliseIdempotent(items: seq<JsValue>)
    ensures NormaliseList(ToJsList(NormaliseList(items))) == NormaliseList(items)
  {
    NormaliseWellFormed(NormaliseList(items));
  }

  /** The chat handler's message check: the messages to relay, or the 400 response when none is left. */
  function ValidateMessages(body: JsValue): (r: Result<seq<ChatMessage>, HttpError>)
    ensures r.Failure? <==> MessagesOf(body) == []
    ensures r.Failure? ==> r.error == HttpError(400, MessagesRequired)
    ensures r.Success? ==> r.value == MessagesOf(body) && |r.value| > 0
  {
    var ms := MessagesOf(body);
    if |ms| == 0 then Failure(HttpError(400, MessagesRequired)) else Success(ms)
  }

  /** A body without a `messages` array is rejected with 400. */
  lemma MissingMessagesRejected(body: JsValue)
    requires !Get(body, "messages").Arr?
    ensures ValidateMessages(body) == Failure(HttpError(400, "Messages are required."))
  {
  }

  /** Of a well-formed entry, one without a role and one whose content is a
      number, only the first survives. */
  lemma DropsMalformedEntries()
    ensures
      var good := Obj(map["role" := Str("user"), "content" := Str("hi")]);
      var noRole := Obj(map["content" := Str("no role")]);
      var numeric := Obj(map["role" := Str("user"), "content" := Num(42)]);
      NormaliseList([good, noRole, numeric]) == [ChatMessage(Str("user"), "hi")]
  {
    var good := Obj(map["role" := Str("user"), "content" := Str("hi")]);
    var noRole := Obj(map["content" := Str("no role")]);
    var numeric := Obj(map["role" := Str("user"), "content" := Num(42)]);
    var s := [good, noRole, numeric];
    assert Keep(good) && !Keep(noRole) && !Keep(numeric);
    assert s[..2][..1] == [good];
    assert Filter(s, Keep) == [good];
  }
}
