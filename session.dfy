/** The browser side's conversation state (`Home` in pages/index.js): the
    message list, the queue of messages waiting for a reply and the id
    counter, with the operations that change them. */
module Session {
  import opened Wrappers
  import opened Text
  import opened Js
  import opened Seqs
  import opened Normaliser
  import opened History

  /** `list` with `m` placed right after the first message whose id is
      `target`, or at the end when there is none (copy, then `splice`). */
  function InsertAfter(ms: seq<Message>, target: string, m: Message): seq<Message> {
    var i := FindIndex(ms, target);
    if i == -1 then ms + [m] else ms[..i + 1] + [m] + ms[i + 1..]
  }

  /** Without a message carrying the target id, the new message goes last. */
  lemma InsertAfterAbsent(ms: seq<Message>, target: string, m: Message)
    requires forall k :: 0 <= k < |ms| ==> ms[k].id != target
    ensures InsertAfter(ms, target, m) == ms + [m]
  {
  }

  /** With the first carrier of the target id at `i`, the new message sits at
      `i + 1`, and taking it out again gives back the list: every other
      message keeps its place relative to the rest. */
  lemma InsertAfterFound(ms: seq<Message>, target: string, m: Message, i: nat)
    requires i < |ms| && ms[i].id == target
    requires forall k :: 0 <= k < i ==> ms[k].id != target
    ensures var r := InsertAfter(ms, target, m);
            && |r| == |ms| + 1 && r[i + 1] == m
            && r[..i + 1] == ms[..i + 1] && r[i + 2..] == ms[i + 1..]
            && r[..i + 1] + r[i + 2..] == ms
  {
    assert FindIndex(ms, target) == i;
    var r := InsertAfter(ms, target, m);
    assert r[..i + 1] == ms[..i + 1];
    assert r[i + 2..] == ms[i + 1..];
    assert ms[..i + 1] + ms[i + 1..] == ms;
  }

  /** Every message of `ms` has a truthy role. */
  ghost predicate RolesTruthy(ms: seq<Message>) {
    forall k :: 0 <= k < |ms| ==> Truthy(ms[k].role)
  }

  /** Every id of the form `msg-N` in `ms` has N below `n`. */
  ghost predicate IdsBelow(ms: seq<Message>, n: nat) {
    forall k :: 0 <= k < |ms| && ParseMsgId(ms[k].id).Some? ==> ParseMsgId(ms[k].id).value < n
  }

  /** The id the counter renders next is carried by no message. */
  lemma FreshIdUnused(ms: seq<Message>, n: nat)
    requires IdsBelow(ms, n)
    ensures forall k :: 0 <= k < |ms| ==> ms[k].id != MsgId(n)
  {
    MsgIdRoundTrip(n);
  }

  /** Every role is truthy, every `msg-N` id is below the counter, and the
      counter is past the welcome message's id. */
  ghost predicate SessionInvariant(ms: seq<Message>, n: nat) {
    RolesTruthy(ms) && IdsBelow(ms, n) && n >= 2
  }

  /** A stored entry as `JSON.parse` gave it, read the way hydration reads it. */
  datatype Stored = Stored(id: Option<string>, role: JsValue, content: JsValue, isError: bool)

  /** `undefined` and `null`, whose property reads throw. */
  predicate Nullish(v: JsValue) {
    v.Undefined? || v.Null?
  }

  /** The hydration `map` callback on one stored entry: a string id or none, role and content as they
      are, and `isError || false`. */
  function ReadStored(v: JsValue): Stored
    requires !Nullish(v)
  {
    Stored(if Get(v, "id").Str? then Some(Get(v, "id").s) else None,
           Get(v, "role"), Get(v, "content"), Truthy(Get(v, "isError")))
  }

  /** The hydration `parsed.map(...)`: one entry per stored value. */
  function ReadAll(vs: seq<JsValue>): (r: seq<Stored>)
    requires forall k :: 0 <= k < |vs| ==> !Nullish(vs[k])
    ensures |r| == |vs|
  {
    if vs == [] then [] else ReadAll(vs[..|vs| - 1]) + [ReadStored(vs[|vs| - 1])]
  }

  /** Each entry is read from the value at its own position. */
  lemma {:induction false} ReadAllAt(vs: seq<JsValue>)
    requires forall k :: 0 <= k < |vs| ==> !Nullish(vs[k])
    ensures forall k :: 0 <= k < |vs| ==> ReadAll(vs)[k] == ReadStored(vs[k])
  {
    if vs != [] {
      var init := vs[..|vs| - 1];
      ReadAllAt(init);
      assert forall k :: 0 <= k < |init| ==> init[k] == vs[k];
    }
  }

  /** The hydration `filter` test: a truthy role and string content. */
  predicate Usable(s: Stored) {
    Truthy(s.role) && s.content.Str?
  }

  /** What a stored value must be for hydration to take effect: a non-empty
      array none of whose entries is `null` or `undefined` (reading `.id` of
      one of those throws, and the handler swallows the error). */
  predicate HydrationApplies(parsed: Option<JsValue>) {
    && parsed.Some? && parsed.value.Arr? && |parsed.value.items| > 0
    && forall k :: 0 <= k < |parsed.value.items| ==> !Nullish(parsed.value.items[k])
  }

  /** `hydrated` in the hydration effect: the usable entries, in order. */
  function Usables(items: seq<JsValue>): seq<Stored>
    requires forall k :: 0 <= k < |items| ==> !Nullish(items[k])
  {
    Filter(ReadAll(items), Usable)
  }

  /** Hydration keeps exactly the usable entries, in their stored order:
      entry `j`, when usable, is kept entry number (usable entries before `j`). */
  lemma HydrationKeepsInOrder(items: seq<JsValue>, j: nat)
    requires forall k :: 0 <= k < |items| ==> !Nullish(items[k])
    requires j < |items| && Usable(ReadStored(items[j]))
    ensures var n := Count(ReadAll(items)[..j], Usable);
            n < |Usables(items)| && Usables(items)[n] == ReadStored(items[j])
    ensures forall k :: 0 <= k < |Usables(items)| ==> Usable(Usables(items)[k])
  {
    ReadAllAt(items);
    FilterAt(ReadAll(items), Usable, j);
  }

  /** A stored id the code keeps: a non-empty string. */
  predicate HasId(s: Stored) {
    s.id.Some? && s.id.value != ""
  }

  /** `withIds` in the hydration effect: each entry keeps its id or, lacking one, takes the next
      counter value; the messages and the counter after them. */
  function AssignIds(entries: seq<Stored>, next: nat): (r: (seq<Message>, nat))
    requires forall k :: 0 <= k < |entries| ==> entries[k].content.Str?
    ensures |r.0| == |entries| && r.1 >= next
    decreases |entries|
  {
    if entries == [] then
      ([], next)
    else
      var e := entries[|entries| - 1];
      var prev := AssignIds(entries[..|entries| - 1], next);
      if HasId(e) then
        (prev.0 + [Message(e.id.value, e.role, e.content.s, e.isError)], prev.1)
      else
        (prev.0 + [Message(MsgId(prev.1), e.role, e.content.s, e.isError)], prev.1 + 1)
  }

  /** Hydration keeps each entry's role, content and error flag, and every
      non-empty stored id; the counter advances once per entry lacking one. */
  lemma {:induction false} AssignIdsKeeps(entries: seq<Stored>, next: nat)
    requires forall k :: 0 <= k < |entries| ==> entries[k].content.Str?
    ensures var r := AssignIds(entries, next);
            && r.1 == next + Count(entries, (e: Stored) => !HasId(e))
            && forall k :: 0 <= k < |entries| ==>
                 && r.0[k].role == entries[k].role && r.0[k].content == entries[k].content.s
                 && r.0[k].isError == entries[k].isError
                 && (HasId(entries[k]) ==> r.0[k].id == entries[k].id.value)
                 && (!HasId(entries[k]) ==> exists c: nat :: next <= c < r.1 && r.0[k].id == MsgId(c))
    decreases |entries|
  {
    if entries != [] {
      var init := entries[..|entries| - 1];
      AssignIdsKeeps(init, next);
      assert forall k :: 0 <= k < |init| ==> init[k] == entries[k];
    }
  }

  function Max(a: int, b: int): int {
    if a >= b then a else b
  }

  /** `maxId` in the hydration effect: the largest N of an id `msg-N`, and at least 1. */
  function MaxMsgId(ms: seq<Message>): nat {
    if ms == [] then
      1
    else
      var prev := MaxMsgId(ms[..|ms| - 1]);
      match ParseMsgId(ms[|ms| - 1].id)
      case Some(v) => Max(prev, v)
      case None => prev
  }

  /** The scan's result is at least 1 and bounds every `msg-N` id of the
      list, and it is one of them unless it is the starting 1. */
  lemma {:induction false} MaxMsgIdBounds(ms: seq<Message>)
    ensures var r := MaxMsgId(ms);
            && r >= 1
            && (forall k :: 0 <= k < |ms| && ParseMsgId(ms[k].id).Some? ==> ParseMsgId(ms[k].id).value <= r)
            && (r == 1 || exists k :: 0 <= k < |ms| && ParseMsgId(ms[k].id) == Some(r))
  {
    if ms != [] {
      var init := ms[..|ms| - 1];
      MaxMsgIdBounds(init);
      assert forall k :: 0 <= k < |init| ==> init[k] == ms[k];
    }
  }

  /** Ids are given out before the largest stored id is known, so a
      generated id can repeat a stored one: with the counter at 2, an entry
      without an id followed by one stored as `msg-2` both end up `msg-2`. */
  lemma HydratedIdsMayCollide()
    ensures var r := AssignIds([Stored(None, Str("user"), Str("a"), false),
                                Stored(Some("msg-2"), Str("assistant"), Str("b"), false)], 2);
            r.0[0].id == r.0[1].id == "msg-2"
  {
    var e := [Stored(None, Str("user"), Str("a"), false), Stored(Some("msg-2"), Str("assistant"), Str("b"), false)];
    assert e[..1][..0] == [];
    assert MsgId(2) == "msg-2" by {
      assert Decimal(2) == "2";
    }
  }

  /** A non-empty stored array with no usable entry empties the list: the
      welcome message is not put back. */
  lemma HydrationMayEmpty(items: seq<JsValue>, next: nat)
    requires forall k :: 0 <= k < |items| ==> !Nullish(items[k])
    requires forall k :: 0 <= k < |items| ==> !Usable(ReadStored(items[k]))
    ensures AssignIds(Usables(items), next).0 == []
  {
    var read := ReadAll(items);
    ReadAllAt(items);
    assert forall k :: 0 <= k < |read| ==> !Usable(read[k]);
    NoneKept(read, Usable);
  }

  lemma {:induction false} NoneKept<T>(s: seq<T>, p: T -> bool)
    requires forall k :: 0 <= k < |s| ==> !p(s[k])
    ensures Filter(s, p) == []
  {
    if s != [] {
      NoneKept(s[..|s| - 1], p);
    }
  }

  /** What a call to `/api/chat` came back with. */
  datatype Reply =
    | Answered(message: string)      // a 2xx response without `error`: `data.message`
    | Refused(error: Option<string>) // a non-2xx response or one with `error`: `data?.error`
    | Failed                         // the request or the JSON decoding threw

  const SomethingWentWrong := "Something went wrong. Please try again."

  /** The assistant message `processQueue` inserts for a reply. */
  function ReplyMessage(id: string, reply: Reply): (m: Message)
    ensures m.id == id && m.role == Str("assistant")
    ensures m.isError <==> !reply.Answered?
    ensures reply.Answered? ==> m.content == reply.message
    ensures reply.Refused? && reply.error.Some? && reply.error.value != "" ==> m.content == reply.error.value
    ensures (reply.Failed? || (reply.Refused? && (reply.error.None? || reply.error.value == ""))) ==> m.content == SomethingWentWrong
  {
    match reply
    case Answered(text) => Message(id, Str("assistant"), text, false)
    case Refused(error) =>
      Message(id, Str("assistant"), if error.Some? && error.value != "" then error.value else SomethingWentWrong, true)
    case Failed => Message(id, Str("assistant"), SomethingWentWrong, true)
  }

  /** A message the user just sent, carrying a fresh id, always produces a
      non-empty request, so the server never answers it with 400. */
  lemma SentMessageIsRequested(ms: seq<Message>, n: nat, text: string)
    requires IdsBelow(ms, n) && n >= 2
    ensures var user := Message(MsgId(n), Str("user"), text, false);
            RequestHistory(ms + [user], MsgId(n)) != []
  {
    var user := Message(MsgId(n), Str("user"), text, false);
    var snapshot := ms + [user];
    FreshIdUnused(ms, n);
    MsgIdInjective(n, 1);
    assert MsgId(1) == WelcomeId by {
      assert Decimal(1) == "1";
    }
    assert forall k :: 0 <= k < |ms| ==> snapshot[k] == ms[k];
    HistoryNotEmpty(snapshot, MsgId(n), |ms|);
  }

  /** The page's conversation state. */
  class ChatSession {
    var messages: seq<Message>   // messagesRef.current, mirrored by the `messages` state
    var pending: seq<string>     // pendingQueueRef.current
    var nextId: nat              // nextIdRef.current

    /** The session invariant on the current state. */
    ghost predicate Valid()
      reads this
    {
      SessionInvariant(messages, nextId)
    }

    /** The first render: the welcome message, an empty queue, counter 2. */
    constructor ()
      ensures messages == [Welcome] && pending == [] && nextId == 2
      ensures Valid()
    {
      messages := [Welcome];
      pending := [];
      nextId := 2;
      new;
      WelcomeIdValue();
    }

    /** `createId`: the id `msg-N` for the counter N, which then advances. */
    method CreateId() returns (id: string)
      modifies this
      ensures id == MsgId(old(nextId)) && nextId == old(nextId) + 1
      ensures messages == old(messages) && pending == old(pending)
      ensures old(Valid()) ==> Valid() && forall k :: 0 <= k < |messages| ==> messages[k].id != id
    {
      id := IdPrefix + Decimal(nextId);
      if Valid() {
        FreshIdUnused(messages, nextId);
      }
      nextId := nextId + 1;
    }

    /** `insertMessageAfterId`: a copy of the list with `message` spliced in
        right after the first message with id `targetId`, or appended. */
    method InsertMessageAfterId(targetId: string, message: Message)
      modifies this
      ensures messages == InsertAfter(old(messages), targetId, message)
      ensures pending == old(pending) && nextId == old(nextId)
    {
      var index := FindIndex(messages, targetId);
      if index == -1 {
        messages := messages + [message];
      } else {
        messages := messages[..index + 1] + [message] + messages[index + 1..];
      }
    }

    /** `appendMessage`: the message added at the end of the list. */
    method AppendMessage(message: Message)
      modifies this
      ensures messages == old(messages) + [message]
      ensures pending == old(pending) && nextId == old(nextId)
    {
      messages := messages + [message];
    }

    /** `sendMessage` without the UI updates: a non-blank input becomes a
        user message with a fresh id, appended and queued for a reply. */
    method SendMessage(input: string) returns (sent: Option<string>)
      modifies this
      ensures Trim(input) == "" ==>
                sent.None? && messages == old(messages) && pending == old(pending) && nextId == old(nextId)
      ensures Trim(input) != "" ==>
                && sent == Some(MsgId(old(nextId)))
                && messages == old(messages) + [Message(MsgId(old(nextId)), Str("user"), Trim(input), false)]
                && pending == old(pending) + [MsgId(old(nextId))]
                && nextId == old(nextId) + 1
      ensures old(Valid()) ==> Valid()
    {
      var trimmed := Trim(input);
      if trimmed == "" {
        return None;
      }
      var id := CreateId();
      AppendMessage(Message(id, Str("user"), trimmed, false));
      pending := pending + [id];
      if old(Valid()) {
        AppendKeepsInvariant(old(messages), Message(id, Str("user"), trimmed, false), nextId - 1);
      }
      return Some(id);
    }

    /** The start of `processQueue`: the next queued id, taken off the queue; None when the
        queue is empty or the id taken is empty (falsy). */
    method TakeNext() returns (target: Option<string>)
      modifies this
      ensures old(pending) == [] ==> target.None? && pending == []
      ensures old(pending) != [] ==>
                && pending == old(pending)[1..]
                && target == (if old(pending)[0] == "" then None else Some(old(pending)[0]))
      ensures messages == old(messages) && nextId == old(nextId)
    {
      if pending == [] {
        return None;
      }
      var id := pending[0];
      pending := pending[1..];
      if id == "" {
        return None;
      }
      return Some(id);
    }

    /** The end of `processQueue`: the reply to `targetId` placed right after it. */
    method ReceiveReply(targetId: string, reply: Reply)
      modifies this
      ensures messages == InsertAfter(old(messages), targetId, ReplyMessage(MsgId(old(nextId)), reply))
      ensures nextId == old(nextId) + 1 && pending == old(pending)
      ensures old(Valid()) ==> Valid()
    {
      var id := CreateId();
      ghost var before := messages;
      ghost var n := nextId - 1;
      InsertMessageAfterId(targetId, ReplyMessage(id, reply));
      if old(Valid()) {
        InsertKeepsValid(before, targetId, ReplyMessage(id, reply), n);
      }
    }

    /** One run of `processQueue` without its asynchrony:
        take the next queued id, build the request from the current list,
        and place `reply`, the server's answer to it, after the message. */
    method ProcessNext(reply: Reply) returns (request: Option<seq<ChatMessage>>)
      modifies this
      ensures old(pending) == [] || old(pending)[0] == "" ==>
                request.None? && messages == old(messages) && nextId == old(nextId)
      ensures old(pending) != [] && old(pending)[0] != "" ==>
                var target := old(pending)[0];
                && request == Some(RequestHistory(old(messages), target))
                && messages == InsertAfter(old(messages), target, ReplyMessage(MsgId(old(nextId)), reply))
                && nextId == old(nextId) + 1
      ensures old(pending) != [] ==> pending == old(pending)[1..]
      ensures old(pending) == [] ==> pending == []
      ensures old(Valid()) ==> Valid()
    {
      var target := TakeNext();
      if target.None? {
        return None;
      }
      var apiMessages := BuildRequest(messages, target.value);
      ReceiveReply(target.value, reply);
      return Some(apiMessages);
    }

    /** `handleNewConversation` without the UI updates: an empty queue, the
        counter back at 2, and only the welcome message. */
    method HandleNewConversation()
      modifies this
      ensures pending == [] && nextId == 2 && messages == [Welcome]
      ensures Valid()
    {
      pending := [];
      nextId := 2;
      messages := [Welcome];
      WelcomeIdValue();
    }

    /** The hydration effect of the page: `parsed` is the value `JSON.parse` read back from
        storage, None when nothing was stored or it did not parse. */
    method Hydrate(parsed: Option<JsValue>)
      modifies this
      ensures !HydrationApplies(parsed) ==>
                messages == old(messages) && nextId == old(nextId) && pending == old(pending)
      ensures HydrationApplies(parsed) ==>
                && messages == AssignIds(Usables(parsed.value.items), old(nextId)).0
                && nextId == Max(AssignIds(Usables(parsed.value.items), old(nextId)).1, MaxMsgId(messages) + 1)
                && pending == old(pending)
      ensures HydrationApplies(parsed) ==> Valid()
      ensures old(Valid()) ==> Valid()
    {
      if !HydrationApplies(parsed) {
        return;
      }
      Restore(parsed.value.items);
    }

    /** The body of the hydration effect once the stored array applies: the stored entries, none `null` or `undefined`, become
        the list, and the counter moves past every id in it. */
    method Restore(items: seq<JsValue>)
      requires forall k :: 0 <= k < |items| ==> !Nullish(items[k])
      modifies this
      ensures messages == AssignIds(Usables(items), old(nextId)).0
      ensures nextId == Max(AssignIds(Usables(items), old(nextId)).1, MaxMsgId(messages) + 1)
      ensures pending == old(pending)
      ensures Valid()
    {
      var hydrated := Usables(items);
      ghost var start := nextId;
      var withIds := GiveIds(hydrated);
      assert withIds == AssignIds(hydrated, start).0 && nextId == AssignIds(hydrated, start).1;
      var maxId := LargestMsgId(withIds);
      HydratedInvariant(hydrated, start, withIds, nextId);
      nextId := Max(nextId, maxId + 1);
      messages := withIds;
    }

    /** The `withIds` map of the hydration effect: the ids, taking counter values for entries that lack one. */
    method GiveIds(hydrated: seq<Stored>) returns (withIds: seq<Message>)
      requires forall k :: 0 <= k < |hydrated| ==> hydrated[k].content.Str?
      modifies this
      ensures (withIds, nextId) == AssignIds(hydrated, old(nextId))
      ensures messages == old(messages) && pending == old(pending)
    {
      withIds := [];
      var j := 0;
      while j < |hydrated|
        invariant 0 <= j <= |hydrated|
        invariant (withIds, nextId) == AssignIds(hydrated[..j], old(nextId))
        invariant messages == old(messages) && pending == old(pending)
      {
        var e := hydrated[j];
        assert hydrated[..j + 1][..j] == hydrated[..j];
        var id: string;
        if e.id.Some? && e.id.value != "" {
          id := e.id.value;
        } else {
          id := CreateId();
        }
        withIds := withIds + [Message(id, e.role, e.content.s, e.isError)];
        j := j + 1;
      }
      assert hydrated[..j] == hydrated;
    }
  }

  /** The hydration effect's `forEach` that tracks the largest `msg-N`. */
  method LargestMsgId(withIds: seq<Message>) returns (maxId: nat)
    ensures maxId == MaxMsgId(withIds)
  {
    maxId := 1;
    var k := 0;
    while k < |withIds|
      invariant 0 <= k <= |withIds|
      invariant maxId == MaxMsgId(withIds[..k])
    {
      assert withIds[..k + 1][..k] == withIds[..k];
      match ParseMsgId(withIds[k].id) {
        case Some(value) => maxId := Max(maxId, value);
        case None =>
      }
      k := k + 1;
    }
    assert withIds[..k] == withIds;
  }

  /** `msg-1`, the welcome message's id, reads back as 1. */
  lemma WelcomeIdValue()
    ensures ParseMsgId(WelcomeId) == Some(1)
    ensures SessionInvariant([Welcome], 2)
  {
    assert MsgId(1) == WelcomeId by {
      assert Decimal(1) == "1";
    }
    MsgIdRoundTrip(1);
  }

  /** Hydration establishes the session invariant whatever was stored: the
      kept entries have truthy roles, and the counter ends above every
      `msg-N` id among them and above the welcome message's. */
  lemma HydratedInvariant(entries: seq<Stored>, next: nat, ms: seq<Message>, c: nat)
    requires forall k :: 0 <= k < |entries| ==> entries[k].content.Str? && Usable(entries[k])
    requires (ms, c) == AssignIds(entries, next)
    ensures SessionInvariant(ms, Max(c, MaxMsgId(ms) + 1))
  {
    AssignIdsKeeps(entries, next);
    assert RolesTruthy(ms);
    BelowLargest(ms, c);
  }

  /** A counter past the largest `msg-N` is above every such id. */
  lemma BelowLargest(ms: seq<Message>, c: nat)
    ensures IdsBelow(ms, Max(c, MaxMsgId(ms) + 1)) && Max(c, MaxMsgId(ms) + 1) >= 2
  {
    MaxMsgIdBounds(ms);
  }

  /** Appending a message with a truthy role and an id whose counter value is
      below the new counter keeps the session invariant. */
  lemma AppendKeepsInvariant(ms: seq<Message>, m: Message, n: nat)
    requires SessionInvariant(ms, n + 1) && Truthy(m.role) && m.id == MsgId(n)
    ensures SessionInvariant(ms + [m], n + 1)
  {
    MsgIdRoundTrip(n);
    assert forall k :: 0 <= k < |ms| ==> (ms + [m])[k] == ms[k];
  }

  /** Inserting a message with a truthy role and an id whose counter value is
      below the new counter keeps the session invariant. */
  lemma InsertKeepsValid(ms: seq<Message>, target: string, m: Message, n: nat)
    requires SessionInvariant(ms, n + 1) && Truthy(m.role) && m.id == MsgId(n)
    ensures SessionInvariant(InsertAfter(ms, target, m), n + 1)
  {
    MsgIdRoundTrip(n);
    var r := InsertAfter(ms, target, m);
    assert forall k :: 0 <= k < |r| ==> r[k] == m || r[k] in ms;
  }
}
