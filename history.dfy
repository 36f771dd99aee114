/** The browser side's request builder (`processQueue`): the conversation up
    to the message being answered, without the welcome text and the error
    notices, with consecutive messages of the same role merged into one. */
module History {
  import opened Js
  import opened Seqs
  import opened Normaliser

  /** A message of the conversation as the page keeps it. */
  datatype Message = Message(id: string, role: JsValue, content: string, isError: bool)

  const WelcomeId := "msg-1"

  /** `WELCOME_MESSAGE`: the assistant's opening text, shown but never sent. */
  const Welcome := Message(WelcomeId, Str("assistant"),
    "Welcome! I'm here to help you define clear outcomes for your team members.\n\n"
    + "Let's start simple: **Who are you trying to define outcomes for?** Tell me the role or person's name and what they do.",
    false)

  /** The separator placed between the contents of merged messages. */
  const Separator := "\n\n"

  /** `ms.findIndex(m => m.id === id)`: the first position holding `id`, or -1. */
  function FindIndex(ms: seq<Message>, id: string): (r: int)
    ensures -1 <= r < |ms|
    ensures r == -1 <==> forall k :: 0 <= k < |ms| ==> ms[k].id != id
    ensures r >= 0 ==> ms[r].id == id && forall k :: 0 <= k < r ==> ms[k].id != id
  {
    if ms == [] then -1
    else if ms[0].id == id then 0
    else
      var r := FindIndex(ms[1..], id);
      assert forall k :: 0 < k < |ms| ==> ms[k] == ms[1..][k - 1];
      if r == -1 then -1 else r + 1
  }

  /** `messagesForRequest` in `processQueue`: the snapshot up to and including the first message with
      id `target`, or the whole snapshot when there is none. */
  function RequestSlice(snapshot: seq<Message>, target: string): seq<Message> {
    var i := FindIndex(snapshot, target);
    if i == -1 then snapshot else snapshot[..i + 1]
  }

  /** The slice is a prefix of the snapshot that ends at the first message
      carrying the target id; the whole snapshot when no message does. */
  lemma RequestSliceShape(snapshot: seq<Message>, target: string)
    ensures var r := RequestSlice(snapshot, target);
            |r| <= |snapshot| && r == snapshot[..|r|]
    ensures var r := RequestSlice(snapshot, target);
            (exists k :: 0 <= k < |snapshot| && snapshot[k].id == target) ==>
              r != [] && r[|r| - 1].id == target && forall k :: 0 <= k < |r| - 1 ==> r[k].id != target
    ensures (forall k :: 0 <= k < |snapshot| ==> snapshot[k].id != target) ==> RequestSlice(snapshot, target) == snapshot
  {
  }

  /** `m.id !== WELCOME_MESSAGE.id && !m.isError`. */
  predicate Sendable(m: Message) {
    m.id != WelcomeId && !m.isError
  }

  /** `.map(m => ({ role: m.role, content: m.content }))`. */
  function ToChat(ms: seq<Message>): (r: seq<ChatMessage>)
    ensures |r| == |ms|
    ensures forall k :: 0 <= k < |ms| ==> r[k] == ChatMessage(ms[k].role, ms[k].content)
  {
    if ms == [] then [] else ToChat(ms[..|ms| - 1]) + [ChatMessage(ms[|ms| - 1].role, ms[|ms| - 1].content)]
  }

  /** `filtered` in `processQueue`: the sendable messages, reduced to role and content. */
  function SendableChat(ms: seq<Message>): seq<ChatMessage> {
    ToChat(Filter(ms, Sendable))
  }

  /** The filtered list holds no welcome message and no error notice, and in
      order every other message: message `j`, when sendable, is entry
      (sendable messages before `j`). */
  lemma SendableChatShape(ms: seq<Message>, j: nat)
    ensures forall k :: 0 <= k < |Filter(ms, Sendable)| ==>
              Filter(ms, Sendable)[k].id != WelcomeId && !Filter(ms, Sendable)[k].isError
    ensures |SendableChat(ms)| == Count(ms, Sendable)
    ensures j < |ms| && Sendable(ms[j]) ==>
              Count(ms[..j], Sendable) < |SendableChat(ms)|
              && SendableChat(ms)[Count(ms[..j], Sendable)] == ChatMessage(ms[j].role, ms[j].content)
  {
    if j < |ms| && Sendable(ms[j]) {
      FilterAt(ms, Sendable, j);
    }
  }

  /** No two neighbours share a role. */
  ghost predicate Alternating(ms: seq<ChatMessage>) {
    forall i, j :: 0 <= i < j < |ms| && j == i + 1 ==> ms[i].role != ms[j].role
  }

  /** The merge loop of `processQueue` as a function: each message extends the last merged one
      when the roles agree and is appended otherwise. */
  function Merge(ms: seq<ChatMessage>): (r: seq<ChatMessage>)
    ensures |r| <= |ms|
  {
    if ms == [] then [] else MergeStep(Merge(ms[..|ms| - 1]), ms[|ms| - 1])
  }

  /** The merge is empty only for an empty list, ends with the last
      message's role, and leaves no two neighbours with the same role. */
  lemma {:induction false} MergeShape(ms: seq<ChatMessage>)
    ensures var r := Merge(ms);
            && (r == [] <==> ms == [])
            && (ms != [] ==> r[|r| - 1].role == ms[|ms| - 1].role)
            && Alternating(r)
  {
    if ms != [] {
      var init := ms[..|ms| - 1];
      MergeShape(init);
      var r := Merge(init);
      var m := ms[|ms| - 1];
      if r != [] && r[|r| - 1].role == m.role {
        AlternatingReplaceLast(r, ChatMessage(m.role, r[|r| - 1].content + Separator + m.content));
      } else {
        AlternatingSnoc(r, m);
      }
    }
  }

  lemma AlternatingSnoc(r: seq<ChatMessage>, m: ChatMessage)
    requires Alternating(r) && (r == [] || r[|r| - 1].role != m.role)
    ensures Alternating(r + [m])
  {
    var r' := r + [m];
    assert forall k :: 0 <= k < |r| ==> r'[k] == r[k];
  }

  lemma AlternatingReplaceLast(r: seq<ChatMessage>, x: ChatMessage)
    requires Alternating(r) && r != [] && x.role == r[|r| - 1].role
    ensures Alternating(r[|r| - 1 := x])
  {
    var r' := r[|r| - 1 := x];
    assert forall k :: 0 <= k < |r| - 1 ==> r'[k] == r[k];
  }

  /** One turn of the merge loop on the list `r` built so far. */
  function MergeStep(r: seq<ChatMessage>, m: ChatMessage): (r': seq<ChatMessage>)
    ensures |r'| <= |r| + 1
  {
    if r != [] && r[|r| - 1].role == m.role
    then r[|r| - 1 := ChatMessage(m.role, r[|r| - 1].content + Separator + m.content)]
    else r + [m]
  }

  lemma MergeSnoc(s: seq<ChatMessage>, m: ChatMessage)
    ensures Merge(s + [m]) == MergeStep(Merge(s), m)
  {
    assert (s + [m])[..|s|] == s;
  }

  /** The merge of one more message of `ms` is one more loop turn. */
  lemma MergePrefix(ms: seq<ChatMessage>, i: nat)
    requires i < |ms|
    ensures Merge(ms[..i + 1]) == MergeStep(Merge(ms[..i]), ms[i])
  {
    assert ms[..i + 1] == ms[..i] + [ms[i]];
    MergeSnoc(ms[..i], ms[i]);
  }

  /** The runs, concatenated. */
  function Flatten(runs: seq<seq<ChatMessage>>): seq<ChatMessage> {
    if runs == [] then [] else Flatten(runs[..|runs| - 1]) + runs[|runs| - 1]
  }

  predicate SameRole(run: seq<ChatMessage>) {
    forall k :: 0 <= k < |run| ==> run[k].role == run[0].role
  }

  /** `runs` cuts `ms` into its maximal blocks of consecutive same-role
      messages: non-empty, one role each, neighbours of different roles. */
  ghost predicate IsRunPartition(ms: seq<ChatMessage>, runs: seq<seq<ChatMessage>>) {
    && Flatten(runs) == ms
    && (forall j :: 0 <= j < |runs| ==> runs[j] != [] && SameRole(runs[j]))
    && (forall i, j :: 0 <= i < j < |runs| && j == i + 1 ==> runs[i][0].role != runs[j][0].role)
  }

  /** The contents of a run, separated by blank lines. */
  function JoinContents(run: seq<ChatMessage>): string
    requires run != []
  {
    if |run| == 1 then run[0].content else JoinContents(run[..|run| - 1]) + Separator + run[|run| - 1].content
  }

  /** One message per run: the run's role and its joined contents. */
  function Collapse(runs: seq<seq<ChatMessage>>): (r: seq<ChatMessage>)
    requires forall j :: 0 <= j < |runs| ==> runs[j] != []
    ensures |r| == |runs|
  {
    if runs == [] then [] else Collapse(runs[..|runs| - 1]) + [ChatMessage(runs[|runs| - 1][0].role, JoinContents(runs[|runs| - 1]))]
  }

  /** Message `j` of the collapse is run `j`'s role and joined contents. */
  lemma {:induction false} CollapseAt(runs: seq<seq<ChatMessage>>)
    requires forall j :: 0 <= j < |runs| ==> runs[j] != []
    ensures forall j :: 0 <= j < |runs| ==> Collapse(runs)[j] == ChatMessage(runs[j][0].role, JoinContents(runs[j]))
  {
    if runs != [] {
      var init := runs[..|runs| - 1];
      CollapseAt(init);
      assert forall j :: 0 <= j < |init| ==> init[j] == runs[j];
    }
  }

  /** The merge gives one message per maximal same-role run, with that run's
      role and its contents joined by blank lines. */
  lemma {:induction false} MergeIsCollapse(ms: seq<ChatMessage>, runs: seq<seq<ChatMessage>>)
    requires IsRunPartition(ms, runs)
    ensures Merge(ms) == Collapse(runs)
    decreases |ms|
  {
    if runs == [] {
      return;
    }
    var init, last := runs[..|runs| - 1], runs[|runs| - 1];
    assert runs == init + [last];
    assert ms == Flatten(init) + last;
    if |last| == 1 {
      var x := last[0];
      assert last == [x];
      PartitionInit(ms, runs);
      MergeIsCollapse(Flatten(init), init);
      if init != [] {
        assert runs[|init| - 1] == init[|init| - 1] && runs[|init|] == last;
      }
      MergeNewRun(init, x);
    } else {
      var shorter, y := last[..|last| - 1], last[|last| - 1];
      assert last == shorter + [y];
      assert ms[..|ms| - 1] == Flatten(init) + shorter;
      assert ms == (Flatten(init) + shorter) + [y];
      PartitionShorten(ms, runs);
      MergeIsCollapse(ms[..|ms| - 1], init + [shorter]);
      assert SameRole(last);
      MergeLongerRun(init, shorter, y);
    }
  }

  /** The merge case of a last run of one message: it opens a new run. */
  lemma MergeNewRun(init: seq<seq<ChatMessage>>, x: ChatMessage)
    requires forall j :: 0 <= j < |init| ==> init[j] != []
    requires init == [] || init[|init| - 1][0].role != x.role
    requires Merge(Flatten(init)) == Collapse(init)
    ensures Merge(Flatten(init) + [x]) == Collapse(init + [[x]])
  {
    MergeSnoc(Flatten(init), x);
    StepAppendsRun(init, x);
  }

  /** The merge case of a longer last run: its last message extends it. */
  lemma MergeLongerRun(init: seq<seq<ChatMessage>>, shorter: seq<ChatMessage>, y: ChatMessage)
    requires (forall j :: 0 <= j < |init| ==> init[j] != []) && shorter != []
    requires y.role == shorter[0].role
    requires Merge(Flatten(init) + shorter) == Collapse(init + [shorter])
    ensures Merge((Flatten(init) + shorter) + [y]) == Collapse(init + [shorter + [y]])
  {
    MergeSnoc(Flatten(init) + shorter, y);
    StepExtendsRun(init, shorter, y);
  }

  /** Collapsing one more run adds its one message. */
  lemma CollapseSnoc(init: seq<seq<ChatMessage>>, run: seq<ChatMessage>)
    requires (forall j :: 0 <= j < |init| ==> init[j] != []) && run != []
    ensures Collapse(init + [run]) == Collapse(init) + [ChatMessage(run[0].role, JoinContents(run))]
  {
    assert (init + [run])[..|init|] == init;
  }

  /** A message whose role differs from the last run's opens a new one. */
  lemma StepAppendsRun(init: seq<seq<ChatMessage>>, x: ChatMessage)
    requires forall j :: 0 <= j < |init| ==> init[j] != []
    requires init == [] || init[|init| - 1][0].role != x.role
    ensures MergeStep(Collapse(init), x) == Collapse(init + [[x]])
  {
    CollapseSnoc(init, [x]);
    CollapseAt(init);
  }

  /** A message of the last run's role extends that run's joined contents. */
  lemma StepExtendsRun(init: seq<seq<ChatMessage>>, shorter: seq<ChatMessage>, y: ChatMessage)
    requires (forall j :: 0 <= j < |init| ==> init[j] != []) && shorter != []
    requires y.role == shorter[0].role
    ensures MergeStep(Collapse(init + [shorter]), y) == Collapse(init + [shorter + [y]])
  {
    CollapseSnoc(init, shorter);
    JoinSnoc(shorter, y);
    CollapseSnoc(init, shorter + [y]);
    StepOnLast(Collapse(init), ChatMessage(shorter[0].role, JoinContents(shorter)), y);
  }

  lemma JoinSnoc(run: seq<ChatMessage>, y: ChatMessage)
    requires run != []
    ensures (run + [y])[0] == run[0]
    ensures JoinContents(run + [y]) == JoinContents(run) + Separator + y.content
  {
    assert (run + [y])[..|run|] == run;
  }

  lemma StepOnLast(c: seq<ChatMessage>, x: ChatMessage, y: ChatMessage)
    requires x.role == y.role
    ensures MergeStep(c + [x], y) == c + [ChatMessage(y.role, x.content + Separator + y.content)]
  {
    assert (c + [x])[|c| := ChatMessage(y.role, x.content + Separator + y.content)]
        == c + [ChatMessage(y.role, x.content + Separator + y.content)];
  }

  /** Runs that are all non-empty flatten to a non-empty sequence that ends
      inside the last run. */
  lemma FlattenNonEmpty(runs: seq<seq<ChatMessage>>)
    requires runs != [] && runs[|runs| - 1] != []
    ensures Flatten(runs) != []
    ensures Flatten(runs)[|Flatten(runs)| - 1] == runs[|runs| - 1][|runs[|runs| - 1]| - 1]
  {
  }

  /** Dropping a last run of length one leaves a partition of the rest. */
  lemma PartitionInit(ms: seq<ChatMessage>, runs: seq<seq<ChatMessage>>)
    requires IsRunPartition(ms, runs) && runs != []
    ensures IsRunPartition(Flatten(runs[..|runs| - 1]), runs[..|runs| - 1])
  {
    var init := runs[..|runs| - 1];
    assert forall j :: 0 <= j < |init| ==> init[j] == runs[j];
  }

  /** Removing the last message of the last run, when that run is longer
      than one, leaves a partition of the rest. */
  lemma PartitionShorten(ms: seq<ChatMessage>, runs: seq<seq<ChatMessage>>)
    requires IsRunPartition(ms, runs) && runs != [] && |runs[|runs| - 1]| > 1
    ensures var last := runs[|runs| - 1];
            IsRunPartition(ms[..|ms| - 1], runs[..|runs| - 1] + [last[..|last| - 1]])
  {
    var init, last := runs[..|runs| - 1], runs[|runs| - 1];
    var shorter := last[..|last| - 1];
    var runs' := init + [shorter];
    assert runs'[..|runs'| - 1] == init;
    assert Flatten(runs') == Flatten(init) + shorter;
    assert ms == Flatten(init) + last;
    assert Flatten(init) + shorter == (Flatten(init) + last)[..|ms| - 1];
    assert forall j :: 0 <= j < |init| ==> runs'[j] == runs[j];
    assert runs'[|init|] == shorter && shorter[0] == last[0];
    assert SameRole(shorter) by {
      assert forall k :: 0 <= k < |shorter| ==> shorter[k] == last[k];
    }
  }

  /** Every message list has a run partition. */
  lemma {:induction false} RunsExist(ms: seq<ChatMessage>) returns (runs: seq<seq<ChatMessage>>)
    ensures IsRunPartition(ms, runs)
    decreases |ms|
  {
    if ms == [] {
      return [];
    }
    var s, m := ms[..|ms| - 1], ms[|ms| - 1];
    var rs: seq<seq<ChatMessage>> := RunsExist(s);
    assert s + [m] == ms;
    if rs != [] && rs[|rs| - 1][0].role == m.role {
      runs := rs[..|rs| - 1] + [rs[|rs| - 1] + [m]];
      ExtendLastRun(s, rs, m);
    } else {
      runs := rs + [[m]];
      AddRun(s, rs, m);
    }
  }

  /** A message of the last run's role joins that run. */
  lemma ExtendLastRun(s: seq<ChatMessage>, rs: seq<seq<ChatMessage>>, m: ChatMessage)
    requires IsRunPartition(s, rs) && rs != [] && rs[|rs| - 1][0].role == m.role
    ensures IsRunPartition(s + [m], rs[..|rs| - 1] + [rs[|rs| - 1] + [m]])
  {
    var init, last := rs[..|rs| - 1], rs[|rs| - 1];
    var runs := init + [last + [m]];
    assert runs[..|runs| - 1] == init;
    assert Flatten(rs) == Flatten(init) + last;
    assert Flatten(runs) == Flatten(init) + (last + [m]);
    assert forall j :: 0 <= j < |init| ==> runs[j] == rs[j];
    assert runs[|init|][0] == last[0];
    assert SameRole(last + [m]) by {
      assert forall k :: 0 <= k < |last| ==> (last + [m])[k] == last[k];
    }
  }

  /** A message of another role starts a run of its own. */
  lemma AddRun(s: seq<ChatMessage>, rs: seq<seq<ChatMessage>>, m: ChatMessage)
    requires IsRunPartition(s, rs) && (rs == [] || rs[|rs| - 1][0].role != m.role)
    ensures IsRunPartition(s + [m], rs + [[m]])
  {
    var runs := rs + [[m]];
    assert runs[..|runs| - 1] == rs;
    assert forall j :: 0 <= j < |rs| ==> runs[j] == rs[j];
  }

  /** The `apiMessages` history `processQueue` sends for the reply to `target`. */
  function RequestHistory(snapshot: seq<Message>, target: string): seq<ChatMessage> {
    Merge(SendableChat(RequestSlice(snapshot, target)))
  }

  /** How `processQueue` builds its request history: slice and filter, then the merge loop. */
  method BuildRequest(snapshot: seq<Message>, target: string) returns (apiMessages: seq<ChatMessage>)
    ensures apiMessages == RequestHistory(snapshot, target)
  {
    var forRequest := RequestSlice(snapshot, target);
    var filtered := SendableChat(forRequest);
    apiMessages := MergeLoop(filtered);
  }

  /** The `for (const msg of filtered)` loop of `processQueue`, which pushes a copy of each message, or extends
      the content of the last one pushed when the roles agree. */
  method MergeLoop(filtered: seq<ChatMessage>) returns (apiMessages: seq<ChatMessage>)
    ensures apiMessages == Merge(filtered)
  {
    apiMessages := [];
    var i := 0;
    while i < |filtered|
      invariant 0 <= i <= |filtered|
      invariant apiMessages == Merge(filtered[..i])
    {
      var msg := filtered[i];
      ghost var before := apiMessages;
      if |apiMessages| > 0 && apiMessages[|apiMessages| - 1].role == msg.role {
        var last := apiMessages[|apiMessages| - 1];
        apiMessages := apiMessages[|apiMessages| - 1 := ChatMessage(msg.role, last.content + Separator + msg.content)];
      } else {
        apiMessages := apiMessages + [msg];
      }
      assert apiMessages == MergeStep(before, msg);
      MergePrefix(filtered, i);
      i := i + 1;
    }
    assert filtered[..i] == filtered;
  }

  /** When every message has a truthy role, the history the page sends
      passes the server's normaliser unchanged. */
  lemma HistorySurvivesNormaliser(snapshot: seq<Message>, target: string)
    requires forall k :: 0 <= k < |snapshot| ==> Truthy(snapshot[k].role)
    ensures NormaliseList(ToJsList(RequestHistory(snapshot, target))) == RequestHistory(snapshot, target)
  {
    var slice := RequestSlice(snapshot, target);
    RequestSliceShape(snapshot, target);
    assert forall k :: 0 <= k < |slice| ==> slice[k] == snapshot[k];
    var chat := SendableChat(slice);
    assert forall k :: 0 <= k < |chat| ==> Truthy(chat[k].role);
    var runs := RunsExist(chat);
    MergeIsCollapse(chat, runs);
    CollapseAt(runs);
    RolesOfRuns(chat, runs);
    NormaliseWellFormed(RequestHistory(snapshot, target));
  }

  /** Each run's role is the role of some message of the list. */
  lemma RolesOfRuns(ms: seq<ChatMessage>, runs: seq<seq<ChatMessage>>)
    requires IsRunPartition(ms, runs)
    requires forall k :: 0 <= k < |ms| ==> Truthy(ms[k].role)
    ensures forall j :: 0 <= j < |runs| ==> Truthy(runs[j][0].role)
  {
    forall j | 0 <= j < |runs|
      ensures Truthy(runs[j][0].role)
    {
      RunInFlatten(runs, j);
    }
  }

  /** The first message of run `j` is a message of the flattened list. */
  lemma {:induction false} RunInFlatten(runs: seq<seq<ChatMessage>>, j: nat)
    requires j < |runs| && runs[j] != []
    ensures runs[j][0] in Flatten(runs)
  {
    if j < |runs| - 1 {
      assert runs[..|runs| - 1][j] == runs[j];
      RunInFlatten(runs[..|runs| - 1], j);
    }
  }

  /** When the message being answered is in the snapshot and is itself
      sendable, the request is never empty, so the server does not reject it. */
  lemma HistoryNotEmpty(snapshot: seq<Message>, target: string, j: nat)
    requires j < |snapshot| && snapshot[j].id == target && Sendable(snapshot[j])
    requires forall k :: 0 <= k < j ==> snapshot[k].id != target
    ensures RequestHistory(snapshot, target) != []
  {
    var slice := RequestSlice(snapshot, target);
    assert FindIndex(snapshot, target) == j;
    SendableChatShape(slice, j);
    MergeShape(SendableChat(slice));
  }
}
