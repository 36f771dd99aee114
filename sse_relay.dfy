/** The stream re-emitter of the chat relay: the vendor's server-sent-event
    stream (the `text/event-stream` framing of section 9.2 of the WHATWG HTML
    Living Standard, read here as `data:` lines only) is cut into lines as the
    chunks arrive, and each `data:` line becomes at most one event for the
    browser; the end of the stream becomes a final `done` event. */
module SseRelay {
  import opened Wrappers
  import opened Text

  /** What `JSON.parse` of a `data:` payload amounts to for the relay. */
  datatype Payload =
    | ContentDelta(text: string)   // `type` is 'content_block_delta'; `text` is "" when `delta?.text` is falsy
    | VendorError(message: string) // `type` is 'error'; `message` is "" when `error?.message` is falsy
    | Other                        // valid JSON of any other type
    | Malformed                    // `JSON.parse` throws, or reading `.type` of its result does

  /** The records written back to the browser as `data: {...}` frames. */
  datatype Event = Delta(text: string) | Error(message: string) | Done

  const StreamingError := "Streaming error."
  const StreamingUnavailable := "Streaming unavailable. Please try again."

  /** Each line followed by a newline, all concatenated. */
  function Terminated(lines: seq<string>): string {
    if lines == [] then "" else lines[0] + "\n" + Terminated(lines[1..])
  }

  lemma {:induction false} TerminatedAppend(a: seq<string>, b: seq<string>)
    ensures Terminated(a + b) == Terminated(a) + Terminated(b)
  {
    if a != [] {
      assert (a + b)[0] == a[0];
      assert (a + b)[1..] == a[1..] + b;
      TerminatedAppend(a[1..], b);
      calc {
        Terminated(a + b);
        a[0] + "\n" + Terminated(a[1..] + b);
        a[0] + "\n" + (Terminated(a[1..]) + Terminated(b));
        (a[0] + "\n" + Terminated(a[1..])) + Terminated(b);
        Terminated(a) + Terminated(b);
      }
    } else {
      assert a + b == b;
    }
  }

  /** `s.split('\n')`: the pieces between newlines, the last one being the text
      after the final newline (possibly empty). */
  function Split(s: string): (parts: seq<string>)
    ensures |parts| >= 1
  {
    if s == [] then
      [""]
    else
      var rest := Split(s[1..]);
      if s[0] == '\n' then [""] + rest else [[s[0]] + rest[0]] + rest[1..]
  }

  /** No piece of `split` holds a newline. */
  predicate NoNewlines(parts: seq<string>) {
    forall k :: 0 <= k < |parts| ==> '\n' !in parts[k]
  }

  /** What `split` returns: pieces without newlines that, joined back with
      newlines, give the text. */
  lemma {:induction false} SplitShape(s: string)
    ensures NoNewlines(Split(s))
    ensures var parts := Split(s); Terminated(parts[..|parts| - 1]) + parts[|parts| - 1] == s
  {
    if s != [] {
      var rest := Split(s[1..]);
      SplitShape(s[1..]);
      if s[0] == '\n' {
        SplitShapeNewline(s, rest);
      } else {
        SplitShapeOther(s, rest);
      }
    }
  }

  lemma SplitShapeNewline(s: string, rest: seq<string>)
    requires s != [] && s[0] == '\n' && |rest| >= 1
    requires NoNewlines(rest) && Terminated(rest[..|rest| - 1]) + rest[|rest| - 1] == s[1..]
    ensures var parts := [""] + rest;
            NoNewlines(parts) && Terminated(parts[..|parts| - 1]) + parts[|parts| - 1] == s
  {
    var parts := [""] + rest;
    assert parts[..|parts| - 1] == [""] + rest[..|rest| - 1];
    assert parts[..|parts| - 1][1..] == rest[..|rest| - 1];
    assert forall k :: 0 < k < |parts| ==> parts[k] == rest[k - 1];
  }

  lemma SplitShapeOther(s: string, rest: seq<string>)
    requires s != [] && s[0] != '\n' && |rest| >= 1
    requires NoNewlines(rest) && Terminated(rest[..|rest| - 1]) + rest[|rest| - 1] == s[1..]
    ensures var parts := [[s[0]] + rest[0]] + rest[1..];
            NoNewlines(parts) && Terminated(parts[..|parts| - 1]) + parts[|parts| - 1] == s
  {
    var parts := [[s[0]] + rest[0]] + rest[1..];
    assert '\n' !in [s[0]] + rest[0];
    assert forall k :: 0 < k < |parts| ==> parts[k] == rest[k];
    if |rest| > 1 {
      assert parts[..|parts| - 1][1..] == rest[1..|rest| - 1];
      assert rest[..|rest| - 1][1..] == rest[1..|rest| - 1];
    }
  }

  lemma {:induction false} SplitWithoutNewline(b: string)
    requires '\n' !in b
    ensures Split(b) == [b]
  {
    if b != [] {
      assert b[0] != '\n' && '\n' !in b[1..];
      SplitWithoutNewline(b[1..]);
      assert [b[0]] + b[1..] == b;
    }
  }

  lemma {:induction false} SplitAfterLine(l: string, t: string)
    requires '\n' !in l
    ensures Split(l + "\n" + t) == [l] + Split(t)
  {
    if l == [] {
      assert (l + "\n" + t)[1..] == t;
    } else {
      assert (l + "\n" + t)[0] == l[0] && l[0] != '\n';
      assert (l + "\n" + t)[1..] == l[1..] + "\n" + t;
      assert '\n' !in l[1..];
      SplitAfterLine(l[1..], t);
      assert [l[0]] + l[1..] == l;
    }
  }

  /** Newline-terminated lines followed by a newline-free remainder are
      exactly what `split` recovers: the pieces are determined by the text. */
  lemma {:induction false} SplitUnique(lines: seq<string>, rest: string)
    requires NoNewlines(lines) && '\n' !in rest
    ensures Split(Terminated(lines) + rest) == lines + [rest]
  {
    if lines == [] {
      assert Terminated(lines) + rest == rest;
      SplitWithoutNewline(rest);
    } else {
      assert Terminated(lines) + rest == lines[0] + "\n" + (Terminated(lines[1..]) + rest);
      assert '\n' !in lines[0];
      assert NoNewlines(lines[1..]) by {
        assert forall k :: 0 <= k < |lines| - 1 ==> lines[1..][k] == lines[k + 1];
      }
      SplitUnique(lines[1..], rest);
      SplitAfterLine(lines[0], Terminated(lines[1..]) + rest);
      assert lines == [lines[0]] + lines[1..];
    }
  }

  /** The newline-terminated lines of `s`; the unterminated rest is not a line yet. */
  function CompleteLines(s: string): seq<string> {
    var parts := Split(s);
    parts[..|parts| - 1]
  }

  /** All stream chunks in arrival order, as one text. */
  function Concat(chunks: seq<string>): string {
    if chunks == [] then "" else Concat(chunks[..|chunks| - 1]) + chunks[|chunks| - 1]
  }

  /** The payload of a `data:` line with the prefix and the whitespace after
      it removed (the `replace` of `^data:` and the whitespace class), or None for a line the
      relay skips before parsing: not a `data:` line, an empty payload, or the
      `[DONE]` terminator. */
  function DataPayload(line: string): Option<string> {
    var t := Trim(line);
    if !StartsWith(t, "data:") then
      None
    else
      var data := TrimStart(t[5..]);
      if data == "" || data == "[DONE]" then None else Some(data)
  }

  /** The event a parsed payload turns into, if any. */
  function PayloadEvents(p: Payload): (r: seq<Event>)
    ensures |r| <= 1
    ensures r != [] ==> (r[0].Delta? <==> p.ContentDelta?)
    ensures r != [] ==> (r[0].Error? <==> p.VendorError?)
    // A content delta with text is relayed as a delta carrying exactly that text.
    ensures p.ContentDelta? ==> (r == [] <==> p.text == "")
    ensures p.ContentDelta? && p.text != "" ==> r == [Delta(p.text)]
    // A vendor error is relayed with its message, or the fallback when it has none.
    ensures p.VendorError? ==> r == [Error(if p.message != "" then p.message else StreamingError)]
    // Anything else is dropped.
    ensures p.Other? || p.Malformed? ==> r == []
  {
    match p
    case ContentDelta(text) => if text != "" then [Delta(text)] else []
    case VendorError(message) => [Error(if message != "" then message else StreamingError)]
    case Other => []
    case Malformed => []
  }

  /** The body of the `for (const line of lines)` loop. */
  function LineEvents(line: string, parse: string -> Payload): seq<Event> {
    match DataPayload(line)
    case None => []
    case Some(data) => PayloadEvents(parse(data))
  }

  /** The events `f` gives each of `lines`, in line order. */
  function EventsBy(lines: seq<string>, f: string -> seq<Event>): seq<Event> {
    if lines == [] then [] else EventsBy(lines[..|lines| - 1], f) + f(lines[|lines| - 1])
  }

  lemma EventsBySnoc(lines: seq<string>, line: string, f: string -> seq<Event>)
    ensures EventsBy(lines + [line], f) == EventsBy(lines, f) + f(line)
  {
    assert (lines + [line])[..|lines|] == lines;
  }

  lemma {:induction false} EventsByAppend(a: seq<string>, b: seq<string>, f: string -> seq<Event>)
    ensures EventsBy(a + b, f) == EventsBy(a, f) + EventsBy(b, f)
    decreases |b|
  {
    if b != [] {
      var b' := b[..|b| - 1];
      assert a + b == (a + b') + [b[|b| - 1]];
      EventsBySnoc(a + b', b[|b| - 1], f);
      EventsByAppend(a, b', f);
      EventsBySnoc(b', b[|b| - 1], f);
      assert b' + [b[|b| - 1]] == b;
    } else {
      assert a + b == a;
    }
  }

  lemma {:induction false} EventsByWithout(lines: seq<string>, f: string -> seq<Event>, e: Event)
    requires forall l :: e !in f(l)
    ensures e !in EventsBy(lines, f)
  {
    if lines != [] {
      EventsByWithout(lines[..|lines| - 1], f, e);
    }
  }

  /** The events of a sequence of lines, in line order. */
  function LinesEvents(lines: seq<string>, parse: string -> Payload): seq<Event> {
    EventsBy(lines, l => LineEvents(l, parse))
  }

  /** The lines of two pieces of text give the events of the first, then
      those of the second. */
  lemma LinesEventsAppend(a: seq<string>, b: seq<string>, parse: string -> Payload)
    ensures LinesEvents(a + b, parse) == LinesEvents(a, parse) + LinesEvents(b, parse)
  {
    EventsByAppend(a, b, l => LineEvents(l, parse));
  }

  /** A line gives at most one event and never `done`, so the events of the
      lines are at most as many as the lines and hold no `done`. */
  lemma LinesEventsBounded(lines: seq<string>, parse: string -> Payload)
    ensures |LinesEvents(lines, parse)| <= |lines|
    ensures Done !in LinesEvents(lines, parse)
  {
    var f := l => LineEvents(l, parse);
    forall l ensures Done !in f(l) {
      LineEventsAtMostOne(l, parse);
    }
    EventsByWithout(lines, f, Done);
    EventsByLength(lines, f);
  }

  lemma {:induction false} EventsByLength(lines: seq<string>, f: string -> seq<Event>)
    requires forall l :: |f(l)| <= 1
    ensures |EventsBy(lines, f)| <= |lines|
  {
    if lines != [] {
      EventsByLength(lines[..|lines| - 1], f);
    }
  }

  lemma LinesEventsSnoc(lines: seq<string>, line: string, parse: string -> Payload)
    ensures LinesEvents(lines + [line], parse) == LinesEvents(lines, parse) + LineEvents(line, parse)
  {
    EventsBySnoc(lines, line, l => LineEvents(l, parse));
  }

  /** One line: at most one event, never `done`; and only a `data:` line
      with a payload gives one. */
  lemma LineEventsAtMostOne(line: string, parse: string -> Payload)
    ensures |LineEvents(line, parse)| <= 1 && Done !in LineEvents(line, parse)
    ensures LineEvents(line, parse) != [] ==> DataPayload(line).Some?
  {
  }

  /** The `for (const line of lines)` loop: the events of the lines, in order. */
  method EmitLines(lines: seq<string>, parse: string -> Payload) returns (events: seq<Event>)
    ensures events == LinesEvents(lines, parse)
  {
    events := [];
    var j := 0;
    while j < |lines|
      invariant 0 <= j <= |lines|
      invariant events == LinesEvents(lines[..j], parse)
    {
      LinesEventsSnoc(lines[..j], lines[j], parse);
      assert lines[..j + 1] == lines[..j] + [lines[j]];
      events := events + LineEvents(lines[j], parse);
      j := j + 1;
    }
    assert lines[..j] == lines;
  }

  /** A line whose payload does not parse emits nothing. */
  lemma MalformedLineSilent(line: string, parse: string -> Payload)
    requires DataPayload(line).Some? && parse(DataPayload(line).value) == Malformed
    ensures LineEvents(line, parse) == []
  {
  }

  /** The streaming part of the chat handler. `body` is the sequence of decoded chunks `reader.read()`
      delivers, or None when the response has no readable body. The events
      are those of the complete lines of all chunks, in order, then `done`:
      they depend on the text alone, not on where the chunks were cut, and a
      last line without a newline is dropped. */
  method Relay(body: Option<seq<string>>, parse: string -> Payload) returns (events: seq<Event>)
    ensures body.None? ==> events == [Error(StreamingUnavailable)]
    ensures body.Some? ==> events == LinesEvents(CompleteLines(Concat(body.value)), parse) + [Done]
    ensures body.Some? ==> events[|events| - 1] == Done && Done !in events[..|events| - 1]
  {
    if body.None? {
      return [Error(StreamingUnavailable)];
    }
    var chunks := body.value;
    var buffer := "";
    ghost var lines: seq<string> := [];
    events := [];
    var i := 0;
    while i < |chunks|
      invariant 0 <= i <= |chunks|
      invariant '\n' !in buffer
      invariant NoNewlines(lines)
      invariant Terminated(lines) + buffer == Concat(chunks[..i])
      invariant events == LinesEvents(lines, parse)
    {
      ChunkStep(lines, buffer, chunks, i);
      buffer := buffer + chunks[i];
      var parts := Split(buffer);
      SplitShape(buffer);
      var complete := parts[..|parts| - 1];
      buffer := parts[|parts| - 1];
      assert NoNewlines(lines + complete) by {
        assert forall k :: 0 <= k < |complete| ==> complete[k] == parts[k];
        assert forall k :: |lines| <= k < |lines + complete| ==> (lines + complete)[k] == complete[k - |lines|];
      }
      var emitted := EmitLines(complete, parse);
      LinesEventsAppend(lines, complete, parse);
      events := events + emitted;
      lines := lines + complete;
      i := i + 1;
    }
    assert chunks[..i] == chunks;
    SplitUnique(lines, buffer);
    events := events + [Done];
    assert events[..|events| - 1] == LinesEvents(lines, parse);
    LinesEventsBounded(lines, parse);
  }

  /** One turn of the read loop keeps the buffer invariant: the lines taken
      from `split` and the new remainder still spell out every chunk so far. */
  lemma ChunkStep(lines: seq<string>, buffer: string, chunks: seq<string>, i: nat)
    requires i < |chunks|
    requires Terminated(lines) + buffer == Concat(chunks[..i])
    ensures var parts := Split(buffer + chunks[i]);
            Terminated(lines + parts[..|parts| - 1]) + parts[|parts| - 1] == Concat(chunks[..i + 1])
  {
    var parts := Split(buffer + chunks[i]);
    var done, rest := parts[..|parts| - 1], parts[|parts| - 1];
    SplitShape(buffer + chunks[i]);
    TerminatedAppend(lines, done);
    assert chunks[..i + 1][..i] == chunks[..i];
    Regroup(Terminated(lines), Terminated(done), rest, buffer, chunks[i]);
  }

  lemma Regroup(l: string, d: string, r: string, b: string, c: string)
    requires d + r == b + c
    ensures (l + d) + r == (l + b) + c
  {
    assert (l + d) + r == l + (d + r);
    assert (l + b) + c == l + (b + c);
  }

  /** A `data:` line written as the vendor writes it, `data: ` followed by a
      payload without whitespace at either end, yields that payload, unless
      it is empty or the `[DONE]` terminator. */
  lemma DataLine(p: string)
    requires p == [] || (!IsWhitespace(p[0]) && !IsWhitespace(p[|p| - 1]))
    ensures DataPayload("data: " + p) == if p == "" || p == "[DONE]" then None else Some(p)
  {
    if p == [] {
      assert "data: " + p == "data: ";
      EmptyDataLine();
    } else {
      var line := "data: " + p;
      TrimDataLine(p);
      assert line[..5] == "data:";
      StripDataPrefix(p);
    }
  }

  lemma EmptyDataLine()
    ensures DataPayload("data: ") == None
  {
    assert LeadingWhitespace("data: ") == 0;
    assert TrailingStart("data: ") == 5 by {
      assert "data: "[..5] == "data:";
    }
    assert Trim("data: ")[5..] == [];
  }

  lemma TrimDataLine(p: string)
    requires p != [] && !IsWhitespace(p[0]) && !IsWhitespace(p[|p| - 1])
    ensures Trim("data: " + p) == "data: " + p
  {
    var line := "data: " + p;
    assert line[0] == 'd';
    assert LeadingWhitespace(line) == 0;
    assert line[|line| - 1] == p[|p| - 1];
    assert TrailingStart(line) == |line|;
  }

  lemma StripDataPrefix(p: string)
    requires p != [] && !IsWhitespace(p[0])
    ensures TrimStart(("data: " + p)[5..]) == p
  {
    var u := ("data: " + p)[5..];
    assert u == " " + p;
    assert u[1..] == p;
    assert LeadingWhitespace(p) == 0;
    assert LeadingWhitespace(u) == 1;
  }

  /** A payload as the vendor writes it after `data: `: one line of JSON
      text, without whitespace at either end. */
  predicate WellFormedPayload(p: string) {
    p != [] && '\n' !in p && !IsWhitespace(p[0]) && !IsWhitespace(p[|p| - 1]) && p != "[DONE]"
  }

  /** Two chunks, the first a delta event and the second a further delta
      and a line the relay skips, such as the `data: [DONE]` terminator
      (TerminatorSkipped), give the two deltas in order and then `done`; the
      blank line that ends each event gives nothing. */
  lemma TwoChunkStream(p1: string, p2: string, t1: string, t2: string, d: string, parse: string -> Payload)
    requires WellFormedPayload(p1) && WellFormedPayload(p2) && t1 != "" && t2 != ""
    requires parse(p1) == ContentDelta(t1) && parse(p2) == ContentDelta(t2)
    requires '\n' !in d && DataPayload(d).None?
    ensures LinesEvents(CompleteLines(Concat([
              "data: " + p1 + "\n\n",
              "data: " + p2 + "\n\n" + d + "\n\n"])), parse)
            + [Done]
            == [Delta(t1), Delta(t2), Done]
  {
    var l1, l2 := "data: " + p1, "data: " + p2;
    var lines := [l1, "", l2, "", d, ""];
    ExampleLines(l1, l2, d, lines);
    DeltaLine(p1, t1, parse);
    DeltaLine(p2, t2, parse);
    BlankLineSkipped(parse);
    SixLines(lines, l => LineEvents(l, parse));
    DropEmpty(Delta(t1), Delta(t2));
  }

  lemma DropEmpty(a: Event, b: Event)
    ensures [a] + [] + [b] + [] + [] + [] + [Done] == [a, b, Done]
  {
  }

  /** The vendor's end-of-stream line gives no event. */
  lemma TerminatorSkipped(parse: string -> Payload)
    ensures DataPayload("data: [DONE]") == None && LineEvents("data: [DONE]", parse) == []
  {
    var p := "[DONE]";
    assert "data: " + p == "data: [DONE]";
    TerminatorPayload(p);
  }

  lemma TerminatorPayload(p: string)
    requires p == "[DONE]"
    ensures DataPayload("data: " + p) == None
  {
    assert p[0] == '[' && p[|p| - 1] == ']';
    DataLine(p);
  }

  lemma BlankLineSkipped(parse: string -> Payload)
    ensures LineEvents("", parse) == []
  {
  }

  lemma DeltaLine(p: string, t: string, parse: string -> Payload)
    requires WellFormedPayload(p) && t != "" && parse(p) == ContentDelta(t)
    ensures LineEvents("data: " + p, parse) == [Delta(t)]
  {
    DataLine(p);
  }

  lemma ConcatTwo(c1: string, c2: string)
    ensures Concat([c1, c2]) == c1 + c2
  {
    assert [c1, c2][..1] == [c1];
    assert Concat([c1]) == c1 by {
      assert [c1][..0] == [];
    }
  }

  lemma TerminatedCons(l: string, rest: seq<string>)
    ensures Terminated([l] + rest) == l + "\n" + Terminated(rest)
  {
    assert ([l] + rest)[1..] == rest;
  }

  lemma ExampleLines(l1: string, l2: string, l3: string, lines: seq<string>)
    requires '\n' !in l1 && '\n' !in l2 && '\n' !in l3
    requires lines == [l1, "", l2, "", l3, ""]
    ensures CompleteLines(Concat([l1 + "\n\n", l2 + "\n\n" + l3 + "\n\n"])) == lines
  {
    ConcatTwo(l1 + "\n\n", l2 + "\n\n" + l3 + "\n\n");
    ExampleText(l1, l2, l3, lines);
    assert NoNewlines(lines);
    SplitUnique(lines, "");
    assert lines + [""] == Split(Terminated(lines) + "");
  }

  lemma ExampleText(l1: string, l2: string, l3: string, lines: seq<string>)
    requires lines == [l1, "", l2, "", l3, ""]
    ensures Terminated(lines) + "" == (l1 + "\n\n") + (l2 + "\n\n" + l3 + "\n\n")
  {
    TerminatedCons("", []);
    TerminatedCons(l3, [""]);
    TerminatedCons("", [l3, ""]);
    TerminatedCons(l2, ["", l3, ""]);
    TerminatedCons("", [l2, "", l3, ""]);
    TerminatedCons(l1, ["", l2, "", l3, ""]);
    assert [l1] + ["", l2, "", l3, ""] == lines;
  }

  /** The events of six lines, line by line. */
  lemma SixLines(lines: seq<string>, f: string -> seq<Event>)
    requires |lines| == 6
    ensures EventsBy(lines, f) == f(lines[0]) + f(lines[1]) + f(lines[2]) + f(lines[3]) + f(lines[4]) + f(lines[5])
  {
    assert lines[..0] == [];
    EventsByPrefix(lines, 1, f);
    EventsByPrefix(lines, 2, f);
    EventsByPrefix(lines, 3, f);
    EventsByPrefix(lines, 4, f);
    EventsByPrefix(lines, 5, f);
    EventsByPrefix(lines, 6, f);
    assert lines[..6] == lines;
  }

  lemma EventsByPrefix(lines: seq<string>, k: nat, f: string -> seq<Event>)
    requires 0 < k <= |lines|
    ensures EventsBy(lines[..k], f) == EventsBy(lines[..k - 1], f) + f(lines[k - 1])
  {
    assert lines[..k][..k - 1] == lines[..k - 1];
  }
}
