/** The log stream as a browser reads it: the event stream interpretation of section
    9.2.6 of the WHATWG HTML standard, with all three of its line terminators. */
module EventSources {
  import opened Collections
  import opened Text
  import opened JobLog
  import opened LogStream

  // ---------------------------------------------------------------------- the lines

  /** The lines that are complete so far, the one being read, and whether a carriage
      return was the last character, so that a newline would belong to it. */
  datatype Scan = Scan(lines: seq<string>, partial: string, afterReturn: bool)

  function ScanStream(s: string): Scan {
    if s == "" then Scan([], "", false) else ScanChar(ScanStream(s[..|s| - 1]), s[|s| - 1])
  }

  /** Lines end at a carriage return and newline, at a newline, or at a carriage return. */
  function ScanChar(before: Scan, c: char): Scan {
    if c == '\n' && before.afterReturn then before.(afterReturn := false)
    else if c == '\n' || c == '\r' then Scan(before.lines + [before.partial], "", c == '\r')
    else Scan(before.lines, before.partial + [c], false)
  }

  // --------------------------------------------------------------------- the events

  datatype Message = Message(kind: string, data: string)

  /** The data and event type buffers, and the messages dispatched. */
  datatype Reader = Reader(data: string, kind: string, messages: seq<Message>)

  const DEFAULT_KIND: string := "message"

  /** A field's name and value; a line without a colon is a name. */
  function FieldOf(line: string): (string, string) {
    var parts := CutAt(line, ':');
    if parts.None? then (line, "") else (parts.value.0, CutSpace(parts.value.1))
  }

  function Dispatch(r: Reader): Reader {
    if r.data == "" then Reader("", "", r.messages)
    else
      var kind := if r.kind == "" then DEFAULT_KIND else r.kind;
      Reader("", "", r.messages + [Message(kind, r.data[..|r.data| - 1])])
  }

  /** A blank line dispatches; `id`, `retry`, comments and unknown fields leave the
      data and the type of a message alone. */
  function Feed(r: Reader, line: string): Reader {
    if line == "" then Dispatch(r)
    else
      var (name, value) := FieldOf(line);
      if name == "data" then r.(data := r.data + value + "\n")
      else if name == "event" then r.(kind := value)
      else r
  }

  function Interpret(lines: seq<string>): Reader {
    if lines == [] then Reader("", "", []) else Feed(Interpret(lines[..|lines| - 1]), lines[|lines| - 1])
  }

  /** One leading byte order mark is dropped; what no blank line completes is discarded. */
  function Dispatched(stream: string): seq<Message> {
    var text := if stream != "" && stream[0] == '\U{FEFF}' then stream[1..] else stream;
    Interpret(ScanStream(text).lines).messages
  }

  /** The log's lines, one message each. */
  function AsMessages(lines: seq<string>): seq<Message> {
    seq(|lines|, i requires 0 <= i < |lines| => Message(DEFAULT_KIND, lines[i]))
  }

  // --------------------------------------------- no message contains a carriage return

  predicate NoReturn(s: string) {
    '\r' !in s
  }

  lemma {:induction false} ScannedHaveNoReturn(s: string)
    ensures NoReturn(ScanStream(s).partial)
    ensures forall i | 0 <= i < |ScanStream(s).lines| :: NoReturn(ScanStream(s).lines[i])
  {
    if s != "" {
      ScannedHaveNoReturn(s[..|s| - 1]);
    }
  }

  ghost predicate ReaderHasNoReturn(r: Reader) {
    NoReturn(r.data) && forall i | 0 <= i < |r.messages| :: NoReturn(r.messages[i].data)
  }

  lemma FeedKeepsNoReturn(r: Reader, line: string)
    requires ReaderHasNoReturn(r) && NoReturn(line)
    ensures ReaderHasNoReturn(Feed(r, line))
  {
    CutKeeps(line, ':');
    hide CutAt;
    if line != "" {
      var value := FieldOf(line).1;
      assert forall c | c in value :: c in line;
      hide FieldOf;
    }
  }

  lemma {:induction false} InterpretedHasNoReturn(lines: seq<string>)
    requires forall i | 0 <= i < |lines| :: NoReturn(lines[i])
    ensures ReaderHasNoReturn(Interpret(lines))
  {
    if lines != [] {
      var front := lines[..|lines| - 1];
      hide Feed, ReaderHasNoReturn, NoReturn;
      if front == [] {
        NothingRead();
      } else {
        InterpretedHasNoReturn(front);
      }
      FeedKeepsNoReturn(Interpret(front), lines[|lines| - 1]);
    }
  }

  lemma NothingRead()
    ensures Interpret([]) == Reader("", "", []) && ReaderHasNoReturn(Interpret([]))
  {
  }

  lemma MessagesHaveNoReturn(stream: string)
    ensures forall i | 0 <= i < |Dispatched(stream)| :: NoReturn(Dispatched(stream)[i].data)
  {
    var text := if stream != "" && stream[0] == '\U{FEFF}' then stream[1..] else stream;
    ScannedHaveNoReturn(text);
    InterpretedHasNoReturn(ScanStream(text).lines);
    hide ScanStream, Interpret, NoReturn;
  }

  // ------------------------------------------------------ frames without carriage returns

  /** Without carriage returns the standard's lines are those ended by newlines. */
  lemma {:induction false} ScanWithoutReturns(s: string)
    requires NoReturn(s)
    ensures Split(s) == ScanStream(s).lines + [ScanStream(s).partial] && !ScanStream(s).afterReturn
  {
    if s != "" {
      var front := s[..|s| - 1];
      assert s[|s| - 1] in s && NoReturn(front);
      ScanWithoutReturns(front);
    }
  }

  lemma FeedFrame(messages: seq<Message>, line: string)
    ensures Feed(Feed(Reader("", "", messages), "data: " + line), "")
         == Reader("", "", messages + [Message(DEFAULT_KIND, line)])
  {
    var field := "data: " + line;
    assert field == "data" + [':'] + (" " + line);
    CutFirst("data", ':', " " + line);
    assert (" " + line)[1..] == line;
    assert FieldOf(field) == ("data", line);
    hide FieldOf, CutAt;
    var data := "" + line + "\n";
    assert data[..|data| - 1] == line;
  }

  lemma {:induction false} InterpretFields(lines: seq<string>)
    ensures Interpret(Fields(lines)) == Reader("", "", AsMessages(lines))
    decreases |lines|
  {
    hide Feed;
    if lines == [] {
      NothingRead();
    } else {
      var front, last := lines[..|lines| - 1], lines[|lines| - 1];
      assert lines == front + [last];
      InterpretFields(front);
      FieldsOfMore(front, last);
      var fields, one := Fields(lines), Fields(front) + ["data: " + last];
      FeedFrame(AsMessages(front), last);
      hide Fields;
      assert fields[..|fields| - 1] == one && one[..|one| - 1] == Fields(front);
      assert AsMessages(front) + [Message(DEFAULT_KIND, last)] == AsMessages(lines);
    }
  }

  lemma {:induction false} FramesHaveNoReturn(lines: seq<string>)
    requires forall i | 0 <= i < |lines| :: NoReturn(lines[i])
    ensures NoReturn(Frames(lines)) && (Frames(lines) != "" ==> Frames(lines)[0] == 'd')
    decreases |lines|
  {
    if lines != [] {
      FramesHaveNoReturn(lines[..|lines| - 1]);
      assert NoReturn(lines[|lines| - 1]);
    }
  }

  /**
   * An event source dispatches each log line as one message, once and in order, exactly
   * when no line contains a carriage return.
   */
  lemma EveryLineIsOneMessage(lines: seq<string>)
    requires AllNoNewline(lines)
    ensures Dispatched(Frames(lines)) == AsMessages(lines) <==> forall i | 0 <= i < |lines| :: NoReturn(lines[i])
  {
    var stream := Frames(lines);
    if forall i | 0 <= i < |lines| :: NoReturn(lines[i]) {
      FramesHaveNoReturn(lines);
      LinesOfFrames(lines);
      ScanWithoutReturns(stream);
      InterpretFields(lines);
      hide Frames, Split, ScanStream, Interpret, Fields, NoReturn, AllNoNewline;
      assert ScanStream(stream).lines == Lines(stream);
    } else {
      MessagesHaveNoReturn(stream);
      hide Dispatched, Frames, NoReturn, AllNoNewline;
      var i :| 0 <= i < |lines| && !NoReturn(lines[i]);
      assert |Dispatched(stream)| == |lines| ==> Dispatched(stream)[i].data != AsMessages(lines)[i].data;
    }
  }

  /** Over any interleaving that closes the log and looks at it once more. */
  lemma LogReachesBrowser(maxBytes: int, events: seq<Event>)
    requires events != [] && events[|events| - 1].Emit? && Close in events
    ensures var lines := Lines(Capped(maxBytes, Accepted(events)));
      Dispatched(Play(maxBytes, events).wire) == AsMessages(lines)
      <==> forall i | 0 <= i < |lines| :: NoReturn(lines[i])
  {
    var log := Capped(maxBytes, Accepted(events));
    LinesHaveNoNewline(log);
    assert AllNoNewline(Lines(log));
    hide Lines, Frames, Capped, Dispatched, NoReturn, AllNoNewline;
    StreamIsComplete(maxBytes, events);
    EveryLineIsOneMessage(Lines(log));
  }
}
