/** Tailing a live log over server-sent events, and decoding it at the client. */
module LogStream {
  import opened Text
  import opened JobLog

  function Frame(line: string): string {
    "data: " + line + "\n\n"
  }

  function Frames(lines: seq<string>): string {
    if lines == [] then "" else Frames(lines[..|lines| - 1]) + Frame(lines[|lines| - 1])
  }

  /** The part of a chunk that may go out: whole lines, or all of it once closed. */
  function Sendable(chunk: string, closed: bool): (data: string)
    ensures data <= chunk
    ensures if closed then data == chunk else EndsLine(data) && NoNewline(chunk[|data|..])
  {
    if closed then chunk else WholeLines(chunk)
  }

  /** Up to and including the last newline. */
  function WholeLines(s: string): (data: string)
    ensures data <= s && EndsLine(data) && NoNewline(s[|data|..])
  {
    if s == "" || s[|s| - 1] == '\n' then s else WholeLines(s[..|s| - 1])
  }

  lemma {:induction false} FramesAppend(a: seq<string>, b: seq<string>)
    ensures Frames(a + b) == Frames(a) + Frames(b)
    decreases |b|
  {
    if b == [] {
      assert a + b == a;
    } else {
      assert (a + b)[..|a + b| - 1] == a + b[..|b| - 1];
      FramesAppend(a, b[..|b| - 1]);
    }
  }

  // ------------------------------------------------------------------- tailing

  /** What a reader has sent: the frames of every line up to its offset, which
      is always at the start of a line unless the log is complete. */
  ghost predicate InStep(log: Log, offset: nat, wire: string) {
    && offset <= |log.bytes|
    && wire == Frames(Lines(log.bytes[..offset]))
    && (EndsLine(log.bytes[..offset]) || (log.closed && offset == |log.bytes|))
  }

  /** One look at the log: everything that may go out follows what has. */
  function AfterEmit(log: Log, offset: nat, wire: string): (nat, string)
    requires offset <= |log.bytes|
  {
    var data := Sendable(log.bytes[offset..], log.closed);
    (offset + |data|, wire + Frames(Lines(data)))
  }

  /** The tailing handler of one client; others keep writing the buffer between calls. */
  class Tail {
    const source: Buffer
    var offset: nat
    var wire: string

    constructor (source: Buffer)
      ensures this.source == source && offset == 0 && wire == ""
    {
      this.source, offset, wire := source, 0, "";
    }

    /** Send whatever is complete; report whether that was the end of the log. */
    method Emit() returns (done: bool)
      requires InStep(source.State(), offset, wire)
      modifies this
      ensures done == source.closed
      ensures InStep(source.State(), offset, wire) && offset >= old(offset)
      ensures (offset, wire) == AfterEmit(source.State(), old(offset), old(wire))
      ensures if done then offset == |source.buf| else '\n' !in source.buf[offset..]
    {
      hide Lines, Frames, Sendable;
      var chunk, _, closed := source.BytesFrom(offset);
      var data := Sendable(chunk, closed);
      if |data| > 0 {
        assert source.buf == source.buf[..offset] + chunk;
        assert chunk == data + chunk[|data|..];
        assert source.buf == source.buf[..offset] + data + chunk[|data|..];
        SentMore(source.buf, source.buf[..offset], data);
        SendFrames(Lines(data));
        offset := offset + |data|;
      }
      done := closed;
      NothingToSend();
      assert data == "" ==> wire == old(wire) + "";
    }

    method SendFrames(lines: seq<string>)
      modifies this`wire
      ensures wire == old(wire) + Frames(lines)
    {
      for i := 0 to |lines|
        invariant wire == old(wire) + Frames(lines[..i])
      {
        assert lines[..i + 1][..i] == lines[..i];
        wire := wire + Frame(lines[i]);
      }
      assert lines[..|lines|] == lines;
    }
  }

  lemma SentMore(bytes: string, sent: string, data: string)
    requires EndsLine(sent) && sent + data <= bytes
    ensures bytes[..|sent| + |data|] == sent + data
    ensures Frames(Lines(bytes[..|sent| + |data|])) == Frames(Lines(sent)) + Frames(Lines(data))
    ensures EndsLine(data) ==> EndsLine(bytes[..|sent| + |data|])
  {
    hide Lines, Frames;
    assert bytes[..|sent| + |data|] == sent + data;
    LinesAppend(sent, data);
    FramesAppend(Lines(sent), Lines(data));
  }

  lemma NothingToSend()
    ensures Frames(Lines("")) == ""
  {
  }

  // ------------------------------------------------------------ interleavings

  datatype Event = Write(p: string) | Close | Emit

  datatype Session = Session(log: Log, offset: nat, wire: string)

  /** What the writers wrote before the log was closed. */
  function Accepted(events: seq<Event>): string {
    if events == [] then ""
    else
      var front, last := events[..|events| - 1], events[|events| - 1];
      if last.Write? && Close !in front then Accepted(front) + last.p else Accepted(front)
  }

  ghost predicate SessionInv(maxBytes: int, events: seq<Event>, s: Session) {
    && Holds(maxBytes, s.log, Accepted(events))
    && (s.log.closed <==> Close in events)
    && InStep(s.log, s.offset, s.wire)
  }

  /** A buffer and one tailing reader, driven by any interleaving of calls. */
  ghost function Play(maxBytes: int, events: seq<Event>): (s: Session)
    ensures SessionInv(maxBytes, events, s)
  {
    if events == [] then
      NothingToSend();
      Session(EMPTY_LOG, 0, "")
    else
      var front, last := events[..|events| - 1], events[|events| - 1];
      var s := Play(maxBytes, front);
      assert events == front + [last];
      PlayStep(maxBytes, front, last, s);
      match last
      case Write(p) => s.(log := AfterWrite(maxBytes, s.log, p))
      case Close => s.(log := s.log.(closed := true))
      case Emit => var (offset, wire) := AfterEmit(s.log, s.offset, s.wire); s.(offset := offset, wire := wire)
  }

  lemma EmitInStep(log: Log, offset: nat, wire: string)
    requires InStep(log, offset, wire)
    ensures var (offset', wire') := AfterEmit(log, offset, wire); InStep(log, offset', wire')
    ensures log.closed ==> AfterEmit(log, offset, wire).0 == |log.bytes|
  {
    hide Lines, Frames, Sendable;
    var chunk := log.bytes[offset..];
    var data := Sendable(chunk, log.closed);
    NothingToSend();
    if |data| > 0 {
      assert log.bytes == log.bytes[..offset] + chunk;
      assert chunk == data + chunk[|data|..];
      assert log.bytes == log.bytes[..offset] + data + chunk[|data|..];
      SentMore(log.bytes, log.bytes[..offset], data);
    }
  }

  lemma GrowthKeepsStep(log: Log, log': Log, offset: nat, wire: string)
    requires InStep(log, offset, wire)
    requires log.bytes <= log'.bytes && (log.closed ==> log' == log)
    ensures InStep(log', offset, wire)
  {
    assert log'.bytes[..offset] == log.bytes[..offset];
  }

  lemma PlayStep(maxBytes: int, front: seq<Event>, last: Event, s: Session)
    requires SessionInv(maxBytes, front, s)
    ensures var s' := match last
      case Write(p) => s.(log := AfterWrite(maxBytes, s.log, p))
      case Close => s.(log := s.log.(closed := true))
      case Emit => var (offset, wire) := AfterEmit(s.log, s.offset, s.wire); s.(offset := offset, wire := wire);
      SessionInv(maxBytes, front + [last], s')
  {
    var events := front + [last];
    assert events[..|events| - 1] == front;
    match last {
      case Write(p) =>
        WritePlays(maxBytes, front, p, s);
        hide SessionInv, AfterWrite;
      case Close =>
        hide Holds, Lines, Frames;
        GrowthKeepsStep(s.log, s.log.(closed := true), s.offset, s.wire);
      case Emit =>
        hide Holds, Lines, Frames, Sendable;
        EmitInStep(s.log, s.offset, s.wire);
    }
  }

  lemma WritePlays(maxBytes: int, front: seq<Event>, p: string, s: Session)
    requires SessionInv(maxBytes, front, s)
    ensures SessionInv(maxBytes, front + [Write(p)], s.(log := AfterWrite(maxBytes, s.log, p)))
  {
    var events := front + [Write(p)];
    assert events[..|events| - 1] == front;
    hide InStep, Capped, Marker;
    if !s.log.closed {
      WriteHolds(maxBytes, s.log, Accepted(front), p);
    }
    GrowthKeepsStep(s.log, AfterWrite(maxBytes, s.log, p), s.offset, s.wire);
  }

  /** At every moment the reader has sent exactly the frames of whole leading
      lines of the log, so no line is ever split; and the look that finds the log
      closed completes it: the frames of all lines of what was accepted, capped. */
  lemma StreamIsComplete(maxBytes: int, events: seq<Event>)
    ensures var s := Play(maxBytes, events);
      && s.offset <= |s.log.bytes| && s.wire == Frames(Lines(s.log.bytes[..s.offset]))
      && s.log.bytes == Capped(maxBytes, Accepted(events))
      && (!s.log.closed ==> EndsLine(s.log.bytes[..s.offset]))
      && (events != [] && events[|events| - 1].Emit? && Close in events ==>
            s.wire == Frames(Lines(Capped(maxBytes, Accepted(events)))))
  {
    hide Lines, Frames, Capped, Sendable;
    var s := Play(maxBytes, events);
    if events != [] && events[|events| - 1].Emit? && Close in events {
      var front := events[..|events| - 1];
      assert events == front + [Emit];
      var before := Play(maxBytes, front);
      EmitInStep(before.log, before.offset, before.wire);
      assert s.log.bytes[..s.offset] == s.log.bytes;
    }
  }

  // ------------------------------------------------------------------ decoding

  const MAX_TOKEN: nat := 0x10_0000

  function CutSpace(s: string): string {
    if s != "" && s[0] == ' ' then s[1..] else s
  }

  /** What the client writes for one scanned line; other fields are skipped. */
  function ClientLine(line: string): string {
    if "data:" <= line then CutSpace(line[5..]) + "\n" else ""
  }

  /** The client's output, and whether it got through without an overlong line. */
  function Decode(lines: seq<string>): (bool, string) {
    if lines == [] then (true, "")
    else
      var (ok, text) := Decode(lines[..|lines| - 1]);
      var last := lines[|lines| - 1];
      if !ok || |last| + 1 > MAX_TOKEN then (false, text) else (true, text + ClientLine(DropCR(last)))
  }

  /** StreamLogs: scan the body line by line until the end or an overlong line. */
  method StreamLogs(body: string) returns (ok: bool, written: string)
    ensures (ok, written) == Decode(Lines(body))
  {
    var lines := Lines(body);
    ok, written := true, "";
    var k := 0;
    while k < |lines| && ok
      invariant 0 <= k <= |lines| && (ok, written) == Decode(lines[..k])
    {
      assert lines[..k + 1][..k] == lines[..k];
      if |lines[k]| + 1 > MAX_TOKEN {
        ok := false;
      } else {
        var line := DropCR(lines[k]);
        if "data:" <= line {
          written := written + (CutSpace(line[5..]) + "\n");
        } else {
          assert written + "" == written;
        }
      }
      k := k + 1;
    }
    FailureIsFinal(lines, k);
    assert lines[..|lines|] == lines;
  }

  lemma {:induction false} FailureIsFinal(lines: seq<string>, k: nat)
    requires k <= |lines|
    ensures !Decode(lines[..k]).0 ==> Decode(lines) == Decode(lines[..k])
    decreases |lines|
  {
    if k < |lines| {
      assert lines[..|lines| - 1][..k] == lines[..k];
      FailureIsFinal(lines[..|lines| - 1], k);
    } else {
      assert lines[..k] == lines;
    }
  }

  /** The scanned lines of a run of frames: each line's field, then a blank. */
  function Fields(lines: seq<string>): seq<string> {
    if lines == [] then [] else Fields(lines[..|lines| - 1]) + ["data: " + lines[|lines| - 1], ""]
  }

  ghost predicate AllNoNewline(lines: seq<string>) {
    forall i | 0 <= i < |lines| :: NoNewline(lines[i])
  }

  lemma {:induction false} LinesOfFrames(lines: seq<string>)
    requires AllNoNewline(lines)
    ensures Lines(Frames(lines)) == Fields(lines) && EndsLine(Frames(lines))
    decreases |lines|
  {
    hide Split, Push;
    if lines == [] {
      NothingToSend();
      assert Lines("") == [] by { SplitSingle(""); }
    } else {
      var front, last := lines[..|lines| - 1], lines[|lines| - 1];
      var field := "data: " + last;
      LinesOfFrames(front);
      LinesOfLine(field);
      LinesOfLine("");
      hide Lines;
      LinesAppend(field + "\n", "" + "\n");
      LinesAppend(Frames(front), Frame(last));
      assert Frame(last) == (field + "\n") + ("" + "\n");
    }
  }

  /** Short enough for the scanner once it is framed, and not ending in a return. */
  predicate Clean(line: string) {
    |line| + 7 <= MAX_TOKEN && (line != "" ==> line[|line| - 1] != '\r')
  }

  lemma DecodeOneMore(lines: seq<string>, line: string)
    ensures var (ok, text) := Decode(lines);
      Decode(lines + [line])
      == if !ok || |line| + 1 > MAX_TOKEN then (false, text) else (true, text + ClientLine(DropCR(line)))
  {
    assert (lines + [line])[..|lines|] == lines;
  }

  lemma FieldLine(line: string)
    ensures ClientLine(DropCR("data: " + line)) == DropCR(line) + "\n"
  {
    var field := "data: " + line;
    assert line != "" ==> field[|field| - 1] == line[|line| - 1];
    assert DropCR(field) == "data: " + DropCR(line);
    assert DropCR(field)[5..] == " " + DropCR(line);
    assert (" " + DropCR(line))[1..] == DropCR(line);
  }

  lemma DecodeFrameStep(fields: seq<string>, line: string)
    ensures var (ok, text) := Decode(fields);
      Decode(fields + ["data: " + line, ""])
      == if ok && |line| + 7 <= MAX_TOKEN then (true, text + DropCR(line) + "\n") else (false, text)
  {
    var field := "data: " + line;
    DecodeOneMore(fields, field);
    DecodeOneMore(fields + [field], "");
    FieldLine(line);
    assert fields + ["data: " + line, ""] == fields + [field] + [""];
    var text := Decode(fields).1;
    assert ClientLine(DropCR("")) == "";
    hide Decode, DropCR;
    assert text + (DropCR(line) + "\n") + "" == text + DropCR(line) + "\n";
  }

  lemma ConcatEqual(a: string, b: string, x: string, y: string)
    requires |a| <= |b| && |x| <= |y|
    ensures a + x + "\n" == b + y + "\n" <==> a == b && x == y
  {
    if a + x + "\n" == b + y + "\n" {
      assert |a| == |b|;
      assert a == (a + x + "\n")[..|a|] && b == (b + y + "\n")[..|a|];
      assert x == (a + x + "\n")[|a|..|a| + |x|] && y == (b + y + "\n")[|a|..|a| + |x|];
    }
  }

  lemma FieldsOfMore(front: seq<string>, last: string)
    ensures Fields(front + [last]) == Fields(front) + ["data: " + last, ""]
  {
    assert (front + [last])[..|front|] == front;
  }

  /** One more line: the copy stays equal exactly when this line is clean, too. */
  lemma DecodeOneMoreLine(front: seq<string>, last: string)
    requires var (ok, text) := Decode(Fields(front)); |text| <= |Unlines(front)|
    ensures var (ok, text) := Decode(Fields(front));
      var (ok', text') := Decode(Fields(front + [last]));
      && |text'| <= |Unlines(front + [last])|
      && ((ok' && text' == Unlines(front + [last])) <==> (ok && text == Unlines(front)) && Clean(last))
  {
    FieldsOfMore(front, last);
    DecodeFrameStep(Fields(front), last);
    ConcatEqual(Decode(Fields(front)).1, Unlines(front), DropCR(last), last);
    hide Decode, Fields;
    assert (front + [last])[..|front|] == front;
    assert Unlines(front + [last]) == Unlines(front) + last + "\n";
    hide Unlines;
  }

  /** The client's copy: never longer than the log, and equal to it exactly when
      every line is clean. */
  lemma {:induction false} DecodeFields(lines: seq<string>)
    ensures var (ok, text) := Decode(Fields(lines));
      && |text| <= |Unlines(lines)|
      && ((ok && text == Unlines(lines)) <==> forall i | 0 <= i < |lines| :: Clean(lines[i]))
    decreases |lines|
  {
    if lines != [] {
      var front, last := lines[..|lines| - 1], lines[|lines| - 1];
      assert lines == front + [last];
      hide Decode, Fields, Unlines, Clean;
      DecodeFields(front);
      DecodeOneMoreLine(front, last);
      assert forall i | 0 <= i < |front| :: lines[i] == front[i];
    }
  }

  /** The whole way: the client's output is the log, every line once, in order and
      newline-terminated, if and only if each line is under the scanner's limit
      and does not end in a carriage return. */
  lemma ClientReceivesLog(bytes: string)
    ensures var (ok, text) := Decode(Lines(Frames(Lines(bytes))));
      (ok && text == Unlines(Lines(bytes))) <==> forall i | 0 <= i < |Lines(bytes)| :: Clean(Lines(bytes)[i])
  {
    LinesHaveNoNewline(bytes);
    var lines := Lines(bytes);
    assert AllNoNewline(lines);
    hide Lines;
    LinesOfFrames(lines);
    DecodeFields(lines);
  }

  /** Over any interleaving that closes the log and looks at it once more. */
  lemma LogReachesClient(maxBytes: int, events: seq<Event>)
    requires events != [] && events[|events| - 1].Emit? && Close in events
    ensures var log := Capped(maxBytes, Accepted(events));
      var (ok, text) := Decode(Lines(Play(maxBytes, events).wire));
      (ok && text == Unlines(Lines(log))) <==> forall i | 0 <= i < |Lines(log)| :: Clean(Lines(log)[i])
  {
    hide Lines, Frames, Capped, Decode;
    StreamIsComplete(maxBytes, events);
    ClientReceivesLog(Capped(maxBytes, Accepted(events)));
  }
}
