/** Text helpers shared by the log stream and the package metadata format. */
module Text {
  import opened Collections

  /** The digits of `n` in base ten, most significant first. */
  function Digits(n: nat): (s: string)
    ensures |s| > 0 && forall c | c in s :: '0' <= c <= '9'
  {
    var last := ['0' + (n % 10) as char];
    if n < 10 then last else Digits(n / 10) + last
  }

  /** Split at the first `sep`. */
  function CutAt(s: string, sep: char): Option<(string, string)> {
    if s == "" then None
    else if s[0] == sep then Some(("", s[1..]))
    else
      var rest := CutAt(s[1..], sep);
      if rest.None? then None else Some(([s[0]] + rest.value.0, rest.value.1))
  }

  lemma {:induction false} CutFirst(a: string, sep: char, b: string)
    requires sep !in a
    ensures CutAt(a + [sep] + b, sep) == Some((a, b))
  {
    var s := a + [sep] + b;
    if a == "" {
      assert s[1..] == b;
    } else {
      assert s[0] == a[0] && a[0] in a;
      assert s[1..] == a[1..] + [sep] + b;
      CutFirst(a[1..], sep, b);
      assert [a[0]] + a[1..] == a;
    }
  }

  lemma {:induction false} CutKeeps(s: string, sep: char)
    ensures CutAt(s, sep).Some? ==> sep !in CutAt(s, sep).value.0
    ensures CutAt(s, sep).Some? ==> s == CutAt(s, sep).value.0 + [sep] + CutAt(s, sep).value.1
  {
    if s != "" && s[0] != sep {
      CutKeeps(s[1..], sep);
      assert s == [s[0]] + s[1..];
    }
  }

  /** Read one more character into the last of some pieces. */
  function Push(pieces: seq<string>, c: char): (r: seq<string>)
    requires |pieces| > 0
    ensures |r| > 0
  {
    if c == '\n' then pieces + [""]
    else pieces[..|pieces| - 1] + [pieces[|pieces| - 1] + [c]]
  }

  /** Split at every newline; the pieces are one more than the newlines. */
  function Split(s: string): (pieces: seq<string>)
    ensures |pieces| > 0
    decreases |s|
  {
    if s == "" then [""] else Push(Split(s[..|s| - 1]), s[|s| - 1])
  }

  /** The lines of a text: its pieces without the empty one after a final newline. */
  function Lines(s: string): seq<string> {
    var pieces := Split(s);
    if pieces[|pieces| - 1] == "" then pieces[..|pieces| - 1] else pieces
  }

  /** The line scanner drops one carriage return before a newline. */
  function DropCR(line: string): string {
    if line != "" && line[|line| - 1] == '\r' then line[..|line| - 1] else line
  }

  /** Each line closed by a newline. */
  function Unlines(lines: seq<string>): string {
    if lines == [] then "" else Unlines(lines[..|lines| - 1]) + lines[|lines| - 1] + "\n"
  }

  predicate NoNewline(s: string) {
    '\n' !in s
  }

  ghost predicate EndsLine(s: string) {
    s == "" || s[|s| - 1] == '\n'
  }

  lemma PushBehind(a: seq<string>, b: seq<string>, c: char)
    requires |b| > 0
    ensures Push(a + b, c) == a + Push(b, c)
  {
  }

  /** After whole lines, the pieces of the remainder simply follow. */
  lemma {:induction false} SplitAppend(a: string, b: string)
    requires EndsLine(a) && a != ""
    ensures Split(a + b) == Split(a)[..|Split(a)| - 1] + Split(b)
    decreases |b|
  {
    if b == "" {
      assert a + b == a && Split(a)[|Split(a)| - 1] == "";
      assert Split(a) == Split(a)[..|Split(a)| - 1] + [""];
    } else {
      var front, c := b[..|b| - 1], b[|b| - 1];
      assert (a + b)[..|a + b| - 1] == a + front;
      SplitAppend(a, front);
      PushBehind(Split(a)[..|Split(a)| - 1], Split(front), c);
      hide Push;
      assert Split(a + b) == Push(Split(a + front), c);
    }
  }

  lemma LinesAppend(a: string, b: string)
    requires EndsLine(a)
    ensures Lines(a + b) == Lines(a) + Lines(b)
  {
    if a == "" {
      assert a + b == b;
      assert Lines(a) + Lines(b) == Lines(b);
    } else {
      SplitAppend(a, b);
    }
  }

  lemma {:induction false} SplitSingle(s: string)
    requires NoNewline(s)
    ensures Split(s) == [s]
    decreases |s|
  {
    if s != "" {
      var front := s[..|s| - 1];
      assert forall c | c in front :: c in s;
      SplitSingle(front);
      assert s == front + [s[|s| - 1]];
    }
  }

  /** A newline-free line with its newline is one line. */
  lemma LinesOfLine(s: string)
    requires NoNewline(s)
    ensures Lines(s + "\n") == [s]
  {
    SplitSingle(s);
    assert (s + "\n")[..|s|] == s;
    assert Split(s + "\n") == [s] + [""];
  }

  lemma {:induction false} LinesHaveNoNewline(s: string)
    ensures forall i | 0 <= i < |Split(s)| :: NoNewline(Split(s)[i])
    decreases |s|
  {
    if s != "" {
      LinesHaveNoNewline(s[..|s| - 1]);
    }
  }

  lemma {:induction false} UnlinesAppend(a: seq<string>, b: seq<string>)
    ensures Unlines(a + b) == Unlines(a) + Unlines(b)
    decreases |b|
  {
    if b == [] {
      assert a + b == a;
    } else {
      assert (a + b)[..|a + b| - 1] == a + b[..|b| - 1];
      UnlinesAppend(a, b[..|b| - 1]);
    }
  }

  lemma {:induction false} UnlinesEndsLine(lines: seq<string>)
    ensures EndsLine(Unlines(lines))
  {
  }

  /** Writing lines out and splitting them again gives them back. */
  lemma {:induction false} LinesOfUnlines(lines: seq<string>)
    requires forall i | 0 <= i < |lines| :: NoNewline(lines[i])
    ensures Lines(Unlines(lines)) == lines
    decreases |lines|
  {
    if lines != [] {
      var front, last := lines[..|lines| - 1], lines[|lines| - 1];
      hide Lines, Split, Push;
      assert lines == front + [last];
      var text := Unlines(front);
      assert Unlines(lines) == text + (last + "\n");
      LinesOfUnlines(front);
      UnlinesEndsLine(front);
      LinesOfLine(last);
      LinesAppend(text, last + "\n");
    }
  }
}
