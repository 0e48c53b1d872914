/** What one line of a .PKGINFO text does to the record, whatever stands before and behind it. */
module PkgInfoLaws {
  import opened Collections
  import opened Text
  import opened PkgInfo
  import opened PkgInfoRoundTrip

  predicate Blank(s: string) {
    forall c | c in s :: IsSpace(c)
  }

  /** Text that starts and ends with a character to keep. */
  predicate Solid(s: string) {
    s != "" && !IsSpace(s[0]) && !IsSpace(s[|s| - 1])
  }

  // ----------------------------------------------------------------------- trimming

  lemma {:induction false} TrimLeftBlank(blank: string, s: string)
    requires Blank(blank)
    ensures TrimLeft(blank + s) == TrimLeft(s)
  {
    hide IsSpace;
    if blank == "" {
      assert blank + s == s;
    } else {
      assert IsSpace(blank[0]) && (blank + s)[1..] == blank[1..] + s;
      assert forall c | c in blank[1..] :: c in blank;
      TrimLeftBlank(blank[1..], s);
    }
  }

  lemma {:induction false} TrimRightBlank(s: string, blank: string)
    requires Blank(blank)
    ensures TrimRight(s + blank) == TrimRight(s)
    decreases |blank|
  {
    hide IsSpace;
    if blank == "" {
      assert s + blank == s;
    } else {
      var front := blank[..|blank| - 1];
      assert IsSpace(blank[|blank| - 1]) && (s + blank)[..|s + blank| - 1] == s + front;
      TrimRightBlank(s, front);
    }
  }

  lemma TrimAround(left: string, core: string, right: string)
    requires Blank(left) && Blank(right) && Solid(core)
    ensures Trim(left + core + right) == core
  {
    hide IsSpace;
    assert left + core + right == left + (core + right);
    TrimLeftBlank(left, core + right);
    assert (core + right)[0] == core[0];
    TrimRightBlank(core, right);
  }

  lemma TrimBlank(blank: string)
    requires Blank(blank)
    ensures Trim(blank) == ""
  {
    TrimLeftBlank(blank, "");
    assert blank + "" == blank;
  }

  /** The carriage return the scanner drops would have been trimmed. */
  lemma TrimDropsCR(line: string)
    ensures Trim(DropCR(line)) == Trim(line)
  {
    if line != "" && line[|line| - 1] == '\r' {
      var front := line[..|line| - 1];
      assert line == front + "\r" && IsSpace('\r');
      TrimLeftOnto(front, "\r");
      if TrimLeft(front) == "" {
        TrimBlank(line[..]);
      } else {
        TrimRightBlank(TrimLeft(front), "\r");
      }
    }
  }

  /** Trimming on the left stops at the first character to keep. */
  lemma {:induction false} TrimLeftOnto(s: string, more: string)
    ensures TrimLeft(s) != "" ==> TrimLeft(s + more) == TrimLeft(s) + more
    ensures TrimLeft(s) == "" ==> Blank(s) && TrimLeft(s + more) == TrimLeft(more)
  {
    hide IsSpace;
    if s == "" {
      assert s + more == more;
    } else if IsSpace(s[0]) {
      assert (s + more)[1..] == s[1..] + more;
      TrimLeftOnto(s[1..], more);
      assert s == [s[0]] + s[1..];
    } else {
      assert (s + more)[0] == s[0];
    }
  }

  // ----------------------------------------------------------------------- one line

  predicate Fits(line: string) {
    NoNewline(line) && ByteLength(line) < MAX_LINE
  }

  lemma BlankLine(line: string)
    requires Blank(line)
    ensures ParseLine(DropCR(line)) == Skip
  {
    TrimDropsCR(line);
    TrimBlank(line);
    hide Trim, DropCR;
  }

  /** From its first character to keep on, a line is only trimmed on the right. */
  lemma TrimFrom(left: string, c: char, rest: string)
    requires Blank(left) && !IsSpace(c)
    ensures Trim(left + [c] + rest) == TrimRight([c] + rest) && TrimRight([c] + rest) != ""
    ensures TrimRight([c] + rest)[0] == c && TrimRight([c] + rest) <= [c] + rest
  {
    assert left + [c] + rest == left + ([c] + rest);
    TrimLeftBlank(left, [c] + rest);
    TrimRightFrom(c, rest);
    hide IsSpace;
  }

  lemma {:induction false} TrimRightFrom(c: char, rest: string)
    requires !IsSpace(c)
    ensures TrimRight([c] + rest) != "" && TrimRight([c] + rest)[0] == c && TrimRight([c] + rest) <= [c] + rest
    decreases |rest|
  {
    hide IsSpace;
    if rest != "" && IsSpace(rest[|rest| - 1]) {
      assert ([c] + rest)[..|rest|] == [c] + rest[..|rest| - 1];
      TrimRightFrom(c, rest[..|rest| - 1]);
    }
  }

  lemma CommentLine(left: string, rest: string)
    requires Blank(left)
    ensures ParseLine(DropCR(left + "#" + rest)) == Skip
  {
    TrimDropsCR(left + "#" + rest);
    assert !IsSpace('#');
    TrimFrom(left, '#', rest);
    hide Trim, DropCR, TrimRight, IsSpace;
  }

  lemma NoEqualsLine(left: string, c: char, rest: string)
    requires Blank(left) && !IsSpace(c) && c != '#' && c != '=' && '=' !in rest
    ensures ParseLine(DropCR(left + [c] + rest)) == Bad
  {
    var line := left + [c] + rest;
    TrimDropsCR(line);
    TrimFrom(left, c, rest);
    NotInPrefix(Trim(line), [c] + rest);
    CutKeeps(Trim(line), '=');
    hide Trim, DropCR, TrimRight, IsSpace;
  }

  lemma NotInPrefix(s: string, t: string)
    requires s <= t && '=' !in t
    ensures '=' !in s
  {
    forall i | 0 <= i < |s| ensures s[i] != '=' {
      assert s[i] == t[i];
    }
  }

  /** Trimmed, a line with a key is the key, the sign and the value. */
  lemma TrimPair(left: string, word: string, right: string, before: string, value: string, after: string)
    requires Blank(left) && Solid(word) && Blank(after) && (value == "" ==> before == "") && (value != "" ==> Solid(value))
    ensures Trim(left + word + right + "=" + before + value + after) == word + right + "=" + before + value
  {
    var core := word + right + "=" + before + value;
    assert left + word + right + "=" + before + value + after == left + core + after;
    assert core[0] == word[0];
    assert !IsSpace('=');
    assert core[|core| - 1] == if value == "" then '=' else value[|value| - 1];
    hide IsSpace;
    TrimAround(left, core, after);
  }

  lemma PairLine(left: string, word: string, right: string, before: string, value: string, after: string)
    requires Blank(left) && Solid(word) && Blank(right) && Blank(before) && Solid(value) && Blank(after)
    requires word[0] != '#' && '=' !in word
    ensures ParseLine(DropCR(left + word + right + "=" + before + value + after)) == Pair((word, value))
  {
    var line := left + word + right + "=" + before + value + after;
    TrimDropsCR(line);
    TrimPair(left, word, right, before, value, after);
    assert word + right + "=" + before + value == (word + right) + "=" + (before + value);
    assert '=' !in right by {
      assert !IsSpace('=');
    }
    CutFirst(word + right, '=', before + value);
    TrimAround("", word, right);
    assert "" + word + right == word + right;
    TrimAround(before, value, "");
    assert before + value + "" == before + value;
    hide Trim, DropCR, IsSpace;
  }

  lemma EmptyValueLine(left: string, word: string, right: string, after: string)
    requires Blank(left) && Solid(word) && '=' !in word && Blank(right) && Blank(after)
    ensures ParseLine(DropCR(left + word + right + "=" + after)) == Skip
  {
    var line := left + word + right + "=" + after;
    assert line == left + word + right + "=" + "" + "" + after;
    TrimDropsCR(line);
    TrimPair(left, word, right, "", "", after);
    assert word + right + "=" + "" + "" == (word + right) + "=" + "";
    assert '=' !in right by {
      assert !IsSpace('=');
    }
    CutFirst(word + right, '=', "");
    TrimAround("", word, right);
    assert "" + word + right == word + right;
    TrimBlank("");
    hide Trim, DropCR, IsSpace;
  }

  lemma EmptyKeyLine(left: string, rest: string)
    requires Blank(left)
    ensures ParseLine(DropCR(left + "=" + rest)) == Bad
  {
    var line := left + "=" + rest;
    TrimDropsCR(line);
    assert !IsSpace('=');
    TrimFrom(left, '=', rest);
    TrimBlank("");
    hide Trim, DropCR, TrimRight, IsSpace;
    assert CutAt(Trim(line), '=').value.0 == "";
  }

  // ----------------------------------------------------------------- one line in a text

  /** Both parts must parse. */
  function Both(a: Option<seq<KeyValue>>, b: Option<seq<KeyValue>>): Option<seq<KeyValue>> {
    if a.None? || b.None? then None else Some(a.value + b.value)
  }

  lemma {:induction false} ParseLinesConcat(a: seq<string>, b: seq<string>)
    ensures ParseLines(a + b) == Both(ParseLines(a), ParseLines(b))
    decreases |b|
  {
    hide ParseLine, DropCR;
    if b == [] {
      assert a + b == a;
      assert ParseLines(a).Some? ==> ParseLines(a).value + [] == ParseLines(a).value;
    } else {
      assert (a + b)[..|a + b| - 1] == a + b[..|b| - 1];
      ParseLinesConcat(a, b[..|b| - 1]);
      var x, y := ParseLines(a), ParseLines(b[..|b| - 1]);
      match ParseLine(DropCR(b[|b| - 1]))
      case Pair(kv) =>
        if x.Some? && y.Some? {
          assert x.value + (y.value + [kv]) == x.value + y.value + [kv];
        }
      case _ =>
    }
  }

  /** Assign more pairs, unless an earlier one has failed. */
  function Continue(p: Option<Info>, kvs: seq<KeyValue>): Option<Info> {
    if p.None? then None else AssignAll(p.value, kvs)
  }

  lemma {:induction false} AssignAllConcat(p: Info, a: seq<KeyValue>, b: seq<KeyValue>)
    ensures AssignAll(p, a + b) == Continue(AssignAll(p, a), b)
    decreases |b|
  {
    hide Assign;
    if b == [] {
      assert a + b == a;
    } else {
      assert (a + b)[..|a + b| - 1] == a + b[..|b| - 1];
      AssignAllConcat(p, a, b[..|b| - 1]);
    }
  }

  lemma LinesAround(a: string, line: string, b: string)
    requires EndsLine(a) && NoNewline(line)
    ensures Lines(a + line + "\n" + b) == Lines(a) + [line] + Lines(b) && Lines(a + b) == Lines(a) + Lines(b)
  {
    hide Lines;
    LinesOfLine(line);
    LinesAppend(a, line + "\n");
    LinesAppend(a, b);
    assert a + line + "\n" == a + (line + "\n");
    LinesAppend(a + line + "\n", b);
  }

  lemma ScannableAround(a: seq<string>, line: string, b: seq<string>)
    ensures Scannable(a + [line] + b) <==> Scannable(a + b) && ByteLength(line) < MAX_LINE
  {
    hide ByteLength;
    var all := a + [line] + b;
    assert all[|a|] == line;
    assert forall i | 0 <= i < |a| :: all[i] == a[i] == (a + b)[i];
    assert forall i | 0 <= i < |b| :: all[|a| + 1 + i] == b[i] == (a + b)[|a| + i];
    if Scannable(all) {
      forall i | 0 <= i < |a + b| ensures ByteLength((a + b)[i]) + 1 <= MAX_LINE {
        assert (a + b)[i] == if i < |a| then all[i] else all[i + 1];
      }
    }
  }

  /** The pairs of a text in terms of one of its lines. */
  lemma PairsAround(x: seq<string>, line: string, y: seq<string>)
    ensures ParseLines(x + [line] + y)
         == Both(Both(ParseLines(x), Include([], ParseLine(DropCR(line)))), ParseLines(y))
    ensures ParseLines(x + y) == Both(ParseLines(x), ParseLines(y))
  {
    ParseLinesConcat(x + [line], y);
    ParseLinesConcat(x, [line]);
    ParseLinesConcat(x, y);
    assert [line][..0] == [];
    assert ParseLines([line]) == Include([], ParseLine(DropCR(line)));
    hide ParseLines, ParseLine, DropCR;
  }

  /** What a line is for the text around it. */
  lemma LineInText(a: string, line: string, b: string)
    requires EndsLine(a) && NoNewline(line)
    ensures ByteLength(line) >= MAX_LINE || ParseLine(DropCR(line)).Bad? ==> Parse(a + line + "\n" + b).None?
    ensures ByteLength(line) < MAX_LINE && ParseLine(DropCR(line)).Skip? ==> Parse(a + line + "\n" + b) == Parse(a + b)
    ensures ByteLength(line) < MAX_LINE && ParseLine(DropCR(line)).Pair? && KeyNamed(ParseLine(DropCR(line)).kv.0).None? ==>
      Parse(a + line + "\n" + b) == Parse(a + b)
  {
    LinesAround(a, line, b);
    var x, y := Lines(a), Lines(b);
    ScannableAround(x, line, y);
    PairsAround(x, line, y);
    LinePairs(ParseLines(x), ParseLine(DropCR(line)), ParseLines(y));
    hide Lines, Scannable, ByteLength, ParseLine, DropCR, ParseLines, AssignAll, KeyNamed, Both, Include, Continue;
  }

  /** One line's result among the pairs of the others. */
  lemma LinePairs(x: Option<seq<KeyValue>>, one: LineResult, y: Option<seq<KeyValue>>)
    ensures one.Bad? ==> Both(Both(x, Include([], one)), y).None?
    ensures one.Skip? ==> Both(Both(x, Include([], one)), y) == Both(x, y)
    ensures one.Pair? && KeyNamed(one.kv.0).None? ==>
      (Both(Both(x, Include([], one)), y).Some? <==> Both(x, y).Some?)
      && (Both(x, y).Some? ==>
            AssignAll(NEW, Both(Both(x, Include([], one)), y).value) == AssignAll(NEW, Both(x, y).value))
  {
    if x.Some? {
      assert x.value + [] == x.value;
    }
    if one.Pair? && x.Some? && y.Some? {
      assert [] + [one.kv] == [one.kv];
      if KeyNamed(one.kv.0).None? {
        UnknownPair(x.value, one.kv, y.value);
      }
    }
    hide KeyNamed, AssignAll;
  }

  lemma UnknownPair(a: seq<KeyValue>, kv: KeyValue, b: seq<KeyValue>)
    requires KeyNamed(kv.0).None?
    ensures AssignAll(NEW, a + [kv] + b) == AssignAll(NEW, a + b)
  {
    hide NEW;
    AssignAllConcat(NEW, a + [kv], b);
    AssignAllConcat(NEW, a, b);
    assert (a + [kv])[..|a|] == a;
    hide KeyNamed;
  }

  // --------------------------------------------------------------------------- the laws

  /** A line whose first character to keep is '#' is a comment. */
  lemma CommentIsIgnored(a: string, left: string, rest: string, b: string)
    requires EndsLine(a) && Blank(left) && Fits(left + "#" + rest)
    ensures Parse(a + left + "#" + rest + "\n" + b) == Parse(a + b)
  {
    hide Parse, ParseLine, DropCR, ByteLength;
    CommentLine(left, rest);
    LineInText(a, left + "#" + rest, b);
    assert a + left + "#" + rest + "\n" + b == a + (left + "#" + rest) + "\n" + b;
  }

  lemma BlankIsIgnored(a: string, line: string, b: string)
    requires EndsLine(a) && Blank(line) && Fits(line)
    ensures Parse(a + line + "\n" + b) == Parse(a + b)
  {
    hide Parse, ParseLine, DropCR, ByteLength;
    BlankLine(line);
    LineInText(a, line, b);
  }

  /** A field without a value is an absent field, whatever its key. */
  lemma EmptyValueIsIgnored(a: string, left: string, word: string, right: string, after: string, b: string)
    requires EndsLine(a) && Blank(left) && Solid(word) && '=' !in word && Blank(right) && Blank(after)
    requires Fits(left + word + right + "=" + after)
    ensures Parse(a + (left + word + right + "=" + after) + "\n" + b) == Parse(a + b)
  {
    hide Parse, ParseLine, DropCR, ByteLength;
    EmptyValueLine(left, word, right, after);
    LineInText(a, left + word + right + "=" + after, b);
  }

  /** A field with a key the format does not have is skipped. */
  lemma UnknownKeyIsIgnored(a: string, left: string, word: string, right: string, before: string, value: string,
                            after: string, b: string)
    requires EndsLine(a) && Blank(left) && Solid(word) && '=' !in word && Blank(right)
    requires Blank(before) && Solid(value) && Blank(after)
    requires forall key :: word != Name(key)
    requires Fits(left + word + right + "=" + before + value + after)
    ensures Parse(a + (left + word + right + "=" + before + value + after) + "\n" + b) == Parse(a + b)
  {
    hide Parse, ParseLine, DropCR, ByteLength;
    var line := left + word + right + "=" + before + value + after;
    if word[0] == '#' {
      var rest := word[1..] + right + "=" + before + value + after;
      assert line == left + "#" + rest;
      CommentLine(left, rest);
    } else {
      PairLine(left, word, right, before, value, after);
      NotAKey(word);
    }
    LineInText(a, line, b);
    hide KeyNamed, Name;
  }

  lemma NotAKey(word: string)
    requires forall key :: word != Name(key)
    ensures KeyNamed(word).None?
  {
    assert word != Name(PkgName) == "pkgname";
    assert word != Name(PkgBase) == "pkgbase";
    assert word != Name(PkgVer) == "pkgver";
    assert word != Name(PkgDesc) == "pkgdesc";
    assert word != Name(Url) == "url";
    assert word != Name(BuildDate) == "builddate";
    assert word != Name(Packager) == "packager";
    assert word != Name(Size) == "size";
    assert word != Name(Arch) == "arch";
    assert word != Name(License) == "license";
    assert word != Name(Replaces) == "replaces";
    assert word != Name(Group) == "group";
    assert word != Name(Conflict) == "conflict";
    assert word != Name(Provides) == "provides";
    assert word != Name(Backup) == "backup";
    assert word != Name(Depend) == "depend";
    assert word != Name(OptDepend) == "optdepend";
    assert word != Name(MakeDepend) == "makedepend";
    assert word != Name(CheckDepend) == "checkdepend";
    assert word != Name(XData) == "xdata";
    hide Name;
  }

  /** A line that is neither blank nor a comment needs a sign. */
  lemma NoEqualsFails(a: string, left: string, c: char, rest: string, b: string)
    requires EndsLine(a) && Blank(left) && !IsSpace(c) && c != '#' && '=' !in [c] + rest
    requires NoNewline(left + [c] + rest)
    ensures Parse(a + (left + [c] + rest) + "\n" + b).None?
  {
    hide Parse, ParseLine, DropCR, ByteLength;
    assert c in [c] + rest && (forall d | d in rest :: d in [c] + rest);
    NoEqualsLine(left, c, rest);
    LineInText(a, left + [c] + rest, b);
  }

  /** And a key before it. */
  lemma EmptyKeyFails(a: string, left: string, rest: string, b: string)
    requires EndsLine(a) && Blank(left) && NoNewline(left + "=" + rest)
    ensures Parse(a + (left + "=" + rest) + "\n" + b).None?
  {
    hide Parse, ParseLine, DropCR, ByteLength;
    EmptyKeyLine(left, rest);
    LineInText(a, left + "=" + rest, b);
  }

  /** A line that does not fit the scanner's buffer makes the whole text fail. */
  lemma LongLineFails(a: string, line: string, b: string)
    requires EndsLine(a) && NoNewline(line) && ByteLength(line) >= MAX_LINE
    ensures Parse(a + line + "\n" + b).None?
  {
    hide Parse, ParseLine, DropCR, ByteLength;
    LineInText(a, line, b);
  }

  // ---------------------------------------------------------------------- known fields

  /** One more field line on a text that parses. */
  lemma FieldIsAssigned(a: string, left: string, key: Key, right: string, before: string, value: string, after: string)
    requires EndsLine(a) && Parse(a).Some?
    requires Blank(left) && Blank(right) && Blank(before) && Solid(value) && Blank(after)
    requires Fits(left + Name(key) + right + "=" + before + value + after)
    ensures Parse(a + (left + Name(key) + right + "=" + before + value + after) + "\n") == AssignKey(Parse(a).value, key, value)
  {
    var line := left + Name(key) + right + "=" + before + value + after;
    NameIsCarried(key);
    KeyOfName(key);
    PairLine(left, Name(key), right, before, value, after);
    LinesAround(a, line, "");
    assert Lines("") == [];
    var x := Lines(a);
    ScannableAround(x, line, []);
    assert x + [line] + [] == x + [line] && x + [] == x;
    assert a + line + "\n" + "" == a + line + "\n";
    ParseLinesConcat(x, [line]);
    assert [line][..0] == [];
    hide Lines, Scannable, ByteLength, DropCR, Trim, Name, KeyNamed, AssignKey, Blank, IsSpace, ParseLine;
    AssignAllConcat(NEW, ParseLines(x).value, [(Name(key), value)]);
    assert [(Name(key), value)][..0] == [];
    hide NEW, ParseLines;
  }

  /** A text field takes the last value given. */
  lemma ScalarIsSet(a: string, left: string, key: Key, right: string, before: string, value: string, after: string)
    requires EndsLine(a) && Parse(a).Some? && IsScalar(key)
    requires Blank(left) && Blank(right) && Blank(before) && Solid(value) && Blank(after)
    requires Fits(left + Name(key) + right + "=" + before + value + after)
    ensures var p := Parse(a).value;
      Parse(a + (left + Name(key) + right + "=" + before + value + after) + "\n")
      == Some(p.(scalars := p.scalars[key := value]))
  {
    hide Parse, Name;
    FieldIsAssigned(a, left, key, right, before, value, after);
  }

  /** A list field takes every value given, in order. */
  lemma ListGrows(a: string, left: string, key: Key, right: string, before: string, value: string, after: string)
    requires EndsLine(a) && Parse(a).Some? && IsList(key)
    requires Blank(left) && Blank(right) && Blank(before) && Solid(value) && Blank(after)
    requires Fits(left + Name(key) + right + "=" + before + value + after)
    ensures var p := Parse(a).value;
      Parse(a + (left + Name(key) + right + "=" + before + value + after) + "\n")
      == Some(p.(lists := p.lists[key := (if key in p.lists then p.lists[key] else []) + [value]]))
  {
    hide Parse, Name;
    FieldIsAssigned(a, left, key, right, before, value, after);
  }

  /** A number in decimal, as it is printed. */
  lemma NumberIsSet(a: string, left: string, key: Key, right: string, before: string, n: int, after: string)
    requires EndsLine(a) && Parse(a).Some? && IsNumber(key)
    requires Blank(left) && Blank(right) && Blank(before) && Blank(after)
    requires Fits(left + Name(key) + right + "=" + before + FormatInt(n) + after)
    ensures var p := Parse(a).value;
      Parse(a + (left + Name(key) + right + "=" + before + FormatInt(n) + after) + "\n")
      == if IsInt64(n) then Some(p.(numbers := p.numbers[key := n])) else None
  {
    FormatIsCarried(n);
    assert Solid(FormatInt(n));
    hide Parse, Name, FormatInt, Blank;
    FieldIsAssigned(a, left, key, right, before, FormatInt(n), after);
    NumberOfFormat(n);
  }

  lemma NumberOfFormat(n: int)
    ensures ParseInt(FormatInt(n)) == if IsInt64(n) then Some(n) else None
  {
    var m := if n < 0 then -n else n;
    ParseOfDigits(m);
    var digits := Digits(m);
    hide Digits, ParseDigits;
    if n < 0 {
      assert ("-" + digits)[1..] == digits;
    } else {
      assert digits[0] in digits;
    }
  }

  /** Anything but digits behind an optional sign is no number. */
  lemma NonNumberFails(a: string, left: string, key: Key, right: string, before: string, value: string, after: string, i: nat)
    requires EndsLine(a) && Parse(a).Some? && IsNumber(key)
    requires Blank(left) && Blank(right) && Blank(before) && Solid(value) && Blank(after)
    requires Fits(left + Name(key) + right + "=" + before + value + after)
    requires i < |value| && !('0' <= value[i] <= '9') && (i > 0 || (value[0] != '-' && value[0] != '+') || |value| == 1)
    ensures Parse(a + (left + Name(key) + right + "=" + before + value + after) + "\n").None?
  {
    FieldIsAssigned(a, left, key, right, before, value, after);
    var signed := value[0] == '-' || value[0] == '+';
    if signed {
      if |value| > 1 {
        NonDigit(value[1..], i - 1);
      }
    } else {
      NonDigit(value, i);
    }
    hide Parse, Name, Blank, ParseDigits, IsSpace;
  }

  lemma {:induction false} NonDigit(s: string, i: nat)
    requires i < |s| && !('0' <= s[i] <= '9')
    ensures ParseDigits(s).None?
    decreases |s|
  {
    if i < |s| - 1 {
      NonDigit(s[..|s| - 1], i);
    }
  }

  /** An extra field is kept under its own key, the package type a second time. */
  lemma ExtraIsSet(a: string, left: string, right: string, before: string, key: string, value: string, after: string)
    requires EndsLine(a) && Parse(a).Some?
    requires Blank(left) && Blank(right) && Blank(before) && Blank(after)
    requires Solid(key) && '=' !in key && Solid(value)
    requires Fits(left + "xdata" + right + "=" + before + (key + "=" + value) + after)
    ensures var p := Parse(a).value;
      Parse(a + (left + "xdata" + right + "=" + before + (key + "=" + value) + after) + "\n")
      == Some(p.(xdata := p.xdata[key := value], pkgType := if key == "pkgtype" then value else p.pkgType))
  {
    var data := key + "=" + value;
    assert data[0] == key[0] && data[|data| - 1] == value[|value| - 1];
    assert Name(XData) == "xdata";
    hide Parse, Blank, IsSpace, Trim, Name, AssignXData, ByteLength;
    FieldIsAssigned(a, left, XData, right, before, data, after);
    ExtraOfEntry(Parse(a).value, key, value);
  }

  /** An extra field without a sign of its own makes the text fail. */
  lemma ExtraNeedsSign(a: string, left: string, right: string, before: string, value: string, after: string)
    requires EndsLine(a) && Parse(a).Some?
    requires Blank(left) && Blank(right) && Blank(before) && Solid(value) && Blank(after) && '=' !in value
    requires Fits(left + "xdata" + right + "=" + before + value + after)
    ensures Parse(a + (left + "xdata" + right + "=" + before + value + after) + "\n").None?
  {
    assert Name(XData) == "xdata";
    CutKeeps(value, '=');
    hide Parse, Blank, IsSpace, Trim, Name, ByteLength, CutAt;
    FieldIsAssigned(a, left, XData, right, before, value, after);
  }

  lemma ExtraOfEntry(p: Info, key: string, value: string)
    requires Solid(key) && '=' !in key && Solid(value)
    ensures AssignXData(p, key + "=" + value)
         == Some(p.(xdata := p.xdata[key := value], pkgType := if key == PKGTYPE then value else p.pkgType))
  {
    hide IsSpace, Trim;
    CutFirst(key, '=', value);
    TrimAround("", key, "");
    TrimAround("", value, "");
    assert "" + key + "" == key && "" + value + "" == value;
  }
}
