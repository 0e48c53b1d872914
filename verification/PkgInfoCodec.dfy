/** The printer and the parser as the loops that run them. */
module PkgInfoCodec {
  import opened Collections
  import opened Text
  import opened PkgInfo
  import opened Sorting

  // ------------------------------------------------------------------------ printing

  lemma WriteMore(key: Key, values: seq<string>, i: nat)
    requires i < |values|
    ensures WriteAll(key, values[..i + 1])
         == if values[i] == "" then WriteAll(key, values[..i])
            else WriteAll(key, values[..i]) + [Name(key) + " = " + Sanitize(values[i])]
  {
    hide Name, Sanitize;
    assert values[..i + 1][..i] == values[..i];
  }

  lemma UnlinesMore(builder: string, lines: seq<string>, line: string)
    ensures builder + Unlines(lines + [line]) == builder + Unlines(lines) + line + "\n"
  {
    assert (lines + [line])[..|lines|] == lines;
  }

  method WriteValues(builder: string, key: Key, values: seq<string>) returns (b: string)
    ensures b == builder + Unlines(WriteAll(key, values))
  {
    b := builder;
    assert builder + "" == builder;
    var i := 0;
    while i < |values|
      invariant 0 <= i <= |values|
      invariant b == builder + Unlines(WriteAll(key, values[..i]))
    {
      hide Name, Sanitize, Unlines, WriteAll;
      WriteMore(key, values, i);
      if values[i] != "" {
        var line := Name(key) + " = " + Sanitize(values[i]);
        UnlinesMore(builder, WriteAll(key, values[..i]), line);
        b := b + line + "\n";
      }
      i := i + 1;
    }
    assert values[..i] == values;
  }

  /** Serialize a record; the extra keys come out in sorted order. */
  method Bytes(p: Info) returns (text: string, order: seq<string>)
    ensures Sorted(order) && Enumerates(order, p)
    ensures text == Print(p, order)
  {
    hide Less, WriteAll, Unlines, ValuesOf, Name;
    order := SortKeys(p.xdata.Keys - {PKGTYPE});
    forall i, j | 0 <= i < j < |order| ensures order[i] != order[j] {
      LessIsTotal(order[i], order[i]);
    }
    text := WriteFields(p);
    var values := [];
    if p.pkgType != "" {
      values := [PKGTYPE + "=" + p.pkgType];
    }
    var i := 0;
    while i < |order|
      invariant 0 <= i <= |order|
      invariant values == XDataBlock(p, order[..i])
    {
      assert order[..i + 1][..i] == order[..i];
      values := values + [XDataValue(p, order[i])];
      i := i + 1;
    }
    assert order[..i] == order;
    text := WriteValues(text, XData, values);
    UnlinesAppend(WriteKeys(p, KEYS), WriteAll(XData, values));
    hide WriteKeys, KEYS;
  }

  method WriteFields(p: Info) returns (text: string)
    ensures text == Unlines(WriteKeys(p, KEYS))
  {
    hide KEYS, WriteAll, ValuesOf;
    text := "";
    var i := 0;
    while i < |KEYS|
      invariant 0 <= i <= |KEYS|
      invariant text == Unlines(WriteKeys(p, KEYS[..i]))
    {
      var key := KEYS[i];
      UnlinesAppend(WriteKeys(p, KEYS[..i]), WriteAll(key, ValuesOf(p, key)));
      assert KEYS[..i + 1][..i] == KEYS[..i];
      hide Unlines;
      text := WriteValues(text, key, ValuesOf(p, key));
      i := i + 1;
    }
    assert KEYS[..i] == KEYS;
  }

  // ------------------------------------------------------------------------- parsing

  lemma {:induction false} BadStays(lines: seq<string>, n: nat)
    requires n <= |lines| && ParseLines(lines[..n]).None?
    ensures ParseLines(lines).None?
    decreases |lines|
  {
    if n < |lines| {
      assert lines[..|lines| - 1][..n] == lines[..n];
      BadStays(lines[..|lines| - 1], n);
    } else {
      assert lines[..n] == lines;
    }
  }

  lemma {:induction false} FailureStays(p: Info, kvs: seq<KeyValue>, n: nat)
    requires n <= |kvs| && AssignAll(p, kvs[..n]).None?
    ensures AssignAll(p, kvs).None?
    decreases |kvs|
  {
    if n < |kvs| {
      assert kvs[..|kvs| - 1][..n] == kvs[..n];
      FailureStays(p, kvs[..|kvs| - 1], n);
    } else {
      assert kvs[..n] == kvs;
    }
  }

  method ParseKeyValues(lines: seq<string>) returns (r: Option<seq<KeyValue>>)
    ensures r == ParseLines(lines)
  {
    hide ParseLine, DropCR;
    var kvs: seq<KeyValue> := [];
    var i := 0;
    while i < |lines|
      invariant 0 <= i <= |lines|
      invariant ParseLines(lines[..i]) == Some(kvs)
    {
      assert lines[..i + 1][..i] == lines[..i];
      match ParseLine(DropCR(lines[i])) {
        case Skip =>
        case Bad =>
          BadStays(lines, i + 1);
          return None;
        case Pair(kv) =>
          kvs := kvs + [kv];
      }
      i := i + 1;
    }
    assert lines[..i] == lines;
    r := Some(kvs);
  }

  method ParsePkginfo(text: string) returns (r: Option<Info>)
    ensures r == Parse(text)
  {
    hide ParseLines, Assign, Lines;
    var lines := Lines(text);
    if !Scannable(lines) {
      return None;
    }
    var pairs := ParseKeyValues(lines);
    if pairs.None? {
      return None;
    }
    var kvs := pairs.value;
    var p := NEW;
    var i := 0;
    while i < |kvs|
      invariant 0 <= i <= |kvs|
      invariant AssignAll(NEW, kvs[..i]) == Some(p)
    {
      hide NEW;
      assert kvs[..i + 1][..i] == kvs[..i];
      var next := Assign(p, kvs[i]);
      if next.None? {
        FailureStays(NEW, kvs, i + 1);
        return None;
      }
      p := next.value;
      i := i + 1;
    }
    assert kvs[..i] == kvs;
    r := Some(p);
  }
}
