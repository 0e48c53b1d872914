/** Parsing what was printed: exactly which records come back unchanged. */
module PkgInfoRoundTrip {
  import opened Collections
  import opened Text
  import opened PkgInfo

  /** Values the format can carry: trimmed and free of line breaks. */
  predicate Carried(s: string) {
    Trimmed(s) && Plain(s)
  }

  // ----------------------------------------------------------- strings and integers

  lemma TrimSpaceAfter(s: string)
    requires Trimmed(s) && s != ""
    ensures Trim(s + " ") == s
  {
    var t := s + " ";
    assert t[0] == s[0] && t[|t| - 1] == ' ' && t[..|t| - 1] == s;
    assert TrimLeft(t) == t;
    assert TrimRight(t) == TrimRight(s);
  }

  lemma TrimSpaceBefore(s: string)
    requires Trimmed(s)
    ensures Trim(" " + s) == s
  {
    assert (" " + s)[1..] == s;
    assert TrimLeft(" " + s) == TrimLeft(s) == s;
  }

  lemma {:induction false} ParseOfDigits(n: nat)
    ensures ParseDigits(Digits(n)) == Some(n)
  {
    if n >= 10 {
      ParseOfDigits(n / 10);
      var s := Digits(n);
      assert s[..|s| - 1] == Digits(n / 10);
    }
  }

  lemma ParseOfFormat(n: int)
    requires IsInt64(n)
    ensures ParseInt(FormatInt(n)) == Some(n)
  {
    var m := if n < 0 then -n else n;
    ParseOfDigits(m);
    var digits := Digits(m);
    hide Digits, ParseDigits;
    if n < 0 {
      assert ("-" + digits)[1..] == digits;
    } else {
      assert digits[0] in digits;
    }
  }

  lemma FormatIsCarried(n: int)
    ensures FormatInt(n) != "" && Carried(FormatInt(n))
  {
    var digits := Digits(if n < 0 then -n else n);
    assert digits[0] in digits && digits[|digits| - 1] in digits;
    hide Digits;
    forall c | c in FormatInt(n) ensures c != '\n' && c != '\r' {
      assert c == '-' || c in digits;
    }
  }

  lemma {:induction false} TrimRightKeeps(s: string)
    ensures TrimRight(s) <= s && (TrimRight(s) != "" ==> !IsSpace(TrimRight(s)[|TrimRight(s)| - 1]))
  {
    if s != "" && IsSpace(s[|s| - 1]) {
      TrimRightKeeps(s[..|s| - 1]);
    }
  }

  lemma {:induction false} TrimLeftKeeps(s: string)
    ensures TrimLeft(s) != "" ==> !IsSpace(TrimLeft(s)[0])
    ensures forall c | c in TrimLeft(s) :: c in s
  {
    if s != "" && IsSpace(s[0]) {
      TrimLeftKeeps(s[1..]);
    }
  }

  /** Trimming yields trimmed text and brings in no new characters. */
  lemma TrimTrims(s: string)
    ensures Trimmed(Trim(s)) && (forall c | c in Trim(s) :: c in s)
  {
    TrimLeftKeeps(s);
    TrimRightKeeps(TrimLeft(s));
    hide IsSpace;
  }

  /** A printed value has no line breaks, and one without them is printed as it is. */
  lemma SanitizePlain(s: string)
    ensures Plain(Sanitize(s)) && (Plain(s) ==> Sanitize(s) == s)
    ensures s != "" ==> Sanitize(s) != ""
    ensures |Sanitize(s)| == |s|
    ensures forall i | 0 <= i < |s| :: if s[i] == '\n' || s[i] == '\r' then Sanitize(s)[i] == ' ' else Sanitize(s)[i] == s[i]
  {
  }

  lemma ScalarNames(key: Key)
    requires IsScalar(key)
    ensures KeyNamed(Name(key)) == Some(key)
  {
  }

  lemma NumberNames(key: Key)
    requires IsNumber(key)
    ensures KeyNamed(Name(key)) == Some(key)
  {
  }

  lemma ListNames(key: Key)
    requires IsList(key)
    ensures KeyNamed(Name(key)) == Some(key)
  {
  }

  lemma KeyOfName(key: Key)
    ensures KeyNamed(Name(key)) == Some(key)
  {
    if IsScalar(key) {
      ScalarNames(key);
    } else if IsNumber(key) {
      NumberNames(key);
    } else if IsList(key) {
      ListNames(key);
    }
  }

  predicate Word(s: string) {
    s != "" && forall i | 0 <= i < |s| :: 'a' <= s[i] <= 'z'
  }

  lemma ListNameIsWord(key: Key)
    requires !IsScalar(key) && !IsNumber(key)
    ensures Word(Name(key))
  {
  }

  lemma NameIsWord(key: Key)
    ensures Word(Name(key))
  {
    if IsScalar(key) {
    } else if IsNumber(key) {
    } else {
      ListNameIsWord(key);
    }
  }

  lemma NameIsCarried(key: Key)
    ensures Name(key) != "" && Carried(Name(key)) && '=' !in Name(key) && Name(key)[0] != '#'
  {
    NameIsWord(key);
    hide Name;
  }

  // ------------------------------------------------------------------ printed lines

  /** A printed field line parses to its key and value. */
  lemma ParsePrintedLine(key: Key, value: string)
    requires value != "" && Carried(value)
    ensures ParseLine(DropCR(Name(key) + " = " + value)) == Pair((Name(key), value))
  {
    NameIsCarried(key);
    var name := Name(key);
    hide Name;
    var line := name + " = " + value;
    assert line == (name + " ") + "=" + (" " + value);
    assert line[|line| - 1] == value[|value| - 1] && line[0] == name[0];
    assert value[|value| - 1] in value;
    assert DropCR(line) == line;
    assert Trim(line) == line;
    CutFirst(name + " ", '=', " " + value);
    TrimSpaceAfter(name);
    TrimSpaceBefore(value);
    hide Trim, CutAt, IsSpace;
  }

  /** The pairs that the lines written under one key stand for. */
  function PairsOf(key: Key, values: seq<string>): seq<KeyValue> {
    if values == [] then []
    else
      var front, last := PairsOf(key, values[..|values| - 1]), values[|values| - 1];
      if last == "" then front else front + [(Name(key), last)]
  }

  lemma {:induction false} ParseLinesAppend(a: seq<string>, b: seq<string>)
    requires ParseLines(a).Some? && ParseLines(b).Some?
    ensures ParseLines(a + b) == Some(ParseLines(a).value + ParseLines(b).value)
    decreases |b|
  {
    hide ParseLine, DropCR;
    if b == [] {
      assert a + b == a;
      assert ParseLines(a).value + [] == ParseLines(a).value;
    } else {
      var front := b[..|b| - 1];
      ParseLinesAppend(a, front);
      assert (a + b)[..|a + b| - 1] == a + front;
      match ParseLine(DropCR(b[|b| - 1]))
      case Skip =>
      case Bad =>
      case Pair(kv) =>
        assert ParseLines(a).value + ParseLines(b).value == ParseLines(a).value + ParseLines(front).value + [kv];
    }
  }

  /** What one printed line adds to the pairs read so far. */
  lemma ParsePushed(lines: seq<string>, key: Key, value: string)
    requires ParseLines(lines).Some? && value != "" && Carried(value)
    ensures ParseLines(lines + [Name(key) + " = " + Sanitize(value)])
         == Some(ParseLines(lines).value + [(Name(key), value)])
  {
    SanitizePlain(value);
    ParsePrintedLine(key, value);
    hide ParseLine, DropCR, Name, Carried, Sanitize;
    assert (lines + [Name(key) + " = " + value])[..|lines|] == lines;
  }

  lemma {:induction false} ParseWritten(key: Key, values: seq<string>)
    requires forall i | 0 <= i < |values| :: Carried(values[i])
    ensures ParseLines(WriteAll(key, values)) == Some(PairsOf(key, values))
    decreases |values|
  {
    hide Carried, ParseLine, DropCR, Name, Sanitize;
    if values != [] {
      var front, last := values[..|values| - 1], values[|values| - 1];
      ParseWritten(key, front);
      if last != "" {
        ParsePushed(WriteAll(key, front), key, last);
      }
    }
  }

  lemma {:induction false} WrittenLinesAreLines(key: Key, values: seq<string>)
    ensures forall i | 0 <= i < |WriteAll(key, values)| :: Plain(WriteAll(key, values)[i])
    decreases |values|
  {
    if values != [] {
      var front, last := values[..|values| - 1], values[|values| - 1];
      WrittenLinesAreLines(key, front);
      SanitizePlain(last);
      NameIsCarried(key);
      hide Name, Sanitize;
      assert Plain(Name(key) + " = " + Sanitize(last));
    }
  }

  // ----------------------------------------------------------------- reading it back

  /** Every value of the record can be carried by the format. */
  ghost predicate Clean(p: Info) {
    && (forall key | key in p.scalars :: Carried(p.scalars[key]))
    && (forall key | key in p.numbers :: IsInt64(p.numbers[key]))
    && (forall key | key in p.lists :: CleanList(p.lists[key]))
    && (forall key | key in p.xdata :: CleanEntry(key, p.xdata[key]))
    && Carried(p.pkgType)
  }

  predicate CleanList(values: seq<string>) {
    forall i | 0 <= i < |values| :: values[i] != "" && Carried(values[i])
  }

  predicate CleanEntry(key: string, value: string) {
    Carried(key) && '=' !in key && Carried(value)
  }

  /** The fields named in `keys`; the others still have their initial value. */
  function Restrict<V>(fields: map<Key, V>, keys: seq<Key>, initial: V): map<Key, V> {
    map key | key in fields :: if key in keys then fields[key] else initial
  }

  lemma RestrictMore<V>(fields: map<Key, V>, keys: seq<Key>, key: Key, initial: V)
    requires key !in keys
    ensures key in fields ==>
      && key in Restrict(fields, keys, initial)
      && Restrict(fields, keys, initial)[key] == initial
      && Restrict(fields, keys + [key], initial) == Restrict(fields, keys, initial)[key := fields[key]]
    ensures key !in fields ==> Restrict(fields, keys + [key], initial) == Restrict(fields, keys, initial)
  {
    assert forall k :: k in keys + [key] <==> k in keys || k == key;
  }

  /** The record once the printed lines of `keys` have been read. */
  function Filled(p: Info, keys: seq<Key>): Info {
    Info(Restrict(p.scalars, keys, ""), Restrict(p.numbers, keys, 0), Restrict(p.lists, keys, []), map[], "")
  }

  lemma FilledMore(p: Info, keys: seq<Key>, key: Key)
    requires Complete(p) && key !in keys && key != XData
    ensures IsScalar(key) ==> Filled(p, keys).scalars[key := p.scalars[key]] == Filled(p, keys + [key]).scalars
    ensures IsScalar(key) ==> key in Filled(p, keys).scalars && Filled(p, keys).scalars[key] == ""
    ensures !IsScalar(key) ==> Filled(p, keys + [key]).scalars == Filled(p, keys).scalars
    ensures IsNumber(key) ==> Filled(p, keys).numbers[key := p.numbers[key]] == Filled(p, keys + [key]).numbers
    ensures !IsNumber(key) ==> Filled(p, keys + [key]).numbers == Filled(p, keys).numbers
    ensures IsList(key) ==> key in Filled(p, keys).lists && Filled(p, keys).lists[key] == []
    ensures IsList(key) ==> Filled(p, keys).lists[key := p.lists[key]] == Filled(p, keys + [key]).lists
    ensures !IsList(key) ==> Filled(p, keys + [key]).lists == Filled(p, keys).lists
  {
    RestrictMore(p.scalars, keys, key, "");
    RestrictMore(p.numbers, keys, key, 0);
    RestrictMore(p.lists, keys, key, []);
    assert (key in p.scalars <==> IsScalar(key)) && (key in p.numbers <==> IsNumber(key)) && (key in p.lists <==> IsList(key));
    hide Restrict, Complete, IsScalar, IsNumber, IsList;
  }

  function PairsOfKeys(p: Info, keys: seq<Key>): seq<KeyValue> {
    if keys == [] then []
    else PairsOfKeys(p, keys[..|keys| - 1]) + PairsOf(keys[|keys| - 1], ValuesOf(p, keys[|keys| - 1]))
  }

  lemma {:induction false} AssignAllAppend(p: Info, a: seq<KeyValue>, b: seq<KeyValue>)
    requires AssignAll(p, a).Some?
    ensures AssignAll(p, a + b) == AssignAll(AssignAll(p, a).value, b)
    decreases |b|
  {
    hide Assign;
    if b == [] {
      assert a + b == a;
    } else {
      assert (a + b)[..|a + b| - 1] == a + b[..|b| - 1];
      AssignAllAppend(p, a, b[..|b| - 1]);
    }
  }

  lemma AssignOne(p: Info, key: Key, value: string)
    ensures AssignAll(p, [(Name(key), value)]) == AssignKey(p, key, value)
  {
    KeyOfName(key);
    hide AssignKey, Name, KeyNamed;
    var one := [(Name(key), value)];
    assert one[..0] == [] && AssignAll(p, []) == Some(p);
  }

  function WithList(p: Info, key: Key, values: seq<string>): Info
    requires key in p.lists
  {
    p.(lists := p.lists[key := p.lists[key] + values])
  }

  lemma WithNothing(p: Info, key: Key)
    requires key in p.lists
    ensures WithList(p, key, []) == p
  {
    assert p.lists[key] + [] == p.lists[key];
    assert p.lists[key := p.lists[key]] == p.lists;
  }

  lemma WithOneMore(p: Info, key: Key, front: seq<string>, last: string)
    requires IsList(key) && key in p.lists
    ensures AssignKey(WithList(p, key, front), key, last) == Some(WithList(p, key, front + [last]))
  {
    assert p.lists[key] + front + [last] == p.lists[key] + (front + [last]);
    var m := p.lists[key := p.lists[key] + front];
    assert m[key := m[key] + [last]] == p.lists[key := p.lists[key] + (front + [last])];
  }

  lemma {:induction false} AssignList(p: Info, key: Key, values: seq<string>)
    requires IsList(key) && key in p.lists && CleanList(values)
    ensures AssignAll(p, PairsOf(key, values)) == Some(WithList(p, key, values))
    decreases |values|
  {
    hide AssignKey, Name, IsScalar, IsNumber, WithList, Carried;
    if values == [] {
      WithNothing(p, key);
    } else {
      var front, last := values[..|values| - 1], values[|values| - 1];
      assert values == front + [last];
      AssignList(p, key, front);
      WithOneMore(p, key, front, last);
      AssignOne(WithList(p, key, front), key, last);
      AssignAllAppend(p, PairsOf(key, front), [(Name(key), last)]);
      hide AssignAll;
    }
  }

  lemma AssignSingle(p: Info, key: Key, value: string)
    requires key != XData && !IsList(key)
    ensures AssignAll(p, PairsOf(key, [value])) == if value == "" then Some(p) else AssignKey(p, key, value)
  {
    AssignOne(p, key, value);
    assert [value][..0] == [];
    assert PairsOf(key, [value]) == (if value == "" then [] else [(Name(key), value)]);
    hide Name, AssignKey;
  }

  lemma SetScalar(p: Info, key: Key, value: string)
    requires IsScalar(key) && key in p.scalars && p.scalars[key] == ""
    ensures AssignAll(p, PairsOf(key, [value])) == Some(p.(scalars := p.scalars[key := value]))
  {
    AssignSingle(p, key, value);
    hide PairsOf, AssignAll;
    if value == "" {
      assert p.scalars[key := value] == p.scalars;
    }
  }

  lemma FillScalar(p: Info, keys: seq<Key>, key: Key)
    requires Complete(p) && key !in keys && IsScalar(key)
    ensures AssignAll(Filled(p, keys), PairsOf(key, [p.scalars[key]])) == Some(Filled(p, keys + [key]))
  {
    hide Name, PairsOf, AssignAll;
    FilledMore(p, keys, key);
    SetScalar(Filled(p, keys), key, p.scalars[key]);
    hide Restrict;
  }

  lemma SetNumber(p: Info, key: Key, n: int)
    requires IsNumber(key) && IsInt64(n)
    ensures AssignAll(p, PairsOf(key, [FormatInt(n)])) == Some(p.(numbers := p.numbers[key := n]))
  {
    AssignSingle(p, key, FormatInt(n));
    FormatIsCarried(n);
    ParseOfFormat(n);
    hide PairsOf, AssignAll, ParseInt, FormatInt, Carried;
  }

  lemma FillNumber(p: Info, keys: seq<Key>, key: Key)
    requires Complete(p) && key !in keys && IsNumber(key) && IsInt64(p.numbers[key])
    ensures AssignAll(Filled(p, keys), PairsOf(key, [FormatInt(p.numbers[key])])) == Some(Filled(p, keys + [key]))
  {
    hide Name, PairsOf, AssignAll, FormatInt, Restrict;
    FilledMore(p, keys, key);
    var before, after := Filled(p, keys), Filled(p, keys + [key]);
    assert before.(numbers := after.numbers) == after;
    hide Filled, Complete;
    SetNumber(before, key, p.numbers[key]);
  }

  lemma FillKey(p: Info, keys: seq<Key>, key: Key)
    requires Complete(p) && Clean(p) && key !in keys && key != XData
    ensures AssignAll(Filled(p, keys), PairsOf(key, ValuesOf(p, key))) == Some(Filled(p, keys + [key]))
  {
    hide Name, PairsOf, AssignAll, Carried, CleanList, AssignKey;
    if IsScalar(key) {
      FillScalar(p, keys, key);
      hide Filled;
    } else if IsNumber(key) {
      FillNumber(p, keys, key);
      hide Filled;
    } else {
      FilledMore(p, keys, key);
      AssignList(Filled(p, keys), key, p.lists[key]);
      assert [] + p.lists[key] == p.lists[key];
    }
  }

  lemma FilledNothing(p: Info)
    requires Complete(p)
    ensures Filled(p, []) == NEW
  {
    assert Restrict(p.scalars, [], "") == NEW.scalars;
    assert Restrict(p.numbers, [], 0) == NEW.numbers;
    assert Restrict(p.lists, [], []) == NEW.lists;
  }

  lemma {:induction false} FillKeys(p: Info, keys: seq<Key>)
    requires Complete(p) && Clean(p) && XData !in keys
    requires forall i, j | 0 <= i < j < |keys| :: keys[i] != keys[j]
    ensures AssignAll(NEW, PairsOfKeys(p, keys)) == Some(Filled(p, keys))
    decreases |keys|
  {
    if keys == [] {
      FilledNothing(p);
    } else {
      var front, last := keys[..|keys| - 1], keys[|keys| - 1];
      assert keys == front + [last];
      hide Complete, Clean, Filled, PairsOf, AssignAll;
      FillKeys(p, front);
      FillKey(p, front, last);
      AssignAllAppend(NEW, PairsOfKeys(p, front), PairsOf(last, ValuesOf(p, last)));
    }
  }

  // ----------------------------------------------------------------- the extra fields

  /** The extra fields named in `keys`. */
  function Extras(p: Info, keys: seq<string>): map<string, string> {
    map key | key in keys && key in p.xdata :: p.xdata[key]
  }

  lemma AssignEntry(q: Info, key: string, value: string)
    requires CleanEntry(key, value)
    ensures Carried(key + "=" + value) && key + "=" + value != ""
    ensures AssignXData(q, key + "=" + value)
         == Some(q.(pkgType := if key == PKGTYPE then value else q.pkgType, xdata := q.xdata[key := value]))
  {
    CutFirst(key, '=', value);
    TrimTrimmed(key);
    TrimTrimmed(value);
    hide CutAt, Trim;
    assert !IsSpace('=');
    var data := key + "=" + value;
    assert data[0] == (if key == "" then '=' else key[0]);
    assert data[|data| - 1] == (if value == "" then '=' else value[|value| - 1]);
  }

  lemma TrimTrimmed(s: string)
    requires Trimmed(s)
    ensures Trim(s) == s
  {
  }

  lemma ExtrasMore(had: map<string, string>, p: Info, front: seq<string>, last: string)
    requires last in p.xdata
    ensures (had + Extras(p, front))[last := p.xdata[last]] == had + Extras(p, front + [last])
  {
    assert forall k :: k in front + [last] <==> k in front || k == last;
  }

  lemma {:induction false} FillExtras(q: Info, p: Info, keys: seq<string>)
    requires forall i | 0 <= i < |keys| :: keys[i] in p.xdata && keys[i] != PKGTYPE
    requires forall key | key in p.xdata :: CleanEntry(key, p.xdata[key])
    ensures AssignAll(q, PairsOf(XData, XDataValues(p, keys))) == Some(q.(xdata := q.xdata + Extras(p, keys)))
    decreases |keys|
  {
    if keys == [] {
      assert q.xdata + Extras(p, []) == q.xdata;
    } else {
      var front, last := keys[..|keys| - 1], keys[|keys| - 1];
      assert keys == front + [last] && last in p.xdata && last != PKGTYPE;
      hide CleanEntry, Carried, AssignXData, Name, Extras;
      FillExtras(q, p, front);
      FillEntry(q, p, front, last);
      hide AssignAll, XDataValue;
    }
  }

  lemma FillEntry(q: Info, p: Info, front: seq<string>, last: string)
    requires last in p.xdata && last != PKGTYPE && CleanEntry(last, p.xdata[last])
    requires AssignAll(q, PairsOf(XData, XDataValues(p, front))) == Some(q.(xdata := q.xdata + Extras(p, front)))
    ensures XDataValue(p, last) != ""
    ensures AssignAll(q, PairsOf(XData, XDataValues(p, front)) + [(Name(XData), XDataValue(p, last))])
         == Some(q.(xdata := q.xdata + Extras(p, front + [last])))
  {
    hide CleanEntry, Carried, AssignXData, Name, Extras, PairsOf, XDataValues;
    var mid := q.(xdata := q.xdata + Extras(p, front));
    AssignEntry(mid, last, p.xdata[last]);
    AssignOne(mid, XData, XDataValue(p, last));
    AssignAllAppend(q, PairsOf(XData, XDataValues(p, front)), [(Name(XData), XDataValue(p, last))]);
    ExtrasMore(q.xdata, p, front, last);
    hide AssignAll;
  }

  lemma {:induction false} ExtrasAreCarried(p: Info, keys: seq<string>)
    requires forall i | 0 <= i < |keys| :: keys[i] in p.xdata
    requires forall key | key in p.xdata :: CleanEntry(key, p.xdata[key])
    ensures forall i | 0 <= i < |XDataValues(p, keys)| :: Carried(XDataValues(p, keys)[i])
    decreases |keys|
  {
    if keys != [] {
      var front, last := keys[..|keys| - 1], keys[|keys| - 1];
      assert keys[|keys| - 1] in p.xdata;
      ExtrasAreCarried(p, front);
      AssignEntry(p, last, p.xdata[last]);
      hide Carried, CleanEntry;
    }
  }

  // ----------------------------------------------------------------- the whole record

  lemma ValuesAreCarried(p: Info, key: Key)
    requires Complete(p) && Clean(p) && key != XData
    ensures forall i | 0 <= i < |ValuesOf(p, key)| :: Carried(ValuesOf(p, key)[i])
  {
    hide Carried;
    if IsNumber(key) {
      FormatIsCarried(p.numbers[key]);
    }
  }

  lemma {:induction false} ParseKeyLines(p: Info, keys: seq<Key>)
    requires Complete(p) && Clean(p) && XData !in keys
    ensures ParseLines(WriteKeys(p, keys)) == Some(PairsOfKeys(p, keys))
    decreases |keys|
  {
    if keys != [] {
      var front, last := keys[..|keys| - 1], keys[|keys| - 1];
      ParseKeyLines(p, front);
      ValuesAreCarried(p, last);
      ParseWritten(last, ValuesOf(p, last));
      ParseLinesAppend(WriteKeys(p, front), WriteAll(last, ValuesOf(p, last)));
      hide ParseLines, Clean, Complete, ValuesOf, Carried;
    }
  }

  /** The package type is written only from its own field. */
  function Normal(p: Info, order: seq<string>): Info {
    p.(xdata := (if p.pkgType == "" then map[] else map[PKGTYPE := p.pkgType]) + Extras(p, order))
  }

  lemma {:induction false} PairsAppend(key: Key, a: seq<string>, b: seq<string>)
    ensures PairsOf(key, a + b) == PairsOf(key, a) + PairsOf(key, b)
    decreases |b|
  {
    hide Name;
    if b == [] {
      assert a + b == a;
    } else {
      assert (a + b)[..|a + b| - 1] == a + b[..|b| - 1];
      PairsAppend(key, a, b[..|b| - 1]);
    }
  }

  lemma AssignType(q: Info, kind: string)
    requires Carried(kind) && kind != "" && q.xdata == map[]
    ensures Carried(PKGTYPE + "=" + kind)
    ensures AssignAll(q, PairsOf(XData, [PKGTYPE + "=" + kind]))
         == Some(q.(pkgType := kind, xdata := map[PKGTYPE := kind]))
  {
    assert CleanEntry(PKGTYPE, kind);
    AssignEntry(q, PKGTYPE, kind);
    var data := PKGTYPE + "=" + kind;
    AssignOne(q, XData, data);
    hide AssignXData, CleanEntry, AssignAll, Name;
    assert [data][..0] == [];
    assert PairsOf(XData, [data]) == [(Name(XData), data)];
  }

  lemma AssignBlock(q: Info, p: Info, order: seq<string>)
    requires forall i | 0 <= i < |order| :: order[i] in p.xdata && order[i] != PKGTYPE
    requires forall key | key in p.xdata :: CleanEntry(key, p.xdata[key])
    requires Carried(p.pkgType) && q.xdata == map[] && q.pkgType == ""
    ensures AssignAll(q, PairsOf(XData, XDataBlock(p, order)))
         == Some(q.(pkgType := p.pkgType, xdata := Normal(p, order).xdata))
  {
    var extras := XDataValues(p, order);
    hide Carried, CleanEntry, Extras, XDataValues, AssignAll, PairsOf;
    if p.pkgType == "" {
      assert [] + extras == extras;
      FillExtras(q, p, order);
    } else {
      var lead := PKGTYPE + "=" + p.pkgType;
      AssignType(q, p.pkgType);
      FillExtras(q.(pkgType := p.pkgType, xdata := map[PKGTYPE := p.pkgType]), p, order);
      PairsAppend(XData, [lead], extras);
      AssignAllAppend(q, PairsOf(XData, [lead]), PairsOf(XData, extras));
    }
  }

  lemma ParseBlock(p: Info, order: seq<string>)
    requires forall i | 0 <= i < |order| :: order[i] in p.xdata
    requires forall key | key in p.xdata :: CleanEntry(key, p.xdata[key])
    requires Carried(p.pkgType)
    ensures ParseLines(WriteAll(XData, XDataBlock(p, order))) == Some(PairsOf(XData, XDataBlock(p, order)))
  {
    ExtrasAreCarried(p, order);
    if p.pkgType != "" {
      AssignType(NEW, p.pkgType);
    }
    hide Carried, CleanEntry, XDataValues, ParseLines, PairsOf, AssignAll;
    ParseWritten(XData, XDataBlock(p, order));
  }

  lemma KeysCover(key: Key)
    ensures key in KEYS <==> key != XData
  {
    match key
    case PkgName => assert KEYS[0] == key;
    case PkgBase => assert KEYS[1] == key;
    case PkgVer => assert KEYS[2] == key;
    case PkgDesc => assert KEYS[3] == key;
    case Url => assert KEYS[4] == key;
    case BuildDate => assert KEYS[5] == key;
    case Packager => assert KEYS[6] == key;
    case Size => assert KEYS[7] == key;
    case Arch => assert KEYS[8] == key;
    case License => assert KEYS[9] == key;
    case Replaces => assert KEYS[10] == key;
    case Group => assert KEYS[11] == key;
    case Conflict => assert KEYS[12] == key;
    case Provides => assert KEYS[13] == key;
    case Backup => assert KEYS[14] == key;
    case Depend => assert KEYS[15] == key;
    case OptDepend => assert KEYS[16] == key;
    case MakeDepend => assert KEYS[17] == key;
    case CheckDepend => assert KEYS[18] == key;
    case XData =>
  }

  lemma KeysAreDistinct()
    ensures forall i, j | 0 <= i < j < |KEYS| :: KEYS[i] != KEYS[j]
  {
  }

  lemma RestrictAll<V>(fields: map<Key, V>, keys: seq<Key>, initial: V)
    requires forall key | key in fields :: key in keys
    ensures Restrict(fields, keys, initial) == fields
  {
  }

  lemma FilledAll(p: Info)
    requires Complete(p)
    ensures Filled(p, KEYS) == p.(xdata := map[], pkgType := "")
  {
    forall key: Key ensures key in KEYS <==> key != XData {
      KeysCover(key);
    }
    hide KEYS;
    RestrictAll(p.scalars, KEYS, "");
    RestrictAll(p.numbers, KEYS, 0);
    RestrictAll(p.lists, KEYS, []);
    hide Restrict, Complete;
  }

  /** A record whose values the format can carry comes back, up to its package type entry. */
  lemma ParsePrintedRecord(p: Info, order: seq<string>)
    requires Complete(p) && Clean(p) && Enumerates(order, p)
    ensures ParseLines(PrintedLines(p, order)).Some?
    ensures AssignAll(NEW, ParseLines(PrintedLines(p, order)).value) == Some(Normal(p, order))
  {
    assert forall i | 0 <= i < |order| :: order[i] in order;
    assert forall key | key in p.xdata :: CleanEntry(key, p.xdata[key]);
    assert Carried(p.pkgType);
    KeysAreDistinct();
    KeysCover(XData);
    ParseKeyLines(p, KEYS);
    FillKeys(p, KEYS);
    FilledAll(p);
    ParseBlock(p, order);
    AssignBlock(Filled(p, KEYS), p, order);
    var front, block := PairsOfKeys(p, KEYS), PairsOf(XData, XDataBlock(p, order));
    hide Filled, Clean, Complete, Carried, CleanEntry, XDataBlock, Enumerates, Extras, WriteKeys, WriteAll, KEYS;
    hide PairsOfKeys, PairsOf;
    ParseLinesAppend(WriteKeys(p, KEYS), WriteAll(XData, XDataBlock(p, order)));
    AssignAllAppend(NEW, front, block);
    hide ParseLines, AssignAll;
  }

  // -------------------------------------------------------- what the parser can return

  lemma {:induction false} KeyLinesArePlain(p: Info, keys: seq<Key>)
    ensures forall i | 0 <= i < |WriteKeys(p, keys)| :: Plain(WriteKeys(p, keys)[i])
    decreases |keys|
  {
    if keys != [] {
      KeyLinesArePlain(p, keys[..|keys| - 1]);
      WrittenLinesAreLines(keys[|keys| - 1], ValuesOf(p, keys[|keys| - 1]));
      hide Plain, WriteAll, ValuesOf;
    }
  }

  /** No value of any record can break a printed line. */
  lemma PrintedLinesArePlain(p: Info, order: seq<string>)
    ensures forall i | 0 <= i < |PrintedLines(p, order)| :: Plain(PrintedLines(p, order)[i])
    ensures Lines(Print(p, order)) == PrintedLines(p, order)
  {
    var lines := PrintedLines(p, order);
    KeyLinesArePlain(p, KEYS);
    WrittenLinesAreLines(XData, XDataBlock(p, order));
    assert forall i | 0 <= i < |lines| :: Plain(lines[i]) by {
      hide Plain, WriteAll, WriteKeys, KEYS, XDataBlock;
    }
    hide PrintedLines, Lines, Unlines;
    LinesOfUnlines(lines);
  }

  predicate CleanPair(kv: KeyValue) {
    kv.1 != "" && Carried(kv.1)
  }

  lemma PairIsClean(line: string)
    requires Plain(line) && ParseLine(DropCR(line)).Pair?
    ensures CleanPair(ParseLine(DropCR(line)).kv)
  {
    var raw := DropCR(line);
    TrimTrims(raw);
    CutKeeps(Trim(raw), '=');
    var value := CutAt(Trim(raw), '=').value.1;
    TrimTrims(value);
    hide Trim, CutAt, Trimmed;
    assert forall c | c in value :: c in Trim(raw);
    assert forall c | c in raw :: c in line;
  }

  lemma {:induction false} PairsAreClean(lines: seq<string>)
    requires (forall i | 0 <= i < |lines| :: Plain(lines[i])) && ParseLines(lines).Some?
    ensures forall i | 0 <= i < |ParseLines(lines).value| :: CleanPair(ParseLines(lines).value[i])
    decreases |lines|
  {
    hide Plain, ParseLine, DropCR, CleanPair;
    if lines != [] {
      PairsAreClean(lines[..|lines| - 1]);
      if ParseLine(DropCR(lines[|lines| - 1])).Pair? {
        PairIsClean(lines[|lines| - 1]);
      }
    }
  }

  lemma AssignedEntryIsClean(p: Info, data: string)
    requires Clean(p) && Carried(data) && AssignXData(p, data).Some?
    ensures Clean(AssignXData(p, data).value)
  {
    CutKeeps(data, '=');
    var parts := CutAt(data, '=').value;
    TrimTrims(parts.0);
    TrimTrims(parts.1);
    hide Trim, CutAt, Trimmed, CleanList;
    assert forall c | c in parts.0 :: c in data;
    assert forall c | c in parts.1 :: c in data;
    assert CleanEntry(Trim(parts.0), Trim(parts.1));
    hide CleanEntry, Carried;
  }

  lemma AssignedFieldIsClean(p: Info, key: Key, value: string)
    requires Clean(p) && value != "" && Carried(value) && key != XData && AssignKey(p, key, value).Some?
    ensures Clean(AssignKey(p, key, value).value)
  {
    hide Carried, CleanEntry, AssignXData, ParseDigits;
    if IsScalar(key) {
    } else if IsNumber(key) {
    } else {
      hide ParseInt;
    }
  }

  lemma AssignedIsClean(p: Info, kv: KeyValue)
    requires Clean(p) && CleanPair(kv) && Assign(p, kv).Some?
    ensures Clean(Assign(p, kv).value)
  {
    var key := KeyNamed(kv.0);
    hide Carried, Clean, KeyNamed;
    if key == Some(XData) {
      AssignedEntryIsClean(p, kv.1);
      hide AssignXData;
    } else if key.Some? {
      AssignedFieldIsClean(p, key.value, kv.1);
      hide AssignKey;
    }
  }

  lemma {:induction false} AllAssignedIsClean(kvs: seq<KeyValue>)
    requires (forall i | 0 <= i < |kvs| :: CleanPair(kvs[i])) && AssignAll(NEW, kvs).Some?
    ensures Clean(AssignAll(NEW, kvs).value)
    decreases |kvs|
  {
    if kvs == [] {
    } else {
      hide Clean, CleanPair, Assign;
      AllAssignedIsClean(kvs[..|kvs| - 1]);
      AssignedIsClean(AssignAll(NEW, kvs[..|kvs| - 1]).value, kvs[|kvs| - 1]);
    }
  }

  // ----------------------------------------------------------------------- the theorem

  /** The package type and its extra field say the same, or neither is set. */
  predicate TypeKept(p: Info) {
    if p.pkgType == "" then PKGTYPE !in p.xdata else PKGTYPE in p.xdata && p.xdata[PKGTYPE] == p.pkgType
  }

  lemma NormalIsSame(p: Info, order: seq<string>)
    requires Enumerates(order, p)
    ensures Normal(p, order) == p <==> TypeKept(p)
  {
    var extras := Extras(p, order);
    assert forall key :: key in extras <==> key in p.xdata && key != PKGTYPE;
    if TypeKept(p) {
      assert Normal(p, order).xdata == p.xdata;
    } else {
      assert PKGTYPE in Normal(p, order).xdata <==> p.pkgType != "";
    }
  }

  /** Whatever is printed, what comes back is clean and fitted into the scanner. */
  lemma ParsedIsClean(p: Info, order: seq<string>)
    requires Parse(Print(p, order)).Some?
    ensures Clean(Parse(Print(p, order)).value) && Scannable(PrintedLines(p, order))
  {
    PrintedLinesArePlain(p, order);
    hide Print, Lines, Scannable, PrintedLines, Plain, NEW, Clean;
    var kvs := ParseLines(PrintedLines(p, order)).value;
    PairsAreClean(PrintedLines(p, order));
    AllAssignedIsClean(kvs);
    hide ParseLines, AssignAll;
  }

  /** A clean record whose lines fit comes back, up to its package type entry. */
  lemma CleanComesBack(p: Info, order: seq<string>)
    requires Complete(p) && Enumerates(order, p) && Clean(p) && Scannable(PrintedLines(p, order))
    ensures Parse(Print(p, order)) == Some(Normal(p, order))
  {
    PrintedLinesArePlain(p, order);
    hide Print, Lines, Scannable, Complete, Enumerates, Normal, PrintedLines, Plain, NEW, Clean;
    ParsePrintedRecord(p, order);
    hide ParseLines, AssignAll;
  }

  /**
   * Parsing the printed form gives the record back exactly when its values are ones the
   * format can carry, its package type agrees with the extra field of that name, and no
   * line outgrows the scanner, whatever the order of the extra fields.
   */
  lemma RoundTrip(p: Info, order: seq<string>)
    requires Complete(p) && Enumerates(order, p)
    ensures Parse(Print(p, order)) == Some(p)
       <==> Clean(p) && TypeKept(p) && Scannable(PrintedLines(p, order))
  {
    NormalIsSame(p, order);
    hide Print, Parse, Scannable, Complete, Enumerates, Normal, TypeKept, PrintedLines, Clean;
    if Clean(p) && Scannable(PrintedLines(p, order)) {
      CleanComesBack(p, order);
    }
    if Parse(Print(p, order)).Some? {
      ParsedIsClean(p, order);
    }
  }
}
