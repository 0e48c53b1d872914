/** The .PKGINFO text format: its printer, its line grammar, and its parser. */
module PkgInfo {
  import opened Collections
  import opened Text

  // -------------------------------------------------------------- string scanning

  /** White space as Unicode defines it, which is what the parser trims. */
  predicate IsSpace(c: char) {
    || c == ' ' || '\t' <= c <= '\r' || c == '\U{85}' || c == '\U{A0}' || c == '\U{1680}'
    || '\U{2000}' <= c <= '\U{200A}' || c == '\U{2028}' || c == '\U{2029}' || c == '\U{202F}'
    || c == '\U{205F}' || c == '\U{3000}'
  }

  function TrimLeft(s: string): string {
    if s != "" && IsSpace(s[0]) then TrimLeft(s[1..]) else s
  }

  function TrimRight(s: string): string {
    if s != "" && IsSpace(s[|s| - 1]) then TrimRight(s[..|s| - 1]) else s
  }

  function Trim(s: string): string {
    TrimRight(TrimLeft(s))
  }

  predicate Trimmed(s: string) {
    s != "" ==> !IsSpace(s[0]) && !IsSpace(s[|s| - 1])
  }

  /** Text without line breaks, which the printer would turn into spaces. */
  predicate Plain(s: string) {
    '\n' !in s && '\r' !in s
  }

  // --------------------------------------------------------------------- integers

  const MIN_INT64: int := -0x8000_0000_0000_0000
  const MAX_INT64: int := 0x7fff_ffff_ffff_ffff

  predicate IsInt64(n: int) {
    MIN_INT64 <= n <= MAX_INT64
  }

  function FormatInt(n: int): string {
    if n < 0 then "-" + Digits(-n) else Digits(n)
  }

  function ParseDigits(s: string): Option<nat> {
    if s == "" then None
    else if !('0' <= s[|s| - 1] <= '9') then None
    else
      var d := s[|s| - 1] as nat - '0' as nat;
      if |s| == 1 then Some(d)
      else
        var front := ParseDigits(s[..|s| - 1]);
        if front.None? then None else Some(10 * front.value + d)
  }

  /** A 64-bit decimal with an optional sign. */
  function ParseInt(s: string): Option<int> {
    var signed := s != "" && (s[0] == '-' || s[0] == '+');
    var digits := ParseDigits(if signed then s[1..] else s);
    if digits.None? then None
    else
      var magnitude: int := digits.value;
      var n := if signed && s[0] == '-' then -magnitude else magnitude;
      if IsInt64(n) then Some(n) else None
  }

  // -------------------------------------------------------------------- the record

  datatype Key =
    | PkgName | PkgBase | PkgVer | PkgDesc | Url | Packager | Arch
    | BuildDate | Size
    | License | Replaces | Group | Conflict | Provides | Backup
    | Depend | OptDepend | MakeDepend | CheckDepend
    | XData

  /** The word a key is written as. */
  function Name(key: Key): string {
    match key
    case PkgName => "pkgname" case PkgBase => "pkgbase" case PkgVer => "pkgver"
    case PkgDesc => "pkgdesc" case Url => "url" case Packager => "packager" case Arch => "arch"
    case BuildDate => "builddate" case Size => "size"
    case License => "license" case Replaces => "replaces" case Group => "group"
    case Conflict => "conflict" case Provides => "provides" case Backup => "backup"
    case Depend => "depend" case OptDepend => "optdepend" case MakeDepend => "makedepend"
    case CheckDepend => "checkdepend"
    case XData => "xdata"
  }

  /** The key a word stands for, if the parser knows it. */
  function KeyNamed(word: string): Option<Key> {
    if word == "pkgname" then Some(PkgName) else if word == "pkgbase" then Some(PkgBase)
    else if word == "pkgver" then Some(PkgVer) else if word == "pkgdesc" then Some(PkgDesc)
    else if word == "url" then Some(Url) else if word == "builddate" then Some(BuildDate)
    else if word == "packager" then Some(Packager) else if word == "size" then Some(Size)
    else if word == "arch" then Some(Arch) else if word == "license" then Some(License)
    else if word == "replaces" then Some(Replaces) else if word == "group" then Some(Group)
    else if word == "conflict" then Some(Conflict) else if word == "provides" then Some(Provides)
    else if word == "backup" then Some(Backup) else if word == "depend" then Some(Depend)
    else if word == "optdepend" then Some(OptDepend) else if word == "makedepend" then Some(MakeDepend)
    else if word == "checkdepend" then Some(CheckDepend) else if word == "xdata" then Some(XData)
    else None
  }

  predicate IsScalar(key: Key) {
    key.PkgName? || key.PkgBase? || key.PkgVer? || key.PkgDesc? || key.Url? || key.Packager? || key.Arch?
  }

  predicate IsNumber(key: Key) {
    key == BuildDate || key == Size
  }

  predicate IsList(key: Key) {
    !IsScalar(key) && !IsNumber(key) && key != XData
  }

  /** The metadata record: its text, number and list fields by key. */
  datatype Info = Info(
    scalars: map<Key, string>,
    numbers: map<Key, int>,
    lists: map<Key, seq<string>>,
    xdata: map<string, string>,
    pkgType: string)

  /** Every field of the record has a value, and no others exist. */
  ghost predicate Complete(p: Info) {
    && (forall key :: key in p.scalars <==> IsScalar(key))
    && (forall key :: key in p.numbers <==> IsNumber(key))
    && (forall key :: key in p.lists <==> IsList(key))
  }

  const NEW: Info := Info(
    map key: Key | IsScalar(key) :: "",
    map key: Key | IsNumber(key) :: 0,
    map key: Key | IsList(key) :: [],
    map[],
    "")

  const PKGTYPE: string := "pkgtype"

  // ------------------------------------------------------------------------ printer

  /** The order in which the keys before the xdata block are written. */
  const KEYS: seq<Key> := [
    PkgName, PkgBase, PkgVer, PkgDesc, Url, BuildDate, Packager, Size, Arch,
    License, Replaces, Group, Conflict, Provides, Backup,
    Depend, OptDepend, MakeDepend, CheckDepend]

  /** Newlines in a value would inject lines; they become spaces. */
  function Sanitize(s: string): string {
    seq(|s|, i requires 0 <= i < |s| => if s[i] == '\r' || s[i] == '\n' then ' ' else s[i])
  }

  /** The values written under one key, before empty ones are skipped. */
  function ValuesOf(p: Info, key: Key): seq<string> {
    if key in p.scalars then [p.scalars[key]]
    else if key in p.numbers then [FormatInt(p.numbers[key])]
    else if key in p.lists then p.lists[key]
    else []
  }

  function WriteAll(key: Key, values: seq<string>): seq<string> {
    if values == [] then []
    else
      var front, last := WriteAll(key, values[..|values| - 1]), values[|values| - 1];
      if last == "" then front else front + [Name(key) + " = " + Sanitize(last)]
  }

  function WriteKeys(p: Info, keys: seq<Key>): seq<string> {
    if keys == [] then []
    else WriteKeys(p, keys[..|keys| - 1]) + WriteAll(keys[|keys| - 1], ValuesOf(p, keys[|keys| - 1]))
  }

  function XDataValue(p: Info, key: string): string {
    key + "=" + (if key in p.xdata then p.xdata[key] else "")
  }

  function XDataValues(p: Info, order: seq<string>): seq<string> {
    if order == [] then []
    else XDataValues(p, order[..|order| - 1]) + [XDataValue(p, order[|order| - 1])]
  }

  /** The xdata block: the package type leads, the other keys follow in `order`. */
  function XDataBlock(p: Info, order: seq<string>): seq<string> {
    (if p.pkgType == "" then [] else [PKGTYPE + "=" + p.pkgType]) + XDataValues(p, order)
  }

  function PrintedLines(p: Info, order: seq<string>): seq<string> {
    WriteKeys(p, KEYS) + WriteAll(XData, XDataBlock(p, order))
  }

  function Print(p: Info, order: seq<string>): string {
    Unlines(PrintedLines(p, order))
  }

  /** `order` lists every extra key except the package type, once. */
  ghost predicate Enumerates(order: seq<string>, p: Info) {
    && (forall i, j | 0 <= i < j < |order| :: order[i] != order[j])
    && (forall key :: key in order <==> key in p.xdata && key != PKGTYPE)
  }

  // ------------------------------------------------------------------------- parser

  /** What one character takes in UTF-8. */
  function Width(c: char): nat {
    if c < '\U{80}' then 1 else if c < '\U{800}' then 2 else if c < '\U{10000}' then 3 else 4
  }

  function ByteLength(s: string): nat {
    if s == "" then 0 else ByteLength(s[..|s| - 1]) + Width(s[|s| - 1])
  }

  /** The scanner's buffer holds a line and the newline behind it. */
  const MAX_LINE: nat := 0x1_0000

  predicate Scannable(lines: seq<string>) {
    forall i | 0 <= i < |lines| :: ByteLength(lines[i]) + 1 <= MAX_LINE
  }

  type KeyValue = (string, string)

  datatype LineResult = Skip | Pair(kv: KeyValue) | Bad

  /** One line of the grammar. */
  function ParseLine(raw: string): LineResult {
    var line := Trim(raw);
    if line == "" || line[0] == '#' then Skip
    else
      var parts := CutAt(line, '=');
      if parts.None? then Bad
      else
        var key, value := Trim(parts.value.0), Trim(parts.value.1);
        if key == "" then Bad else if value == "" then Skip else Pair((key, value))
  }

  function Include(kvs: seq<KeyValue>, line: LineResult): Option<seq<KeyValue>> {
    match line
    case Skip => Some(kvs)
    case Pair(kv) => Some(kvs + [kv])
    case Bad => None
  }

  function ParseLines(lines: seq<string>): Option<seq<KeyValue>> {
    if lines == [] then Some([])
    else
      var front := ParseLines(lines[..|lines| - 1]);
      if front.None? then None else Include(front.value, ParseLine(DropCR(lines[|lines| - 1])))
  }

  /** Record an extra field; the package type is kept twice. */
  function AssignXData(p: Info, data: string): Option<Info> {
    var parts := CutAt(data, '=');
    if parts.None? then None
    else
      var key, value := Trim(parts.value.0), Trim(parts.value.1);
      Some(p.(pkgType := if key == PKGTYPE then value else p.pkgType, xdata := p.xdata[key := value]))
  }

  function AssignKey(p: Info, key: Key, value: string): Option<Info> {
    if IsScalar(key) then Some(p.(scalars := p.scalars[key := value]))
    else if IsNumber(key) then
      var n := ParseInt(value);
      if n.None? then None else Some(p.(numbers := p.numbers[key := n.value]))
    else if key == XData then AssignXData(p, value)
    else Some(p.(lists := p.lists[key := (if key in p.lists then p.lists[key] else []) + [value]]))
  }

  /** Record one pair; unknown keys are ignored. */
  function Assign(p: Info, kv: KeyValue): Option<Info> {
    var key := KeyNamed(kv.0);
    if key.None? then Some(p) else AssignKey(p, key.value, kv.1)
  }

  function AssignAll(p: Info, kvs: seq<KeyValue>): Option<Info> {
    if kvs == [] then Some(p)
    else
      var front := AssignAll(p, kvs[..|kvs| - 1]);
      if front.None? then None else Assign(front.value, kvs[|kvs| - 1])
  }

  function Parse(text: string): Option<Info> {
    var lines := Lines(text);
    if !Scannable(lines) then None
    else
      var kvs := ParseLines(lines);
      if kvs.None? then None else AssignAll(NEW, kvs.value)
  }
}
