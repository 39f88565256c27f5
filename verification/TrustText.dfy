/**
  The text of a trust store, one `<name> <base64 key>` per line: its line parser
  and its printer, shared by the known-hosts and the known-peers file.
 */
module TrustText {
  import opened Prelude
  import opened Base64

  type PubKey = k: seq<byte> | |k| == 32 witness seq(32, _ => 0)

  // ---------------------------------------------------------------------
  // White space and lines
  // ---------------------------------------------------------------------

  /** The characters with the Unicode property White_Space. */
  predicate IsSpace(c: char) {
    var n := c as int;
    0x9 <= n <= 0xD || n in [0x20, 0x85, 0xA0, 0x1680, 0x2028, 0x2029, 0x202F, 0x205F, 0x3000] || 0x2000 <= n <= 0x200A
  }

  function TrimStart(s: string): string {
    if s != [] && IsSpace(s[0]) then TrimStart(s[1..]) else s
  }

  function TrimEnd(s: string): string {
    if s != [] && IsSpace(s[|s| - 1]) then TrimEnd(s[..|s| - 1]) else s
  }

  function Trim(s: string): (t: string)
    ensures t != [] ==> !IsSpace(t[0])
  {
    TrimmedEnds(TrimStart(s));
    StartTrimmed(s);
    TrimEnd(TrimStart(s))
  }

  lemma {:induction false} StartTrimmed(s: string)
    ensures TrimStart(s) != [] ==> !IsSpace(TrimStart(s)[0])
  {
    if s != [] && IsSpace(s[0]) {
      StartTrimmed(s[1..]);
    }
  }

  lemma {:induction false} TrimmedEnds(s: string)
    ensures TrimEnd(s) <= s
  {
    if s != [] && IsSpace(s[|s| - 1]) {
      TrimmedEnds(s[..|s| - 1]);
    }
  }

  /** Position of the first character that is `c`, or the length. */
  function FirstNewline(s: string): (k: nat)
    ensures k <= |s| && (k < |s| ==> s[k] == '\n')
    ensures forall j :: 0 <= j < k ==> s[j] != '\n'
  {
    if s == [] || s[0] == '\n' then 0 else 1 + FirstNewline(s[1..])
  }

  function FirstSpace(s: string): (k: nat)
    ensures k <= |s| && (k < |s| ==> IsSpace(s[k]))
    ensures forall j :: 0 <= j < k ==> !IsSpace(s[j])
  {
    if s == [] || IsSpace(s[0]) then 0 else 1 + FirstSpace(s[1..])
  }

  function StripReturn(line: string): string {
    if line != [] && line[|line| - 1] == '\r' then line[..|line| - 1] else line
  }

  /** Lines end in LF or CR LF; nothing follows a final line end. */
  function Lines(content: string): seq<string>
    decreases |content|
  {
    var k := FirstNewline(content);
    if k < |content| then [StripReturn(content[..k])] + Lines(content[k + 1..])
    else if content == [] then []
    else [content]
  }

  // ---------------------------------------------------------------------
  // Rows
  // ---------------------------------------------------------------------

  datatype Row = Row(name: string, key: PubKey)

  datatype Reason = MissingKey | BadKey

  datatype ParseError = ParseError(line: nat, reason: Reason)

  datatype LineResult = Blank | Entry(row: Row) | Bad(reason: Reason)

  function ToBase64(key: PubKey): string {
    Encode(key)
  }

  function FromBase64(s: string): Option<PubKey> {
    match Decode(Trim(s))
    case None => None
    case Some(b) => if |b| == 32 then Some(b) else None
  }

  function ParseLine(raw: string): LineResult {
    var line := Trim(raw);
    if line == [] || line[0] == '#' then Blank
    else
      var k := FirstSpace(line);
      if k == |line| then Bad(MissingKey)
      else
        match FromBase64(Trim(line[k + 1..]))
        case None => Bad(BadKey)
        case Some(key) => Entry(Row(line[..k], key))
  }

  /** The rows of a text in file order, or the first line that does not parse. */
  function ParseRows(lines: seq<string>, lineNo: nat): Result<seq<Row>, ParseError> {
    if lines == [] then Ok([])
    else
      match ParseLine(lines[0])
      case Bad(reason) => Err(ParseError(lineNo, reason))
      case Blank => ParseRows(lines[1..], lineNo + 1)
      case Entry(row) =>
        match ParseRows(lines[1..], lineNo + 1)
        case Err(e) => Err(e)
        case Ok(rows) => Ok([row] + rows)
  }

  /** Rows already read, put in front of what the remaining lines give. */
  function Prepend(rows: seq<Row>, r: Result<seq<Row>, ParseError>): Result<seq<Row>, ParseError> {
    match r case Ok(more) => Ok(rows + more) case Err(e) => Err(e)
  }

  /** One round of a parser's line loop. */
  lemma LineStep(rows: seq<Row>, lines: seq<string>, i: nat)
    requires i < |lines|
    ensures Prepend(rows, ParseRows(lines[i..], i + 1))
            == match ParseLine(lines[i])
               case Blank => Prepend(rows, ParseRows(lines[i + 1..], i + 2))
               case Bad(reason) => Err(ParseError(i + 1, reason))
               case Entry(row) => Prepend(rows + [row], ParseRows(lines[i + 1..], i + 2))
  {
    hide ParseLine;
    assert lines[i..][1..] == lines[i + 1..];
    var line, more := ParseLine(lines[i]), ParseRows(lines[i + 1..], i + 2);
    if line.Entry? && more.Ok? {
      Assoc(rows, [line.row], more.value);
    }
  }

  lemma LinesStart(lines: seq<string>)
    ensures ParseRows(lines, 1) == Prepend([], ParseRows(lines[0..], 1))
  {
    hide ParseLine;
    assert lines[0..] == lines;
    assert ParseRows(lines, 1).Ok? ==> [] + ParseRows(lines, 1).value == ParseRows(lines, 1).value;
  }

  lemma LinesEnd(rows: seq<Row>, lines: seq<string>, lineNo: nat)
    ensures Prepend(rows, ParseRows(lines[|lines|..], lineNo)) == Ok(rows)
  {
    assert rows + [] == rows;
  }

  function PrintRow(row: Row): string {
    row.name + " " + ToBase64(row.key) + "\n"
  }

  function Print(rows: seq<Row>): string {
    if rows == [] then "" else PrintRow(rows[0]) + Print(rows[1..])
  }

  /** Names the format can hold: not empty, no white space, no leading `#`. */
  predicate WellFormed(name: string) {
    name != "" && name[0] != '#' && forall k :: 0 <= k < |name| ==> !IsSpace(name[k])
  }

  lemma Untrimmed(s: string)
    requires s != [] && !IsSpace(s[0]) && !IsSpace(s[|s| - 1])
    ensures Trim(s) == s
  {
  }

  /** No character of the base64 alphabet is white space. */
  lemma KeyTextHasNoSpace(key: PubKey)
    ensures ToBase64(key) != "" && forall k :: 0 <= k < |ToBase64(key)| ==> !IsSpace(ToBase64(key)[k])
  {
    EncodeAlphabet(key);
    var t := ToBase64(key);
    forall k | 0 <= k < |t| ensures !IsSpace(t[k]) {
      assert DigitValue(t[k]).Some?;
    }
  }

  /** A key survives being written and read, with any white space around it cut off. */
  lemma KeyReads(key: PubKey)
    ensures FromBase64(Trim(ToBase64(key))) == Some(key) && FromBase64(ToBase64(key)) == Some(key)
  {
    hide Encode, Decode, IsSpace;
    KeyTextHasNoSpace(key);
    Untrimmed(ToBase64(key));
    DecodeOfEncode(key);
  }

  lemma TextTellsKey(a: PubKey, b: PubKey)
    ensures ToBase64(a) == ToBase64(b) <==> a == b
  {
    hide ToBase64, FromBase64;
    KeyReads(a);
    KeyReads(b);
  }

  lemma {:induction false} FirstSpaceIs(name: string, rest: string)
    requires forall k :: 0 <= k < |name| ==> !IsSpace(name[k])
    requires rest != [] && IsSpace(rest[0])
    ensures FirstSpace(name + rest) == |name|
  {
    hide IsSpace;
    if name == [] {
      assert name + rest == rest;
    } else {
      assert (name + rest)[1..] == name[1..] + rest;
      FirstSpaceIs(name[1..], rest);
    }
  }

  lemma LineReads(row: Row)
    requires WellFormed(row.name)
    ensures ParseLine(row.name + " " + ToBase64(row.key)) == Entry(row)
  {
    var text := ToBase64(row.key);
    var line := row.name + " " + text;
    KeyTextHasNoSpace(row.key);
    assert IsSpace(' ');
    hide IsSpace, ToBase64;
    Untrimmed(line);
    assert line == row.name + (" " + text);
    FirstSpaceIs(row.name, " " + text);
    assert line[|row.name| + 1..] == text && line[..|row.name|] == row.name;
    KeyReads(row.key);
  }

  lemma {:induction false} FirstNewlineIs(line: string, rest: string)
    requires forall k :: 0 <= k < |line| ==> line[k] != '\n'
    ensures FirstNewline(line + "\n" + rest) == |line|
  {
    var s := line + "\n" + rest;
    assert s[|line|] == '\n';
  }

  lemma LinesOfRow(row: Row, rest: string)
    requires WellFormed(row.name)
    ensures Lines(PrintRow(row) + rest) == [row.name + " " + ToBase64(row.key)] + Lines(rest)
  {
    var line := row.name + " " + ToBase64(row.key);
    KeyTextHasNoSpace(row.key);
    assert forall k :: 0 <= k < |line| ==> line[k] == ' ' || !IsSpace(line[k]);
    assert IsSpace('\n') && IsSpace('\r');
    hide IsSpace, ToBase64;
    assert PrintRow(row) + rest == line + "\n" + rest;
    FirstNewlineIs(line, rest);
    var s := line + "\n" + rest;
    assert s[..|line|] == line && s[|line| + 1..] == rest;
    assert StripReturn(line) == line;
  }

  /** The parser undoes the printer on well-formed names. */
  lemma {:induction false} RowsRead(rows: seq<Row>, lineNo: nat)
    requires forall k :: 0 <= k < |rows| ==> WellFormed(rows[k].name)
    ensures ParseRows(Lines(Print(rows)), lineNo) == Ok(rows)
  {
    hide WellFormed, ParseLine, PrintRow;
    if rows != [] {
      LinesOfRow(rows[0], Print(rows[1..]));
      LineReads(rows[0]);
      RowsRead(rows[1..], lineNo + 1);
      var lines := Lines(Print(rows));
      assert lines[1..] == Lines(Print(rows[1..]));
      assert rows == [rows[0]] + rows[1..];
    } else {
      assert Lines("") == [];
    }
  }

  /** The parser yields well-formed names only. */
  lemma {:induction false} RowsWellFormed(lines: seq<string>, lineNo: nat)
    ensures var r := ParseRows(lines, lineNo);
            r.Ok? ==> forall k :: 0 <= k < |r.value| ==> WellFormed(r.value[k].name)
  {
    if lines != [] {
      hide WellFormed, ParseLine;
      RowsWellFormed(lines[1..], lineNo + 1);
      LineWellFormed(lines[0]);
      var r, more := ParseRows(lines, lineNo), ParseRows(lines[1..], lineNo + 1);
      if r.Ok? && ParseLine(lines[0]).Entry? {
        forall k | 0 <= k < |r.value| ensures WellFormed(r.value[k].name) {
          assert k > 0 ==> r.value[k] == more.value[k - 1] && WellFormed(more.value[k - 1].name);
        }
      }
    }
  }

  lemma LineWellFormed(raw: string)
    ensures ParseLine(raw).Entry? ==> WellFormed(ParseLine(raw).row.name)
  {
    hide IsSpace, FromBase64;
    var line := Trim(raw);
    if line != [] {
      assert !IsSpace(line[0]);
      assert FirstSpace(line) != 0;
    }
  }

  // ---------------------------------------------------------------------
  // Sorted names
  // ---------------------------------------------------------------------

  /** Lexicographic order by code point, which is also the order of the UTF-8 bytes. */
  predicate Leq(a: string, b: string) {
    a == [] || (b != [] && (a[0] < b[0] || (a[0] == b[0] && Leq(a[1..], b[1..]))))
  }

  lemma {:induction false} LeqTotal(a: string, b: string)
    ensures Leq(a, b) || Leq(b, a)
    ensures Leq(a, b) && Leq(b, a) ==> a == b
    ensures Leq(a, a)
  {
    if a != [] {
      LeqTotal(a[1..], a[1..]);
    }
    if a != [] && b != [] && a[0] == b[0] {
      LeqTotal(a[1..], b[1..]);
      assert a == [a[0]] + a[1..] && b == [b[0]] + b[1..];
    }
  }

  lemma {:induction false} LeqTransitive(a: string, b: string, c: string)
    requires Leq(a, b) && Leq(b, c)
    ensures Leq(a, c)
  {
    if a != [] && a[0] == b[0] == c[0] {
      LeqTransitive(a[1..], b[1..], c[1..]);
    }
  }

  ghost predicate Sorted(names: seq<string>) {
    forall i, j :: 0 <= i < j < |names| ==> Leq(names[i], names[j]) && names[i] != names[j]
  }

  /** The one sorted listing of a set of names. */
  ghost predicate Lists(names: seq<string>, s: set<string>) {
    Sorted(names) && forall n :: n in names <==> n in s
  }

  lemma {:induction false} ListingUnique(a: seq<string>, b: seq<string>, s: set<string>)
    requires Lists(a, s) && Lists(b, s)
    ensures a == b
  {
    assert a != [] ==> a[0] in s;
    assert b != [] ==> b[0] in s;
    if a != [] && b != [] {
      assert a[0] in b && b[0] in a;
      LeqTotal(a[0], b[0]);
      assert a[0] == b[0];
      var t := s - {a[0]};
      ListingTail(a, s);
      ListingTail(b, s);
      ListingUnique(a[1..], b[1..], t);
    }
  }

  lemma ListingTail(a: seq<string>, s: set<string>)
    requires a != [] && Lists(a, s)
    ensures Lists(a[1..], s - {a[0]})
  {
    forall n ensures n in a[1..] <==> n in s - {a[0]} {
      if n in a[1..] {
        var k :| 0 <= k < |a[1..]| && a[1..][k] == n;
        assert a[k + 1] == n;
      }
      if n in s && n != a[0] {
        var k :| 0 <= k < |a| && a[k] == n;
        assert a[1..][k - 1] == n;
      }
    }
  }

  function InsertName(names: seq<string>, n: string): seq<string> {
    if names == [] || Leq(n, names[0]) then [n] + names else [names[0]] + InsertName(names[1..], n)
  }

  lemma {:induction false} InsertKeepsSorted(names: seq<string>, n: string)
    requires Sorted(names) && n !in names
    ensures Sorted(InsertName(names, n))
    ensures forall x :: x in InsertName(names, n) <==> x == n || x in names
  {
    if names != [] {
      LeqTotal(n, names[0]);
      if Leq(n, names[0]) {
        forall j | 0 <= j < |names| ensures Leq(n, names[j]) {
          if j > 0 {
            LeqTransitive(n, names[0], names[j]);
          }
        }
      } else {
        InsertKeepsSorted(names[1..], n);
        var more := InsertName(names[1..], n);
        forall j | 0 <= j < |more| ensures Leq(names[0], more[j]) && names[0] != more[j] {
          assert more[j] in more;
          if more[j] != n {
            var k :| 0 <= k < |names[1..]| && names[1..][k] == more[j];
            assert names[k + 1] == more[j];
          }
        }
        assert names == [names[0]] + names[1..];
      }
    }
  }

  /** Collects the names of a set in whatever order they come and sorts them. */
  method SortedNames(s: set<string>) returns (names: seq<string>)
    ensures Lists(names, s)
  {
    names := [];
    var remaining := s;
    while remaining != {}
      invariant remaining <= s && Lists(names, s - remaining)
      decreases remaining
    {
      var n :| n in remaining;
      InsertKeepsSorted(names, n);
      names := InsertName(names, n);
      remaining := remaining - {n};
    }
    assert s - remaining == s;
  }
}
