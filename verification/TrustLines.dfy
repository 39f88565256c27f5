/**
  What the lines of a trust store mean, character by character: which are
  skipped, which are rows, and which error any other one is.
 */
module TrustLines {
  import opened Prelude
  import opened Base64
  import opened TrustText

  /** The characters with the Unicode property White_Space, one by one. */
  predicate WhiteChar(c: char) {
    c as int in {0x9, 0xA, 0xB, 0xC, 0xD, 0x20, 0x85, 0xA0, 0x1680, 0x2000, 0x2001, 0x2002, 0x2003, 0x2004, 0x2005,
                 0x2006, 0x2007, 0x2008, 0x2009, 0x200A, 0x2028, 0x2029, 0x202F, 0x205F, 0x3000}
  }

  ghost predicate White(s: string) {
    forall k :: 0 <= k < |s| ==> WhiteChar(s[k])
  }

  /** What is trimmed, and what ends a name, is exactly white space. */
  lemma SpaceIsWhite(c: char)
    ensures IsSpace(c) <==> WhiteChar(c)
  {
  }

  lemma WhiteIsSpaces(s: string)
    ensures White(s) <==> AllSpace(s)
  {
    hide IsSpace, WhiteChar;
    forall k | 0 <= k < |s| ensures IsSpace(s[k]) <==> WhiteChar(s[k]) {
      SpaceIsWhite(s[k]);
    }
  }

  // ---------------------------------------------------------------------
  // Trimming
  // ---------------------------------------------------------------------

  ghost predicate AllSpace(s: string) {
    forall k :: 0 <= k < |s| ==> IsSpace(s[k])
  }

  ghost predicate Bare(s: string) {
    s != "" ==> !IsSpace(s[0]) && !IsSpace(s[|s| - 1])
  }

  lemma {:induction false} StartCut(p: string, t: string)
    requires AllSpace(p) && (t == "" || !IsSpace(t[0]))
    ensures TrimStart(p + t) == t
  {
    hide IsSpace;
    if p == "" {
      assert p + t == t;
    } else {
      assert (p + t)[0] == p[0] && (p + t)[1..] == p[1..] + t;
      StartCut(p[1..], t);
    }
  }

  lemma {:induction false} EndCut(t: string, q: string)
    requires AllSpace(q) && (t == "" || !IsSpace(t[|t| - 1]))
    ensures TrimEnd(t + q) == t
  {
    hide IsSpace;
    if q == "" {
      assert t + q == t;
    } else {
      var n := |q| - 1;
      assert (t + q)[|t + q| - 1] == q[n] && (t + q)[..|t + q| - 1] == t + q[..n];
      EndCut(t, q[..n]);
    }
  }

  /** Trimming cuts off exactly the white space at both ends. */
  lemma TrimIs(p: string, t: string, q: string)
    requires AllSpace(p) && AllSpace(q) && Bare(t)
    ensures Trim(p + t + q) == t
  {
    hide IsSpace, TrimStart, TrimEnd;
    if t == "" {
      assert p + t + q == (p + q) + "";
      assert AllSpace(p + q);
      StartCut(p + q, "");
      EndCut("", "");
      assert "" + "" == "";
    } else {
      assert p + t + q == p + (t + q);
      StartCut(p, t + q);
      EndCut(t, q);
    }
  }

  lemma {:induction false} StartSplits(s: string) returns (p: string)
    ensures AllSpace(p) && s == p + TrimStart(s)
    ensures TrimStart(s) != "" ==> !IsSpace(TrimStart(s)[0])
  {
    hide IsSpace;
    if s != "" && IsSpace(s[0]) {
      var rest := StartSplits(s[1..]);
      p := [s[0]] + rest;
      assert s == [s[0]] + s[1..];
    } else {
      p := "";
      assert s == p + s;
    }
  }

  lemma {:induction false} EndSplits(s: string) returns (q: string)
    ensures AllSpace(q) && s == TrimEnd(s) + q
    ensures TrimEnd(s) != "" ==> !IsSpace(TrimEnd(s)[|TrimEnd(s)| - 1])
  {
    hide IsSpace;
    if s != "" && IsSpace(s[|s| - 1]) {
      var rest := EndSplits(s[..|s| - 1]);
      q := rest + [s[|s| - 1]];
      assert s == s[..|s| - 1] + [s[|s| - 1]];
    } else {
      q := "";
      assert s == s + q;
    }
  }

  lemma TrimSplits(s: string) returns (p: string, q: string)
    ensures AllSpace(p) && AllSpace(q) && Bare(Trim(s)) && s == p + Trim(s) + q
  {
    hide IsSpace, TrimStart, TrimEnd;
    p := StartSplits(s);
    q := EndSplits(TrimStart(s));
    Assoc(p, TrimEnd(TrimStart(s)), q);
    if Trim(s) != "" {
      assert TrimStart(s)[0] == Trim(s)[0];
    }
  }

  // ---------------------------------------------------------------------
  // Lines that are skipped
  // ---------------------------------------------------------------------

  /** White space, or a comment behind white space. */
  ghost predicate Skippable(line: string) {
    White(line) || exists k :: 0 <= k < |line| && White(line[..k]) && line[k] == '#'
  }

  lemma OneFirstOther(line: string, i: nat, j: nat)
    requires i < |line| && AllSpace(line[..i]) && !IsSpace(line[i])
    requires j < |line| && AllSpace(line[..j]) && !IsSpace(line[j])
    ensures i == j
  {
    hide IsSpace;
    PrefixSpaces(line, i);
    PrefixSpaces(line, j);
  }

  lemma PrefixSpaces(line: string, i: nat)
    requires i <= |line| && AllSpace(line[..i])
    ensures forall m :: 0 <= m < i ==> IsSpace(line[m])
  {
    hide IsSpace;
    assert forall m :: 0 <= m < i ==> line[..i][m] == line[m];
  }

  lemma SpacesJoined(p: string, q: string)
    requires AllSpace(p) && AllSpace(q)
    ensures AllSpace(p + q)
  {
  }

  lemma FirstOther(line: string, p: string, t: string, q: string, k: nat)
    requires line == p + t + q && AllSpace(p) && AllSpace(q) && Bare(t)
    requires k < |line| && AllSpace(line[..k]) && !IsSpace(line[k])
    ensures t != "" && t[0] == line[k]
  {
    hide IsSpace;
    SpacesJoined(p, q);
    assert t == "" ==> line == p + q;
    assert t != "";
    assert line[|p|] == t[0] && line[..|p|] == p;
    OneFirstOther(line, |p|, k);
  }

  /** A line is skipped exactly when it is white space or a comment. */
  lemma SkippedExactly(line: string)
    ensures ParseLine(line) == Blank <==> Skippable(line)
  {
    var p, q := TrimSplits(line);
    var t := Trim(line);
    hide Trim, FromBase64;
    assert !IsSpace('#');
    WhiteIsSpaces(line);
    if t == "" {
      assert line == p + q;
      hide IsSpace;
      assert AllSpace(line);
    } else if t[0] == '#' {
      hide IsSpace;
      assert line[|p|] == '#' && line[..|p|] == p;
      WhiteIsSpaces(line[..|p|]);
    } else {
      hide IsSpace;
      assert line[|p|] == t[0];
      if k :| 0 <= k < |line| && White(line[..k]) && line[k] == '#' {
        WhiteIsSpaces(line[..k]);
        FirstOther(line, p, t, q, k);
      }
    }
  }

  lemma OnlyTrimCounts(a: string, b: string)
    requires Trim(a) == Trim(b)
    ensures ParseLine(a) == ParseLine(b)
  {
    hide Trim, FirstSpace, FromBase64;
  }

  /** A carriage return at the end of a line does not matter. */
  lemma ReturnDoesNotMatter(line: string)
    ensures ParseLine(StripReturn(line)) == ParseLine(line)
  {
    assert IsSpace('\r');
    hide IsSpace, Trim, ParseLine;
    if StripReturn(line) != line {
      var p, q := TrimSplits(StripReturn(line));
      var t := Trim(StripReturn(line));
      assert line == p + t + q + ['\r'];
      Assoc(p + t, q, ['\r']);
      TrimIs(p, t, q + ['\r']);
      OnlyTrimCounts(StripReturn(line), line);
    }
  }

  lemma {:induction false} LineNumbersShift(lines: seq<string>, n: nat)
    ensures ParseRows(lines, n + 1)
         == match ParseRows(lines, n)
            case Ok(rows) => Ok(rows)
            case Err(e) => Err(ParseError(e.line + 1, e.reason))
    ensures ParseRows(lines, n).Err? ==> ParseRows(lines, n).error.line >= n
  {
    hide ParseLine;
    if lines != [] {
      LineNumbersShift(lines[1..], n + 1);
    }
  }

  /** Errors behind the first `at` lines move down by one. */
  function MovedDown(r: Result<seq<Row>, ParseError>, at: nat): Result<seq<Row>, ParseError> {
    match r
    case Ok(rows) => Ok(rows)
    case Err(e) => Err(ParseError(if e.line <= at then e.line else e.line + 1, e.reason))
  }

  lemma {:induction false} BlankInserted(a: seq<string>, line: string, b: seq<string>, n: nat)
    requires ParseLine(line) == Blank && n >= 1
    ensures ParseRows(a + ([line] + b), n) == MovedDown(ParseRows(a + b, n), n - 1 + |a|)
  {
    hide ParseLine;
    if a == [] {
      assert a + ([line] + b) == [line] + b && a + b == b && ([line] + b)[1..] == b;
      LineNumbersShift(b, n);
    } else {
      assert (a + ([line] + b))[0] == a[0] && (a + ([line] + b))[1..] == a[1..] + ([line] + b);
      assert (a + b)[0] == a[0] && (a + b)[1..] == a[1..] + b;
      BlankInserted(a[1..], line, b, n + 1);
    }
  }

  /** Whole lines: nothing, or a text that ends in a line end. */
  predicate WholeLines(a: string) {
    a == "" || a[|a| - 1] == '\n'
  }

  lemma FirstOfLines(content: string)
    requires FirstNewline(content) < |content|
    ensures var k := FirstNewline(content);
            Lines(content) == [StripReturn(content[..k])] + Lines(content[k + 1..])
  {
    hide StripReturn, FirstNewline;
  }

  lemma NoLines()
    ensures Lines("") == []
  {
  }

  lemma FirstNewlineAt(a: string, b: string, k: nat)
    requires k < |a| && a[k] == '\n' && '\n' !in a[..k]
    ensures FirstNewline(a + b) == k
  {
    var s := a + b;
    assert s[k] == '\n';
    assert forall j :: 0 <= j < k ==> s[j] == a[..k][j];
  }

  lemma {:induction false} LinesAppend(a: string, b: string)
    requires WholeLines(a)
    ensures Lines(a + b) == Lines(a) + Lines(b)
    decreases |a|
  {
    hide StripReturn, Lines, FirstNewline;
    if a == "" {
      NoLines();
      assert a + b == b && [] + Lines(b) == Lines(b);
    } else {
      var k := NewlineIn(a);
      assert a[|a| - 1] == '\n';
      assert '\n' in a;
      FirstNewlineAt(a, b, k);
      FirstOfLines(a);
      FirstOfLines(a + b);
      assert (a + b)[..k] == a[..k] && (a + b)[k + 1..] == a[k + 1..] + b;
      assert WholeLines(a[k + 1..]);
      LinesAppend(a[k + 1..], b);
      Assoc([StripReturn(a[..k])], Lines(a[k + 1..]), Lines(b));
    }
  }

  lemma OneLine(line: string, b: string)
    requires '\n' !in line
    ensures Lines(line + ("\n" + b)) == [StripReturn(line)] + Lines(b)
  {
    hide StripReturn, Lines, FirstNewline;
    var s, a := line + ("\n" + b), line + "\n";
    assert a[..|line|] == line && s == a + b;
    FirstNewlineAt(a, b, |line|);
    FirstOfLines(s);
    assert s[..|line|] == line && s[|line| + 1..] == b;
  }

  /**
    A line of white space, or whose first other character is `#`, may be put
    between any two lines of a text: the rows stay as they are, and only the
    line number of an error behind it moves.
   */
  lemma SkippedLine(a: string, line: string, b: string)
    requires WholeLines(a) && '\n' !in line && Skippable(line)
    ensures ParseRows(Lines(a + (line + ("\n" + b))), 1) == MovedDown(ParseRows(Lines(a + b), 1), |Lines(a)|)
  {
    hide ParseLine, Skippable, StripReturn, Lines, ParseRows;
    LinesAppend(a, line + ("\n" + b));
    LinesAppend(a, b);
    OneLine(line, b);
    SkippedExactly(line);
    ReturnDoesNotMatter(line);
    BlankInserted(Lines(a), StripReturn(line), Lines(b), 1);
  }

  lemma OnlyLine(line: string)
    requires line != "" && '\n' !in line
    ensures Lines(line) == [line]
  {
    hide StripReturn;
  }

  lemma UnendedLine(line: string, n: nat)
    requires line != "" && '\n' !in line
    ensures ParseRows(Lines(line + "\n"), n) == ParseRows(Lines(line), n)
  {
    hide ParseLine, StripReturn, FirstNewline, Lines;
    OnlyLine(line);
    NoLines();
    assert line + "\n" == line + ("\n" + "");
    OneLine(line, "");
    ReturnDoesNotMatter(line);
    assert [StripReturn(line)][1..] == [] && [line][1..] == [];
  }

  lemma SameHead(line: string, b: seq<string>, c: seq<string>, n: nat)
    requires ParseRows(b, n + 1) == ParseRows(c, n + 1)
    ensures ParseRows([line] + b, n) == ParseRows([line] + c, n)
  {
    hide ParseLine;
    assert ([line] + b)[1..] == b && ([line] + c)[1..] == c;
  }

  lemma {:induction false} LastLineEnds(content: string, n: nat)
    requires !WholeLines(content)
    ensures ParseRows(Lines(content + "\n"), n) == ParseRows(Lines(content), n)
    decreases |content|
  {
    hide ParseLine, StripReturn, ParseRows, Lines, FirstNewline;
    var k := NewlineIn(content);
    if k == |content| {
      UnendedLine(content, n);
    } else {
      var first, rest := content[..k + 1], content[k + 1..];
      assert content == first + rest && content + "\n" == first + (rest + "\n");
      assert rest != "" && rest[|rest| - 1] == content[|content| - 1];
      LinesAppend(first, rest);
      LinesAppend(first, rest + "\n");
      OneLineText(content, k);
      LastLineEnds(rest, n + 1);
      SameHead(StripReturn(content[..k]), Lines(rest + "\n"), Lines(rest), n);
    }
  }

  lemma NewlineIn(content: string) returns (k: nat)
    ensures k == FirstNewline(content) <= |content| && '\n' !in content[..k]
    ensures if k < |content| then content[k] == '\n' else '\n' !in content
  {
    k := FirstNewline(content);
    assert content[..|content|] == content;
  }

  lemma OneLineText(content: string, k: nat)
    requires k < |content| && content[k] == '\n' && '\n' !in content[..k]
    ensures Lines(content[..k + 1]) == [StripReturn(content[..k])]
  {
    hide StripReturn, Lines;
    var line := content[..k];
    assert content[..k + 1] == line + ("\n" + "");
    OneLine(line, "");
    NoLines();
  }

  /** The last line of a text is read with or without a line end. */
  lemma LastLineEndIsOptional(content: string)
    requires content != "" && content[|content| - 1] != '\n'
    ensures ParseRows(Lines(content + "\n"), 1) == ParseRows(Lines(content), 1)
  {
    LastLineEnds(content, 1);
  }

  // ---------------------------------------------------------------------
  // Rows and errors
  // ---------------------------------------------------------------------

  /** A name, white space, the key's base64 text, and any white space around them. */
  ghost predicate IsRow(line: string, row: Row, p: string, m: string, q: string) {
    && White(p) && White(m) && White(q) && m != ""
    && line == p + (row.name + (m + (Encode(row.key) + q)))
  }

  lemma RowIsRead(line: string, row: Row, p: string, m: string, q: string)
    requires WellFormed(row.name) && IsRow(line, row, p, m, q)
    ensures ParseLine(line) == Entry(row)
  {
    var text := Encode(row.key);
    KeyTextHasNoSpace(row.key);
    WhiteIsSpaces(p);
    WhiteIsSpaces(m);
    WhiteIsSpaces(q);
    hide White, IsSpace, Encode, Decode;
    var t := row.name + (m + text);
    assert line == p + t + q;
    assert t[0] == row.name[0] && t[|t| - 1] == text[|text| - 1];
    hide Trim;
    TrimIs(p, t, q);
    FirstSpaceIs(row.name, m + text);
    assert t[..|row.name|] == row.name && t[|row.name| + 1..] == m[1..] + text;
    assert m[1..] + text == m[1..] + text + "";
    TrimIs(m[1..], text, "");
    KeyReads(row.key);
  }

  lemma ReadIsRow(line: string) returns (p: string, m: string, q: string)
    requires ParseLine(line).Entry?
    ensures WellFormed(ParseLine(line).row.name) && IsRow(line, ParseLine(line).row, p, m, q)
  {
    LineWellFormed(line);
    hide IsSpace, Encode, Decode, White, Trim, WellFormed;
    var t := Trim(line);
    var k, row := FirstSpace(t), ParseLine(line).row;
    var a, z := TrimSplits(line);
    var rest := t[k + 1..];
    var b, y := TrimSplits(rest);
    var c, x := TrimSplits(Trim(rest));
    var text := Trim(Trim(rest));
    DecodeExact(text, row.key);
    p, m, q := a, [t[k]] + (b + c), x + (y + z);
    assert t == row.name + ([t[k]] + rest);
    Rejoin(a, row.name, [t[k]], b, c, text, x, y, z);
    WhiteIsSpaces(p);
    WhiteIsSpaces(m);
    WhiteIsSpaces(q);
  }

  lemma Rejoin(a: string, name: string, s: string, b: string, c: string, text: string, x: string, y: string, z: string)
    ensures a + (name + (s + (b + (c + text + x) + y))) + z == a + (name + ((s + (b + c)) + (text + (x + (y + z)))))
  {
  }

  /** A line is a row exactly when it is a well-formed name, white space and the key's base64 text, in any white space. */
  lemma RowExactly(line: string, row: Row)
    ensures ParseLine(line) == Entry(row) <==> WellFormed(row.name) && exists p, m, q :: IsRow(line, row, p, m, q)
  {
    hide WellFormed, ParseLine, IsRow;
    if ParseLine(line) == Entry(row) {
      var p, m, q := ReadIsRow(line);
    }
    if WellFormed(row.name) {
      if p, m, q :| IsRow(line, row, p, m, q) {
        RowIsRead(line, row, p, m, q);
      }
    }
  }

  /** One word in white space, and no comment. */
  ghost predicate IsOneWord(line: string, word: string, p: string, q: string) {
    && White(p) && White(q) && line == p + word + q
    && WellFormed(word)
  }

  /** The two errors: a line with a name only lacks its key; any other line that is neither skipped nor a row has a bad one. */
  lemma ErrorsExactly(line: string)
    ensures ParseLine(line) == Bad(MissingKey) <==> exists word, p, q :: IsOneWord(line, word, p, q)
    ensures ParseLine(line) == Bad(BadKey) <==>
              && !Skippable(line)
              && (forall word, p, q :: !IsOneWord(line, word, p, q))
              && (forall row: Row, p, m, q :: WellFormed(row.name) ==> !IsRow(line, row, p, m, q))
  {
    SkippedExactly(line);
    hide Skippable;
    if ParseLine(line) == Bad(MissingKey) {
      var p, word, q := OneWordRead(line);
    }
    forall word, p, q | IsOneWord(line, word, p, q) ensures ParseLine(line) == Bad(MissingKey) {
      OneWordIsMissing(line, word, p, q);
    }
    forall row: Row, p, m, q | WellFormed(row.name) && IsRow(line, row, p, m, q) ensures ParseLine(line) == Entry(row) {
      RowIsRead(line, row, p, m, q);
    }
    if ParseLine(line).Entry? {
      var p, m, q := ReadIsRow(line);
    }
    hide ParseLine, IsRow, IsOneWord, WellFormed;
    assert ParseLine(line).Bad? ==> ParseLine(line).reason == MissingKey || ParseLine(line).reason == BadKey;
  }

  lemma OneWordRead(line: string) returns (p: string, word: string, q: string)
    requires ParseLine(line) == Bad(MissingKey)
    ensures IsOneWord(line, word, p, q)
  {
    hide IsSpace, Trim, FromBase64, White;
    word := Trim(line);
    p, q := TrimSplits(line);
    WhiteIsSpaces(p);
    WhiteIsSpaces(q);
  }

  lemma OneWordIsMissing(line: string, word: string, p: string, q: string)
    requires IsOneWord(line, word, p, q)
    ensures ParseLine(line) == Bad(MissingKey)
  {
    hide IsSpace, Trim, FromBase64, White;
    WhiteIsSpaces(p);
    WhiteIsSpaces(q);
    TrimIs(p, word, q);
  }

  ghost predicate NoneBad(lines: seq<string>, j: nat)
    requires j <= |lines|
  {
    forall i :: 0 <= i < j ==> !ParseLine(lines[i]).Bad?
  }

  lemma NoneBadStep(lines: seq<string>, j: nat)
    requires 0 < j <= |lines|
    ensures NoneBad(lines, j) <==> !ParseLine(lines[0]).Bad? && NoneBad(lines[1..], j - 1)
  {
    hide ParseLine;
    assert forall i :: 0 <= i < j - 1 ==> lines[1..][i] == lines[i + 1];
    if !ParseLine(lines[0]).Bad? && NoneBad(lines[1..], j - 1) {
      forall i | 0 <= i < j ensures !ParseLine(lines[i]).Bad? {
        assert i > 0 ==> lines[i] == lines[1..][i - 1];
      }
    }
  }

  /** The error of a text is that of its first bad line, under that line's number. */
  lemma {:induction false} FirstErrorExactly(lines: seq<string>, n: nat, j: nat, reason: Reason)
    ensures ParseRows(lines, n) == Err(ParseError(n + j, reason)) <==>
              j < |lines| && ParseLine(lines[j]) == Bad(reason) && NoneBad(lines, j)
  {
    hide ParseLine;
    if lines != [] {
      LineNumbersShift(lines[1..], n + 1);
      if j > 0 {
        FirstErrorExactly(lines[1..], n + 1, j - 1, reason);
        if j < |lines| {
          NoneBadStep(lines, j);
        }
      }
    }
  }
}
