/**
  The protected-range guard: one walk over the lines of a unified diff decides
  whether an old-file line range was touched.

  The walk is related to what the diff does to the file.  A diff is a list of
  hunks; `Patch` applies it, `Script` spells it out as one edit script of the
  whole old file, and `Landing` is the list of the script's changes that land
  in the range.
 */
module DiffGuard {
  import opened Prelude
  import opened Decimal

  // ---------------------------------------------------------------------
  // Hunk headers: @@ -(\d+)(?:,(\d+))? \+(\d+)(?:,(\d+))? @@
  // ---------------------------------------------------------------------

  function AfterPrefix(s: string, p: string): Option<string> {
    if p <= s then Some(s[|p|..]) else None
  }

  function DigitRun(s: string): (n: nat)
    ensures n <= |s| && AllDigits(s[..n])
    ensures n < |s| ==> !IsDigit(s[n])
  {
    if s == [] || !IsDigit(s[0]) then 0
    else
      var n := 1 + DigitRun(s[1..]);
      assert s[..n] == [s[0]] + s[1..][..n - 1];
      n
  }

  /** A number and the text behind it. */
  function Number(s: string): Option<(nat, string)> {
    var n := DigitRun(s);
    if n == 0 then None else Some((Value(s[..n]), s[n..]))
  }

  function SkipCount(s: string): string {
    match AfterPrefix(s, ",")
    case None => s
    case Some(t) => match Number(t) case None => s case Some(p) => p.1
  }

  /** One side of the range: a mark, a start row and an optional count. */
  function Side(s: string, mark: string): Option<(nat, string)> {
    match AfterPrefix(s, mark)
    case None => None
    case Some(t) =>
      match Number(t)
      case None => None
      case Some(p) => Some((p.0, SkipCount(p.1)))
  }

  /** Start rows of the old and the new side, for a line that is a hunk header. */
  function MatchHunk(line: string): Option<(nat, nat)> {
    match Side(line, "@@ -")
    case None => None
    case Some(old_) =>
      match Side(old_.1, " +")
      case None => None
      case Some(new_) => if " @@" <= new_.1 then Some((old_.0, new_.0)) else None
  }

  function CountText(count: Option<nat>): string {
    match count case None => "" case Some(n) => "," + Render(n)
  }

  function SideText(mark: string, start: nat, count: Option<nat>): string {
    mark + Render(start) + CountText(count)
  }

  lemma {:induction false} DigitRunIs(digits: string, rest: string)
    requires AllDigits(digits) && (rest == [] || !IsDigit(rest[0]))
    ensures DigitRun(digits + rest) == |digits|
  {
    if digits == [] {
      assert digits + rest == rest;
    } else {
      assert (digits + rest)[1..] == digits[1..] + rest;
      DigitRunIs(digits[1..], rest);
    }
  }

  lemma NumberOfRender(n: nat, rest: string)
    requires rest == [] || !IsDigit(rest[0])
    ensures Number(Render(n) + rest) == Some((n, rest))
  {
    DigitRunIs(Render(n), rest);
    assert (Render(n) + rest)[..|Render(n)|] == Render(n);
    ValueOfRender(n);
  }

  lemma AfterOwnPrefix(p: string, t: string)
    ensures AfterPrefix(p + t, p) == Some(t)
  {
  }

  lemma CountSkipped(count: Option<nat>, rest: string)
    requires rest != [] && !IsDigit(rest[0]) && rest[0] != ','
    ensures SkipCount(CountText(count) + rest) == rest
    ensures !IsDigit((CountText(count) + rest)[0])
  {
    match count {
      case None => assert CountText(count) + rest == rest;
      case Some(n) =>
        assert CountText(count) + rest == "," + (Render(n) + rest);
        AfterOwnPrefix(",", Render(n) + rest);
        NumberOfRender(n, rest);
    }
  }

  lemma SideOfText(mark: string, start: nat, count: Option<nat>, rest: string)
    requires rest != [] && !IsDigit(rest[0]) && rest[0] != ','
    ensures Side(SideText(mark, start, count) + rest, mark) == Some((start, rest))
  {
    var tail := CountText(count) + rest;
    Assoc(mark + Render(start), CountText(count), rest);
    Assoc(mark, Render(start), tail);
    AfterOwnPrefix(mark, Render(start) + tail);
    CountSkipped(count, rest);
    NumberOfRender(start, tail);
  }

  /** A header as git prints it is read back, with or without the counts. */
  lemma HeaderReads(a: nat, oldCount: Option<nat>, b: nat, newCount: Option<nat>, tail: string)
    ensures MatchHunk(SideText("@@ -", a, oldCount) + (SideText(" +", b, newCount) + (" @@" + tail)))
            == Some((a, b))
  {
    var right := SideText(" +", b, newCount) + (" @@" + tail);
    assert right[0] == ' ';
    SideOfText("@@ -", a, oldCount, right);
    SideOfText(" +", b, newCount, " @@" + tail);
  }

  /** What a hunk header is: the parts of a line that is one. */
  datatype Parts = Parts(oldStart: string, oldCount: string, newStart: string, newCount: string, tail: string)

  predicate IsNumber(s: string) {
    s != "" && AllDigits(s)
  }

  /** Nothing, or a comma and a number. */
  predicate IsCount(s: string) {
    s == "" || (s[0] == ',' && IsNumber(s[1..]))
  }

  predicate IsHeader(line: string, p: Parts) {
    && IsNumber(p.oldStart) && IsCount(p.oldCount) && IsNumber(p.newStart) && IsCount(p.newCount)
    && line == "@@ -" + (p.oldStart + (p.oldCount + (" +" + (p.newStart + (p.newCount + (" @@" + p.tail))))))
  }

  lemma NumberIs(digits: string, rest: string)
    requires IsNumber(digits) && (rest == "" || !IsDigit(rest[0]))
    ensures Number(digits + rest) == Some((Value(digits), rest))
  {
    DigitRunIs(digits, rest);
    assert (digits + rest)[..|digits|] == digits && (digits + rest)[|digits|..] == rest;
  }

  lemma CountIs(count: string, rest: string)
    requires IsCount(count) && rest != "" && !IsDigit(rest[0]) && rest[0] != ','
    ensures SkipCount(count + rest) == rest && !IsDigit((count + rest)[0])
  {
    hide Number;
    if count == "" {
      assert count + rest == rest;
    } else {
      assert count == "," + count[1..];
      Assoc(",", count[1..], rest);
      AfterOwnPrefix(",", count[1..] + rest);
      NumberIs(count[1..], rest);
    }
  }

  lemma SideIs(mark: string, start: string, count: string, rest: string)
    requires IsNumber(start) && IsCount(count) && rest != "" && !IsDigit(rest[0]) && rest[0] != ','
    ensures Side(mark + (start + (count + rest)), mark) == Some((Value(start), rest))
  {
    hide Number, SkipCount;
    AfterOwnPrefix(mark, start + (count + rest));
    CountIs(count, rest);
    NumberIs(start, count + rest);
  }

  lemma HeaderIsMatched(line: string, p: Parts)
    requires IsHeader(line, p)
    ensures MatchHunk(line) == Some((Value(p.oldStart), Value(p.newStart)))
  {
    hide Side;
    var right := " @@" + p.tail;
    var middle := " +" + (p.newStart + (p.newCount + right));
    SideIs("@@ -", p.oldStart, p.oldCount, middle);
    SideIs(" +", p.newStart, p.newCount, right);
  }

  lemma NumberSplits(s: string)
    ensures Number(s).Some? ==>
              var n := DigitRun(s);
              n <= |s| && s == s[..n] + s[n..] && IsNumber(s[..n]) && Number(s) == Some((Value(s[..n]), s[n..]))
  {
  }

  lemma CountSplits(s: string) returns (count: string)
    ensures IsCount(count) && s == count + SkipCount(s)
  {
    count := "";
    assert s == count + s;
    if AfterPrefix(s, ",").Some? && Number(s[1..]).Some? {
      NumberSplits(s[1..]);
      count := "," + s[1..][..DigitRun(s[1..])];
    }
  }

  lemma SideSplits(s: string, mark: string) returns (start: string, count: string)
    requires Side(s, mark).Some?
    ensures IsNumber(start) && IsCount(count)
    ensures Value(start) == Side(s, mark).value.0 && s == mark + (start + (count + Side(s, mark).value.1))
  {
    var t := s[|mark|..];
    assert AfterPrefix(s, mark) == Some(t) && s == mark + t;
    hide SkipCount;
    NumberSplits(t);
    start := t[..DigitRun(t)];
    count := CountSplits(t[DigitRun(t)..]);
    hide Number;
  }

  lemma MatchedIsHeader(line: string) returns (p: Parts)
    requires MatchHunk(line).Some?
    ensures IsHeader(line, p) && MatchHunk(line) == Some((Value(p.oldStart), Value(p.newStart)))
  {
    hide Side;
    var left := Side(line, "@@ -").value;
    var right := Side(left.1, " +").value;
    var oldStart, oldCount := SideSplits(line, "@@ -");
    var newStart, newCount := SideSplits(left.1, " +");
    var tail := right.1[3..];
    assert right.1 == " @@" + tail;
    p := Parts(oldStart, oldCount, newStart, newCount, tail);
  }

  predicate IsHeaderFor(line: string, p: Parts, a: nat, b: nat) {
    IsHeader(line, p) && Value(p.oldStart) == a && Value(p.newStart) == b
  }

  /** A line is taken for a hunk header exactly when it is one, and for the rows its numbers say. */
  lemma HeaderExactly(line: string, a: nat, b: nat)
    ensures MatchHunk(line) == Some((a, b)) <==> exists p :: IsHeaderFor(line, p, a, b)
  {
    if MatchHunk(line) == Some((a, b)) {
      var p := MatchedIsHeader(line);
      assert IsHeaderFor(line, p, a, b);
    }
    forall p | IsHeaderFor(line, p, a, b) ensures MatchHunk(line) == Some((a, b)) {
      HeaderIsMatched(line, p);
    }
    hide MatchHunk, IsHeaderFor;
  }

  // ---------------------------------------------------------------------
  // Lines of the diff's text
  // ---------------------------------------------------------------------

  /** The characters at which `splitlines` breaks. */
  predicate IsBreak(c: char) {
    var n := c as int;
    0xA <= n <= 0xD || 0x1C <= n <= 0x1E || n in [0x85, 0x2028, 0x2029]
  }

  function FirstBreak(s: string): (k: nat)
    ensures k <= |s| && (k < |s| ==> IsBreak(s[k]))
    ensures forall j :: 0 <= j < k ==> !IsBreak(s[j])
  {
    if s == [] || IsBreak(s[0]) then 0 else 1 + FirstBreak(s[1..])
  }

  /** A carriage return and the line feed behind it are one break. */
  function BreakWidth(s: string, k: nat): (w: nat)
    requires k < |s|
    ensures 1 <= w <= |s| - k
  {
    if s[k] == '\r' && k + 1 < |s| && s[k + 1] == '\n' then 2 else 1
  }

  /** What stands behind the first line and its break. */
  function BehindLine(s: string): (rest: string)
    ensures s != "" ==> |rest| < |s|
  {
    var k := FirstBreak(s);
    if k < |s| then s[k + BreakWidth(s, k)..] else ""
  }

  function SplitLines(s: string): seq<string>
    decreases |s|
  {
    if s == "" then [] else [s[..FirstBreak(s)]] + SplitLines(BehindLine(s))
  }

  predicate Unbroken(line: string) {
    forall k :: 0 <= k < |line| ==> !IsBreak(line[k])
  }

  ghost predicate AllUnbroken(lines: seq<string>) {
    forall k :: 0 <= k < |lines| ==> Unbroken(lines[k])
  }

  /** A line and the character that ends it. */
  datatype Piece = Piece(text: string, end: char)

  function Glue(pieces: seq<Piece>): string {
    if pieces == [] then "" else pieces[0].text + ([pieces[0].end] + Glue(pieces[1..]))
  }

  function Texts(pieces: seq<Piece>): seq<string> {
    if pieces == [] then [] else [pieces[0].text] + Texts(pieces[1..])
  }

  /** Lines as the diff's text has them. */
  function Ended(lines: seq<string>): (pieces: seq<Piece>)
    ensures |pieces| == |lines| && forall k :: 0 <= k < |lines| ==> pieces[k] == Piece(lines[k], '\n')
  {
    seq(|lines|, k requires 0 <= k < |lines| => Piece(lines[k], '\n'))
  }

  function PrintLines(lines: seq<string>): string {
    Glue(Ended(lines))
  }

  lemma FirstBreakIs(line: string, c: char, rest: string)
    requires Unbroken(line) && IsBreak(c)
    ensures FirstBreak(line + ([c] + rest)) == |line|
  {
    var s := line + ([c] + rest);
    assert s[|line|] == c;
    assert forall j :: 0 <= j < |line| ==> s[j] == line[j];
  }

  lemma BehindBreak(line: string, c: char, rest: string)
    requires Unbroken(line) && IsBreak(c) && c != '\r'
    ensures BehindLine(line + ([c] + rest)) == rest
  {
    hide IsBreak, Unbroken, FirstBreak;
    var s := line + ([c] + rest);
    FirstBreakIs(line, c, rest);
    assert s[|line|] == c;
    assert s[|line| + 1..] == rest;
  }

  lemma SplitAt(line: string, c: char, rest: string)
    requires Unbroken(line) && IsBreak(c) && c != '\r'
    ensures SplitLines(line + ([c] + rest)) == [line] + SplitLines(rest)
  {
    hide IsBreak, Unbroken, FirstBreak, BehindLine;
    var s := line + ([c] + rest);
    FirstBreakIs(line, c, rest);
    BehindBreak(line, c, rest);
    assert s[..|line|] == line;
  }

  ghost predicate CleanPieces(pieces: seq<Piece>) {
    forall k :: 0 <= k < |pieces| ==> Unbroken(pieces[k].text) && IsBreak(pieces[k].end) && pieces[k].end != '\r'
  }

  lemma {:induction false} SplitOfGlued(pieces: seq<Piece>)
    requires CleanPieces(pieces)
    ensures SplitLines(Glue(pieces)) == Texts(pieces)
  {
    hide SplitLines, IsBreak, Unbroken;
    if pieces != [] {
      assert Unbroken(pieces[0].text);
      SplitOfGlued(pieces[1..]);
      SplitAt(pieces[0].text, pieces[0].end, Glue(pieces[1..]));
    } else {
      NothingSplit();
    }
  }

  lemma NothingSplit()
    ensures SplitLines("") == []
  {
  }

  lemma {:induction false} TextsOfEnded(lines: seq<string>)
    ensures Texts(Ended(lines)) == lines
  {
    if lines != [] {
      TextsOfEnded(lines[1..]);
      assert Ended(lines)[1..] == Ended(lines[1..]);
      assert lines == [lines[0]] + lines[1..];
    }
  }

  lemma {:induction false} PiecesUnbroken(s: string)
    ensures AllUnbroken(SplitLines(s))
    decreases |s|
  {
    hide IsBreak, BehindLine;
    if s != "" {
      PiecesUnbroken(BehindLine(s));
      assert Unbroken(s[..FirstBreak(s)]);
    }
  }

  /** The printed lines are split as they were exactly when none of them holds a break of its own. */
  lemma SplitOfPrinted(lines: seq<string>)
    ensures SplitLines(PrintLines(lines)) == lines <==> AllUnbroken(lines)
  {
    PiecesUnbroken(PrintLines(lines));
    assert IsBreak('\n');
    hide SplitLines, IsBreak, Unbroken;
    if AllUnbroken(lines) {
      assert forall k :: 0 <= k < |lines| ==> Unbroken(lines[k]);
      SplitOfGlued(Ended(lines));
      TextsOfEnded(lines);
    }
  }

  /** Each of the characters that end a line does end one, alone or as CR LF. */
  lemma EveryBreakBreaks(line: string, c: char, behind: string)
    requires forall k :: 0 <= k < |line| ==>
               line[k] as int !in {0xA, 0xB, 0xC, 0xD, 0x1C, 0x1D, 0x1E, 0x85, 0x2028, 0x2029}
    requires c as int in {0xA, 0xB, 0xC, 0xD, 0x1C, 0x1D, 0x1E, 0x85, 0x2028, 0x2029}
    ensures c != '\r' || behind == "" || behind[0] != '\n' ==>
              SplitLines(line + ([c] + behind)) == [line] + SplitLines(behind)
    ensures SplitLines(line + (['\r'] + (['\n'] + behind))) == [line] + SplitLines(behind)
  {
    assert Unbroken(line) && IsBreak(c) && IsBreak('\r');
    hide IsBreak, Unbroken;
    if c != '\r' {
      SplitAt(line, c, behind);
    } else if behind == "" || behind[0] != '\n' {
      SplitAtReturn(line, behind, 1);
    }
    SplitAtReturn(line, ['\n'] + behind, 2);
    assert (['\n'] + behind)[1..] == behind;
  }

  lemma SplitAtReturn(line: string, behind: string, width: nat)
    requires Unbroken(line) && IsBreak('\r')
    requires width == if behind != "" && behind[0] == '\n' then 2 else 1
    ensures SplitLines(line + (['\r'] + behind)) == [line] + SplitLines(behind[width - 1..])
  {
    hide IsBreak, Unbroken, FirstBreak;
    var s := line + (['\r'] + behind);
    FirstBreakIs(line, '\r', behind);
    assert s[|line|] == '\r' && s[|line| + 1..] == behind;
    assert s[..|line|] == line;
    assert s[|line| + width..] == behind[width - 1..];
    assert behind != "" ==> s[|line| + 1] == behind[0];
    assert BreakWidth(s, |line|) == width;
    assert BehindLine(s) == behind[width - 1..];
  }

  lemma PrintedLine(line: string, more: seq<string>)
    ensures PrintLines([line] + more) == line + ("\n" + PrintLines(more)) && PrintLines([]) == ""
  {
    var pieces := Ended([line] + more);
    assert pieces[1..] == Ended(more);
  }

  /** Lines of a tab and printable ASCII characters are split off whole. */
  lemma SplitOfPlain(lines: seq<string>)
    requires forall i, k :: 0 <= i < |lines| && 0 <= k < |lines[i]| ==>
               lines[i][k] == '\t' || 0x20 <= lines[i][k] as int <= 0x7E
    ensures SplitLines(PrintLines(lines)) == lines
  {
    forall i | 0 <= i < |lines| ensures Unbroken(lines[i]) {
    }
    hide SplitLines, PrintLines;
    SplitOfPrinted(lines);
  }

  /** Nothing but what `strip` cuts off. */
  predicate Blank(s: string) {
    forall k :: 0 <= k < |s| ==>
      var n := s[k] as int;
      0x9 <= n <= 0xD || 0x1C <= n <= 0x20 || n in [0x85, 0xA0, 0x1680, 0x2028, 0x2029, 0x202F, 0x205F, 0x3000]
      || 0x2000 <= n <= 0x200A
  }

  // ---------------------------------------------------------------------
  // The walk
  // ---------------------------------------------------------------------

  /** What the walk takes a diff line for. */
  datatype Kind = Header(oldStart: nat, newStart: nat) | Minus | Plus | Space | Other

  datatype Line = Line(kind: Kind, text: string)

  function KindOf(line: string): Kind {
    match MatchHunk(line)
    case Some(h) => Header(h.0, h.1)
    case None =>
      if "-" <= line && !("---" <= line) then Minus
      else if "+" <= line && !("+++" <= line) then Plus
      else if " " <= line then Space
      else Other
  }

  /** What any other line is taken for, by its first characters. */
  lemma KindByCharacters(line: string)
    requires MatchHunk(line) == None
    ensures var marker := (c: char) => |line| >= 3 && line[1] == c && line[2] == c;
            KindOf(line) ==
              if line == "" then Other
              else if line[0] == '-' then (if marker('-') then Other else Minus)
              else if line[0] == '+' then (if marker('+') then Other else Plus)
              else if line[0] == ' ' then Space
              else Other
  {
    hide MatchHunk;
    if |line| >= 3 {
      assert line == [line[0], line[1], line[2]] + line[3..];
    }
  }

  function Read(lines: seq<string>): seq<Line> {
    if lines == [] then [] else [Line(KindOf(lines[0]), lines[0])] + Read(lines[1..])
  }

  /** Where the walk stands; `Outside` until the first hunk header. */
  datatype Cursor = Outside | At(oldLine: int, newLine: int)

  type Flagged = (int, string)

  function Step(c: Cursor, kind: Kind): Cursor {
    if kind.Header? then At(kind.oldStart, kind.newStart)
    else if c.Outside? then c
    else match kind
      case Minus => At(c.oldLine + 1, c.newLine)
      case Plus => At(c.oldLine, c.newLine + 1)
      case Space => At(c.oldLine + 1, c.newLine + 1)
      case _ => c
  }

  function Flag(c: Cursor, line: Line, lo: int, hi: int): seq<Flagged> {
    if c.At? && (line.kind.Minus? || line.kind.Plus?) && lo <= c.oldLine <= hi
    then [(c.oldLine, line.text)]
    else []
  }

  function Flags(lines: seq<Line>, c: Cursor, lo: int, hi: int): seq<Flagged> {
    if lines == [] then []
    else Flag(c, lines[0], lo, hi) + Flags(lines[1..], Step(c, lines[0].kind), lo, hi)
  }

  function CursorAfter(lines: seq<Line>, c: Cursor): Cursor {
    if lines == [] then c else CursorAfter(lines[1..], Step(c, lines[0].kind))
  }

  lemma {:induction false} CursorAppend(a: seq<Line>, b: seq<Line>, c: Cursor)
    ensures CursorAfter(a + b, c) == CursorAfter(b, CursorAfter(a, c))
  {
    hide Step;
    if a == [] {
      assert a + b == b;
    } else {
      assert (a + b)[1..] == a[1..] + b;
      CursorAppend(a[1..], b, Step(c, a[0].kind));
    }
  }

  lemma CursorOneMore(lines: seq<Line>, i: nat)
    requires i < |lines|
    ensures CursorAfter(lines[..i + 1], Outside) == Step(CursorAfter(lines[..i], Outside), lines[i].kind)
  {
    CursorAppend(lines[..i], [lines[i]], Outside);
    assert lines[..i + 1] == lines[..i] + [lines[i]];
    assert [lines[i]][1..] == [];
  }

  predicate NoAt(s: string) {
    forall k :: 0 <= k < |s| ==> s[k] != '@'
  }

  lemma NoHeader(line: string)
    requires NoAt(line)
    ensures !KindOf(line).Header?
  {
    assert "@@ -"[0] == '@';
  }

  /** A text without a hunk header flags nothing, so a blank one may pass unread. */
  lemma {:induction false} NoAtFlagsNothing(s: string, lo: int, hi: int)
    requires NoAt(s)
    ensures Flags(Read(SplitLines(s)), Outside, lo, hi) == []
    decreases |s|
  {
    hide KindOf, IsBreak, FirstBreak;
    if s != "" {
      var line, rest := s[..FirstBreak(s)], BehindLine(s);
      NoHeader(line);
      NoAtFlagsNothing(rest, lo, hi);
      assert SplitLines(s) == [line] + SplitLines(rest);
      assert SplitLines(s)[1..] == SplitLines(rest);
    }
  }

  lemma BlankFlagsNothing(diff: string, lo: int, hi: int)
    requires Blank(diff)
    ensures Flags(Read(SplitLines(diff)), Outside, lo, hi) == []
  {
    NoAtFlagsNothing(diff, lo, hi);
  }

  /** The whole check: a blank diff passes at once, any other is split into lines and walked. */
  method Check(diff: string, lo: int, hi: int) returns (ok: bool, bad: seq<Flagged>)
    ensures bad == Flags(Read(SplitLines(diff)), Outside, lo, hi)
    ensures ok <==> bad == []
  {
    if Blank(diff) {
      BlankFlagsNothing(diff, lo, hi);
      return true, [];
    }
    ghost var cursors;
    bad, cursors := Walk(Read(SplitLines(diff)), lo, hi);
    ok := bad == [];
  }

  /** `cursors` are the values of the two counters when each line is read. */
  method Walk(lines: seq<Line>, lo: int, hi: int) returns (bad: seq<Flagged>, ghost cursors: seq<Cursor>)
    ensures bad == Flags(lines, Outside, lo, hi)
    ensures |cursors| == |lines| && forall i :: 0 <= i < |lines| ==> cursors[i] == CursorAfter(lines[..i], Outside)
  {
    var oldLine: Option<int>, newLine: int := None, 0;
    bad, cursors := [], [];
    WalkStarts(lines);
    hide CursorAfter;
    for i := 0 to |lines|
      invariant (if oldLine.None? then Outside else At(oldLine.value, newLine)) == CursorAfter(lines[..i], Outside)
      invariant bad + Flags(lines[i..], CursorAfter(lines[..i], Outside), lo, hi) == Flags(lines, Outside, lo, hi)
      invariant |cursors| == i && forall k :: 0 <= k < i ==> cursors[k] == CursorAfter(lines[..k], Outside)
    {
      ghost var cursor := CursorAfter(lines[..i], Outside);
      ghost var was := bad;
      cursors := cursors + [cursor];
      CursorOneMore(lines, i);
      var line := lines[i];
      assert lines[i..][1..] == lines[i + 1..];
      if line.kind.Header? {
        oldLine, newLine := Some(line.kind.oldStart), line.kind.newStart;
      } else if oldLine.Some? {
        if line.kind.Minus? {
          if lo <= oldLine.value <= hi {
            bad := bad + [(oldLine.value, line.text)];
          }
          oldLine := Some(oldLine.value + 1);
        } else if line.kind.Plus? {
          if lo <= oldLine.value <= hi {
            bad := bad + [(oldLine.value, line.text)];
          }
          newLine := newLine + 1;
        } else if line.kind.Space? {
          oldLine, newLine := Some(oldLine.value + 1), newLine + 1;
        }
      }
      assert bad == was + Flag(cursor, line, lo, hi);
      Assoc(was, Flag(cursor, line, lo, hi), Flags(lines[i + 1..], Step(cursor, line.kind), lo, hi));
    }
  }

  lemma WalkStarts(lines: seq<Line>)
    ensures lines[0..] == lines && CursorAfter(lines[..0], Outside) == Outside
  {
  }

  // ---------------------------------------------------------------------
  // What a diff means
  // ---------------------------------------------------------------------

  /** A body line of a hunk; `Note` is the marker for a missing final newline. */
  datatype Change = Ctx(text: string) | Del(text: string) | Add(text: string) | Note {
    predicate InOld() { Ctx? || Del? }
    predicate InNew() { Ctx? || Add? }
  }

  datatype Hunk = Hunk(oldStart: nat, newStart: nat, header: string, body: seq<Change>)

  function LineText(c: Change): string {
    match c
    case Ctx(t) => " " + t
    case Del(t) => "-" + t
    case Add(t) => "+" + t
    case Note => "\\ No newline at end of file"
  }

  function BodyText(body: seq<Change>): seq<string> {
    if body == [] then [] else [LineText(body[0])] + BodyText(body[1..])
  }

  function DiffText(preamble: seq<string>, hunks: seq<Hunk>): seq<string> {
    if preamble != [] then [preamble[0]] + DiffText(preamble[1..], hunks)
    else if hunks != [] then [hunks[0].header] + BodyText(hunks[0].body) + DiffText([], hunks[1..])
    else []
  }

  /** Only the hunks' own first lines read as hunk headers. */
  ghost predicate HeadersRight(preamble: seq<string>, hunks: seq<Hunk>) {
    && (forall k :: 0 <= k < |preamble| ==> !KindOf(preamble[k]).Header?)
    && (forall k :: 0 <= k < |hunks| ==> KindOf(hunks[k].header) == Header(hunks[k].oldStart, hunks[k].newStart))
  }

  function OldSide(script: seq<Change>): seq<string> {
    if script == [] then []
    else (if script[0].InOld() then [script[0].text] else []) + OldSide(script[1..])
  }

  function NewSide(script: seq<Change>): seq<string> {
    if script == [] then []
    else (if script[0].InNew() then [script[0].text] else []) + NewSide(script[1..])
  }

  /** Old lines between the `done` lines before and the hunk. */
  function Gap(h: Hunk, done: nat): int {
    h.oldStart - 1 - done
  }

  /** The hunk's old side is what the old file holds at the header's row. */
  ghost predicate HunkFits(rest: seq<string>, h: Hunk, done: nat) {
    && 0 <= Gap(h, done) <= |rest|
    && OldSide(h.body) != []
    && OldSide(h.body) <= rest[Gap(h, done)..]
  }

  /** The old file behind the hunk. */
  function Behind(rest: seq<string>, h: Hunk, done: nat): (behind: seq<string>)
    requires HunkFits(rest, h, done)
    ensures rest == rest[..Gap(h, done)] + OldSide(h.body) + behind
  {
    rest[Gap(h, done)..][|OldSide(h.body)|..]
  }

  function DoneAfter(h: Hunk): int {
    h.oldStart - 1 + |OldSide(h.body)|
  }

  /**
    Hunks come in order, do not overlap and have a non-empty old side; `rest`
    is the old file behind its first `done` lines.
   */
  ghost predicate Fits(rest: seq<string>, hunks: seq<Hunk>, done: nat)
    decreases |hunks|
  {
    hunks != [] ==>
      HunkFits(rest, hunks[0], done) && Fits(Behind(rest, hunks[0], done), hunks[1..], DoneAfter(hunks[0]))
  }

  /** The new file behind the lines made of the first `done` old lines. */
  function Patch(rest: seq<string>, hunks: seq<Hunk>, done: nat): seq<string>
    requires Fits(rest, hunks, done)
    decreases |hunks|
  {
    if hunks == [] then rest
    else
      rest[..Gap(hunks[0], done)] + NewSide(hunks[0].body)
      + Patch(Behind(rest, hunks[0], done), hunks[1..], DoneAfter(hunks[0]))
  }

  function Contexts(lines: seq<string>): (cs: seq<Change>) {
    if lines == [] then [] else [Ctx(lines[0])] + Contexts(lines[1..])
  }

  /** The whole edit: the hunks with every line between them kept. */
  function Script(rest: seq<string>, hunks: seq<Hunk>, done: nat): seq<Change>
    requires Fits(rest, hunks, done)
    decreases |hunks|
  {
    if hunks == [] then Contexts(rest)
    else
      Contexts(rest[..Gap(hunks[0], done)]) + hunks[0].body
      + Script(Behind(rest, hunks[0], done), hunks[1..], DoneAfter(hunks[0]))
  }

  /** The changes of a script that land on a row in [lo, hi], as the guard prints them. */
  function Landing(script: seq<Change>, row: int, lo: int, hi: int): seq<Flagged> {
    if script == [] then []
    else
      LandingOne(script[0], row, lo, hi)
      + Landing(script[1..], if script[0].InOld() then row + 1 else row, lo, hi)
  }

  function LandingOne(c: Change, row: int, lo: int, hi: int): seq<Flagged> {
    if (c.Del? || c.Add?) && lo <= row <= hi then [(row, LineText(c))] else []
  }

  // ---------------------------------------------------------------------
  // Sides of a script
  // ---------------------------------------------------------------------

  lemma {:induction false} SidesAppend(a: seq<Change>, b: seq<Change>)
    ensures OldSide(a + b) == OldSide(a) + OldSide(b)
    ensures NewSide(a + b) == NewSide(a) + NewSide(b)
  {
    if a == [] {
      assert a + b == b;
    } else {
      SidesAppend(a[1..], b);
      assert (a + b)[1..] == a[1..] + b;
      Assoc(if a[0].InOld() then [a[0].text] else [], OldSide(a[1..]), OldSide(b));
      Assoc(if a[0].InNew() then [a[0].text] else [], NewSide(a[1..]), NewSide(b));
    }
  }

  lemma {:induction false} SidesOfContexts(lines: seq<string>)
    ensures OldSide(Contexts(lines)) == lines && NewSide(Contexts(lines)) == lines
  {
    if lines != [] {
      SidesOfContexts(lines[1..]);
    }
  }

  /** The script edits the old file into the patched one. */
  lemma {:induction false} SidesOfScript(rest: seq<string>, hunks: seq<Hunk>, done: nat)
    requires Fits(rest, hunks, done)
    ensures OldSide(Script(rest, hunks, done)) == rest
    ensures NewSide(Script(rest, hunks, done)) == Patch(rest, hunks, done)
    decreases |hunks|
  {
    if hunks == [] {
      SidesOfContexts(rest);
    } else {
      var kept := Contexts(rest[..Gap(hunks[0], done)]);
      var behind := Behind(rest, hunks[0], done);
      SidesOfScript(behind, hunks[1..], DoneAfter(hunks[0]));
      SidesOfContexts(rest[..Gap(hunks[0], done)]);
      SidesAppend(kept + hunks[0].body, Script(behind, hunks[1..], DoneAfter(hunks[0])));
      SidesAppend(kept, hunks[0].body);
    }
  }

  // ---------------------------------------------------------------------
  // The walk lists exactly the landing changes
  // ---------------------------------------------------------------------

  /** No changed line reads `---` or `+++` in the diff, which the walk takes for a file header. */
  predicate Unmistakable(c: Change) {
    (c.Del? ==> !("--" <= c.text)) && (c.Add? ==> !("++" <= c.text))
  }

  ghost predicate Safe(script: seq<Change>) {
    forall k :: 0 <= k < |script| ==> Unmistakable(script[k])
  }

  function TrueKind(c: Change): Kind {
    match c case Ctx(_) => Space case Del(_) => Minus case Add(_) => Plus case Note => Other
  }

  /** A body line never reads as a header, and reads as what it is unless it looks like `---` or `+++`. */
  lemma BodyLineRead(c: Change)
    ensures KindOf(LineText(c)) == if Unmistakable(c) then TrueKind(c) else Other
  {
    var t := LineText(c);
    OtherStart(t, "@@ -");
    match c {
      case Ctx(_) => OtherStart(t, "-"); OtherStart(t, "+");
      case Del(text) =>
        OtherStart(t, "+");
        OtherStart(t, " ");
        DoubledMark("-", text);
        assert "-" + "-" + "-" == "---" && "-" + "-" == "--";
      case Add(text) =>
        OtherStart(t, "-");
        OtherStart(t, " ");
        DoubledMark("+", text);
        assert "+" + "+" + "+" == "+++" && "+" + "+" == "++";
      case Note => OtherStart(t, "-"); OtherStart(t, "+"); OtherStart(t, " ");
    }
  }

  lemma OtherStart(t: string, prefix: string)
    requires t != [] && prefix != [] && t[0] != prefix[0]
    ensures !(prefix <= t)
  {
  }

  lemma DoubledMark(mark: string, text: string)
    requires |mark| == 1
    ensures mark + mark + mark <= mark + text <==> mark + mark <= text
  {
    if mark + mark + mark <= mark + text {
      assert (mark + text)[1..] == text;
      assert (mark + text)[..3] == mark + mark + mark;
    }
    if mark + mark <= text {
      assert text == mark + mark + text[2..];
    }
  }

  lemma LandingCons(c: Change, script: seq<Change>, row: int, lo: int, hi: int)
    ensures Landing([c] + script, row, lo, hi)
         == LandingOne(c, row, lo, hi) + Landing(script, if c.InOld() then row + 1 else row, lo, hi)
    ensures |OldSide([c] + script)| == (if c.InOld() then 1 else 0) + |OldSide(script)|
    ensures |NewSide([c] + script)| == (if c.InNew() then 1 else 0) + |NewSide(script)|
  {
    hide LandingOne;
    assert ([c] + script)[1..] == script;
  }

  lemma NothingLanding(row: int, lo: int, hi: int)
    ensures Landing([], row, lo, hi) == [] && OldSide([]) == [] && NewSide([]) == []
  {
  }

  lemma {:induction false} LandingAppend(a: seq<Change>, b: seq<Change>, row: int, lo: int, hi: int)
    ensures Landing(a + b, row, lo, hi) == Landing(a, row, lo, hi) + Landing(b, row + |OldSide(a)|, lo, hi)
  {
    hide LandingOne, Landing, OldSide, NewSide;
    if a == [] {
      NothingLanding(row, lo, hi);
      assert a + b == b;
    } else {
      var c, more := a[0], a[1..];
      var next := if c.InOld() then row + 1 else row;
      assert a == [c] + more && a + b == [c] + (more + b);
      LandingCons(c, more, row, lo, hi);
      LandingCons(c, more + b, row, lo, hi);
      LandingAppend(more, b, next, lo, hi);
      Assoc(LandingOne(c, row, lo, hi), Landing(more, next, lo, hi), Landing(b, row + |OldSide(a)|, lo, hi));
    }
  }

  lemma {:induction false} LandingOfContexts(lines: seq<string>, row: int, lo: int, hi: int)
    ensures Landing(Contexts(lines), row, lo, hi) == []
  {
    if lines != [] {
      LandingOfContexts(lines[1..], row + 1, lo, hi);
    }
  }

  /** The lines of a safe diff as they ought to be read. */
  function TrueLines(body: seq<Change>): seq<Line> {
    if body == [] then [] else [Line(TrueKind(body[0]), LineText(body[0]))] + TrueLines(body[1..])
  }

  function TrueDiff(hunks: seq<Hunk>): seq<Line> {
    if hunks == [] then []
    else [Line(Header(hunks[0].oldStart, hunks[0].newStart), hunks[0].header)]
         + (TrueLines(hunks[0].body) + TrueDiff(hunks[1..]))
  }

  lemma FlagsCons(c: Change, rest: seq<Line>, row: int, newRow: int, lo: int, hi: int)
    ensures Flags([Line(TrueKind(c), LineText(c))] + rest, At(row, newRow), lo, hi)
         == LandingOne(c, row, lo, hi)
            + Flags(rest, At(if c.InOld() then row + 1 else row, if c.InNew() then newRow + 1 else newRow), lo, hi)
  {
    hide LineText;
    assert ([Line(TrueKind(c), LineText(c))] + rest)[1..] == rest;
  }

  lemma TrueLinesCons(c: Change, body: seq<Change>)
    ensures TrueLines([c] + body) == [Line(TrueKind(c), LineText(c))] + TrueLines(body)
  {
    hide LineText;
    assert ([c] + body)[1..] == body;
  }

  lemma {:induction false} WalkBody(body: seq<Change>, rest: seq<Line>, row: int, newRow: int, lo: int, hi: int)
    ensures Flags(TrueLines(body) + rest, At(row, newRow), lo, hi)
            == Landing(body, row, lo, hi)
               + Flags(rest, At(row + |OldSide(body)|, newRow + |NewSide(body)|), lo, hi)
  {
    assert TrueLines([]) == [];
    hide LandingOne, Landing, OldSide, NewSide, Flags, TrueLines, LineText, TrueKind;
    if body == [] {
      NothingLanding(row, lo, hi);
      assert [] + rest == rest && [] + Flags(rest, At(row, newRow), lo, hi) == Flags(rest, At(row, newRow), lo, hi);
    } else {
      var c, more := body[0], body[1..];
      var next, newNext := if c.InOld() then row + 1 else row, if c.InNew() then newRow + 1 else newRow;
      assert body == [c] + more;
      TrueLinesCons(c, more);
      Assoc([Line(TrueKind(c), LineText(c))], TrueLines(more), rest);
      FlagsCons(c, TrueLines(more) + rest, row, newRow, lo, hi);
      LandingCons(c, more, row, lo, hi);
      WalkBody(more, rest, next, newNext, lo, hi);
      Assoc(LandingOne(c, row, lo, hi), Landing(more, next, lo, hi),
            Flags(rest, At(row + |OldSide(body)|, newRow + |NewSide(body)|), lo, hi));
    }
  }

  lemma WalkHunk(hunks: seq<Hunk>, c: Cursor, lo: int, hi: int)
    requires hunks != []
    ensures var h := hunks[0];
            Flags(TrueDiff(hunks), c, lo, hi)
            == Landing(h.body, h.oldStart, lo, hi)
               + Flags(TrueDiff(hunks[1..]), At(DoneAfter(h) + 1, h.newStart + |NewSide(h.body)|), lo, hi)
  {
    var h, rest := hunks[0], TrueDiff(hunks[1..]);
    var lines := TrueDiff(hunks);
    assert lines == [Line(Header(h.oldStart, h.newStart), h.header)] + (TrueLines(h.body) + rest);
    assert lines[1..] == TrueLines(h.body) + rest;
    assert Flags(lines, c, lo, hi) == [] + Flags(lines[1..], At(h.oldStart, h.newStart), lo, hi);
    hide Flags, TrueLines, TrueDiff, Landing, OldSide, NewSide;
    WalkBody(h.body, rest, h.oldStart, h.newStart, lo, hi);
  }

  lemma FitsBehind(rest: seq<string>, hunks: seq<Hunk>, done: nat)
    requires hunks != [] && Fits(rest, hunks, done)
    ensures HunkFits(rest, hunks[0], done) && DoneAfter(hunks[0]) >= 0
    ensures Fits(Behind(rest, hunks[0], done), hunks[1..], DoneAfter(hunks[0]))
  {
  }

  lemma WalkNothing(rest: seq<string>, done: nat, c: Cursor, lo: int, hi: int)
    ensures Fits(rest, [], done) && Flags(TrueDiff([]), c, lo, hi) == Landing(Script(rest, [], done), done + 1, lo, hi)
  {
    LandingOfContexts(rest, done + 1, lo, hi);
    hide Landing, Contexts;
  }

  lemma {:induction false} WalkHunks(rest: seq<string>, hunks: seq<Hunk>, done: nat, c: Cursor, lo: int, hi: int)
    requires Fits(rest, hunks, done)
    ensures Flags(TrueDiff(hunks), c, lo, hi) == Landing(Script(rest, hunks, done), done + 1, lo, hi)
    decreases |hunks|
  {
    hide Landing, OldSide, NewSide, Flags, Script, TrueLines, TrueDiff, Fits, HunkFits, DoneAfter, Behind;
    if hunks == [] {
      WalkNothing(rest, done, c, lo, hi);
    } else {
      var h := hunks[0];
      FitsBehind(rest, hunks, done);
      WalkHunk(hunks, c, lo, hi);
      WalkHunks(Behind(rest, h, done), hunks[1..], DoneAfter(h), At(DoneAfter(h) + 1, h.newStart + |NewSide(h.body)|), lo, hi);
      LandingOfScript(rest, hunks, done, lo, hi);
    }
  }

  lemma LandingOfScript(rest: seq<string>, hunks: seq<Hunk>, done: nat, lo: int, hi: int)
    requires hunks != [] && Fits(rest, hunks, done)
    ensures var h := hunks[0];
            Landing(Script(rest, hunks, done), done + 1, lo, hi)
            == Landing(h.body, h.oldStart, lo, hi)
               + Landing(Script(Behind(rest, h, done), hunks[1..], DoneAfter(h)), DoneAfter(h) + 1, lo, hi)
  {
    var h := hunks[0];
    var behind := Script(Behind(rest, h, done), hunks[1..], DoneAfter(h));
    hide Landing, OldSide, Contexts;
    LandingOfHunk(rest[..Gap(h, done)], h.body, behind, done + 1, lo, hi);
  }

  lemma LandingOfHunk(kept: seq<string>, body: seq<Change>, behind: seq<Change>, row: int, lo: int, hi: int)
    ensures Landing(Contexts(kept) + body + behind, row, lo, hi)
            == Landing(body, row + |kept|, lo, hi) + Landing(behind, row + |kept| + |OldSide(body)|, lo, hi)
  {
    hide Landing, OldSide, NewSide, Contexts;
    var cs := Contexts(kept);
    SidesOfContexts(kept);
    SidesAppend(cs, body);
    LandingAppend(cs + body, behind, row, lo, hi);
    LandingAppend(cs, body, row, lo, hi);
    LandingOfContexts(kept, row, lo, hi);
    assert [] + Landing(body, row + |kept|, lo, hi) == Landing(body, row + |kept|, lo, hi);
  }
}
