/**
  What passing the protected-range guard means for the file: the range is in the
  new file unchanged and in one piece.
 */
module DiffSoundness {
  import opened Prelude
  import opened DiffGuard
  import Decimal

  // ---------------------------------------------------------------------
  // The lines of a safe diff are read for what they are
  // ---------------------------------------------------------------------

  ghost predicate SafeHunks(hunks: seq<Hunk>) {
    forall k :: 0 <= k < |hunks| ==> Safe(hunks[k].body)
  }

  /** A single-file diff of `old_`: file header lines, then hunks. */
  ghost predicate IsDiff(preamble: seq<string>, hunks: seq<Hunk>, old_: seq<string>) {
    HeadersRight(preamble, hunks) && Fits(old_, hunks, 0)
  }

  lemma {:induction false} ReadAppend(a: seq<string>, b: seq<string>)
    ensures Read(a + b) == Read(a) + Read(b)
  {
    hide KindOf;
    if a == [] {
      assert a + b == b;
    } else {
      assert (a + b)[1..] == a[1..] + b;
      ReadAppend(a[1..], b);
    }
  }

  lemma {:induction false} ReadBody(body: seq<Change>)
    requires Safe(body)
    ensures Read(BodyText(body)) == TrueLines(body)
  {
    hide KindOf, LineText;
    if body != [] {
      assert Unmistakable(body[0]);
      BodyLineRead(body[0]);
      ReadBody(body[1..]);
    }
  }

  lemma {:induction false} ReadHunks(hunks: seq<Hunk>)
    requires HeadersRight([], hunks) && SafeHunks(hunks)
    ensures Read(DiffText([], hunks)) == TrueDiff(hunks)
  {
    hide KindOf;
    if hunks != [] {
      var h, more := hunks[0], DiffText([], hunks[1..]);
      assert Safe(h.body);
      assert DiffText([], hunks) == [h.header] + BodyText(h.body) + more;
      ReadHunks(hunks[1..]);
      ReadBody(h.body);
      ReadAppend(BodyText(h.body), more);
      Assoc([h.header], BodyText(h.body), more);
      assert ([h.header] + (BodyText(h.body) + more))[1..] == BodyText(h.body) + more;
    }
  }

  /** Nothing before the first hunk header is looked at. */
  lemma {:induction false} PreambleSkipped(preamble: seq<string>, hunks: seq<Hunk>, lo: int, hi: int)
    requires HeadersRight(preamble, hunks)
    ensures Flags(Read(DiffText(preamble, hunks)), Outside, lo, hi) == Flags(Read(DiffText([], hunks)), Outside, lo, hi)
  {
    hide KindOf;
    if preamble != [] {
      assert DiffText(preamble, hunks)[1..] == DiffText(preamble[1..], hunks);
      PreambleSkipped(preamble[1..], hunks, lo, hi);
    }
  }

  /** What the guard flags in a safe diff is exactly what lands in the range. */
  lemma FlagsAreLandings(preamble: seq<string>, hunks: seq<Hunk>, old_: seq<string>, lo: int, hi: int)
    requires IsDiff(preamble, hunks, old_) && SafeHunks(hunks)
    ensures Flags(Read(DiffText(preamble, hunks)), Outside, lo, hi) == Landing(Script(old_, hunks, 0), 1, lo, hi)
  {
    hide Flags, Read, DiffText, Landing, Script, KindOf;
    PreambleSkipped(preamble, hunks, lo, hi);
    ReadHunks(hunks);
    WalkHunks(old_, hunks, 0, Outside, lo, hi);
  }

  // ---------------------------------------------------------------------
  // Exactly the safe diffs are flagged correctly
  // ---------------------------------------------------------------------

  function Changed(script: seq<Change>): nat {
    if script == [] then 0 else (if script[0].Del? || script[0].Add? then 1 else 0) + Changed(script[1..])
  }

  function Seen(lines: seq<Line>): nat {
    if lines == [] then 0 else (if lines[0].kind.Minus? || lines[0].kind.Plus? then 1 else 0) + Seen(lines[1..])
  }

  lemma {:induction false} ChangedAppend(a: seq<Change>, b: seq<Change>)
    ensures Changed(a + b) == Changed(a) + Changed(b)
  {
    if a == [] {
      assert a + b == b;
    } else {
      assert (a + b)[1..] == a[1..] + b;
      ChangedAppend(a[1..], b);
    }
  }

  lemma {:induction false} SeenAppend(a: seq<Line>, b: seq<Line>)
    ensures Seen(a + b) == Seen(a) + Seen(b)
  {
    if a == [] {
      assert a + b == b;
    } else {
      assert (a + b)[1..] == a[1..] + b;
      SeenAppend(a[1..], b);
    }
  }

  lemma {:induction false} FlagsWithinSeen(lines: seq<Line>, c: Cursor, lo: int, hi: int)
    ensures |Flags(lines, c, lo, hi)| <= Seen(lines)
  {
    if lines != [] {
      FlagsWithinSeen(lines[1..], Step(c, lines[0].kind), lo, hi);
    }
  }

  lemma {:induction false} EverythingLands(script: seq<Change>, row: int, lo: int, hi: int)
    requires lo <= row && row + |OldSide(script)| <= hi
    ensures |Landing(script, row, lo, hi)| == Changed(script)
  {
    if script != [] {
      EverythingLands(script[1..], if script[0].InOld() then row + 1 else row, lo, hi);
    }
  }

  lemma {:induction false} SeenInBody(body: seq<Change>)
    ensures Seen(Read(BodyText(body))) <= Changed(body)
    ensures !Safe(body) ==> Seen(Read(BodyText(body))) < Changed(body)
  {
    hide KindOf, LineText;
    if body != [] {
      BodyLineRead(body[0]);
      SeenInBody(body[1..]);
      if Unmistakable(body[0]) && Safe(body[1..]) {
        assert forall k :: 0 < k < |body| ==> body[k] == body[1..][k - 1];
        assert Safe(body);
      }
    }
  }

  lemma {:induction false} ChangedInContexts(lines: seq<string>)
    ensures Changed(Contexts(lines)) == 0
  {
    if lines != [] {
      ChangedInContexts(lines[1..]);
    }
  }

  lemma {:induction false} SeenInHunks(rest: seq<string>, hunks: seq<Hunk>, done: nat)
    requires HeadersRight([], hunks) && Fits(rest, hunks, done)
    ensures Seen(Read(DiffText([], hunks))) <= Changed(Script(rest, hunks, done))
    ensures !SafeHunks(hunks) ==> Seen(Read(DiffText([], hunks))) < Changed(Script(rest, hunks, done))
    decreases |hunks|
  {
    hide KindOf;
    if hunks != [] {
      var h, more := hunks[0], DiffText([], hunks[1..]);
      var behind := Behind(rest, h, done);
      var kept := Contexts(rest[..Gap(h, done)]);
      var script := Script(behind, hunks[1..], DoneAfter(h));
      SeenInHunks(behind, hunks[1..], DoneAfter(h));
      assert Read(DiffText([], hunks)) == Read([h.header]) + Read(BodyText(h.body)) + Read(more) by {
        ReadAppend([h.header] + BodyText(h.body), more);
        ReadAppend([h.header], BodyText(h.body));
      }
      SeenAppend(Read([h.header]) + Read(BodyText(h.body)), Read(more));
      SeenAppend(Read([h.header]), Read(BodyText(h.body)));
      assert Seen(Read([h.header])) == 0;
      SeenInBody(h.body);
      ChangedAppend(kept + h.body, script);
      ChangedAppend(kept, h.body);
      ChangedInContexts(rest[..Gap(h, done)]);
      if Safe(h.body) && SafeHunks(hunks[1..]) {
        assert forall k :: 0 < k < |hunks| ==> hunks[k] == hunks[1..][k - 1];
        assert SafeHunks(hunks);
      }
    }
  }

  /**
    The guard flags exactly the changes that land in the range, for every range,
    if and only if no changed line reads `---` or `+++` in the diff.
   */
  lemma ExactForSafeDiffs(preamble: seq<string>, hunks: seq<Hunk>, old_: seq<string>)
    requires IsDiff(preamble, hunks, old_)
    ensures (forall lo: int, hi: int ::
               Flags(Read(DiffText(preamble, hunks)), Outside, lo, hi) == Landing(Script(old_, hunks, 0), 1, lo, hi))
            <==> SafeHunks(hunks)
  {
    hide KindOf;
    var script, hi := Script(old_, hunks, 0), |old_| + 1;
    if SafeHunks(hunks) {
      forall lo: int, hi: int
        ensures Flags(Read(DiffText(preamble, hunks)), Outside, lo, hi) == Landing(Script(old_, hunks, 0), 1, lo, hi)
      {
        FlagsAreLandings(preamble, hunks, old_, lo, hi);
      }
    } else {
      PreambleSkipped(preamble, hunks, 1, hi);
      FlagsWithinSeen(Read(DiffText([], hunks)), Outside, 1, hi);
      SeenInHunks(old_, hunks, 0);
      SidesOfScript(old_, hunks, 0);
      EverythingLands(script, 1, 1, hi);
      assert |Flags(Read(DiffText(preamble, hunks)), Outside, 1, hi)| < |Landing(script, 1, 1, hi)|;
    }
  }

  // ---------------------------------------------------------------------
  // Rows of the new file
  // ---------------------------------------------------------------------

  /** New lines written by the time `n` old lines are consumed. */
  function Made(script: seq<Change>, n: nat): nat {
    if n == 0 || script == [] then 0
    else (if script[0].InNew() then 1 else 0) + Made(script[1..], if script[0].InOld() then n - 1 else n)
  }

  /** Additions minus deletions that land above row `lo`. */
  function Net(script: seq<Change>, row: int, lo: int): int {
    if script == [] then 0
    else
      (if row >= lo then 0 else if script[0].Add? then 1 else if script[0].Del? then -1 else 0)
      + Net(script[1..], if script[0].InOld() then row + 1 else row, lo)
  }

  /** What is inserted in front of row `m`. */
  function InsertedAt(script: seq<Change>, row: int, m: int): seq<string> {
    if script == [] then []
    else
      (if script[0].Add? && row == m then [script[0].text] else [])
      + InsertedAt(script[1..], if script[0].InOld() then row + 1 else row, m)
  }

  /** Whether the old line `k` lines further on is kept. */
  predicate Kept(script: seq<Change>, k: nat) {
    script != [] &&
    if script[0].InOld() then (if k == 0 then script[0].Ctx? else Kept(script[1..], k - 1))
    else Kept(script[1..], k)
  }

  lemma {:induction false} NothingAbove(script: seq<Change>, row: int, m: int)
    requires m < row
    ensures InsertedAt(script, row, m) == []
    ensures forall lo :: lo <= row ==> Net(script, row, lo) == 0
  {
    if script != [] {
      NothingAbove(script[1..], if script[0].InOld() then row + 1 else row, m);
    }
  }

  lemma {:induction false} MadeIsShifted(script: seq<Change>, row: int, n: nat)
    requires n <= |OldSide(script)|
    ensures Made(script, n) == n + Net(script, row, row + n)
  {
    if n == 0 {
      NothingAbove(script, row, row - 1);
    } else {
      var c := script[0];
      MadeIsShifted(script[1..], if c.InOld() then row + 1 else row, if c.InOld() then n - 1 else n);
    }
  }

  ghost predicate PieceAt<T>(s: seq<T>, from: int, piece: seq<T>) {
    0 <= from && from + |piece| <= |s| && s[from..from + |piece|] == piece
  }

  lemma PieceBehind<T>(front: seq<T>, s: seq<T>, from: int, piece: seq<T>)
    requires PieceAt(s, from, piece)
    ensures PieceAt(front + s, |front| + from, piece)
  {
  }

  lemma PieceMid<T>(front: seq<T>, piece: seq<T>, s: seq<T>)
    ensures PieceAt(front + piece + s, |front|, piece)
  {
  }

  lemma PieceFront<T>(front: seq<T>, s: seq<T>, piece: seq<T>)
    requires PieceAt(s, 0, piece)
    ensures PieceAt(front + s, 0, front + piece)
  {
    assert (front + s)[0..|front + piece|] == front + s[0..|piece|];
  }

  /** What the new file holds for the old row k: what is put in front of it, then the row if it is kept. */
  function RowImage(script: seq<Change>, row: int, k: nat): seq<string>
    requires k < |OldSide(script)|
  {
    InsertedAt(script, row, row + k) + (if Kept(script, k) then [OldSide(script)[k]] else [])
  }

  /** The image of row k lies where the images of the rows before it end. */
  ghost predicate RowPlaced(script: seq<Change>, row: int, k: nat)
    requires k < |OldSide(script)|
  {
    && Made(script, k + 1) == Made(script, k) + |RowImage(script, row, k)|
    && PieceAt(NewSide(script), Made(script, k), RowImage(script, row, k))
  }

  lemma OwnRowPlaced(script: seq<Change>, row: int)
    requires script != [] && script[0].InOld()
    ensures |OldSide(script)| > 0 && RowPlaced(script, row, 0)
  {
    NothingAbove(script[1..], row + 1, row);
    assert RowImage(script, row, 0) == if script[0].Ctx? then [script[0].text] else [];
  }

  lemma SidesWithInsertion(script: seq<Change>)
    requires script != [] && !script[0].InOld()
    ensures OldSide(script) == OldSide(script[1..])
    ensures var own := if script[0].InNew() then [script[0].text] else [];
            NewSide(script) == own + NewSide(script[1..]) && Made(script, 1) == |own| + Made(script[1..], 1)
    ensures Made(script, 0) == 0 && Made(script[1..], 0) == 0
  {
  }

  /** A line that is not in the old file goes into the image of the row behind it. */
  lemma ImageWithInsertion(script: seq<Change>, row: int)
    requires script != [] && !script[0].InOld() && |OldSide(script)| > 0 && |OldSide(script[1..])| > 0
    ensures var own := if script[0].InNew() then [script[0].text] else [];
            RowImage(script, row, 0) == own + RowImage(script[1..], row, 0)
  {
    SidesWithInsertion(script);
    hide OldSide, NewSide, Made;
    var c, tail := script[0], script[1..];
    var own, added := if c.InNew() then [c.text] else [], InsertedAt(tail, row, row);
    var kept := if Kept(tail, 0) then [OldSide(tail)[0]] else [];
    assert InsertedAt(script, row, row) == own + added;
    assert Kept(script, 0) == Kept(tail, 0);
    assert RowImage(tail, row, 0) == added + kept && RowImage(script, row, 0) == (own + added) + kept;
    hide InsertedAt, Kept, RowImage;
    Assoc(own, added, kept);
  }

  lemma InsertionPlaced(script: seq<Change>, row: int)
    requires script != [] && !script[0].InOld() && |OldSide(script)| > 0
    requires |OldSide(script[1..])| > 0 && RowPlaced(script[1..], row, 0)
    ensures RowPlaced(script, row, 0)
  {
    hide NewSide, Made, RowImage, OldSide, PieceAt;
    SidesWithInsertion(script);
    ImageWithInsertion(script, row);
    PieceFront(if script[0].InNew() then [script[0].text] else [], NewSide(script[1..]), RowImage(script[1..], row, 0));
  }

  lemma SidesBehind(script: seq<Change>, k: nat)
    requires 0 < k < |OldSide(script)|
    ensures script != []
    ensures var c, tail := script[0], script[1..];
            var own, k' := if c.InNew() then [c.text] else [], if c.InOld() then k - 1 else k;
            && NewSide(script) == own + NewSide(tail)
            && k' < |OldSide(tail)| && OldSide(script)[k] == OldSide(tail)[k']
            && Made(script, k + 1) == |own| + Made(tail, k' + 1)
            && Made(script, k) == |own| + Made(tail, k')
  {
  }

  lemma LaterRowsBehind(script: seq<Change>, row: int, k: nat)
    requires script != [] && k > 0
    ensures var c, tail := script[0], script[1..];
            var next, k' := if c.InOld() then row + 1 else row, if c.InOld() then k - 1 else k;
            InsertedAt(script, row, row + k) == InsertedAt(tail, next, next + k') && Kept(script, k) == Kept(tail, k')
  {
    var next := if script[0].InOld() then row + 1 else row;
    assert [] + InsertedAt(script[1..], next, row + k) == InsertedAt(script[1..], next, row + k);
  }

  /** A line does nothing to the images of later rows but move them. */
  lemma ImageBehind(script: seq<Change>, row: int, k: nat)
    requires 0 < k < |OldSide(script)| && script != []
    ensures var c, tail := script[0], script[1..];
            var next, k' := if c.InOld() then row + 1 else row, if c.InOld() then k - 1 else k;
            k' < |OldSide(tail)| && RowImage(script, row, k) == RowImage(tail, next, k')
  {
    hide OldSide, NewSide, Made, InsertedAt, Kept;
    SidesBehind(script, k);
    LaterRowsBehind(script, row, k);
  }

  lemma LaterRowPlaced(script: seq<Change>, row: int, k: nat)
    requires 0 < k < |OldSide(script)| && script != []
    requires var next, k' := if script[0].InOld() then row + 1 else row, if script[0].InOld() then k - 1 else k;
             k' < |OldSide(script[1..])| && RowPlaced(script[1..], next, k')
    ensures RowPlaced(script, row, k)
  {
    hide NewSide, Made, RowImage, OldSide, PieceAt;
    SidesBehind(script, k);
    ImageBehind(script, row, k);
    var c, tail := script[0], script[1..];
    var next, k' := if c.InOld() then row + 1 else row, if c.InOld() then k - 1 else k;
    PieceBehind(if c.InNew() then [c.text] else [], NewSide(tail), Made(tail, k'), RowImage(tail, next, k'));
  }

  lemma OldRowsBehind(script: seq<Change>, k: nat)
    requires k < |OldSide(script)|
    ensures script != []
    ensures !script[0].InOld() ==> k < |OldSide(script[1..])|
    ensures script[0].InOld() && k > 0 ==> k - 1 < |OldSide(script[1..])|
  {
  }

  /** The images of the old rows follow one another in the new file. */
  lemma {:induction false} RowInNewFile(script: seq<Change>, row: int, k: nat)
    requires k < |OldSide(script)|
    ensures RowPlaced(script, row, k)
  {
    hide RowPlaced, OldSide;
    OldRowsBehind(script, k);
    if script[0].InOld() && k == 0 {
      OwnRowPlaced(script, row);
    } else if k == 0 {
      RowInNewFile(script[1..], row, 0);
      InsertionPlaced(script, row);
    } else if script[0].InOld() {
      RowInNewFile(script[1..], row + 1, k - 1);
      LaterRowPlaced(script, row, k);
    } else {
      RowInNewFile(script[1..], row, k);
      LaterRowPlaced(script, row, k);
    }
  }

  /** Row m is kept with nothing put in front of it. */
  predicate Untouched(script: seq<Change>, row: int, m: int)
    requires row <= m
  {
    InsertedAt(script, row, m) == [] && Kept(script, m - row)
  }

  /** Nothing lands in the range exactly when each of its rows is untouched. */
  lemma {:induction false} NothingLandsOn(script: seq<Change>, row: int, lo: int, hi: int)
    requires row + |OldSide(script)| > hi
    ensures Landing(script, row, lo, hi) == [] <==>
            forall m :: row <= m && lo <= m <= hi ==> Untouched(script, row, m)
  {
    if script != [] {
      var c := script[0];
      var tail, next := script[1..], if c.InOld() then row + 1 else row;
      NothingLandsOn(tail, next, lo, hi);
      NothingAbove(tail, row + 1, row);
      forall m | row < m ensures Untouched(script, row, m) == Untouched(tail, next, m) {
      }
      assert Untouched(script, row, row) == if c.InOld() then c.Ctx? else c.Note? && Untouched(tail, row, row);
      assert Landing(script, row, lo, hi) == [] <==>
             LandingOne(c, row, lo, hi) == [] && Landing(tail, next, lo, hi) == [];
    }
  }

  lemma OneRowLess(script: seq<Change>, row: int, lo: int, hi: int)
    requires row <= lo <= hi < row + |OldSide(script)| && Landing(script, row, lo, hi) == []
    ensures Landing(script, row, lo, hi - 1) == [] && Untouched(script, row, hi)
  {
    hide Landing, OldSide, Untouched;
    NothingLandsOn(script, row, lo, hi);
    NothingLandsOn(script, row, lo, hi - 1);
  }

  lemma UntouchedPlaced(script: seq<Change>, row: int, m: int)
    requires row <= m < row + |OldSide(script)| && Untouched(script, row, m)
    ensures var made := Made(script, m - row);
            && Made(script, m + 1 - row) == made + 1 <= |NewSide(script)|
            && NewSide(script)[made..made + 1] == [OldSide(script)[m - row]]
  {
    hide Made, NewSide, OldSide, InsertedAt, Kept;
    RowInNewFile(script, row, m - row);
  }

  /** Rows lo..hi are in the new file in one piece, where the rows before them end. */
  ghost predicate InOnePiece(script: seq<Change>, row: int, lo: int, hi: int)
    requires row <= lo <= hi + 1 && hi < row + |OldSide(script)|
  {
    && Made(script, hi + 1 - row) == Made(script, lo - row) + (hi + 1 - lo) <= |NewSide(script)|
    && NewSide(script)[Made(script, lo - row)..Made(script, hi + 1 - row)] == OldSide(script)[lo - row..hi + 1 - row]
  }

  lemma NoRowsInOnePiece(script: seq<Change>, row: int, lo: int)
    requires row <= lo <= row + |OldSide(script)|
    ensures InOnePiece(script, row, lo, lo - 1)
  {
    hide Made, NewSide, OldSide;
    MadeWithin(script, lo - row);
  }

  lemma OneRowMore(script: seq<Change>, row: int, lo: int, hi: int)
    requires row <= lo <= hi < row + |OldSide(script)|
    requires InOnePiece(script, row, lo, hi - 1) && Untouched(script, row, hi)
    ensures InOnePiece(script, row, lo, hi)
  {
    hide Made, NewSide, OldSide, Untouched;
    UntouchedPlaced(script, row, hi);
    SliceGrows(NewSide(script), Made(script, lo - row), Made(script, hi - row), OldSide(script), lo - row, hi - row);
  }

  /** An untouched range appears in the new file in one piece. */
  lemma {:induction false} Preserved(script: seq<Change>, row: int, lo: int, hi: int)
    requires row <= lo <= hi + 1 && hi < row + |OldSide(script)|
    requires Landing(script, row, lo, hi) == []
    ensures InOnePiece(script, row, lo, hi)
    decreases hi + 1 - lo
  {
    hide Landing, Made, NewSide, OldSide, Untouched, InOnePiece;
    if lo <= hi {
      OneRowLess(script, row, lo, hi);
      Preserved(script, row, lo, hi - 1);
      OneRowMore(script, row, lo, hi);
    } else {
      NoRowsInOnePiece(script, row, lo);
    }
  }

  lemma {:induction false} MadeWithin(script: seq<Change>, n: nat)
    ensures Made(script, n) <= |NewSide(script)|
  {
    if n > 0 && script != [] {
      MadeWithin(script[1..], if script[0].InOld() then n - 1 else n);
    }
  }

  lemma SliceGrows<T>(s: seq<T>, a: nat, b: nat, t: seq<T>, c: nat, d: nat)
    requires a <= b < |s| && c <= d < |t| && s[a..b] == t[c..d] && s[b..b + 1] == [t[d]]
    ensures s[a..b + 1] == t[c..d + 1]
  {
    assert s[a..b + 1] == s[a..b] + s[b..b + 1];
    assert t[c..d + 1] == t[c..d] + [t[d]];
  }

  /**
    Soundness: if the guard flags nothing for [lo, hi], the new file holds the
    old rows lo..hi as one block, shifted by additions minus deletions above it.
   */
  lemma GuardSound(preamble: seq<string>, hunks: seq<Hunk>, old_: seq<string>, lo: int, hi: int)
    requires IsDiff(preamble, hunks, old_) && SafeHunks(hunks)
    requires 1 <= lo <= hi <= |old_|
    requires Flags(Read(DiffText(preamble, hunks)), Outside, lo, hi) == []
    ensures var new_, shift := Patch(old_, hunks, 0), Net(Script(old_, hunks, 0), 1, lo);
            && 0 <= lo - 1 + shift && hi + shift <= |new_|
            && new_[lo - 1 + shift..hi + shift] == old_[lo - 1..hi]
  {
    hide Flags, Read, DiffText, Landing, Script, Patch, OldSide, NewSide, Made, Net;
    var script := Script(old_, hunks, 0);
    FlagsAreLandings(preamble, hunks, old_, lo, hi);
    SidesOfScript(old_, hunks, 0);
    Preserved(script, 1, lo, hi);
    MadeIsShifted(script, 1, lo - 1);
  }

  /** The guard passes a safe diff exactly when every row of the range is kept with nothing put in front of it. */
  lemma GuardExact(preamble: seq<string>, hunks: seq<Hunk>, old_: seq<string>, lo: int, hi: int)
    requires IsDiff(preamble, hunks, old_) && SafeHunks(hunks)
    requires 1 <= lo && hi <= |old_|
    ensures Flags(Read(DiffText(preamble, hunks)), Outside, lo, hi) == [] <==>
            forall m :: lo <= m <= hi ==> Untouched(Script(old_, hunks, 0), 1, m)
  {
    hide Flags, Read, DiffText, Landing, Script, Patch, OldSide, NewSide, Untouched;
    FlagsAreLandings(preamble, hunks, old_, lo, hi);
    SidesOfScript(old_, hunks, 0);
    NothingLandsOn(Script(old_, hunks, 0), 1, lo, hi);
  }

  /**
    A range split around row m: both blocks survive, and between them stand
    only lines inserted in front of row m, and row m itself if it is kept.
   */
  lemma SplitRange(preamble: seq<string>, hunks: seq<Hunk>, old_: seq<string>, lo: int, m: int, hi: int)
    requires IsDiff(preamble, hunks, old_) && SafeHunks(hunks)
    requires 1 <= lo < m < hi <= |old_|
    requires Flags(Read(DiffText(preamble, hunks)), Outside, lo, m - 1) == []
    requires Flags(Read(DiffText(preamble, hunks)), Outside, m + 1, hi) == []
    ensures var new_, script := Patch(old_, hunks, 0), Script(old_, hunks, 0);
            var a := lo - 1 + Net(script, 1, lo);
            var between := InsertedAt(script, 1, m) + (if Kept(script, m - 1) then [old_[m - 1]] else []);
            var block := old_[lo - 1..m - 1] + between + old_[m..hi];
            0 <= a && a + |block| <= |new_| && new_[a..a + |block|] == block
  {
    hide Flags, Read, DiffText, Landing, Script, Patch, OldSide, NewSide, Made, Net, InsertedAt, Kept;
    var script := Script(old_, hunks, 0);
    FlagsAreLandings(preamble, hunks, old_, lo, m - 1);
    FlagsAreLandings(preamble, hunks, old_, m + 1, hi);
    SidesOfScript(old_, hunks, 0);
    Preserved(script, 1, lo, m - 1);
    RowInNewFile(script, 1, m - 1);
    Preserved(script, 1, m + 1, hi);
    MadeIsShifted(script, 1, lo - 1);
    var new_ := NewSide(script);
    var a, b, c, d := Made(script, lo - 1), Made(script, m - 1), Made(script, m), Made(script, hi);
    ThreeSlices(new_, a, b, c, d);
  }

  lemma ThreeSlices<T>(s: seq<T>, a: nat, b: nat, c: nat, d: nat)
    requires a <= b <= c <= d <= |s|
    ensures s[a..d] == s[a..b] + s[b..c] + s[c..d]
  {
  }

  // ---------------------------------------------------------------------
  // Single edits
  // ---------------------------------------------------------------------

  lemma AdditionsBehind(before: seq<Change>, added: seq<Change>, behind: seq<Change>, lo: int, hi: int)
    requires |OldSide(before)| == hi && forall k :: 0 <= k < |added| ==> added[k].Add?
    ensures Landing(before + added + behind, 1, lo, hi) == Landing(before + behind, 1, lo, hi)
  {
    hide Landing, OldSide;
    LandingAppend(before + added, behind, 1, lo, hi);
    LandingAppend(before, added, 1, lo, hi);
    LandingAppend(before, behind, 1, lo, hi);
    SidesAppend(before, added);
    AdditionsLandAt(added, hi + 1, lo, hi);
  }

  /** Lines put behind the last row of the range change nothing about what the guard flags. */
  lemma AppendingPasses(preamble: seq<string>, hunks: seq<Hunk>, old_: seq<string>,
                        before: seq<Change>, added: seq<Change>, behind: seq<Change>, lo: int, hi: int)
    requires IsDiff(preamble, hunks, old_) && SafeHunks(hunks)
    requires Script(old_, hunks, 0) == before + added + behind
    requires |OldSide(before)| == hi && forall k :: 0 <= k < |added| ==> added[k].Add?
    ensures Flags(Read(DiffText(preamble, hunks)), Outside, lo, hi) == Landing(before + behind, 1, lo, hi)
  {
    FlagsAreLandings(preamble, hunks, old_, lo, hi);
    AdditionsBehind(before, added, behind, lo, hi);
  }

  lemma {:induction false} AdditionsLandAt(added: seq<Change>, row: int, lo: int, hi: int)
    requires forall k :: 0 <= k < |added| ==> added[k].Add?
    ensures OldSide(added) == []
    ensures !(lo <= row <= hi) ==> Landing(added, row, lo, hi) == []
  {
    if added != [] {
      AdditionsLandAt(added[1..], row, lo, hi);
    }
  }

  lemma ReplacementLands(before: seq<Change>, was: string, now: string, behind: seq<Change>, m: int, hi: int)
    requires |OldSide(before)| == m - 1 && m + 1 <= hi
    ensures Landing(before + [Del(was), Add(now)] + behind, 1, m + 1, hi) != []
  {
    var edit := [Del(was), Add(now)];
    LandingAppend(before + edit, behind, 1, m + 1, hi);
    LandingAppend(before, edit, 1, m + 1, hi);
    assert edit[1..] == [Add(now)];
    assert Landing([Add(now)], m + 1, m + 1, hi) != [];
  }

  /** Replacing the row left open between two ranges is flagged by the second: the new text lands on the row behind it. */
  lemma ReplacingTheOpenRowIsFlagged(preamble: seq<string>, hunks: seq<Hunk>, old_: seq<string>,
                                     before: seq<Change>, was: string, now: string, behind: seq<Change>, m: int, hi: int)
    requires IsDiff(preamble, hunks, old_) && SafeHunks(hunks)
    requires Script(old_, hunks, 0) == before + [Del(was), Add(now)] + behind
    requires |OldSide(before)| == m - 1 && m + 1 <= hi
    ensures Flags(Read(DiffText(preamble, hunks)), Outside, m + 1, hi) != []
  {
    FlagsAreLandings(preamble, hunks, old_, m + 1, hi);
    ReplacementLands(before, was, now, behind, m, hi);
  }

  // ---------------------------------------------------------------------
  // The rows the walk keeps
  // ---------------------------------------------------------------------

  /** Headers name the row of the new file where the hunk's new side starts; `made` new lines lie before. */
  ghost predicate NewRowsRight(rest: seq<string>, hunks: seq<Hunk>, done: nat, made: nat)
    requires Fits(rest, hunks, done)
    decreases |hunks|
  {
    hunks != [] ==>
      var start := made + Gap(hunks[0], done);
      && (NewSide(hunks[0].body) != [] ==> hunks[0].newStart == start + 1)
      && NewRowsRight(Behind(rest, hunks[0], done), hunks[1..], DoneAfter(hunks[0]),
                      start + |NewSide(hunks[0].body)|)
  }

  /** Over the body of a hunk the counters advance by the sides' lengths exactly when every line is read for what it is. */
  lemma {:induction false} CursorOverBody(body: seq<Change>, row: int, newRow: int)
    ensures var at := CursorAfter(Read(BodyText(body)), At(row, newRow));
            && at.At? && at.oldLine <= row + |OldSide(body)| && at.newLine <= newRow + |NewSide(body)|
            && (at == At(row + |OldSide(body)|, newRow + |NewSide(body)|) <==> Safe(body))
  {
    hide KindOf, LineText, Unmistakable;
    if body != [] {
      var next := Step(At(row, newRow), KindOf(LineText(body[0])));
      BodyLineRead(body[0]);
      CursorOverBody(body[1..], next.oldLine, next.newLine);
      assert Safe(body) <==> Unmistakable(body[0]) && Safe(body[1..]) by {
        assert body == [body[0]] + body[1..];
      }
      if !Unmistakable(body[0]) {
        MistakenIsChange(body[0]);
      }
    }
  }

  lemma MistakenIsChange(c: Change)
    requires !Unmistakable(c)
    ensures c.Del? || c.Add?
  {
  }

  lemma SideAt(body: seq<Change>, k: nat)
    requires k < |body|
    ensures body[k].InOld() ==> |OldSide(body[..k])| < |OldSide(body)| && OldSide(body)[|OldSide(body[..k])|] == body[k].text
    ensures body[k].InNew() ==> |NewSide(body[..k])| < |NewSide(body)| && NewSide(body)[|NewSide(body[..k])|] == body[k].text
  {
    assert body == body[..k] + body[k..];
    SidesAppend(body[..k], body[k..]);
  }

  /** One unfolding of a patch. */
  lemma PatchStep(rest: seq<string>, hunks: seq<Hunk>, done: nat, made: nat)
    requires hunks != [] && Fits(rest, hunks, done) && NewRowsRight(rest, hunks, done, made)
    ensures var g := hunks[0];
            && HunkFits(rest, g, done) && DoneAfter(g) >= 0
            && var kept, behind := rest[..Gap(g, done)], Behind(rest, g, done);
               && Fits(behind, hunks[1..], DoneAfter(g))
               && NewRowsRight(behind, hunks[1..], DoneAfter(g), made + |kept + NewSide(g.body)|)
               && rest == kept + OldSide(g.body) + behind
               && Patch(rest, hunks, done) == kept + NewSide(g.body) + Patch(behind, hunks[1..], DoneAfter(g))
               && g.oldStart - 1 - done == |kept| && |kept + OldSide(g.body)| == DoneAfter(g) - done
               && (NewSide(g.body) != [] ==> g.newStart - 1 - made == |kept|)
  {
    hide OldSide, NewSide;
  }

  /** Where a hunk's sides lie in the two files. */
  ghost predicate HunkPlaced(rest: seq<string>, new_: seq<string>, h: Hunk, done: nat, made: nat) {
    && PieceAt(rest, h.oldStart - 1 - done, OldSide(h.body))
    && (NewSide(h.body) != [] ==> PieceAt(new_, h.newStart - 1 - made, NewSide(h.body)))
  }

  lemma {:induction false} HunkInFiles(rest: seq<string>, hunks: seq<Hunk>, done: nat, made: nat, n: nat)
    requires n < |hunks| && Fits(rest, hunks, done) && NewRowsRight(rest, hunks, done, made)
    ensures HunkPlaced(rest, Patch(rest, hunks, done), hunks[n], done, made)
    decreases |hunks|
  {
    hide PieceAt, NewSide, Patch, OldSide, Fits, HunkFits, NewRowsRight, Behind, DoneAfter;
    PatchStep(rest, hunks, done, made);
    var g, h := hunks[0], hunks[n];
    var behind := Behind(rest, g, done);
    var kept, more := rest[..Gap(g, done)], Patch(behind, hunks[1..], DoneAfter(g));
    if n == 0 {
      PieceMid(kept, OldSide(g.body), behind);
      PieceMid(kept, NewSide(g.body), more);
    } else {
      var front := kept + NewSide(g.body);
      HunkInFiles(behind, hunks[1..], DoneAfter(g), made + |front|, n - 1);
      PieceBehind(kept + OldSide(g.body), behind, h.oldStart - 1 - DoneAfter(g), OldSide(h.body));
      if NewSide(h.body) != [] {
        PieceBehind(front, more, h.newStart - 1 - made - |front|, NewSide(h.body));
      }
    }
  }

  lemma {:induction false} DiffTextSplit(preamble: seq<string>, hunks: seq<Hunk>, n: nat)
    requires n < |hunks|
    ensures DiffText(preamble, hunks)
         == DiffText(preamble, hunks[..n]) + ([hunks[n].header] + (BodyText(hunks[n].body) + DiffText([], hunks[n + 1..])))
    decreases |preamble| + n
  {
    hide BodyText;
    var tail := [hunks[n].header] + (BodyText(hunks[n].body) + DiffText([], hunks[n + 1..]));
    if preamble != [] {
      DiffTextSplit(preamble[1..], hunks, n);
      Assoc([preamble[0]], DiffText(preamble[1..], hunks[..n]), tail);
    } else if n > 0 {
      var first := [hunks[0].header] + BodyText(hunks[0].body);
      DiffTextSplit([], hunks[1..], n - 1);
      assert hunks[1..][..n - 1] == hunks[..n][1..] && hunks[1..][n..] == hunks[n + 1..];
      Assoc(first, DiffText([], hunks[..n][1..]), tail);
    } else {
      assert [] + tail == tail;
      Assoc([hunks[0].header], BodyText(hunks[0].body), DiffText([], hunks[1..]));
    }
  }

  lemma {:induction false} BodyTextAppend(a: seq<Change>, b: seq<Change>)
    ensures BodyText(a + b) == BodyText(a) + BodyText(b)
  {
    hide LineText;
    if a == [] {
      assert a + b == b;
    } else {
      assert (a + b)[1..] == a[1..] + b;
      BodyTextAppend(a[1..], b);
      Assoc([LineText(a[0])], BodyText(a[1..]), BodyText(b));
    }
  }

  lemma {:induction false} ReadLength(lines: seq<string>)
    ensures |Read(lines)| == |lines|
  {
    hide KindOf;
    if lines != [] {
      ReadLength(lines[1..]);
    }
  }

  lemma {:induction false} BodyTextLength(body: seq<Change>)
    ensures |BodyText(body)| == |body|
  {
    if body != [] {
      BodyTextLength(body[1..]);
    }
  }

  /** Where line k of hunk n stands in the diff. */
  function LineIndex(preamble: seq<string>, hunks: seq<Hunk>, n: nat, k: nat): nat
    requires n < |hunks|
  {
    |DiffText(preamble, hunks[..n])| + 1 + k
  }

  /** What the walk has read when it comes to line k of hunk n. */
  lemma ReadUpTo(preamble: seq<string>, hunks: seq<Hunk>, n: nat, k: nat)
    requires n < |hunks| && k < |hunks[n].body|
    ensures var lines, i := Read(DiffText(preamble, hunks)), LineIndex(preamble, hunks, n, k);
            && i < |lines|
            && lines[..i] == Read(DiffText(preamble, hunks[..n])) + (Read([hunks[n].header]) + Read(BodyText(hunks[n].body[..k])))
            && lines[i].text == LineText(hunks[n].body[k])
  {
    var h, more := hunks[n], DiffText([], hunks[n + 1..]);
    var before, done, left := DiffText(preamble, hunks[..n]), h.body[..k], h.body[k..];
    DiffTextSplit(preamble, hunks, n);
    assert done + left == h.body;
    BodyTextAppend(done, left);
    BodyTextLength(done);
    assert BodyText(left)[0] == LineText(h.body[k]) && |BodyText(left)| > 0;
    var rest := BodyText(left) + more;
    assert Read(rest)[0].text == LineText(h.body[k]) && |Read(rest)| > 0;
    hide Read, BodyText, DiffText, LineText, KindOf;
    Assoc(BodyText(done), BodyText(left), more);
    ReadAppend(before, [h.header] + (BodyText(done) + rest));
    ReadAppend([h.header], BodyText(done) + rest);
    ReadAppend(BodyText(done), rest);
    ReadLength(before);
    ReadLength([h.header]);
    ReadLength(BodyText(done));
    Segments(Read(before), Read([h.header]), Read(BodyText(done)), Read(rest));
  }

  lemma Segments<T>(a: seq<T>, b: seq<T>, c: seq<T>, d: seq<T>)
    requires |d| > 0
    ensures var s, i := a + (b + (c + d)), |a| + |b| + |c|;
            i < |s| && s[..i] == a + (b + c) && s[i] == d[0]
  {
  }

  lemma CursorBehindHeader(lines: seq<Line>, h: Hunk, c: Cursor)
    requires KindOf(h.header) == Header(h.oldStart, h.newStart)
    ensures CursorAfter(Read([h.header]) + lines, c) == CursorAfter(lines, At(h.oldStart, h.newStart))
  {
    hide KindOf;
    var header := [Line(Header(h.oldStart, h.newStart), h.header)];
    assert Read([h.header]) == header by {
      assert [h.header][1..] == [] && Read([]) == [];
    }
    hide Read;
    assert (header + lines)[0] == header[0] && (header + lines)[1..] == lines;
  }

  /** The cursor at line k of hunk n. */
  lemma CursorAtLine(preamble: seq<string>, hunks: seq<Hunk>, n: nat, k: nat)
    requires HeadersRight(preamble, hunks)
    requires n < |hunks| && k < |hunks[n].body|
    ensures var h, lines, i := hunks[n], Read(DiffText(preamble, hunks)), LineIndex(preamble, hunks, n, k);
            && i < |lines| && lines[i].text == LineText(h.body[k])
            && CursorAfter(lines[..i], Outside) == CursorAfter(Read(BodyText(h.body[..k])), At(h.oldStart, h.newStart))
  {
    var h := hunks[n];
    var before, done := Read(DiffText(preamble, hunks[..n])), Read(BodyText(h.body[..k]));
    assert KindOf(h.header) == Header(h.oldStart, h.newStart);
    hide KindOf, Read, BodyText, DiffText, CursorAfter, LineIndex, HeadersRight, LineText;
    ReadUpTo(preamble, hunks, n, k);
    CursorAppend(before, Read([h.header]) + done, Outside);
    CursorBehindHeader(done, h, CursorAfter(before, Outside));
  }

  /** The rows by the hunk header are where the two files hold line k of hunk n. */
  lemma RowsByHeader(old_: seq<string>, hunks: seq<Hunk>, n: nat, k: nat)
    requires Fits(old_, hunks, 0) && NewRowsRight(old_, hunks, 0, 0)
    requires n < |hunks| && k < |hunks[n].body|
    ensures var c, at := hunks[n].body[k], RowsByHunk(hunks[n], k);
            && (c.InOld() ==> HoldsAt(old_, at.oldLine, c.text))
            && (c.InNew() ==> HoldsAt(Patch(old_, hunks, 0), at.newLine, c.text))
  {
    hide OldSide, NewSide, Patch, Fits, NewRowsRight, PieceAt;
    var h := hunks[n];
    SideAt(h.body, k);
    HunkInFiles(old_, hunks, 0, 0, n);
    if h.body[k].InOld() {
      PieceHolds(old_, h.oldStart - 1, OldSide(h.body), |OldSide(h.body[..k])|);
    }
    if h.body[k].InNew() {
      PieceHolds(Patch(old_, hunks, 0), h.newStart - 1, NewSide(h.body), |NewSide(h.body[..k])|);
    }
  }

  lemma PieceHolds<T>(s: seq<T>, from: int, piece: seq<T>, k: nat)
    requires PieceAt(s, from, piece) && k < |piece|
    ensures 0 <= from + k < |s| && s[from + k] == piece[k]
  {
    assert s[from..from + |piece|][k] == piece[k];
  }

  /** The rows of line k of a hunk by the hunk's header. */
  function RowsByHunk(h: Hunk, k: nat): Cursor
    requires k <= |h.body|
  {
    At(h.oldStart + |OldSide(h.body[..k])|, h.newStart + |NewSide(h.body[..k])|)
  }

  /** A line is where a file has the given row. */
  ghost predicate HoldsAt(file: seq<string>, row: int, text: string) {
    1 <= row <= |file| && file[row - 1] == text
  }

  lemma CursorOverPrefix(h: Hunk, k: nat)
    requires k <= |h.body|
    ensures CursorAfter(Read(BodyText(h.body[..k])), At(h.oldStart, h.newStart)) == RowsByHunk(h, k) <==> Safe(h.body[..k])
  {
    hide CursorAfter, Read, BodyText, OldSide, NewSide, Safe;
    CursorOverBody(h.body[..k], h.oldStart, h.newStart);
  }

  /** When the walk comes to line k of hunk n, its counters stand at that line's rows. */
  ghost predicate CountersRight(preamble: seq<string>, hunks: seq<Hunk>, n: nat, k: nat)
    requires n < |hunks| && k < |hunks[n].body|
  {
    var lines, i := Read(DiffText(preamble, hunks)), LineIndex(preamble, hunks, n, k);
    && i < |lines| && lines[i].text == LineText(hunks[n].body[k])
    && CursorAfter(lines[..i], Outside) == RowsByHunk(hunks[n], k)
  }

  lemma CountersRightExactly(preamble: seq<string>, hunks: seq<Hunk>, n: nat, k: nat)
    requires HeadersRight(preamble, hunks) && n < |hunks| && k < |hunks[n].body|
    ensures CountersRight(preamble, hunks, n, k) <==> Safe(hunks[n].body[..k])
  {
    hide Read, BodyText, DiffText, LineText, CursorAfter, LineIndex, Safe, HeadersRight, RowsByHunk;
    CursorAtLine(preamble, hunks, n, k);
    CursorOverPrefix(hunks[n], k);
  }

  /**
    At every body line of the diff the walk's two counters stand at the line's
    rows by the hunk header exactly when no line before it in its hunk reads
    `---` or `+++`; and these rows are where the two files hold the line.
   */
  lemma RowsAreTrue(preamble: seq<string>, hunks: seq<Hunk>, old_: seq<string>, n: nat, k: nat)
    requires IsDiff(preamble, hunks, old_) && NewRowsRight(old_, hunks, 0, 0)
    requires n < |hunks| && k < |hunks[n].body|
    ensures CountersRight(preamble, hunks, n, k) <==> Safe(hunks[n].body[..k])
    ensures var c, at := hunks[n].body[k], RowsByHunk(hunks[n], k);
            && (c.InOld() ==> HoldsAt(old_, at.oldLine, c.text))
            && (c.InNew() ==> HoldsAt(Patch(old_, hunks, 0), at.newLine, c.text))
  {
    hide CountersRight, Safe, Fits, NewRowsRight, HeadersRight, HoldsAt, Patch;
    CountersRightExactly(preamble, hunks, n, k);
    RowsByHeader(old_, hunks, n, k);
  }

  // ---------------------------------------------------------------------
  // Where the guard is blind
  // ---------------------------------------------------------------------

  lemma WholeFileHunk(h: Hunk)
    requires h.oldStart == 1 && OldSide(h.body) != []
    ensures Fits(OldSide(h.body), [h], 0)
    ensures Patch(OldSide(h.body), [h], 0) == NewSide(h.body) && Script(OldSide(h.body), [h], 0) == h.body
  {
    var old_ := OldSide(h.body);
    assert old_[0..] == old_ && old_[..0] == [];
    hide OldSide, NewSide;
    assert HunkFits(old_, h, 0) && Behind(old_, h, 0) == [];
    assert [h][1..] == [];
    assert Fits([], [], DoneAfter(h));
    assert [] + h.body + [] == h.body && [] + NewSide(h.body) + [] == NewSide(h.body);
  }

  lemma FirstOfTwoDeleted(text: string, kept: string)
    ensures OldSide([Del(text), Ctx(kept)]) == [text, kept] && NewSide([Del(text), Ctx(kept)]) == [kept]
    ensures Changed([Del(text), Ctx(kept)]) == 1
  {
    var body := [Del(text), Ctx(kept)];
    assert body[1..] == [Ctx(kept)] && [Ctx(kept)][1..] == [];
    assert OldSide([Ctx(kept)]) == [kept] && NewSide([Ctx(kept)]) == [kept];
    var rest: seq<Change> := [Ctx(kept)];
    assert Changed(rest[1..]) == 0 && Changed(rest) == 0;
  }

  // ---------------------------------------------------------------------
  // From the text
  // ---------------------------------------------------------------------

  /**
    Soundness of the check on a diff's text, as long as no line holds one of the
    characters that end a line.
   */
  lemma CheckSound(preamble: seq<string>, hunks: seq<Hunk>, old_: seq<string>, lo: int, hi: int)
    requires IsDiff(preamble, hunks, old_) && SafeHunks(hunks)
    requires var lines := DiffText(preamble, hunks);
             forall i, k :: 0 <= i < |lines| && 0 <= k < |lines[i]| ==>
               lines[i][k] as int !in {0xA, 0xB, 0xC, 0xD, 0x1C, 0x1D, 0x1E, 0x85, 0x2028, 0x2029}
    requires 1 <= lo <= hi <= |old_|
    requires Flags(Read(SplitLines(PrintLines(DiffText(preamble, hunks)))), Outside, lo, hi) == []
    ensures var new_, shift := Patch(old_, hunks, 0), Net(Script(old_, hunks, 0), 1, lo);
            && 0 <= lo - 1 + shift && hi + shift <= |new_|
            && new_[lo - 1 + shift..hi + shift] == old_[lo - 1..hi]
  {
    hide Flags, Read, DiffText, Script, Patch, Net, SplitLines, PrintLines, IsDiff, SafeHunks;
    var lines := DiffText(preamble, hunks);
    forall i | 0 <= i < |lines| ensures Unbroken(lines[i]) {
    }
    SplitOfPrinted(lines);
    GuardSound(preamble, hunks, old_, lo, hi);
  }

  function ShortHeader(): string {
    SideText("@@ -", 1, Some(2)) + (SideText(" +", 1, None) + (" @@" + ""))
  }

  lemma ShortHeaderReads()
    ensures KindOf(ShortHeader()) == Header(1, 1) && Unbroken(ShortHeader())
  {
    HeaderReads(1, Some(2), 1, None, "");
    ShortHeaderUnbroken();
    hide SideText, Unbroken;
  }

  lemma ShortHeaderUnbroken()
    ensures Unbroken(ShortHeader())
  {
    var one, two := Decimal.Render(1), Decimal.Render(2);
    NumeralUnbroken(1);
    NumeralUnbroken(2);
    assert Unbroken("@@ -") && Unbroken(",") && Unbroken(" +") && Unbroken(" @@" + "") && Unbroken("");
    hide Unbroken, Decimal.Render;
    UnbrokenAppend("@@ -", one);
    UnbrokenAppend(",", two);
    UnbrokenAppend("@@ -" + one, "," + two);
    UnbrokenAppend(" +", one);
    UnbrokenAppend(" +" + one, "");
    UnbrokenAppend(" +" + one + "", " @@" + "");
    UnbrokenAppend("@@ -" + one + ("," + two), " +" + one + "" + (" @@" + ""));
  }

  lemma UnbrokenAppend(a: string, b: string)
    requires Unbroken(a) && Unbroken(b)
    ensures Unbroken(a + b)
  {
  }

  lemma NumeralUnbroken(n: nat)
    ensures Unbroken(Decimal.Render(n))
  {
    var s := Decimal.Render(n);
    forall k | 0 <= k < |s| ensures !IsBreak(s[k]) {
      assert Decimal.IsDigit(s[k]);
    }
  }

  /** The diff that deletes the first of two rows. */
  function DeletingHunk(text: string, kept: string): Hunk {
    Hunk(1, 1, ShortHeader(), [Del(text), Ctx(kept)])
  }

  /**
    A deleted line that starts with `--` reads `---` in the diff: the guard
    passes although the only protected row is gone.
   */
  lemma MarkerDeletionMissed(text: string, kept: string)
    requires "--" <= text
    ensures var hunks := [DeletingHunk(text, kept)];
            && IsDiff([], hunks, [text, kept])
            && Flags(Read(DiffText([], hunks)), Outside, 1, 1) == []
            && Patch([text, kept], hunks, 0) == [kept]
  {
    hide KindOf, ShortHeader, OldSide, NewSide, Changed, Patch, Fits, Script, Flags, Read, Seen, DiffText, SafeHunks;
    var h := DeletingHunk(text, kept);
    ShortHeaderReads();
    FirstOfTwoDeleted(text, kept);
    WholeFileHunk(h);
    MarkerMistaken(h, text);
    SeenInHunks([text, kept], [h], 0);
    FlagsWithinSeen(Read(DiffText([], [h])), Outside, 1, 1);
  }

  lemma MarkerMistaken(h: Hunk, text: string)
    requires "--" <= text && h.body != [] && h.body[0] == Del(text)
    ensures !SafeHunks([h])
  {
    assert !Unmistakable(h.body[0]);
    assert !Safe([h][0].body);
  }

  lemma DeletingHunkRows(text: string, kept: string)
    requires Fits([text, kept], [DeletingHunk(text, kept)], 0)
    ensures NewRowsRight([text, kept], [DeletingHunk(text, kept)], 0, 0)
  {
    hide ShortHeader;
    assert [DeletingHunk(text, kept)][1..] == [];
  }

  /** Behind that line the counters are off, although the hunk header names the right rows. */
  lemma CountersWrongBehindMarker(text: string, kept: string)
    requires "--" <= text
    ensures var old_, hunks := [text, kept], [DeletingHunk(text, kept)];
            && IsDiff([], hunks, old_) && NewRowsRight(old_, hunks, 0, 0)
            && CountersRight([], hunks, 0, 0) && !CountersRight([], hunks, 0, 1)
  {
    hide Flags, Read, DiffText, Patch, ShortHeader, CountersRight, NewRowsRight, Fits, HeadersRight;
    var old_, hunks := [text, kept], [DeletingHunk(text, kept)];
    MarkerDeletionMissed(text, kept);
    DeletingHunkRows(text, kept);
    RowsAreTrue([], hunks, old_, 0, 0);
    RowsAreTrue([], hunks, old_, 0, 1);
    assert !Unmistakable(hunks[0].body[..1][0]);
  }

  /** The diff that keeps a first row with a break in it and deletes the second one. */
  function BrokenHunk(c: char, text: string, gone: string): Hunk {
    Hunk(1, 1, ShortHeader(), [Ctx([c] + (" " + text)), Del(gone)])
  }

  lemma BrokenDiff(c: char, text: string, gone: string)
    ensures DiffText([], [BrokenHunk(c, text, gone)])
         == [ShortHeader(), LineText(Ctx([c] + (" " + text))), LineText(Del(gone))]
  {
    hide ShortHeader;
    var h := BrokenHunk(c, text, gone);
    assert h.body[1..] == [Del(gone)] && [Del(gone)][1..] == [] && [h][1..] == [];
    assert DiffText([], []) == [] && BodyText([]) == [];
    assert BodyText(h.body) == [LineText(h.body[0])] + ([LineText(Del(gone))] + []);
  }

  lemma GluedPieces(a: string, u: string, c: char, v: string, d: string)
    ensures PrintLines([a, u + ([c] + v), d]) == Glue([Piece(a, '\n'), Piece(u, c), Piece(v, '\n'), Piece(d, '\n')])
  {
    var p, q := Ended([a, u + ([c] + v), d]), [Piece(a, '\n'), Piece(u, c), Piece(v, '\n'), Piece(d, '\n')];
    assert p[2..] == q[3..] && p[1..][1..] == p[2..] && q[1..][1..][1..] == q[3..];
    var tail := ['\n'] + Glue(p[2..]);
    assert Glue(p[1..]) == (u + ([c] + v)) + tail;
    assert Glue(q[1..]) == u + ([c] + (v + tail)) by {
      assert Glue(q[1..][1..]) == v + tail;
    }
    hide Glue, Ended;
    Assoc(u, [c] + v, tail);
    Assoc([c], v, tail);
    assert Glue(p[1..]) == Glue(q[1..]);
  }

  lemma FourTexts(p: Piece, q: Piece, r: Piece, s: Piece)
    ensures Texts([p, q, r, s]) == [p.text, q.text, r.text, s.text]
  {
    assert [p, q, r, s][1..] == [q, r, s] && [q, r, s][1..] == [r, s] && [r, s][1..] == [s] && [s][1..] == [];
    assert Texts([]) == [] && Texts([s]) == [s.text] && Texts([r, s]) == [r.text, s.text];
  }

  lemma BrokenText(header: string, c: char, text: string, gone: string)
    requires IsBreak(c) && c != '\r' && Unbroken(header) && Unbroken(text) && Unbroken(gone)
    ensures SplitLines(PrintLines([header, LineText(Ctx([c] + (" " + text))), LineText(Del(gone))]))
         == [header, LineText(Ctx("")), LineText(Ctx(text)), LineText(Del(gone))]
  {
    var kept, deleted := LineText(Ctx(text)), LineText(Del(gone));
    assert kept == " " + text && deleted == "-" + gone && LineText(Ctx("")) == " ";
    assert LineText(Ctx([c] + (" " + text))) == " " + ([c] + kept);
    assert Unbroken(" ") && Unbroken("-") && IsBreak('\n');
    hide IsBreak, SplitLines, LineText, Unbroken, PrintLines, Glue;
    UnbrokenAppend(" ", text);
    UnbrokenAppend("-", gone);
    var p, q, r, s := Piece(header, '\n'), Piece(" ", c), Piece(kept, '\n'), Piece(deleted, '\n');
    GluedPieces(header, " ", c, kept, deleted);
    SplitOfGlued([p, q, r, s]);
    FourTexts(p, q, r, s);
  }

  /**
    A break inside a kept row is read as two context lines, so every row behind
    it is taken for the next one: the deletion of the protected last row passes.
   */
  lemma DeletionBehindBreakMissed(c: char, text: string, gone: string)
    requires c as int in {0xA, 0xB, 0xC, 0x1C, 0x1D, 0x1E, 0x85, 0x2028, 0x2029} && Unbroken(text) && Unbroken(gone)
    ensures var kept := [c] + (" " + text);
            var hunks := [BrokenHunk(c, text, gone)];
            && IsDiff([], hunks, [kept, gone])
            && Flags(Read(SplitLines(PrintLines(DiffText([], hunks)))), Outside, 2, 2) == []
            && Patch([kept, gone], hunks, 0) == [kept]
  {
    assert IsBreak(c) && c != '\r';
    hide KindOf, ShortHeader, LineText, Patch, Fits, Script, OldSide, NewSide, Unmistakable, Flags, Read, SplitLines,
      PrintLines, DiffText, IsBreak, Unbroken;
    var h := BrokenHunk(c, text, gone);
    ShortHeaderReads();
    BrokenDiff(c, text, gone);
    BrokenText(ShortHeader(), c, text, gone);
    ReadPieces(text, gone);
    BrokenSides(h.body[0].text, gone);
    WholeFileHunk(h);
    MisreadFlags(LineText(Ctx("")), LineText(Ctx(text)), LineText(Del(gone)));
  }

  lemma BrokenSides(kept: string, gone: string)
    ensures OldSide([Ctx(kept), Del(gone)]) == [kept, gone] && NewSide([Ctx(kept), Del(gone)]) == [kept]
  {
    var body := [Ctx(kept), Del(gone)];
    assert body[1..] == [Del(gone)] && [Del(gone)][1..] == [];
    assert OldSide([Del(gone)]) == [gone] && NewSide([Del(gone)]) == [];
  }

  lemma ReadPieces(text: string, gone: string)
    ensures KindOf(LineText(Ctx(""))) == Space && KindOf(LineText(Ctx(text))) == Space && !KindOf(LineText(Del(gone))).Header?
  {
    hide KindOf, LineText;
    BodyLineRead(Ctx(""));
    BodyLineRead(Ctx(text));
    BodyLineRead(Del(gone));
  }

  lemma MisreadFlags(a: string, b: string, c: string)
    requires KindOf(a) == Space && KindOf(b) == Space && !KindOf(c).Header?
    ensures Flags(Read([ShortHeader(), a, b, c]), Outside, 2, 2) == []
  {
    ShortHeaderReads();
    hide KindOf, ShortHeader;
    var x, y, z, w := Line(Header(1, 1), ShortHeader()), Line(Space, a), Line(Space, b), Line(KindOf(c), c);
    assert Read([ShortHeader(), a, b, c]) == [x, y, z, w] by {
      assert [ShortHeader(), a, b, c][1..] == [a, b, c] && [a, b, c][1..] == [b, c] && [b, c][1..] == [c] && [c][1..] == [];
      assert Read([]) == [] && Read([c]) == [w] && Read([b, c]) == [z, w] && Read([a, b, c]) == [y, z, w];
    }
    hide Read;
    assert [x, y, z, w][1..] == [y, z, w] && [y, z, w][1..] == [z, w] && [z, w][1..] == [w] && [w][1..] == [];
    assert Flags([w], At(3, 3), 2, 2) == [] + Flags([], Step(At(3, 3), w.kind), 2, 2);
    assert Flags([z, w], At(2, 2), 2, 2) == [] + Flags([w], At(3, 3), 2, 2);
    assert Flags([y, z, w], At(1, 1), 2, 2) == [] + Flags([z, w], At(2, 2), 2, 2);
  }
}
