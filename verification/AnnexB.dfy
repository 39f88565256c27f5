/**
  The Annex-B normaliser: a coded buffer with 3- and 4-byte start codes is
  re-emitted with 4-byte start codes only (sections B.1 and B.2 of ITU-T H.264).

  The scanner is proved against a split of the buffer at the occurrences of
  `00 00 01`.  `NormalizeFramed` says what normalising any framing of a list of
  NAL bodies returns, and `Decompose` that every buffer is such a framing; the
  round trip, idempotence and concatenation follow from the two.
 */
module AnnexB {
  import opened Prelude

  /** The caller's growing output vector. */
  class ByteVec {
    var bytes: seq<byte>

    constructor ()
      ensures bytes == []
    {
      bytes := [];
    }

    method Extend(more: seq<byte>)
      modifies this
      ensures bytes == old(bytes) + more
    {
      bytes := bytes + more;
    }
  }

  datatype Outcome = Done | Empty | NoStartCode(len: nat)

  /** A start code is written with 3 or 4 bytes. */
  type Width = w: nat | w == 3 || w == 4 witness 3

  function StartCode(w: Width): (c: seq<byte>)
    ensures |c| == w
  {
    if w == 4 then [0, 0, 0, 1] else [0, 0, 1]
  }

  predicate CodeAt(s: seq<byte>, p: int) {
    0 <= p && p + 2 < |s| && s[p] == 0 && s[p + 1] == 0 && s[p + 2] == 1
  }

  predicate WideCodeAt(s: seq<byte>, p: int) {
    0 <= p && p + 3 < |s| && s[p] == 0 && s[p + 1] == 0 && s[p + 2] == 0 && s[p + 3] == 1
  }

  /** The places where the scan stops. */
  predicate StopAt(s: seq<byte>, p: int) {
    CodeAt(s, p) || WideCodeAt(s, p)
  }

  /** Nothing stops the scan between `from` and `to`. */
  ghost predicate Clear(s: seq<byte>, from: int, to: int) {
    forall p :: from <= p < to ==> !StopAt(s, p)
  }

  ghost predicate NoCode(s: seq<byte>) {
    forall p :: !CodeAt(s, p)
  }

  /** Position of the first `00 00 01`, or the length when there is none. */
  function FindCode(s: seq<byte>): (r: nat)
    ensures r <= |s|
    ensures r < |s| ==> CodeAt(s, r)
    ensures forall p :: CodeAt(s, p) ==> r <= p
  {
    if |s| < 3 then |s|
    else if CodeAt(s, 0) then 0
    else
      assert forall p :: CodeAt(s, p) && p != 0 ==> CodeAt(s[1..], p - 1);
      1 + FindCode(s[1..])
  }

  predicate HasCode(s: seq<byte>) {
    FindCode(s) < |s|
  }

  /** One zero before the next code belongs to that code, when there is one. */
  function BodyEnd(t: seq<byte>, next: nat): (r: nat)
    requires next <= |t|
    ensures r <= next
  {
    if 0 < next < |t| && t[next - 1] == 0 then next - 1 else next
  }

  /** The NAL bodies of `t`, the bytes that follow a first start code. */
  function Bodies(t: seq<byte>): (bs: seq<seq<byte>>)
    ensures |bs| > 0
    decreases |t|
  {
    var c := FindCode(t);
    if c == |t| then [t] else [t[..BodyEnd(t, c)]] + Bodies(t[c + 3..])
  }

  /** Bodies with a start code of the given width in each gap. */
  function Joined(bs: seq<seq<byte>>, gaps: seq<Width>): seq<byte>
    requires |bs| == |gaps| + 1
  {
    if gaps == [] then bs[0] else bs[0] + StartCode(gaps[0]) + Joined(bs[1..], gaps[1..])
  }

  function AllWide(n: nat): (ws: seq<Width>)
    ensures |ws| == n && forall k :: 0 <= k < n ==> ws[k] == 4
  {
    seq(n, _ => 4)
  }

  /** Every body behind a 4-byte start code. */
  function Frame4(bs: seq<seq<byte>>): seq<byte>
    requires bs != []
  {
    StartCode(4) + Joined(bs, AllWide(|bs| - 1))
  }

  /** What the normaliser appends, after any parameter-set prefix. */
  function Normalized(raw: seq<byte>): seq<byte>
    requires HasCode(raw)
  {
    Frame4(Bodies(raw[FindCode(raw) + 3..]))
  }

  // ---------------------------------------------------------------------
  // The scanner
  // ---------------------------------------------------------------------

  /** Where the NAL behind the start code at `i` begins. */
  ghost function NalStart(s: seq<byte>, i: nat): (r: nat)
    requires StopAt(s, i)
    ensures i < r <= |s|
  {
    if WideCodeAt(s, i) then i + 4 else i + 3
  }

  /** What is still to be emitted when the scan stands at a start code, or at the end. */
  ghost function Rest(s: seq<byte>, i: nat): seq<byte>
    requires i == |s| || StopAt(s, i)
  {
    if i == |s| then [] else Frame4(Bodies(s[NalStart(s, i)..]))
  }

  /** The inner scan: the next start code, or the end of the buffer, delimits the NAL. */
  method FindNalEnd(raw: array<byte>, nalStart: nat) returns (nalEnd: nat)
    requires nalStart <= raw.Length
    ensures nalStart <= nalEnd <= raw.Length
    ensures nalEnd == raw.Length || StopAt(raw[..], nalEnd)
    ensures Clear(raw[..], nalStart, nalEnd)
  {
    var j := nalStart;
    while j + 2 < raw.Length
      invariant nalStart <= j <= raw.Length
      invariant Clear(raw[..], nalStart, j)
      decreases raw.Length - j
    {
      if raw[j] == 0 && raw[j + 1] == 0
         && (raw[j + 2] == 1 || (j + 3 < raw.Length && raw[j + 2] == 0 && raw[j + 3] == 1)) {
        return j;
      }
      j := j + 1;
    }
    nalEnd := raw.Length;
  }

  method NormalizeToAnnexB(raw: array<byte>, spsPps: seq<byte>, isIdr: bool, out: ByteVec)
    returns (r: Outcome)
    modifies out
    ensures raw.Length == 0 ==> r == Empty && out.bytes == old(out.bytes)
    ensures raw.Length > 0 && !HasCode(raw[..]) ==>
              r == NoStartCode(raw.Length) &&
              out.bytes == old(out.bytes) + (if isIdr then spsPps else [])
    ensures raw.Length > 0 && HasCode(raw[..]) ==>
              r == Done &&
              out.bytes == old(out.bytes) + (if isIdr then spsPps else []) + Normalized(raw[..])
  {
    if raw.Length == 0 {
      return Empty;
    }
    if isIdr && spsPps != [] {
      out.Extend(spsPps);
    }
    ghost var s := raw[..];
    ghost var base := old(out.bytes) + (if isIdr then spsPps else []);
    assert out.bytes == base;
    var i, foundAny := 0, false;
    hide Scanned, StopAt, NalStart, CodeAt, WideCodeAt, Normalized, HasCode, Clear;
    ScanStarts(base, s);
    while i < raw.Length
      invariant 0 <= i <= raw.Length && raw[..] == s
      invariant Scanned(out.bytes, base, s, i, foundAny)
      decreases raw.Length - i
    {
      var three := i + 2 < raw.Length && raw[i] == 0 && raw[i + 1] == 0 && raw[i + 2] == 1;
      var four := i + 3 < raw.Length
        && raw[i] == 0 && raw[i + 1] == 0 && raw[i + 2] == 0 && raw[i + 3] == 1;
      ReadsStop(s, i);
      if three || four {
        var nalStart := if four then i + 4 else i + 3;
        var nalEnd := FindNalEnd(raw, nalStart);
        ScanEmits(out.bytes, base, s, i, foundAny, nalEnd);
        out.Extend([0, 0, 0, 1]);
        out.Extend(raw[nalStart..nalEnd]);
        foundAny := true;
        i := nalEnd;
      } else {
        ScanPasses(out.bytes, base, s, i, foundAny);
        i := i + 1;
      }
    }
    ScanEnds(out.bytes, base, s, foundAny);
    if !foundAny {
      return NoStartCode(raw.Length);
    }
    r := Done;
  }

  /** The scan's two tests. */
  lemma ReadsStop(s: seq<byte>, i: nat)
    requires i < |s|
    ensures var three := i + 2 < |s| && s[i] == 0 && s[i + 1] == 0 && s[i + 2] == 1;
            var four := i + 3 < |s| && s[i] == 0 && s[i + 1] == 0 && s[i + 2] == 0 && s[i + 3] == 1;
            && (StopAt(s, i) <==> three || four)
            && (StopAt(s, i) ==> NalStart(s, i) == if four then i + 4 else i + 3)
  {
  }

  /** Where the outer scan stands: before the first code nothing is emitted, and behind it what had to be. */
  ghost predicate Scanned(sofar: seq<byte>, base: seq<byte>, s: seq<byte>, i: nat, found: bool) {
    if found then
      HasCode(s) && (i == |s| || StopAt(s, i)) && sofar + Rest(s, i) == base + Normalized(s)
    else sofar == base && Clear(s, 0, i)
  }

  lemma ScanStarts(base: seq<byte>, s: seq<byte>)
    ensures Scanned(base, base, s, 0, false)
  {
  }

  lemma ScanPasses(sofar: seq<byte>, base: seq<byte>, s: seq<byte>, i: nat, found: bool)
    requires Scanned(sofar, base, s, i, found) && i < |s| && !StopAt(s, i)
    ensures Scanned(sofar, base, s, i + 1, found)
  {
  }

  lemma ScanEmits(sofar: seq<byte>, base: seq<byte>, s: seq<byte>, i: nat, found: bool, end: nat)
    requires Scanned(sofar, base, s, i, found) && StopAt(s, i)
    requires NalStart(s, i) <= end <= |s| && (end == |s| || StopAt(s, end)) && Clear(s, NalStart(s, i), end)
    ensures Scanned(sofar + [0, 0, 0, 1] + s[NalStart(s, i)..end], base, s, end, true)
  {
    var body, rest := s[NalStart(s, i)..end], Rest(s, end);
    assert i != |s|;
    assert Rest(s, i) == [0, 0, 0, 1] + body + rest by {
      BodyFound(s, NalStart(s, i), end);
    }
    hide StopAt, NalStart, Clear, HasCode, Normalized, Rest;
    if !found {
      FirstStart(s, i);
    }
    Regroup(sofar, [0, 0, 0, 1], body, rest);
  }

  lemma ScanEnds(sofar: seq<byte>, base: seq<byte>, s: seq<byte>, found: bool)
    requires Scanned(sofar, base, s, |s|, found)
    ensures found <==> HasCode(s)
    ensures sofar == if HasCode(s) then base + Normalized(s) else base
  {
    if found {
      assert sofar + [] == sofar;
    } else {
      assert HasCode(s) ==> StopAt(s, FindCode(s));
    }
  }

  /** The first place the scan stops at announces the same NAL as the first `00 00 01`. */
  lemma FirstStart(s: seq<byte>, i: nat)
    requires StopAt(s, i) && Clear(s, 0, i)
    ensures HasCode(s) && Rest(s, i) == Normalized(s)
  {
    var c := if WideCodeAt(s, i) then i + 1 else i;
    assert CodeAt(s, c);
    assert StopAt(s, FindCode(s));
  }

  /** The inner scan stops exactly where the split ends the first body. */
  lemma BodyFound(s: seq<byte>, from: nat, end: nat)
    requires from <= end <= |s|
    requires end == |s| || StopAt(s, end)
    requires Clear(s, from, end)
    ensures Frame4(Bodies(s[from..])) == [0, 0, 0, 1] + s[from..end] + Rest(s, end)
  {
    if end == |s| {
      LastBody(s[from..]) by {
        assert forall p :: CodeAt(s[from..], p) ==> StopAt(s, from + p);
      }
      assert s[from..] == s[from..end];
    } else {
      FirstBody(s, from, end);
      Frame4Cons(s[from..end], Bodies(s[NalStart(s, end)..]));
    }
  }

  lemma LastBody(t: seq<byte>)
    requires NoCode(t)
    ensures Frame4(Bodies(t)) == [0, 0, 0, 1] + t
  {
    assert FindCode(t) == |t|;
    assert Joined([t], AllWide(0)) == t;
  }

  /** Behind the scanned bytes the first `00 00 01` is that of the start code at `end`. */
  lemma CodeFoundAt(s: seq<byte>, from: nat, end: nat)
    requires from <= end && StopAt(s, end) && Clear(s, from, end)
    ensures FindCode(s[from..]) == NalStart(s, end) - 3 - from < |s[from..]| - 2
  {
    var t := s[from..];
    assert forall p :: CodeAt(t, p) ==> StopAt(s, from + p);
    assert CodeAt(t, NalStart(s, end) - 3 - from);
  }

  /** A zero is left to the code exactly when the scan stopped at a 4-byte one. */
  lemma BodyEndsAt(s: seq<byte>, from: nat, end: nat)
    requires from <= end && StopAt(s, end) && Clear(s, from, end)
    ensures BodyEnd(s[from..], NalStart(s, end) - 3 - from) == end - from
  {
    hide Clear;
    var t, c := s[from..], NalStart(s, end) - 3 - from;
    if c == end - from && 0 < c {
      NoStopBefore(s, from, end);
      assert t[c - 1] == s[end - 1];
    }
  }

  lemma NoStopBefore(s: seq<byte>, from: nat, end: nat)
    requires from < end && CodeAt(s, end) && Clear(s, from, end)
    ensures s[end - 1] != 0
  {
    assert !StopAt(s, end - 1);
  }

  lemma FirstOfBodies(t: seq<byte>)
    requires HasCode(t)
    ensures Bodies(t) == [t[..BodyEnd(t, FindCode(t))]] + Bodies(t[FindCode(t) + 3..])
  {
    assert CodeAt(t, FindCode(t));
    hide BodyEnd, FindCode, CodeAt;
  }

  lemma FirstBody(s: seq<byte>, from: nat, end: nat)
    requires from <= end && StopAt(s, end) && Clear(s, from, end)
    ensures Bodies(s[from..]) == [s[from..end]] + Bodies(s[NalStart(s, end)..])
  {
    assert from <= |s|;
    hide Bodies, FindCode, BodyEnd, Clear, StopAt, NalStart;
    var t := s[from..];
    CodeFoundAt(s, from, end);
    BodyEndsAt(s, from, end);
    FirstOfBodies(t);
    assert t[..end - from] == s[from..end];
    assert t[FindCode(t) + 3..] == s[NalStart(s, end)..];
  }

  lemma Frame4Cons(b: seq<byte>, bs: seq<seq<byte>>)
    requires bs != []
    ensures Frame4([b] + bs) == [0, 0, 0, 1] + b + Frame4(bs)
  {
    assert ([b] + bs)[1..] == bs;
    assert AllWide(|bs|)[1..] == AllWide(|bs| - 1);
  }

  // ---------------------------------------------------------------------
  // Normalising a framed list
  // ---------------------------------------------------------------------

  ghost predicate CodeFree(bs: seq<seq<byte>>) {
    forall k :: 0 <= k < |bs| ==> NoCode(bs[k])
  }

  predicate EndsInZero(b: seq<byte>) {
    b != [] && b[|b| - 1] == 0
  }

  /** No body that ends in a zero stands before a 3-byte start code. */
  ghost predicate Recoverable(bs: seq<seq<byte>>, gaps: seq<Width>)
    requires |bs| == |gaps| + 1
  {
    forall k :: 0 <= k < |gaps| ==> gaps[k] == 4 || !EndsInZero(bs[k])
  }

  function Trim(b: seq<byte>, w: Width): seq<byte> {
    if w == 3 && EndsInZero(b) then b[..|b| - 1] else b
  }

  /** The bodies the split reads back: a zero before a 3-byte code is lost to that code. */
  function TrimmedBodies(bs: seq<seq<byte>>, gaps: seq<Width>): (ts: seq<seq<byte>>)
    requires |bs| == |gaps| + 1
    ensures |ts| == |bs|
    ensures forall k :: 0 <= k < |gaps| ==> ts[k] == Trim(bs[k], gaps[k])
    ensures ts[|gaps|] == bs[|gaps|]
  {
    if gaps == [] then bs else [Trim(bs[0], gaps[0])] + TrimmedBodies(bs[1..], gaps[1..])
  }

  lemma TrimmedUnchanged(bs: seq<seq<byte>>, gaps: seq<Width>)
    requires |bs| == |gaps| + 1
    ensures TrimmedBodies(bs, gaps) == bs <==> Recoverable(bs, gaps)
  {
    var ts := TrimmedBodies(bs, gaps);
    if ts == bs {
      forall k | 0 <= k < |gaps| ensures gaps[k] == 4 || !EndsInZero(bs[k]) {
        assert ts[k] == Trim(bs[k], gaps[k]);
        assert |ts[k]| == |bs[k]|;
      }
    }
  }

  lemma TrimmedCodeFree(bs: seq<seq<byte>>, gaps: seq<Width>)
    requires |bs| == |gaps| + 1 && CodeFree(bs)
    ensures CodeFree(TrimmedBodies(bs, gaps))
  {
    forall k | 0 <= k < |gaps| ensures NoCode(Trim(bs[k], gaps[k])) {
      assert NoCode(bs[k]);
      assert forall p :: CodeAt(Trim(bs[k], gaps[k]), p) ==> CodeAt(bs[k], p);
    }
  }

  /** Zeros before a code hide nothing: the first `00 00 01` after code-free bytes is the code's own. */
  lemma FirstCodeAfter(b: seq<byte>, w: Width, rest: seq<byte>)
    requires NoCode(b)
    ensures FindCode(b + StartCode(w) + rest) == |b| + w - 3
  {
    var t := b + StartCode(w) + rest;
    assert CodeAt(t, |b| + w - 3);
    assert forall p :: p + 2 < |b| ==> CodeAt(t, p) == CodeAt(b, p);
    assert forall p :: CodeAt(t, p) ==> t[p + 2] == 1;
  }

  lemma SplitStep(b: seq<byte>, w: Width, rest: seq<byte>)
    requires NoCode(b)
    ensures Bodies(b + StartCode(w) + rest) == [Trim(b, w)] + Bodies(rest)
  {
    var t := b + StartCode(w) + rest;
    FirstCodeAfter(b, w, rest);
    var c := |b| + w - 3;
    assert t[c + 3..] == rest;
    assert 0 < c ==> t[c - 1] == if w == 4 then 0 else b[|b| - 1];
    assert t[..BodyEnd(t, c)] == Trim(b, w);
  }

  lemma {:induction false} SplitOfJoined(bs: seq<seq<byte>>, gaps: seq<Width>)
    requires |bs| == |gaps| + 1 && CodeFree(bs)
    ensures Bodies(Joined(bs, gaps)) == TrimmedBodies(bs, gaps)
  {
    assert NoCode(bs[0]);
    if gaps == [] {
      assert FindCode(bs[0]) == |bs[0]|;
    } else {
      SplitStep(bs[0], gaps[0], Joined(bs[1..], gaps[1..]));
      SplitOfJoined(bs[1..], gaps[1..]);
    }
  }

  /**
    Normalising any framing of code-free bodies behind any code-free junk gives
    the 4-byte framing of the trimmed bodies.
   */
  lemma NormalizeFramed(junk: seq<byte>, w: Width, bs: seq<seq<byte>>, gaps: seq<Width>)
    requires |bs| == |gaps| + 1 && CodeFree(bs) && NoCode(junk)
    ensures HasCode(junk + StartCode(w) + Joined(bs, gaps))
    ensures Normalized(junk + StartCode(w) + Joined(bs, gaps)) == Frame4(TrimmedBodies(bs, gaps))
  {
    var tail := Joined(bs, gaps);
    var raw := junk + StartCode(w) + tail;
    FirstCodeAfter(junk, w, tail);
    assert raw[FindCode(raw) + 3..] == tail;
    SplitOfJoined(bs, gaps);
  }

  /** The emitted stream determines the bodies, and normalising leaves it as it is. */
  lemma Frame4Reads(bs: seq<seq<byte>>)
    requires bs != [] && CodeFree(bs)
    ensures |Frame4(bs)| >= 4 && Bodies(Frame4(bs)[4..]) == bs
    ensures HasCode(Frame4(bs)) && Normalized(Frame4(bs)) == Frame4(bs)
  {
    var gaps := AllWide(|bs| - 1);
    assert NoCode([]);
    NormalizeFramed([], 4, bs, gaps);
    assert [] + StartCode(4) + Joined(bs, gaps) == Frame4(bs);
    TrimmedUnchanged(bs, gaps);
    SplitOfJoined(bs, gaps);
    assert Frame4(bs)[4..] == Joined(bs, gaps);
  }

  /**
    Round trip: bodies come back unchanged exactly when no body that ends in a
    zero stands before a 3-byte code.
   */
  lemma RoundTrip(junk: seq<byte>, w: Width, bs: seq<seq<byte>>, gaps: seq<Width>)
    requires |bs| == |gaps| + 1 && CodeFree(bs) && NoCode(junk)
    ensures HasCode(junk + StartCode(w) + Joined(bs, gaps))
    ensures Normalized(junk + StartCode(w) + Joined(bs, gaps)) == Frame4(bs) <==> Recoverable(bs, gaps)
  {
    NormalizeFramed(junk, w, bs, gaps);
    TrimmedUnchanged(bs, gaps);
    TrimmedCodeFree(bs, gaps);
    Frame4Reads(TrimmedBodies(bs, gaps));
    Frame4Reads(bs);
  }

  /** NAL units as section 7.4.1 of ITU-T H.264 has them: no trailing zero, any mix of codes. */
  lemma RoundTripOfNalUnits(junk: seq<byte>, w: Width, bs: seq<seq<byte>>, gaps: seq<Width>)
    requires |bs| == |gaps| + 1 && CodeFree(bs) && NoCode(junk)
    requires forall k :: 0 <= k < |bs| ==> !EndsInZero(bs[k])
    ensures HasCode(junk + StartCode(w) + Joined(bs, gaps))
    ensures Normalized(junk + StartCode(w) + Joined(bs, gaps)) == Frame4(bs)
  {
    RoundTrip(junk, w, bs, gaps);
  }

  /** Two units in plain bytes, with a code of either width between them. */
  lemma TwoUnits(x: seq<byte>, y: seq<byte>, wide: bool)
    requires forall p :: 0 <= p < |x| - 2 ==> !(x[p] == 0 && x[p + 1] == 0 && x[p + 2] == 1)
    requires forall p :: 0 <= p < |y| - 2 ==> !(y[p] == 0 && y[p + 1] == 0 && y[p + 2] == 1)
    requires (x != [] ==> x[|x| - 1] != 0) && (y != [] ==> y[|y| - 1] != 0)
    ensures var raw := [0, 0, 1] + x + (if wide then [0, 0, 0, 1] else [0, 0, 1]) + y;
            HasCode(raw) && Normalized(raw) == [0, 0, 0, 1] + x + [0, 0, 0, 1] + y
  {
    PlainBytes(x);
    PlainBytes(y);
    PlainBytes([]);
    hide HasCode, Normalized, NoCode, Joined, Frame4, EndsInZero;
    var w: Width := if wide then 4 else 3;
    RoundTripOfNalUnits([], 3, [x, y], [w]);
    TwoJoined(x, w, y);
    TwoFramed(x, y);
    assert [] + StartCode(3) == [0, 0, 1];
    Regroup([0, 0, 1], x, StartCode(w), y);
  }

  lemma PlainBytes(x: seq<byte>)
    requires forall p :: 0 <= p < |x| - 2 ==> !(x[p] == 0 && x[p + 1] == 0 && x[p + 2] == 1)
    requires x != [] ==> x[|x| - 1] != 0
    ensures NoCode(x) && !EndsInZero(x)
  {
  }

  lemma TwoJoined(x: seq<byte>, w: Width, y: seq<byte>)
    ensures Joined([x, y], [w]) == x + StartCode(w) + y
  {
    hide StartCode;
    assert [x, y][1..] == [y] && [w][1..] == [];
    assert Joined([y], []) == y;
  }

  lemma TwoFramed(x: seq<byte>, y: seq<byte>)
    ensures Frame4([x, y]) == [0, 0, 0, 1] + x + [0, 0, 0, 1] + y
  {
    TwoJoined(x, 4, y);
    assert AllWide(1) == [4];
    hide Joined;
    Regroup([0, 0, 0, 1], x, [0, 0, 0, 1], y);
  }

  // ---------------------------------------------------------------------
  // Every buffer is a framing
  // ---------------------------------------------------------------------

  lemma ReassembleStep(t: seq<byte>) returns (b: seq<byte>, w: Width, tail: seq<byte>)
    requires HasCode(t)
    ensures t == b + StartCode(w) + tail && Bodies(t) == [b] + Bodies(tail)
    ensures NoCode(b) && (w == 4 || !EndsInZero(b))
  {
    var c := FindCode(t);
    var end := BodyEnd(t, c);
    b, w, tail := t[..end], if end < c then 4 else 3, t[c + 3..];
    assert forall p :: CodeAt(b, p) ==> CodeAt(t, p);
  }

  /** Every byte string is the join of its own bodies. */
  lemma {:induction false} Reassemble(t: seq<byte>) returns (gaps: seq<Width>)
    ensures |Bodies(t)| == |gaps| + 1 && Joined(Bodies(t), gaps) == t
    ensures CodeFree(Bodies(t)) && Recoverable(Bodies(t), gaps)
    decreases |t|
  {
    if HasCode(t) {
      var b, w, tail := ReassembleStep(t);
      var rest := Reassemble(tail);
      gaps := [w] + rest;
      JoinedCons(b, w, Bodies(tail), rest);
    } else {
      gaps := [];
    }
  }

  lemma JoinedCons(b: seq<byte>, w: Width, bs: seq<seq<byte>>, gaps: seq<Width>)
    requires |bs| == |gaps| + 1 && NoCode(b) && CodeFree(bs) && Recoverable(bs, gaps)
    requires w == 4 || !EndsInZero(b)
    ensures CodeFree([b] + bs) && Recoverable([b] + bs, [w] + gaps)
    ensures Joined([b] + bs, [w] + gaps) == b + StartCode(w) + Joined(bs, gaps)
  {
    assert ([b] + bs)[1..] == bs && ([w] + gaps)[1..] == gaps;
    forall k | 0 <= k < |[w] + gaps| ensures ([w] + gaps)[k] == 4 || !EndsInZero(([b] + bs)[k]) {
      assert k > 0 ==> gaps[k - 1] == 4 || !EndsInZero(bs[k - 1]);
    }
  }

  lemma RecoverableAppend(xs: seq<seq<byte>>, us: seq<Width>, w: Width, ys: seq<seq<byte>>, vs: seq<Width>)
    requires |xs| == |us| + 1 && |ys| == |vs| + 1
    requires CodeFree(xs) && CodeFree(ys) && Recoverable(xs, us) && Recoverable(ys, vs)
    requires w == 4 || !EndsInZero(xs[|us|])
    ensures CodeFree(xs + ys) && Recoverable(xs + ys, us + [w] + vs)
  {
    forall k | 0 <= k < |us + [w] + vs|
      ensures (us + [w] + vs)[k] == 4 || !EndsInZero((xs + ys)[k])
    {
      if k > |us| {
        assert vs[k - |us| - 1] == 4 || !EndsInZero(ys[k - |us| - 1]);
      }
    }
  }

  /** A buffer with a start code is code-free junk followed by a recoverable framing of its bodies. */
  lemma Decompose(raw: seq<byte>) returns (junk: seq<byte>, bs: seq<seq<byte>>, gaps: seq<Width>)
    requires HasCode(raw)
    ensures |bs| == |gaps| + 1 && NoCode(junk) && CodeFree(bs) && Recoverable(bs, gaps)
    ensures raw == junk + StartCode(3) + Joined(bs, gaps) && Normalized(raw) == Frame4(bs)
  {
    var c := FindCode(raw);
    junk, bs := raw[..c], Bodies(raw[c + 3..]);
    gaps := Reassemble(raw[c + 3..]);
    assert forall p :: CodeAt(junk, p) ==> CodeAt(raw, p);
  }

  lemma DecomposeWide(raw: seq<byte>) returns (bs: seq<seq<byte>>, gaps: seq<Width>)
    requires StartCode(4) <= raw
    ensures |bs| == |gaps| + 1 && CodeFree(bs) && Recoverable(bs, gaps)
    ensures HasCode(raw) && raw == StartCode(4) + Joined(bs, gaps) && Normalized(raw) == Frame4(bs)
  {
    bs := Bodies(raw[4..]);
    gaps := Reassemble(raw[4..]);
    FirstStart(raw, 0);
  }

  /** Normalising twice is normalising once. */
  lemma Idempotent(raw: seq<byte>)
    requires HasCode(raw)
    ensures HasCode(Normalized(raw)) && Normalized(Normalized(raw)) == Normalized(raw)
  {
    var junk, bs, gaps := Decompose(raw);
    Frame4Reads(bs);
  }

  lemma {:induction false} JoinedAppend(xs: seq<seq<byte>>, us: seq<Width>, w: Width, ys: seq<seq<byte>>, vs: seq<Width>)
    requires |xs| == |us| + 1 && |ys| == |vs| + 1
    ensures Joined(xs + ys, us + [w] + vs) == Joined(xs, us) + StartCode(w) + Joined(ys, vs)
  {
    if us == [] {
      assert (xs + ys)[1..] == ys && (us + [w] + vs)[1..] == vs;
    } else {
      JoinedAppend(xs[1..], us[1..], w, ys, vs);
      assert (xs + ys)[1..] == xs[1..] + ys && (us + [w] + vs)[1..] == us[1..] + [w] + vs;
      Regroup(xs[0] + StartCode(us[0]), Joined(xs[1..], us[1..]), StartCode(w), Joined(ys, vs));
    }
  }

  lemma Regroup(a: seq<byte>, b: seq<byte>, c: seq<byte>, d: seq<byte>)
    ensures a + (b + c + d) == a + b + c + d
  {
  }

  lemma Frame4Append(xs: seq<seq<byte>>, ys: seq<seq<byte>>)
    requires xs != [] && ys != []
    ensures Frame4(xs + ys) == Frame4(xs) + Frame4(ys)
  {
    JoinedAppend(xs, AllWide(|xs| - 1), 4, ys, AllWide(|ys| - 1));
    assert AllWide(|xs| - 1) + [4] + AllWide(|ys| - 1) == AllWide(|xs + ys| - 1);
  }

  /** Buffers of which the second starts with a 4-byte code may be normalised one at a time. */
  lemma Concatenation(a: seq<byte>, b: seq<byte>)
    requires HasCode(a) && StartCode(4) <= b
    ensures HasCode(a + b) && HasCode(b)
    ensures Normalized(a + b) == Normalized(a) + Normalized(b)
  {
    hide HasCode, Normalized, Frame4, Joined, CodeFree, NoCode, Recoverable, StartCode;
    var junk, xs, us := Decompose(a);
    var ys, vs := DecomposeWide(b);
    JoinedAppend(xs, us, 4, ys, vs);
    Regroup(junk + StartCode(3), Joined(xs, us), StartCode(4), Joined(ys, vs));
    Assoc(junk + StartCode(3) + Joined(xs, us), StartCode(4), Joined(ys, vs));
    assert a + b == junk + StartCode(3) + Joined(xs + ys, us + [4] + vs);
    RecoverableAppend(xs, us, 4, ys, vs);
    RoundTrip(junk, 3, xs + ys, us + [4] + vs);
    Frame4Append(xs, ys);
  }

  lemma {:induction false} WideningGrowth(bs: seq<seq<byte>>, gaps: seq<Width>, wide: seq<Width>)
    requires |bs| == |gaps| + 1 == |wide| + 1
    ensures 3 * (4 + |Joined(bs, wide)|) <= 4 * (3 + |Joined(bs, gaps)|)
  {
    if gaps != [] {
      WideningGrowth(bs[1..], gaps[1..], wide[1..]);
    }
  }

  /** The output is at most a third longer than the input. */
  lemma Growth(raw: seq<byte>)
    requires HasCode(raw)
    ensures 3 * |Normalized(raw)| <= 4 * |raw|
  {
    var junk, bs, gaps := Decompose(raw);
    WideningGrowth(bs, gaps, AllWide(|bs| - 1));
  }
}
