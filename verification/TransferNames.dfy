/**
  Names for received files: the base name taken from the peer's file name, and
  the "-N" suffixes tried until a free name is found (Unix path rules).
 */
module TransferNames {
  import opened Prelude
  import opened Decimal

  const SUFFIX_LIMIT := 10_000

  // ---------------------------------------------------------------------
  // The base name
  // ---------------------------------------------------------------------

  /** The last component of a path: trailing slashes and "." components do not count, ".." is no name. */
  function FileName(path: string): (name: Option<string>)
    ensures name.Some? ==> name.value !in ["", ".", ".."] && '/' !in name.value
    decreases |path|
  {
    var k := LastIndexOf(path, '/');
    var last := path[k + 1..];
    if last == "" || last == "." then (if k < 0 then None else FileName(path[..k]))
    else if last == ".." then None
    else Some(last)
  }

  /** Position of the last `c`, or -1. */
  function LastIndexOf(s: string, c: char): (k: int)
    ensures -1 <= k < |s|
    ensures k >= 0 ==> s[k] == c
    ensures forall j :: k < j < |s| ==> s[j] != c
  {
    if s == [] then -1
    else if s[|s| - 1] == c then |s| - 1
    else LastIndexOf(s[..|s| - 1], c)
  }

  /** The name a transfer is stored under, or `None` when the receiver rejects it. */
  function SafeBase(filename: string): (base: Option<string>)
    ensures base.Some? ==> base.value !in ["", ".", ".."] && '/' !in base.value && '\0' !in base.value
  {
    match FileName(filename)
    case Some(b) => if '\0' in b then None else Some(b)
    case None => None
  }

  /** A plain name is its own base name, whatever directory is put in front of it. */
  lemma BaseOfPath(dir: string, name: string)
    requires name !in ["", ".", ".."] && '/' !in name && '\0' !in name
    ensures SafeBase(name) == Some(name)
    ensures SafeBase(dir + "/" + name) == Some(name)
  {
    FileNameBehind(dir + "/", name) by {
      assert (dir + "/")[|dir|] == '/';
    }
    FileNameBehind("", name);
    assert "" + name == name;
  }

  lemma FileNameBehind(front: string, name: string)
    requires name !in ["", ".", ".."] && '/' !in name
    requires front == "" || front[|front| - 1] == '/'
    ensures FileName(front + name) == Some(name)
  {
    var path := front + name;
    assert path[|front|..] == name;
    assert LastIndexOf(path, '/') == |front| - 1 by {
      assert forall j :: |front| <= j < |path| ==> path[j] in name;
      assert front != "" ==> path[|front| - 1] == '/';
    }
  }

  lemma {:induction false} NameIsInPath(path: string)
    ensures FileName(path).Some? ==> forall c :: c in FileName(path).value ==> c in path
    decreases |path|
  {
    var k := LastIndexOf(path, '/');
    if k >= 0 {
      NameIsInPath(path[..k]);
    }
  }

  /** Component by component: what a path's last name is. */
  lemma FileNameOfParts(dir: string, last: string)
    requires '/' !in last
    ensures FileName(dir + "/" + last)
         == if last == "" || last == "." then FileName(dir) else if last == ".." then None else Some(last)
    ensures FileName(last) == if last in ["", ".", ".."] then None else Some(last)
  {
    LastComponent(dir, last);
    NoComponent(last);
    hide LastIndexOf;
  }

  lemma NoComponent(last: string)
    requires '/' !in last
    ensures LastIndexOf(last, '/') == -1 && last[0..] == last
  {
    assert forall j :: 0 <= j < |last| ==> last[j] in last;
  }

  lemma LastComponent(dir: string, last: string)
    requires '/' !in last
    ensures var path := dir + "/" + last;
            LastIndexOf(path, '/') == |dir| && path[|dir| + 1..] == last && path[..|dir|] == dir
  {
    var path := dir + "/" + last;
    assert path[|dir|] == '/';
    assert forall j :: |dir| < j < |path| ==> path[j] in last;
  }

  /** The name a sender takes from its path is one the receiver stores under unchanged. */
  lemma OwnBaseName(path: string)
    requires FileName(path).Some? && '\0' !in path
    ensures SafeBase(FileName(path).value) == FileName(path)
  {
    NameIsInPath(path);
    FileNameBehind("", FileName(path).value);
    assert "" + FileName(path).value == FileName(path).value;
  }

  // ---------------------------------------------------------------------
  // Candidates
  // ---------------------------------------------------------------------

  /** `file_stem`: the name up to its last dot, unless that dot is its first character. */
  function Stem(name: string): string {
    var d := LastIndexOf(name, '.');
    if d <= 0 then name else name[..d]
  }

  function Ext(name: string): string {
    var d := LastIndexOf(name, '.');
    if d <= 0 then "" else name[d + 1..]
  }

  function Tail(name: string): string {
    if Ext(name) == "" then "" else "." + Ext(name)
  }

  /** Candidate 0 is the base name itself. */
  function Candidate(base: string, k: nat): string {
    if k == 0 then base else Stem(base) + "-" + Render(k) + Tail(base)
  }

  lemma CandidatesDistinct(base: string, j: nat, k: nat)
    requires j < k
    ensures Candidate(base, j) != Candidate(base, k)
  {
    var ck := Candidate(base, k);
    if j == 0 {
      assert |ck| == |Stem(base)| + 1 + |Render(k)| + |Tail(base)|;
      assert |base| <= |Stem(base)| + 1 + |Tail(base)|;
    } else if Candidate(base, j) == ck {
      var cj, s := Candidate(base, j), |Stem(base)| + 1;
      assert |Render(j)| == |Render(k)|;
      assert cj[s..s + |Render(j)|] == Render(j);
      assert ck[s..s + |Render(k)|] == Render(k);
      RenderInjective(j, k);
    }
  }

  ghost predicate NameFree(existing: set<string>, base: string) {
    exists k: nat :: k < SUFFIX_LIMIT && Candidate(base, k) !in existing
  }

  ghost predicate AllTaken(existing: set<string>, base: string, from: nat, to: nat) {
    forall j: nat :: from <= j < to ==> Candidate(base, j) in existing
  }

  /** The first candidate from `k` on that does not exist; the base name when there is none. */
  function FirstFree(existing: set<string>, base: string, k: nat): (name: string)
    requires k <= SUFFIX_LIMIT
    ensures (exists n: nat :: k <= n < SUFFIX_LIMIT && name == Candidate(base, n) && name !in existing
                              && AllTaken(existing, base, k, n))
            || (name == base && AllTaken(existing, base, k, SUFFIX_LIMIT))
    decreases SUFFIX_LIMIT - k
  {
    if k == SUFFIX_LIMIT then base
    else if Candidate(base, k) !in existing then
      assert AllTaken(existing, base, k, k);
      Candidate(base, k)
    else
      var name := FirstFree(existing, base, k + 1);
      assert forall n: nat :: AllTaken(existing, base, k + 1, n) ==> AllTaken(existing, base, k, n);
      name
  }

  /** The name tried at the k-th attempt, with a number between two parts. */
  function Tried(base: string, front: string, back: string, k: nat): string {
    if k == 0 then base else front + Render(k) + back
  }

  /** `dest` is the first of the 10,000 names tried that does not exist, or the base name when they all do. */
  ghost predicate Allocated(existing: set<string>, base: string, front: string, back: string, dest: string) {
    || (exists k: nat :: k < 10_000 && dest == Tried(base, front, back, k) && dest !in existing
                         && forall j: nat :: j < k ==> Tried(base, front, back, j) in existing)
    || (dest == base && forall j: nat :: j < 10_000 ==> Tried(base, front, back, j) in existing)
  }

  lemma {:induction false} CandidateWithDot(base: string, d: nat, k: nat)
    requires 0 < d < |base| && base[d] == '.' && '.' !in base[d + 1..]
    ensures Candidate(base, k) == Tried(base, base[..d] + "-", if d == |base| - 1 then "" else base[d..], k)
  {
    assert LastIndexOf(base, '.') == d by {
      assert forall j :: d < j < |base| ==> base[j] == base[d + 1..][j - d - 1];
    }
    if k > 0 && d < |base| - 1 {
      assert base[d..] == "." + base[d + 1..];
    }
    if k > 0 && d == |base| - 1 {
      assert base[..d] + "-" + Render(k) + "" == base[..d] + "-" + Render(k);
    }
  }

  lemma CandidateWithoutDot(base: string, k: nat)
    requires forall d :: 0 < d < |base| ==> base[d] != '.'
    ensures Candidate(base, k) == Tried(base, base + "-", "", k)
  {
    assert LastIndexOf(base, '.') <= 0;
    assert base + "-" + Render(k) + "" == base + "-" + Render(k);
  }

  lemma AllocatedBy(existing: set<string>, base: string, front: string, back: string)
    requires forall k: nat :: Candidate(base, k) == Tried(base, front, back, k)
    ensures Allocated(existing, base, front, back, UniqueName(existing, base))
  {
    hide Candidate, Tried, FirstFree;
    var dest := UniqueName(existing, base);
    if n: nat :| n < SUFFIX_LIMIT && dest == Candidate(base, n) && dest !in existing && AllTaken(existing, base, 0, n) {
      assert dest == Tried(base, front, back, n);
      forall j: nat | j < n ensures Tried(base, front, back, j) in existing {
        assert Candidate(base, j) in existing;
      }
    } else {
      assert AllTaken(existing, base, 0, SUFFIX_LIMIT);
      forall j: nat | j < 10_000 ensures Tried(base, front, back, j) in existing {
        assert Candidate(base, j) in existing;
      }
    }
  }

  lemma AllocatedWithDot(existing: set<string>, base: string, d: nat)
    requires 0 < d < |base| && base[d] == '.' && '.' !in base[d + 1..]
    ensures Allocated(existing, base, base[..d] + "-", if d == |base| - 1 then "" else base[d..], UniqueName(existing, base))
  {
    forall k: nat ensures Candidate(base, k) == Tried(base, base[..d] + "-", if d == |base| - 1 then "" else base[d..], k) {
      CandidateWithDot(base, d, k);
    }
    AllocatedBy(existing, base, base[..d] + "-", if d == |base| - 1 then "" else base[d..]);
  }

  lemma AllocatedWithoutDot(existing: set<string>, base: string)
    requires forall d :: 0 < d < |base| ==> base[d] != '.'
    ensures Allocated(existing, base, base + "-", "", UniqueName(existing, base))
  {
    forall k: nat ensures Candidate(base, k) == Tried(base, base + "-", "", k) {
      CandidateWithoutDot(base, k);
    }
    AllocatedBy(existing, base, base + "-", "");
  }

  /**
    The number goes in front of the last dot and what follows it, unless that
    dot is the first character; a dot at the very end is dropped.
   */
  method UniquePath(existing: set<string>, base: string) returns (dest: string)
    ensures forall d :: 0 < d < |base| && base[d] == '.' && '.' !in base[d + 1..] ==>
              Allocated(existing, base, base[..d] + "-", if d == |base| - 1 then "" else base[d..], dest)
    ensures (forall d :: 0 < d < |base| ==> base[d] != '.') ==> Allocated(existing, base, base + "-", "", dest)
    ensures dest == UniqueName(existing, base)
  {
    forall d | 0 < d < |base| && base[d] == '.' && '.' !in base[d + 1..]
      ensures Allocated(existing, base, base[..d] + "-", if d == |base| - 1 then "" else base[d..], UniqueName(existing, base))
    {
      AllocatedWithDot(existing, base, d);
    }
    if forall d :: 0 < d < |base| ==> base[d] != '.' {
      AllocatedWithoutDot(existing, base);
    }
    hide Allocated;
    if base !in existing {
      assert Candidate(base, 0) == base && AllTaken(existing, base, 0, 0);
      return base;
    }
    for i := 1 to SUFFIX_LIMIT
      invariant FirstFree(existing, base, 0) == FirstFree(existing, base, i)
    {
      var candidate := Stem(base) + "-" + Render(i) + Tail(base);
      assert candidate == Candidate(base, i);
      if candidate !in existing {
        return candidate;
      }
    }
    return base;
  }

  /** A name with an extension keeps it: the names tried for `stem.ext` are `stem-1.ext`, `stem-2.ext`, ... */
  lemma ExtensionKept(existing: set<string>, stem: string, ext: string)
    requires stem != "" && ext != "" && '.' !in ext
    ensures Allocated(existing, stem + "." + ext, stem + "-", "." + ext, UniqueName(existing, stem + "." + ext))
  {
    var base, d := stem + "." + ext, |stem|;
    assert base[..d] == stem && base[d..] == "." + ext && base[d + 1..] == ext && base[d] == '.';
    AllocatedWithDot(existing, base, d);
  }

  function UniqueName(existing: set<string>, base: string): string {
    FirstFree(existing, base, 0)
  }

  lemma UniqueNameIsFree(existing: set<string>, base: string)
    ensures UniqueName(existing, base) !in existing <==> NameFree(existing, base)
    ensures !NameFree(existing, base) ==> UniqueName(existing, base) == base
  {
    if !NameFree(existing, base) {
      assert Candidate(base, 0) in existing;
    }
  }

  function FirstCandidates(base: string, n: nat): (cs: set<string>)
    ensures forall c :: c in cs ==> exists k: nat :: k < n && c == Candidate(base, k)
  {
    if n == 0 then {} else FirstCandidates(base, n - 1) + {Candidate(base, n - 1)}
  }

  lemma {:induction false} AllCandidatesListed(base: string, n: nat, k: nat)
    requires k < n
    ensures Candidate(base, k) in FirstCandidates(base, n)
  {
    hide Candidate;
    if k < n - 1 {
      AllCandidatesListed(base, n - 1, k);
    }
  }

  lemma AllCandidatesTaken(existing: set<string>, base: string)
    requires FirstCandidates(base, SUFFIX_LIMIT) <= existing
    ensures !NameFree(existing, base)
  {
    hide Candidate, FirstCandidates;
    forall k: nat | k < SUFFIX_LIMIT ensures Candidate(base, k) in existing {
      AllCandidatesListed(base, SUFFIX_LIMIT, k);
    }
  }

  /** With exactly the base name missing, that is the name given. */
  lemma OnlyBaseFree(existing: set<string>, base: string)
    requires existing == FirstCandidates(base, SUFFIX_LIMIT) - {base}
    ensures NameFree(existing, base) && UniqueName(existing, base) == base
  {
    hide FirstCandidates;
    assert Candidate(base, 0) == base;
  }

  lemma {:induction false} CandidatesCounted(base: string, n: nat)
    ensures |FirstCandidates(base, n)| == n
  {
    if n > 0 {
      CandidatesCounted(base, n - 1);
      if Candidate(base, n - 1) in FirstCandidates(base, n - 1) {
        var k: nat :| k < n - 1 && Candidate(base, n - 1) == Candidate(base, k);
        CandidatesDistinct(base, k, n - 1);
      }
    }
  }

  lemma Pigeonhole(a: set<string>, b: set<string>)
    requires a <= b
    ensures |a| <= |b|
  {
    assert b == a + (b - a);
  }

  /** With fewer than 10,000 names taken there is always a free one. */
  lemma FewFilesLeaveAName(existing: set<string>, base: string)
    requires |existing| < SUFFIX_LIMIT
    ensures NameFree(existing, base)
  {
    if !NameFree(existing, base) {
      CandidatesCounted(base, SUFFIX_LIMIT);
      Pigeonhole(FirstCandidates(base, SUFFIX_LIMIT), existing);
    }
  }
}
