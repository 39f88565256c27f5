/**
  The per-peer PIN lockout: how fast one peer can guess.

  A call reads the clock when it prunes the table, when it looks at the lockout
  and when it records a failure.  The failure counter is a `u8` and wraps.
 */
module PinLockout {
  import opened Prelude
  import opened HostTypes

  datatype Failures = Failures(count: u8, lockedUntil: Option<int>)

  type Attempts = map<string, Failures>

  /** Clock readings of one call. */
  datatype Times = Times(prune: int, check: int, commit: int)

  datatype Outcome = LockedOut | BadText | WrongPin(count: u8) | Accepted

  function Prune(a: Attempts, now: int): Attempts {
    map p | p in a && (a[p].count > 0 || (a[p].lockedUntil.Some? && now < a[p].lockedUntil.value)) :: a[p]
  }

  predicate LockedAt(a: Attempts, peer: string, now: int) {
    peer in a && a[peer].lockedUntil.Some? && now < a[peer].lockedUntil.value
  }

  function LockoutSpan(cfg: Config): nat {
    cfg.lockoutSeconds * SECOND
  }

  /** The time k lockouts take. */
  function Lockouts(cfg: Config, k: nat): nat {
    k * LockoutSpan(cfg)
  }

  lemma LockoutsAdd(cfg: Config, j: nat, k: nat)
    ensures Lockouts(cfg, j + k) == Lockouts(cfg, j) + Lockouts(cfg, k)
    ensures Lockouts(cfg, 0) == 0 && Lockouts(cfg, 1) == LockoutSpan(cfg)
  {
  }

  function Fail(cfg: Config, f: Failures, now: int): Failures {
    var count: u8 := (f.count + 1) % 256;
    Failures(count, if count >= cfg.maxPinAttempts then Some(now + LockoutSpan(cfg)) else f.lockedUntil)
  }

  function FailuresOf(a: Attempts, peer: string): Failures {
    if peer in a then a[peer] else Failures(0, None)
  }

  /** An attempt on the pruned table. */
  function Checked(cfg: Config, a: Attempts, peer: string, pin: PinCheck, t: Times): (Attempts, Outcome) {
    if LockedAt(a, peer, t.check) then (a, LockedOut)
    else
      match pin
      case NotUtf8 => (a, BadText)
      case Wrong =>
        var f := Fail(cfg, FailuresOf(a, peer), t.commit);
        (a[peer := f], WrongPin(f.count))
      case Right => (a - {peer}, Accepted)
  }

  /** One PIN attempt of a peer. */
  function PinStep(cfg: Config, before: Attempts, peer: string, pin: PinCheck, t: Times): (Attempts, Outcome) {
    Checked(cfg, Prune(before, t.prune), peer, pin, t)
  }

  datatype Attempt = Attempt(peer: string, pin: PinCheck, times: Times)

  function After(cfg: Config, run: seq<Attempt>): Attempts {
    if run == [] then map[]
    else
      var x := run[|run| - 1];
      PinStep(cfg, After(cfg, run[..|run| - 1]), x.peer, x.pin, x.times).0
  }

  function OutcomeOf(cfg: Config, before: seq<Attempt>, x: Attempt): Outcome {
    PinStep(cfg, After(cfg, before), x.peer, x.pin, x.times).1
  }

  /** The clock never goes back, within a call and from call to call. */
  ghost predicate Timed(run: seq<Attempt>) {
    && (forall k :: 0 <= k < |run| ==> run[k].times.prune <= run[k].times.check <= run[k].times.commit)
    && (forall k :: 0 <= k < |run| - 1 ==> run[k].times.commit <= run[k + 1].times.prune)
  }

  function WrongTimesStep(w: seq<int>, x: Attempt, outcome: Outcome): seq<int> {
    match outcome
    case Accepted => []
    case WrongPin(_) => w + [x.times.commit]
    case _ => w
  }

  /** When the peer's wrong PINs since its last success were recorded. */
  function WrongTimes(cfg: Config, run: seq<Attempt>, peer: string): seq<int> {
    if run == [] then []
    else
      var pre, x := run[..|run| - 1], run[|run| - 1];
      var w := WrongTimes(cfg, pre, peer);
      if x.peer != peer then w
      else WrongTimesStep(w, x, OutcomeOf(cfg, pre, x))
  }

  lemma WrongTimesOneMore(cfg: Config, run: seq<Attempt>, x: Attempt, peer: string)
    ensures var w := WrongTimes(cfg, run, peer);
            WrongTimes(cfg, run + [x], peer) == if x.peer == peer then WrongTimesStep(w, x, OutcomeOf(cfg, run, x)) else w
  {
    hide WrongTimesStep, OutcomeOf;
    assert (run + [x])[..|run|] == run;
  }

  function Threshold(cfg: Config): nat {
    if cfg.maxPinAttempts == 0 then 1 else cfg.maxPinAttempts
  }

  // ---------------------------------------------------------------------
  // The table comes down to the history
  // ---------------------------------------------------------------------

  /** Whether the n-th failure since the last success sets a lockout: the counter stands at n modulo 256. */
  predicate Locks(cfg: Config, n: nat) {
    n % 256 >= cfg.maxPinAttempts
  }

  /** The last failure set a lockout that still runs. */
  predicate LockedByTimes(cfg: Config, w: seq<int>, now: int) {
    w != [] && Locks(cfg, |w|) && now < w[|w| - 1] + LockoutSpan(cfg)
  }

  /** What matters of an entry from `now` on: its count and a lockout that still runs. */
  function Aged(f: Failures, now: int): Failures {
    if f.lockedUntil.Some? && now < f.lockedUntil.value then f else Failures(f.count, None)
  }

  function View(a: Attempts, peer: string, now: int): Failures {
    Aged(FailuresOf(a, peer), now)
  }

  /** The same, read off the times of the wrong PINs. */
  function ViewByTimes(cfg: Config, w: seq<int>, now: int): Failures {
    Failures(|w| % 256, if LockedByTimes(cfg, w, now) then Some(w[|w| - 1] + LockoutSpan(cfg)) else None)
  }

  function OutcomeByTimes(cfg: Config, w: seq<int>, pin: PinCheck, now: int): Outcome {
    if LockedByTimes(cfg, w, now) then LockedOut
    else match pin
      case NotUtf8 => BadText
      case Wrong => WrongPin((|w| + 1) % 256)
      case Right => Accepted
  }

  lemma ViewLater(a: Attempts, b: Attempts, peer: string, now: int, later: int)
    requires now <= later && View(a, peer, now) == View(b, peer, now)
    ensures View(a, peer, later) == View(b, peer, later)
  {
  }

  lemma ViewOfPruned(a: Attempts, peer: string, now: int)
    ensures View(Prune(a, now), peer, now) == View(a, peer, now)
  {
  }

  lemma ViewByTimesLater(cfg: Config, a: Attempts, peer: string, w: seq<int>, now: int, later: int)
    requires now <= later && View(a, peer, now) == ViewByTimes(cfg, w, now)
    ensures View(a, peer, later) == ViewByTimes(cfg, w, later)
  {
    hide LockoutSpan, Locks;
  }

  lemma StepOfOther(cfg: Config, a: Attempts, x: Attempt, peer: string)
    requires x.peer != peer
    ensures var b := PinStep(cfg, a, x.peer, x.pin, x.times).0;
            && (peer in b <==> peer in Prune(a, x.times.prune))
            && (peer in b ==> b[peer] == a[peer])
  {
  }

  lemma OtherStep(cfg: Config, a: Attempts, x: Attempt, peer: string, now: int)
    requires x.peer != peer && x.times.prune <= now
    ensures View(PinStep(cfg, a, x.peer, x.pin, x.times).0, peer, now) == View(a, peer, now)
  {
    StepOfOther(cfg, a, x, peer);
    hide PinStep;
  }

  lemma FailByTimes(cfg: Config, f: Failures, w: seq<int>, check: int, commit: int)
    requires check <= commit && Aged(f, check) == ViewByTimes(cfg, w, check) && !LockedByTimes(cfg, w, check)
    ensures Fail(cfg, f, commit).count == (|w| + 1) % 256
    ensures Aged(Fail(cfg, f, commit), commit) == ViewByTimes(cfg, w + [commit], commit)
  {
    hide LockoutSpan;
    var n := |w| + 1;
    NextCount(|w|);
    assert (w + [commit])[n - 1] == commit;
  }

  lemma NextCount(n: nat)
    ensures (n % 256 + 1) % 256 == (n + 1) % 256
  {
  }

  lemma CheckedByTimes(cfg: Config, a: Attempts, x: Attempt, w: seq<int>)
    requires x.times.check <= x.times.commit
    requires View(a, x.peer, x.times.check) == ViewByTimes(cfg, w, x.times.check)
    ensures var s := Checked(cfg, a, x.peer, x.pin, x.times);
            && s.1 == OutcomeByTimes(cfg, w, x.pin, x.times.check)
            && View(s.0, x.peer, x.times.commit) == ViewByTimes(cfg, WrongTimesStep(w, x, s.1), x.times.commit)
  {
    var f := FailuresOf(a, x.peer);
    assert LockedAt(a, x.peer, x.times.check) <==> LockedByTimes(cfg, w, x.times.check);
    ViewByTimesLater(cfg, a, x.peer, w, x.times.check, x.times.commit);
    if !LockedByTimes(cfg, w, x.times.check) && x.pin.Wrong? {
      FailByTimes(cfg, f, w, x.times.check, x.times.commit);
    }
    assert ViewByTimes(cfg, [], x.times.commit) == Failures(0, None);
    hide LockoutSpan, Fail, Locks, ViewByTimes, LockedByTimes;
  }

  lemma OwnStepByTimes(cfg: Config, a: Attempts, x: Attempt, w: seq<int>)
    requires x.times.prune <= x.times.check <= x.times.commit
    requires View(a, x.peer, x.times.prune) == ViewByTimes(cfg, w, x.times.prune)
    ensures var s := PinStep(cfg, a, x.peer, x.pin, x.times);
            && s.1 == OutcomeByTimes(cfg, w, x.pin, x.times.check)
            && View(s.0, x.peer, x.times.commit) == ViewByTimes(cfg, WrongTimesStep(w, x, s.1), x.times.commit)
  {
    hide View, ViewByTimes, Checked, Prune, OutcomeByTimes, WrongTimesStep;
    var b := Prune(a, x.times.prune);
    ViewOfPruned(a, x.peer, x.times.prune);
    ViewByTimesLater(cfg, b, x.peer, w, x.times.prune, x.times.check);
    CheckedByTimes(cfg, b, x, w);
  }

  lemma LastCall(run: seq<Attempt>)
    requires run != [] && Timed(run)
    ensures Timed(run[..|run| - 1])
    ensures var t := run[|run| - 1].times;
            && t.prune <= t.check <= t.commit
            && (|run| > 1 ==> run[..|run| - 1][|run| - 2].times.commit <= t.prune)
  {
    assert run[|run| - 1].times.prune <= run[|run| - 1].times.check;
    assert |run| > 1 ==> run[|run| - 2].times.commit <= run[|run| - 2 + 1].times.prune;
  }

  /** What the table says of a peer after a run is what the times of its wrong PINs say, wrapped counter included. */
  lemma {:induction false} TableReadsHistory(cfg: Config, run: seq<Attempt>, peer: string, now: int)
    requires Timed(run) && (run != [] ==> run[|run| - 1].times.commit <= now)
    ensures View(After(cfg, run), peer, now) == ViewByTimes(cfg, WrongTimes(cfg, run, peer), now)
  {
    if run != [] {
      var pre, x := run[..|run| - 1], run[|run| - 1];
      LastCall(run);
      TableReadsHistory(cfg, pre, peer, x.times.prune);
      var a, w := After(cfg, pre), WrongTimes(cfg, pre, peer);
      hide View, ViewByTimes, PinStep, Timed, WrongTimesStep;
      if x.peer == peer {
        OwnStepByTimes(cfg, a, x, w);
        ViewByTimesLater(cfg, After(cfg, run), peer, WrongTimes(cfg, run, peer), x.times.commit, now);
      } else {
        ViewByTimesLater(cfg, a, peer, w, x.times.prune, now);
        OtherStep(cfg, a, x, peer, now);
      }
    }
  }

  lemma OutcomeReadsHistory(cfg: Config, run: seq<Attempt>, x: Attempt)
    requires Timed(run + [x])
    ensures OutcomeOf(cfg, run, x) == OutcomeByTimes(cfg, WrongTimes(cfg, run, x.peer), x.pin, x.times.check)
  {
    assert (run + [x])[..|run|] == run;
    LastCall(run + [x]);
    TableReadsHistory(cfg, run, x.peer, x.times.prune);
    hide After, WrongTimes, View, ViewByTimes, PinStep;
    OwnStepByTimes(cfg, After(cfg, run), x, WrongTimes(cfg, run, x.peer));
  }

  lemma LockedInNanoseconds(cfg: Config, w: seq<int>, now: int)
    ensures LockedByTimes(cfg, w, now) <==>
              && w != [] && |w| % 256 >= cfg.maxPinAttempts
              && now < w[|w| - 1] + cfg.lockoutSeconds * 1_000_000_000
  {
  }

  /**
    An attempt is locked out exactly when the peer's last wrong PIN set a lockout
    and is less than the configured seconds old; otherwise the PIN decides.
   */
  lemma OutcomeExactly(cfg: Config, run: seq<Attempt>, x: Attempt)
    requires Timed(run + [x])
    ensures var w, now := WrongTimes(cfg, run, x.peer), x.times.check;
            var locked := w != [] && |w| % 256 >= cfg.maxPinAttempts
                          && now < w[|w| - 1] + cfg.lockoutSeconds * 1_000_000_000;
            OutcomeOf(cfg, run, x) == (
              if locked then LockedOut
              else match x.pin
                case NotUtf8 => BadText
                case Wrong => WrongPin((|w| + 1) % 256)
                case Right => Accepted)
  {
    hide WrongTimes, OutcomeOf, LockedByTimes, Timed;
    OutcomeReadsHistory(cfg, run, x);
    LockedInNanoseconds(cfg, WrongTimes(cfg, run, x.peer), x.times.check);
  }

  // ---------------------------------------------------------------------
  // Pruning
  // ---------------------------------------------------------------------

  /** An entry counts the failures modulo 256; a peer without one has a multiple of 256 of them. */
  ghost predicate Counted(a: Attempts, peer: string, w: seq<int>) {
    if peer in a then w != [] && a[peer].count == |w| % 256 else |w| % 256 == 0
  }

  lemma CountedStep(cfg: Config, a: Attempts, x: Attempt, w: seq<int>)
    requires Counted(a, x.peer, w)
    ensures var s := PinStep(cfg, a, x.peer, x.pin, x.times);
            Counted(s.0, x.peer, WrongTimesStep(w, x, s.1))
  {
    hide LockoutSpan;
    assert Counted(Prune(a, x.times.prune), x.peer, w);
  }

  lemma CountedByOther(cfg: Config, a: Attempts, x: Attempt, peer: string, w: seq<int>)
    requires x.peer != peer && Counted(a, peer, w)
    ensures Counted(PinStep(cfg, a, x.peer, x.pin, x.times).0, peer, w)
  {
    StepOfOther(cfg, a, x, peer);
    hide PinStep;
  }

  lemma {:induction false} RunIsCounted(cfg: Config, run: seq<Attempt>, peer: string)
    ensures Counted(After(cfg, run), peer, WrongTimes(cfg, run, peer))
  {
    if run != [] {
      hide Counted, PinStep, WrongTimesStep;
      var pre, x := run[..|run| - 1], run[|run| - 1];
      RunIsCounted(cfg, pre, peer);
      if x.peer != peer {
        CountedByOther(cfg, After(cfg, pre), x, peer, WrongTimes(cfg, pre, peer));
      } else {
        CountedStep(cfg, After(cfg, pre), x, WrongTimes(cfg, pre, peer));
      }
    }
  }

  /**
    Pruning removes exactly the entries of peers whose failures are a multiple
    of 256 and whose lockout is over; so none before some peer's 256th failure.
   */
  lemma PruningExactly(cfg: Config, run: seq<Attempt>, now: int)
    ensures Prune(After(cfg, run), now).Keys
         == set p | p in After(cfg, run) && (|WrongTimes(cfg, run, p)| % 256 != 0 || LockedAt(After(cfg, run), p, now))
    ensures (forall p :: |WrongTimes(cfg, run, p)| < 256) ==> Prune(After(cfg, run), now) == After(cfg, run)
  {
    var a := After(cfg, run);
    hide After, WrongTimes;
    forall p ensures Counted(a, p, WrongTimes(cfg, run, p)) {
      RunIsCounted(cfg, run, p);
    }
  }

  // ---------------------------------------------------------------------
  // The guess rate
  // ---------------------------------------------------------------------

  /** How many of the failures k, ..., n - 1 set a lockout. */
  function Waits(cfg: Config, k: nat, n: nat): nat {
    if n <= k then 0 else Waits(cfg, k, n - 1) + (if Locks(cfg, n - 1) then 1 else 0)
  }

  lemma {:induction false} WaitsAdd(cfg: Config, j: nat, k: nat, n: nat)
    requires j <= k <= n
    ensures Waits(cfg, j, n) == Waits(cfg, j, k) + Waits(cfg, k, n)
  {
    hide Locks;
    if k < n {
      WaitsAdd(cfg, j, k, n - 1);
    }
  }

  /** Failures from the m-th on that set no lockout: up to m in every round of the counter behind the first. */
  function Unlocked(m: nat, n: nat): int
    requires n > 0
  {
    var q, r := (n - 1) / 256, (n - 1) % 256;
    if q == 0 then 0 else m * (q - 1) + (if r + 1 < m then r + 1 else m)
  }

  /** From the threshold on, all failures but those set a lockout. */
  lemma {:induction false} WaitsInClosedForm(cfg: Config, n: nat)
    requires cfg.maxPinAttempts >= 1 && n >= cfg.maxPinAttempts
    ensures Waits(cfg, cfg.maxPinAttempts, n) == n - cfg.maxPinAttempts - Unlocked(cfg.maxPinAttempts, n)
  {
    if n > cfg.maxPinAttempts {
      WaitsInClosedForm(cfg, n - 1);
      UnlockedStep(cfg.maxPinAttempts, n - 1);
      hide Unlocked;
    }
  }

  lemma UnlockedStep(m: nat, n: nat)
    requires 1 <= m < 256 && m <= n
    ensures Unlocked(m, n + 1) == Unlocked(m, n) + (if n % 256 >= m then 0 else 1)
  {
    var q := n / 256;
    if n % 256 == 0 {
      assert (n - 1) / 256 == q - 1 && (n - 1) % 256 == 255;
      assert m * (q - 1) == m * (q - 2) + m;
    } else {
      assert (n - 1) / 256 == q && (n - 1) % 256 == n % 256 - 1;
    }
  }

  /** Each failure that sets a lockout is followed by the next one no earlier than the lockout ends. */
  ghost predicate Spaced(cfg: Config, w: seq<int>) {
    forall j :: 0 < j < |w| ==> w[j] >= w[j - 1] + (if Locks(cfg, j) then LockoutSpan(cfg) else 0)
  }

  lemma SpacedStep(cfg: Config, w: seq<int>, x: Attempt)
    requires Spaced(cfg, w) && (w != [] ==> w[|w| - 1] <= x.times.check) && x.times.check <= x.times.commit
    ensures Spaced(cfg, WrongTimesStep(w, x, OutcomeByTimes(cfg, w, x.pin, x.times.check)))
  {
    hide LockoutSpan, Locks;
  }

  lemma NothingSpaced(cfg: Config, peer: string)
    ensures WrongTimes(cfg, [], peer) == [] && Spaced(cfg, [])
  {
  }

  lemma {:induction false} RunIsSpaced(cfg: Config, run: seq<Attempt>, peer: string, now: int)
    requires Timed(run) && (run != [] ==> run[|run| - 1].times.commit <= now)
    ensures var w := WrongTimes(cfg, run, peer);
            Spaced(cfg, w) && (w != [] ==> w[|w| - 1] <= now)
  {
    hide Spaced, Timed, OutcomeByTimes, OutcomeOf, WrongTimes;
    if run == [] {
      NothingSpaced(cfg, peer);
    } else {
      var pre, x := run[..|run| - 1], run[|run| - 1];
      LastCall(run);
      RunIsSpaced(cfg, pre, peer, x.times.prune);
      assert pre + [x] == run;
      WrongTimesOneMore(cfg, pre, x, peer);
      if x.peer == peer {
        OutcomeReadsHistory(cfg, pre, x);
        SpacedStep(cfg, WrongTimes(cfg, pre, peer), x);
      }
    }
  }

  lemma {:induction false} SpacedAddsUp(cfg: Config, w: seq<int>, k: nat, n: nat)
    requires Spaced(cfg, w) && 1 <= k <= n <= |w|
    ensures w[n - 1] >= w[k - 1] + Lockouts(cfg, Waits(cfg, k, n))
  {
    hide LockoutSpan, Lockouts, Locks;
    LockoutsAdd(cfg, 0, 0);
    if k < n {
      SpacedAddsUp(cfg, w, k, n - 1);
      LockoutsAdd(cfg, Waits(cfg, k, n - 1), 1);
    }
  }

  lemma LockoutTime(cfg: Config, k: nat)
    ensures Lockouts(cfg, k) == k * cfg.lockoutSeconds * 1_000_000_000
  {
  }

  /**
    Guess rate: in a run mixing the attempts of many peers, between a peer's k-th
    and n-th wrong PIN since its last success lies the configured lockout for
    each failure from the k-th to the one before the n-th, but for those at which
    the wrapped counter is below the threshold.
   */
  lemma GuessRate(cfg: Config, run: seq<Attempt>, peer: string, k: nat, n: nat)
    requires Timed(run) && 1 <= k <= n <= |WrongTimes(cfg, run, peer)|
    ensures var w := WrongTimes(cfg, run, peer);
            w[n - 1] >= w[k - 1] + Waits(cfg, k, n) * cfg.lockoutSeconds * 1_000_000_000
  {
    hide WrongTimes, Waits, Lockouts, Spaced;
    RunIsSpaced(cfg, run, peer, if run == [] then 0 else run[|run| - 1].times.commit);
    SpacedAddsUp(cfg, WrongTimes(cfg, run, peer), k, n);
    LockoutTime(cfg, Waits(cfg, k, n));
  }

  // ---------------------------------------------------------------------
  // The rate is attained
  // ---------------------------------------------------------------------

  /** The k-th guess, counted from 0, as soon as the lockouts before it are over. */
  function Guess(cfg: Config, peer: string, k: nat): Attempt {
    var t := Lockouts(cfg, Waits(cfg, 1, k + 1));
    Attempt(peer, Wrong, Times(t, t, t))
  }

  function Guesses(cfg: Config, peer: string, n: nat): (run: seq<Attempt>)
    ensures |run| == n && forall k :: 0 <= k < n ==> run[k] == Guess(cfg, peer, k)
  {
    seq(n, k requires 0 <= k => Guess(cfg, peer, k))
  }

  lemma NextGuess(cfg: Config, peer: string, k: nat)
    ensures Guess(cfg, peer, k + 1).times.commit
         == Guess(cfg, peer, k).times.commit + (if Locks(cfg, k + 1) then LockoutSpan(cfg) else 0)
  {
    hide Lockouts, LockoutSpan, Locks;
    LockoutsAdd(cfg, Waits(cfg, 1, k + 1), 1);
  }

  lemma GuessesTimed(cfg: Config, peer: string, n: nat)
    ensures Timed(Guesses(cfg, peer, n))
  {
    forall k | 0 <= k < n - 1
      ensures Guess(cfg, peer, k).times.commit <= Guess(cfg, peer, k + 1).times.prune
    {
      NextGuess(cfg, peer, k);
      hide Lockouts, Waits;
    }
  }

  /** Wrong PINs at the times of the guesses. */
  ghost predicate Earliest(cfg: Config, w: seq<int>) {
    forall k :: 0 <= k < |w| ==> w[k] == Lockouts(cfg, Waits(cfg, 1, k + 1))
  }

  /** The next guess finds no lockout. */
  lemma GuessIsChecked(cfg: Config, peer: string, w: seq<int>)
    requires Earliest(cfg, w)
    ensures var x := Guess(cfg, peer, |w|);
            var outcome := OutcomeByTimes(cfg, w, x.pin, x.times.check);
            outcome.WrongPin? && Earliest(cfg, WrongTimesStep(w, x, outcome))
  {
    if w != [] {
      NextGuess(cfg, peer, |w| - 1);
    }
    hide Waits, Lockouts, LockoutSpan, Locks;
  }

  lemma NoTimes(cfg: Config)
    ensures Earliest(cfg, [])
  {
  }

  /** Every guess is checked, at the earliest time the lockouts allow. */
  lemma {:induction false} GuessesAreEarliest(cfg: Config, peer: string, n: nat)
    ensures Timed(Guesses(cfg, peer, n))
    ensures var w := WrongTimes(cfg, Guesses(cfg, peer, n), peer);
            |w| == n && Earliest(cfg, w)
  {
    GuessesTimed(cfg, peer, n);
    NoTimes(cfg);
    if n > 0 {
      var pre, x := Guesses(cfg, peer, n - 1), Guess(cfg, peer, n - 1);
      assert pre + [x] == Guesses(cfg, peer, n);
      assert x.peer == peer;
      hide Guess, OutcomeOf, OutcomeByTimes, Timed, WrongTimes, Guesses, Earliest;
      GuessesAreEarliest(cfg, peer, n - 1);
      GuessIsChecked(cfg, peer, WrongTimes(cfg, pre, peer));
      OutcomeReadsHistory(cfg, pre, x);
      WrongTimesOneMore(cfg, pre, x, peer);
    }
  }

  /** All guesses are checked, and between any two of them lies no more time than the guess rate asks for. */
  lemma RateIsAttained(cfg: Config, peer: string, n: nat)
    ensures Timed(Guesses(cfg, peer, n))
    ensures var w := WrongTimes(cfg, Guesses(cfg, peer, n), peer);
            && |w| == n
            && forall j, k :: 1 <= j <= k <= n ==>
                 w[k - 1] == w[j - 1] + Waits(cfg, j, k) * cfg.lockoutSeconds * 1_000_000_000
  {
    GuessesAreEarliest(cfg, peer, n);
    hide WrongTimes, Waits, Lockouts, Guesses, Timed;
    var w := WrongTimes(cfg, Guesses(cfg, peer, n), peer);
    forall j, k | 1 <= j <= k <= n
      ensures w[k - 1] == w[j - 1] + Waits(cfg, j, k) * cfg.lockoutSeconds * 1_000_000_000
    {
      EarliestApart(cfg, w, j, k);
    }
  }

  lemma EarliestApart(cfg: Config, w: seq<int>, j: nat, k: nat)
    requires Earliest(cfg, w) && 1 <= j <= k <= |w|
    ensures w[k - 1] == w[j - 1] + Waits(cfg, j, k) * cfg.lockoutSeconds * 1_000_000_000
  {
    hide Waits, Lockouts;
    WaitsAdd(cfg, 1, j, k);
    LockoutsAdd(cfg, Waits(cfg, 1, j), Waits(cfg, j, k));
    LockoutTime(cfg, Waits(cfg, j, k));
    assert w[k - 1] == Lockouts(cfg, Waits(cfg, 1, k - 1 + 1)) && w[j - 1] == Lockouts(cfg, Waits(cfg, 1, j - 1 + 1));
  }

  /** The n-th wrong PIN comes n - m times the configured lockout after the m-th. */
  predicate Late(cfg: Config, w: seq<int>, n: nat) {
    Threshold(cfg) <= n <= |w| ==>
      w[n - 1] >= w[Threshold(cfg) - 1] + (n - Threshold(cfg)) * cfg.lockoutSeconds * 1_000_000_000
  }

  lemma {:induction false} WaitsBeforeWrap(cfg: Config, n: nat)
    requires Threshold(cfg) <= n && (n <= 256 || cfg.maxPinAttempts == 0)
    ensures Waits(cfg, Threshold(cfg), n) == n - Threshold(cfg)
  {
    if n > Threshold(cfg) {
      WaitsBeforeWrap(cfg, n - 1);
    }
  }

  /** Up to the 256th failure, and for ever when the threshold or the lockout is zero, every failure from the threshold on costs a lockout. */
  lemma RateBeforeWrap(cfg: Config, run: seq<Attempt>, peer: string, n: nat)
    requires Timed(run)
    requires n <= 256 || cfg.maxPinAttempts == 0 || cfg.lockoutSeconds == 0
    ensures Late(cfg, WrongTimes(cfg, run, peer), n)
  {
    hide WrongTimes, Waits, Timed;
    var w, m := WrongTimes(cfg, run, peer), Threshold(cfg);
    if m <= n <= |w| {
      GuessRate(cfg, run, peer, m, n);
      if n <= 256 || cfg.maxPinAttempts == 0 {
        WaitsBeforeWrap(cfg, n);
      }
    }
  }

  ghost predicate BoundForever(cfg: Config, peer: string) {
    forall run: seq<Attempt>, n: nat :: Timed(run) ==> Late(cfg, WrongTimes(cfg, run, peer), n)
  }

  /**
    The bound holds for every number of failures over every run if and only if
    the threshold or the lockout is zero: otherwise the counter wraps at the
    256th failure, sets no lockout, and the 257th guess needs no waiting.
   */
  lemma BoundForeverExactly(cfg: Config, peer: string)
    ensures BoundForever(cfg, peer) <==> cfg.maxPinAttempts == 0 || cfg.lockoutSeconds == 0
  {
    if cfg.maxPinAttempts == 0 || cfg.lockoutSeconds == 0 {
      forall run: seq<Attempt>, n: nat | Timed(run) ensures Late(cfg, WrongTimes(cfg, run, peer), n) {
        RateBeforeWrap(cfg, run, peer, n);
      }
    } else {
      NotLateAfterWrap(cfg, peer);
      RateIsAttained(cfg, peer, 257);
    }
  }

  lemma NotLateAfterWrap(cfg: Config, peer: string)
    requires cfg.maxPinAttempts >= 1 && cfg.lockoutSeconds >= 1
    ensures !Late(cfg, WrongTimes(cfg, Guesses(cfg, peer, 257), peer), 257)
  {
    hide WrongTimes, Guesses, Waits, Locks, Timed;
    var m := Threshold(cfg);
    RateIsAttained(cfg, peer, 257);
    WaitsAtWrap(cfg);
    var w := WrongTimes(cfg, Guesses(cfg, peer, 257), peer);
    assert w[256] == w[m - 1] + Waits(cfg, m, 257) * cfg.lockoutSeconds * 1_000_000_000;
    OneLockoutShort(cfg, 256 - m);
  }

  lemma OneLockoutShort(cfg: Config, k: nat)
    requires cfg.lockoutSeconds >= 1
    ensures k * cfg.lockoutSeconds * 1_000_000_000 < (k + 1) * cfg.lockoutSeconds * 1_000_000_000
  {
  }

  lemma WaitsAtWrap(cfg: Config)
    requires cfg.maxPinAttempts >= 1
    ensures Waits(cfg, Threshold(cfg), 257) == 256 - Threshold(cfg)
  {
    WaitsInClosedForm(cfg, 257);
  }

  // ---------------------------------------------------------------------
  // Independence of other peers
  // ---------------------------------------------------------------------

  lemma OwnStep(cfg: Config, a: Attempts, b: Attempts, x: Attempt)
    requires x.times.prune <= x.times.check <= x.times.commit
    requires View(a, x.peer, x.times.prune) == View(b, x.peer, x.times.prune)
    ensures var s, t := PinStep(cfg, a, x.peer, x.pin, x.times), PinStep(cfg, b, x.peer, x.pin, x.times);
            s.1 == t.1 && View(s.0, x.peer, x.times.commit) == View(t.0, x.peer, x.times.commit)
  {
    ViewOfPruned(a, x.peer, x.times.prune);
    ViewOfPruned(b, x.peer, x.times.prune);
    ViewLater(Prune(a, x.times.prune), Prune(b, x.times.prune), x.peer, x.times.prune, x.times.check);
  }

  function Only(run: seq<Attempt>, peer: string): seq<Attempt> {
    if run == [] then []
    else Only(run[..|run| - 1], peer) + (if run[|run| - 1].peer == peer then [run[|run| - 1]] else [])
  }

  function Outcomes(cfg: Config, run: seq<Attempt>, peer: string): seq<Outcome> {
    if run == [] then []
    else
      var pre, x := run[..|run| - 1], run[|run| - 1];
      Outcomes(cfg, pre, peer) + (if x.peer == peer then [OutcomeOf(cfg, pre, x)] else [])
  }

  lemma AfterOneMore(cfg: Config, run: seq<Attempt>, x: Attempt, peer: string)
    ensures After(cfg, run + [x]) == PinStep(cfg, After(cfg, run), x.peer, x.pin, x.times).0
    ensures Outcomes(cfg, run + [x], peer)
         == Outcomes(cfg, run, peer) + (if x.peer == peer then [OutcomeOf(cfg, run, x)] else [])
    ensures Only(run + [x], peer) == Only(run, peer) + (if x.peer == peer then [x] else [])
  {
    hide PinStep;
    assert (run + [x])[..|run|] == run;
  }

  ghost predicate Agree(cfg: Config, run: seq<Attempt>, peer: string, now: int) {
    && View(After(cfg, run), peer, now) == View(After(cfg, Only(run, peer)), peer, now)
    && Outcomes(cfg, run, peer) == Outcomes(cfg, Only(run, peer), peer)
  }

  lemma AgreeAfterOwn(cfg: Config, run: seq<Attempt>, x: Attempt, now: int)
    requires x.times.prune <= x.times.check <= x.times.commit <= now
    requires Agree(cfg, run, x.peer, x.times.prune)
    ensures Agree(cfg, run + [x], x.peer, now)
  {
    hide View, PinStep, After, Outcomes, Only;
    var only := Only(run, x.peer);
    var a, b := After(cfg, run), After(cfg, only);
    AfterOneMore(cfg, run, x, x.peer);
    AfterOneMore(cfg, only, x, x.peer);
    OwnStep(cfg, a, b, x);
    ViewLater(After(cfg, run + [x]), After(cfg, only + [x]), x.peer, x.times.commit, now);
  }

  lemma AgreeAfterOther(cfg: Config, run: seq<Attempt>, x: Attempt, peer: string, now: int)
    requires x.peer != peer && x.times.prune <= now
    requires Agree(cfg, run, peer, x.times.prune)
    ensures Agree(cfg, run + [x], peer, now)
  {
    hide View, PinStep, After, Outcomes, Only;
    var a, b := After(cfg, run), After(cfg, Only(run, peer));
    AfterOneMore(cfg, run, x, peer);
    OtherStep(cfg, a, x, peer, now);
    ViewLater(a, b, peer, x.times.prune, now);
    assert Only(run, peer) + [] == Only(run, peer);
    assert Outcomes(cfg, run, peer) + [] == Outcomes(cfg, run, peer);
  }

  lemma {:induction false} ViewsAgree(cfg: Config, run: seq<Attempt>, peer: string, now: int)
    requires Timed(run) && (run != [] ==> run[|run| - 1].times.commit <= now)
    ensures Agree(cfg, run, peer, now)
  {
    if run != [] {
      var pre, x := run[..|run| - 1], run[|run| - 1];
      LastCall(run);
      ViewsAgree(cfg, pre, peer, x.times.prune);
      assert pre + [x] == run;
      hide Agree, Timed;
      if x.peer == peer {
        AgreeAfterOwn(cfg, pre, x, now);
      } else {
        AgreeAfterOther(cfg, pre, x, peer, now);
      }
    }
  }

  /** A peer's outcomes are those of a run of its own attempts alone: other peers cannot lock it out or help it. */
  lemma OthersDoNotMatter(cfg: Config, run: seq<Attempt>, peer: string)
    requires Timed(run)
    ensures Outcomes(cfg, run, peer) == Outcomes(cfg, Only(run, peer), peer)
  {
    ViewsAgree(cfg, run, peer, if run == [] then 0 else run[|run| - 1].times.commit);
  }
}
