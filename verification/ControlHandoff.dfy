/**
  The hand-off of bitrates and IDR requests from the input task to the video
  loop, under every interleaving of the two.

  The bitrate channel is unbounded; `taken` counts what the video loop has
  received of what the input task has sent.  The IDR flag is one atomic boolean.
 */
module ControlHandoff {
  import opened Prelude
  import opened HostTypes
  import opened InputTask

  /** Where the video loop is in its pass. */
  datatype Place = Draining(latest: Option<u32>) | Applying(latest: Option<u32>) | Swapping

  datatype Video = Video(place: Place, taken: nat, target: Option<u32>, applied: seq<u32>, idrCalls: nat)

  datatype System = System(task: Task, video: Video)

  /** The scheduler's choice: the input task takes a message, or the video loop takes its next step. */
  datatype Action = Deliver(received: Received) | Advance

  ghost predicate Valid(s: System) {
    s.video.taken <= |s.task.rates|
  }

  function VideoStep(s: System): System {
    var v := s.video;
    match v.place
    case Draining(latest) =>
      if v.taken < |s.task.rates| then
        s.(video := v.(place := Draining(Some(s.task.rates[v.taken])), taken := v.taken + 1))
      else s.(video := v.(place := Applying(latest)))
    case Applying(latest) =>
      if latest.Some? then
        s.(video := v.(place := Swapping, target := latest, applied := v.applied + [latest.value]))
      else s.(video := v.(place := Swapping))
    case Swapping =>
      System(s.task.(forceIdr := false),
             v.(place := Draining(None), idrCalls := v.idrCalls + (if s.task.forceIdr then 1 else 0)))
  }

  function Step(perms: Permissions, mbps: u32, s: System, a: Action): System {
    match a
    case Deliver(r) => s.(task := TaskStep(perms, mbps, s.task, r))
    case Advance => VideoStep(s)
  }

  function After(perms: Permissions, mbps: u32, s: System, run: seq<Action>): System
    decreases |run|
  {
    if run == [] then s else Step(perms, mbps, After(perms, mbps, s, run[..|run| - 1]), run[|run| - 1])
  }

  predicate Start(s: System) {
    s.task.status.Running? && s.task.rates == [] && !s.task.forceIdr && s.video == Video(Draining(None), 0, None, [], 0)
  }

  // ---------------------------------------------------------------------
  // Bitrates
  // ---------------------------------------------------------------------

  /** The target left by applying every rate in order. */
  function ApplyAll(target: Option<u32>, rates: seq<u32>): Option<u32>
    decreases |rates|
  {
    if rates == [] then target else ApplyAll(Some(rates[0]), rates[1..])
  }

  lemma {:induction false} ApplyAllIsLast(target: Option<u32>, rates: seq<u32>)
    ensures ApplyAll(target, rates) == if rates == [] then target else Some(rates[|rates| - 1])
    decreases |rates|
  {
    if rates != [] {
      ApplyAllIsLast(Some(rates[0]), rates[1..]);
    }
  }

  function Latest(p: Place): Option<u32> {
    if p.Swapping? then None else p.latest
  }

  ghost predicate InRange(mbps: u32, rates: seq<u32>) {
    forall k :: 0 <= k < |rates| ==> 1_000_000 <= rates[k] <= mbps * 1_000_000 && rates[k] <= 0xFFFF_FFFF
  }

  /** What holds at every step: the target lags behind the rates taken only by the drain under way. */
  ghost predicate Faithful(mbps: u32, s: System) {
    && Valid(s)
    && InRange(mbps, s.task.rates) && InRange(mbps, s.video.applied)
    && (s.video.place.Draining? || s.video.place.Applying? || s.video.place.Swapping?)
    && s.video.target == ApplyAll(None, s.video.applied)
    && (var last := if s.video.taken == 0 then None else Some(s.task.rates[s.video.taken - 1]);
        if Latest(s.video.place).Some? then Latest(s.video.place) == last else s.video.target == last)
  }

  lemma InputKeepsFaithful(perms: Permissions, mbps: u32, s: System, r: Received)
    requires Faithful(mbps, s)
    ensures Faithful(mbps, Step(perms, mbps, s, Deliver(r)))
    ensures s.task.rates <= TaskStep(perms, mbps, s.task, r).rates
  {
    hide ApplyAll, FileTransfer.Step;
  }

  lemma VideoKeepsFaithful(mbps: u32, s: System)
    requires Faithful(mbps, s)
    ensures Faithful(mbps, VideoStep(s))
    ensures VideoStep(s).task.rates == s.task.rates
  {
    ApplyAllIsLast(None, s.video.applied);
    ApplyAllIsLast(None, VideoStep(s).video.applied);
    hide ApplyAll;
  }

  lemma {:induction false} AlwaysFaithful(perms: Permissions, mbps: u32, s: System, run: seq<Action>)
    requires Start(s)
    ensures Faithful(mbps, After(perms, mbps, s, run))
  {
    if run != [] {
      var before := After(perms, mbps, s, run[..|run| - 1]);
      AlwaysFaithful(perms, mbps, s, run[..|run| - 1]);
      match run[|run| - 1]
      case Deliver(r) => InputKeepsFaithful(perms, mbps, before, r);
      case Advance => VideoKeepsFaithful(mbps, before);
    }
  }

  /**
    Draining to the newest: under every interleaving each rate applied is in
    range, and outside a drain the target is the one that applying every rate
    taken so far, in order, would have left.
   */
  lemma DrainingToNewest(perms: Permissions, mbps: u32, s: System, run: seq<Action>)
    requires Start(s)
    ensures var t := After(perms, mbps, s, run);
            && t.video.taken <= |t.task.rates|
            && InRange(mbps, t.video.applied)
            && (Latest(t.video.place).None? ==> t.video.target == ApplyAll(None, t.task.rates[..t.video.taken]))
  {
    AlwaysFaithful(perms, mbps, s, run);
    var t := After(perms, mbps, s, run);
    ApplyAllIsLast(None, t.task.rates[..t.video.taken]);
    hide ApplyAll, After;
  }

  // ---------------------------------------------------------------------
  // IDR requests
  // ---------------------------------------------------------------------

  predicate RequestsAt(perms: Permissions, mbps: u32, s: System, run: seq<Action>, i: nat)
    requires i < |run|
  {
    run[i] == Deliver(Message(RequestIdr)) && After(perms, mbps, s, run[..i]).task.status.Running?
  }

  predicate SwapsAt(perms: Permissions, mbps: u32, s: System, run: seq<Action>, j: nat)
    requires j < |run|
  {
    run[j] == Advance && After(perms, mbps, s, run[..j]).video.place.Swapping?
  }

  /** The number of flag swaps with a request between them and the swap before. */
  function Answered(perms: Permissions, mbps: u32, s: System, run: seq<Action>, n: nat): nat
    requires n <= |run|
  {
    if n == 0 then 0
    else
      var before := Answered(perms, mbps, s, run, n - 1);
      if SwapsAt(perms, mbps, s, run, n - 1) && Pending(perms, mbps, s, run, n - 1) then before + 1 else before
  }

  /** A request among the first n actions that no swap has followed yet. */
  function Pending(perms: Permissions, mbps: u32, s: System, run: seq<Action>, n: nat): (p: bool)
    requires n <= |run|
    ensures p <==> exists i :: 0 <= i < n && RequestsAt(perms, mbps, s, run, i)
                     && forall j :: i < j < n ==> !SwapsAt(perms, mbps, s, run, j)
  {
    if n == 0 then false
    else if RequestsAt(perms, mbps, s, run, n - 1) then true
    else !SwapsAt(perms, mbps, s, run, n - 1) && Pending(perms, mbps, s, run, n - 1)
  }

  function Requests(perms: Permissions, mbps: u32, s: System, run: seq<Action>, n: nat): nat
    requires n <= |run|
  {
    if n == 0 then 0
    else Requests(perms, mbps, s, run, n - 1) + (if RequestsAt(perms, mbps, s, run, n - 1) then 1 else 0)
  }

  lemma OneMoreAction(perms: Permissions, mbps: u32, s: System, run: seq<Action>, n: nat)
    requires n < |run|
    ensures After(perms, mbps, s, run[..n + 1]) == Step(perms, mbps, After(perms, mbps, s, run[..n]), run[n])
  {
    hide Step;
    assert run[..n + 1][..n] == run[..n];
  }

  lemma FlagStep(perms: Permissions, mbps: u32, s: System, a: Action)
    ensures var t := Step(perms, mbps, s, a);
            var swaps, asks := a == Advance && s.video.place.Swapping?,
                               a == Deliver(Message(RequestIdr)) && s.task.status.Running?;
            && t.task.forceIdr == (asks || (s.task.forceIdr && !swaps))
            && t.video.idrCalls == s.video.idrCalls + (if swaps && s.task.forceIdr then 1 else 0)
  {
    hide FileTransfer.Step, Clamp;
  }

  /**
    No IDR request is lost: the flag is up exactly while a request waits for the
    next swap, and the encoder is called once for every swap that finds one
    waiting, so never more often than requested.
   */
  lemma {:induction false} NoRequestLost(perms: Permissions, mbps: u32, s: System, run: seq<Action>, n: nat)
    requires Start(s) && n <= |run|
    ensures var t := After(perms, mbps, s, run[..n]);
            && t.task.forceIdr == Pending(perms, mbps, s, run, n)
            && t.video.idrCalls == Answered(perms, mbps, s, run, n)
            && t.video.idrCalls + (if t.task.forceIdr then 1 else 0) <= Requests(perms, mbps, s, run, n)
  {
    hide Step, After;
    NothingHappened(perms, mbps, s, run);
    if n > 0 {
      NoRequestLost(perms, mbps, s, run, n - 1);
      OneMoreAction(perms, mbps, s, run, n - 1);
      FlagStep(perms, mbps, After(perms, mbps, s, run[..n - 1]), run[n - 1]);
    }
  }

  lemma NothingHappened(perms: Permissions, mbps: u32, s: System, run: seq<Action>)
    ensures After(perms, mbps, s, run[..0]) == s
  {
  }

  // ---------------------------------------------------------------------
  // One pass
  // ---------------------------------------------------------------------

  function Advances(s: System, n: nat): System
    decreases n
  {
    if n == 0 then s else Advances(VideoStep(s), n - 1)
  }

  /** The system after a pass that found `newest`. */
  function CaughtUp(s: System, newest: Option<u32>): System {
    System(s.task.(forceIdr := false),
           Video(Draining(None), |s.task.rates|,
                 if newest.Some? then newest else s.video.target,
                 s.video.applied + (if newest.Some? then [newest.value] else []),
                 s.video.idrCalls + (if s.task.forceIdr then 1 else 0)))
  }

  /** A pass with the input quiet catches up: nothing left in the channel, the newest rate applied, no request waiting. */
  lemma {:induction false} QuietPassCatchesUp(s: System)
    requires Valid(s) && s.video.place.Draining?
    ensures var n := |s.task.rates| - s.video.taken;
            var newest := if n > 0 then Some(s.task.rates[|s.task.rates| - 1]) else s.video.place.latest;
            Advances(s, n + 3) == CaughtUp(s, newest)
    decreases |s.task.rates| - s.video.taken
  {
    if s.video.taken < |s.task.rates| {
      QuietPassCatchesUp(VideoStep(s));
    } else {
      var a := VideoStep(s);
      var b := VideoStep(a);
      assert Advances(s, 3) == Advances(a, 2) == Advances(b, 1) == Advances(VideoStep(b), 0);
    }
  }

  /** The head of the video loop's body. */
  class VideoLoop {
    var taken: nat
    var target: Option<u32>
    var applied: seq<u32>
    var idrCalls: nat

    ghost function Snapshot(): Video
      reads this
    {
      Video(Draining(None), taken, target, applied, idrCalls)
    }

    constructor ()
      ensures Snapshot() == Video(Draining(None), 0, None, [], 0)
    {
      taken, target, applied, idrCalls := 0, None, [], 0;
    }

    /** One pass while the input task does nothing. */
    method Pass(input: InputLoop)
      requires taken <= |input.rates|
      modifies this, input`forceIdr
      ensures System(input.Snapshot(), Snapshot())
           == old(Advances(System(input.Snapshot(), Snapshot()), |input.rates| - taken + 3))
    {
      QuietPassCatchesUp(System(input.Snapshot(), Snapshot()));
      var latest: Option<u32> := None;
      while taken < |input.rates|
        invariant old(taken) <= taken <= |input.rates|
        invariant latest == if taken == old(taken) then None else Some(input.rates[taken - 1])
        invariant input.Snapshot() == old(input.Snapshot())
        invariant target == old(target) && applied == old(applied) && idrCalls == old(idrCalls)
      {
        latest := Some(input.rates[taken]);
        taken := taken + 1;
      }
      if latest.Some? {
        target := latest;
        applied := applied + [latest.value];
      }
      var requested := input.forceIdr;
      input.forceIdr := false;
      if requested {
        idrCalls := idrCalls + 1;
      }
      assert old(applied) + [] == old(applied);
    }
  }

  // ---------------------------------------------------------------------
  // When a drain ends
  // ---------------------------------------------------------------------

  function Delivered(run: seq<Action>): seq<Received> {
    if run == [] then []
    else
      var a := run[|run| - 1];
      Delivered(run[..|run| - 1]) + (if a.Deliver? then [a.received] else [])
  }

  function VideoSteps(run: seq<Action>): nat {
    if run == [] then 0 else VideoSteps(run[..|run| - 1]) + (if run[|run| - 1].Advance? then 1 else 0)
  }

  /** The rates sent by the end of a schedule. */
  function SentBy(perms: Permissions, mbps: u32, t: Task, run: seq<Action>): nat {
    |Run(perms, mbps, t, Delivered(run)).rates|
  }

  /** They are the SetBitrate messages delivered before the one that ends the input task. */
  lemma SentBySchedule(perms: Permissions, mbps: u32, t: Task, run: seq<Action>)
    requires t.status.Running?
    ensures SentBy(perms, mbps, t, run) == |t.rates| + |Sorted(mbps, BeforeEnd(mbps, Delivered(run))).rates|
  {
    ChannelsExactly(perms, mbps, t, Delivered(run));
  }

  /** Step j of the schedule is the video loop's, which has by then taken as many steps as there were rates for it. */
  predicate CatchesUpAt(perms: Permissions, mbps: u32, s: System, run: seq<Action>, j: nat)
    requires j < |run|
  {
    run[j].Advance? && s.video.taken + VideoSteps(run[..j]) >= SentBy(perms, mbps, s.task, run[..j])
  }

  ghost predicate NeverCatchesUp(perms: Permissions, mbps: u32, s: System, run: seq<Action>) {
    forall j :: 0 <= j < |run| ==> !CatchesUpAt(perms, mbps, s, run, j)
  }

  lemma NeverCatchesUpOneMore(perms: Permissions, mbps: u32, s: System, run: seq<Action>, a: Action)
    ensures NeverCatchesUp(perms, mbps, s, run + [a]) <==>
              && NeverCatchesUp(perms, mbps, s, run)
              && (a.Advance? ==> s.video.taken + VideoSteps(run) < SentBy(perms, mbps, s.task, run))
  {
    hide VideoSteps, SentBy;
    var more := run + [a];
    assert more[..|run|] == run;
    forall j | 0 <= j < |run|
      ensures CatchesUpAt(perms, mbps, s, more, j) == CatchesUpAt(perms, mbps, s, run, j)
    {
      assert more[..j] == run[..j];
    }
    assert CatchesUpAt(perms, mbps, s, more, |run|) <==>
             a.Advance? && s.video.taken + VideoSteps(run) >= SentBy(perms, mbps, s.task, run);
  }

  lemma ScheduleOneMore(perms: Permissions, mbps: u32, s: System, run: seq<Action>, a: Action)
    ensures After(perms, mbps, s, run + [a]) == Step(perms, mbps, After(perms, mbps, s, run), a)
    ensures VideoSteps(run + [a]) == VideoSteps(run) + (if a.Advance? then 1 else 0)
    ensures var t := Run(perms, mbps, s.task, Delivered(run));
            Run(perms, mbps, s.task, Delivered(run + [a])) == if a.Deliver? then TaskStep(perms, mbps, t, a.received) else t
  {
    hide Step, TaskStep;
    assert (run + [a])[..|run|] == run;
    var rs := Delivered(run);
    if a.Deliver? {
      assert (rs + [a.received])[..|rs|] == rs;
    } else {
      assert rs + [] == rs;
    }
  }

  /** The system while the drain that `s` is in goes on. */
  ghost predicate StillDraining(perms: Permissions, mbps: u32, s: System, run: seq<Action>, t: System) {
    && t.task == Run(perms, mbps, s.task, Delivered(run))
    && t.video.place.Draining?
    && t.video == s.video.(place := t.video.place, taken := s.video.taken + VideoSteps(run))
    && Valid(t)
  }

  lemma StillDrainingStep(perms: Permissions, mbps: u32, s: System, run: seq<Action>, t: System, a: Action)
    requires StillDraining(perms, mbps, s, run, t)
    ensures var u := Step(perms, mbps, t, a);
            if a.Advance? && t.video.taken >= |t.task.rates| then u.video.place.Applying? && u.task == t.task && u.video.idrCalls == t.video.idrCalls
            else StillDraining(perms, mbps, s, run + [a], u)
  {
    ScheduleOneMore(perms, mbps, s, run, a);
    hide Run, Delivered, VideoSteps, After;
    if a.Deliver? {
      RatesOnlyGrow(perms, mbps, t.task, a.received);
    }
    hide TaskStep;
  }

  lemma RatesOnlyGrow(perms: Permissions, mbps: u32, t: Task, r: Received)
    ensures t.rates <= TaskStep(perms, mbps, t, r).rates
  {
    hide FileTransfer.Step, Clamp;
  }

  /** As long as the video loop has not caught up, the drain goes on, and nothing but the drain happens. */
  lemma {:induction false} DrainGoesOn(perms: Permissions, mbps: u32, s: System, run: seq<Action>)
    requires Valid(s) && s.video.place.Draining? && NeverCatchesUp(perms, mbps, s, run)
    ensures StillDraining(perms, mbps, s, run, After(perms, mbps, s, run))
  {
    if run != [] {
      var pre, a := run[..|run| - 1], run[|run| - 1];
      assert pre + [a] == run;
      NeverCatchesUpOneMore(perms, mbps, s, pre, a);
      hide NeverCatchesUp, Step, CatchesUpAt;
      DrainGoesOn(perms, mbps, s, pre);
      StillDrainingStep(perms, mbps, s, pre, After(perms, mbps, s, pre), a);
      ScheduleOneMore(perms, mbps, s, pre, a);
      hide After, VideoSteps, Run, Delivered;
    }
  }

  lemma CatchUpEnds(perms: Permissions, mbps: u32, s: System, run: seq<Action>, j: nat)
    requires Valid(s) && s.video.place.Draining? && j < |run|
    requires NeverCatchesUp(perms, mbps, s, run[..j]) && CatchesUpAt(perms, mbps, s, run, j)
    ensures var t := After(perms, mbps, s, run[..j + 1]);
            t.video.place.Applying? && t.video.idrCalls == s.video.idrCalls
            && t.task == Run(perms, mbps, s.task, Delivered(run[..j]))
  {
    hide After, VideoSteps, Run, Delivered, NeverCatchesUp, Step;
    var before := After(perms, mbps, s, run[..j]);
    DrainGoesOn(perms, mbps, s, run[..j]);
    assert run[..j + 1] == run[..j] + [run[j]];
    ScheduleOneMore(perms, mbps, s, run[..j], run[j]);
    StillDrainingStep(perms, mbps, s, run[..j], before, run[j]);
  }

  lemma CaughtUpBefore(perms: Permissions, mbps: u32, s: System, run: seq<Action>, j: nat) returns (k: nat)
    requires j <= |run| && !NeverCatchesUp(perms, mbps, s, run[..j])
    ensures k < j && CatchesUpAt(perms, mbps, s, run, k)
  {
    hide CatchesUpAt;
    k :| 0 <= k < j && CatchesUpAt(perms, mbps, s, run[..j], k);
    CatchesUpInPrefix(perms, mbps, s, run, j, k);
  }

  /** The first step at which the video loop has caught up ends the drain. */
  lemma {:induction false} FirstCatchUp(perms: Permissions, mbps: u32, s: System, run: seq<Action>, j: nat) returns (first: nat)
    requires Valid(s) && s.video.place.Draining? && j < |run| && CatchesUpAt(perms, mbps, s, run, j)
    ensures first <= j && CatchesUpAt(perms, mbps, s, run, first) && NeverCatchesUp(perms, mbps, s, run[..first])
    ensures var t := After(perms, mbps, s, run[..first + 1]);
            t.video.place.Applying? && t.video.idrCalls == s.video.idrCalls
            && t.task == Run(perms, mbps, s.task, Delivered(run[..first]))
  {
    hide After, Run, Delivered, NeverCatchesUp, CatchesUpAt, Valid;
    if NeverCatchesUp(perms, mbps, s, run[..j]) {
      first := j;
      CatchUpEnds(perms, mbps, s, run, j);
    } else {
      var k := CaughtUpBefore(perms, mbps, s, run, j);
      first := FirstCatchUp(perms, mbps, s, run, k);
    }
  }

  /**
    When a drain ends, read off the schedule alone: it is still under way at the
    end of a run, and has been throughout, exactly when at each of the video
    loop's steps its earlier steps were fewer than the rates there were to take.
   */
  lemma DrainEndsExactly(perms: Permissions, mbps: u32, s: System, run: seq<Action>)
    requires Valid(s) && s.video.place.Draining?
    ensures (forall k :: 0 <= k <= |run| ==> After(perms, mbps, s, run[..k]).video.place.Draining?)
            <==> NeverCatchesUp(perms, mbps, s, run)
  {
    hide After, CatchesUpAt;
    if NeverCatchesUp(perms, mbps, s, run) {
      forall k | 0 <= k <= |run| ensures After(perms, mbps, s, run[..k]).video.place.Draining? {
        forall j | 0 <= j < k ensures !CatchesUpAt(perms, mbps, s, run[..k], j) {
          CatchesUpInPrefix(perms, mbps, s, run, k, j);
        }
        DrainGoesOn(perms, mbps, s, run[..k]);
      }
    } else {
      var j :| 0 <= j < |run| && CatchesUpAt(perms, mbps, s, run, j);
      var first := FirstCatchUp(perms, mbps, s, run, j);
      assert !After(perms, mbps, s, run[..first + 1]).video.place.Draining?;
    }
  }

  lemma CatchesUpInPrefix(perms: Permissions, mbps: u32, s: System, run: seq<Action>, k: nat, j: nat)
    requires j < k <= |run|
    ensures CatchesUpAt(perms, mbps, s, run[..k], j) == CatchesUpAt(perms, mbps, s, run, j)
  {
    assert run[..k][..j] == run[..j];
  }

  lemma {:induction false} AfterSplit(perms: Permissions, mbps: u32, s: System, run: seq<Action>, k: nat)
    requires k <= |run|
    ensures After(perms, mbps, s, run) == After(perms, mbps, After(perms, mbps, s, run[..k]), run[k..])
    decreases |run|
  {
    hide Step;
    if k == |run| {
      assert run[..k] == run && run[k..] == [];
    } else {
      var pre := run[..|run| - 1];
      AfterSplit(perms, mbps, s, pre, k);
      assert pre[..k] == run[..k] && pre[k..] == run[k..][..|run| - k - 1];
    }
  }

  /** Behind a drain the second step of the video loop answers a waiting request. */
  lemma {:induction false} SecondStepAnswers(perms: Permissions, mbps: u32, s: System, run: seq<Action>)
    requires s.video.place.Applying? && s.task.forceIdr
    ensures var t := After(perms, mbps, s, run);
            match VideoSteps(run)
            case 0 => t.task.forceIdr && t.video.place.Applying? && t.video.idrCalls == s.video.idrCalls
            case 1 => t.task.forceIdr && t.video.place.Swapping? && t.video.idrCalls == s.video.idrCalls
            case _ => t.video.idrCalls > s.video.idrCalls
  {
    if run != [] {
      var pre, a := run[..|run| - 1], run[|run| - 1];
      assert pre + [a] == run;
      ScheduleOneMore(perms, mbps, s, pre, a);
      SecondStepAnswers(perms, mbps, s, pre);
      FlagStep(perms, mbps, After(perms, mbps, s, pre), a);
      hide After, VideoSteps, Run, Delivered, TaskStep;
    }
  }

  /** The video loop catches up at step j and takes two more. */
  predicate LeavesTwo(perms: Permissions, mbps: u32, s: System, run: seq<Action>, j: nat)
    requires j < |run|
  {
    CatchesUpAt(perms, mbps, s, run, j) && VideoSteps(run[j + 1..]) >= 2
  }

  /**
    A request waiting during a drain is answered within a run exactly when the
    video loop catches up at some step of it and takes two more.
   */
  lemma RequestAnsweredExactly(perms: Permissions, mbps: u32, s: System, run: seq<Action>)
    requires Valid(s) && s.video.place.Draining? && s.task.forceIdr
    ensures After(perms, mbps, s, run).video.idrCalls > s.video.idrCalls <==>
              exists j :: 0 <= j < |run| && LeavesTwo(perms, mbps, s, run, j)
  {
    hide After, CatchesUpAt, VideoSteps, Run, Delivered, StillDraining;
    if j: nat :| j < |run| && LeavesTwo(perms, mbps, s, run, j) {
      var first := FirstCatchUp(perms, mbps, s, run, j);
      StepsOfSuffix(run, first + 1, j + 1);
      AnsweredBehind(perms, mbps, s, run, first);
    } else if j: nat :| j < |run| && CatchesUpAt(perms, mbps, s, run, j) {
      var first := FirstCatchUp(perms, mbps, s, run, j);
      AnsweredBehind(perms, mbps, s, run, first);
      assert !LeavesTwo(perms, mbps, s, run, first);
    } else {
      NothingButDraining(perms, mbps, s, run);
    }
  }

  lemma NothingButDraining(perms: Permissions, mbps: u32, s: System, run: seq<Action>)
    requires Valid(s) && s.video.place.Draining? && NeverCatchesUp(perms, mbps, s, run)
    ensures After(perms, mbps, s, run).video.idrCalls == s.video.idrCalls
  {
    hide After, Run, Delivered, VideoSteps, NeverCatchesUp;
    DrainGoesOn(perms, mbps, s, run);
  }

  lemma AnsweredBehind(perms: Permissions, mbps: u32, s: System, run: seq<Action>, first: nat)
    requires Valid(s) && s.video.place.Draining? && s.task.forceIdr && first < |run|
    requires NeverCatchesUp(perms, mbps, s, run[..first])
    requires var t := After(perms, mbps, s, run[..first + 1]);
             t.video.place.Applying? && t.video.idrCalls == s.video.idrCalls
             && t.task == Run(perms, mbps, s.task, Delivered(run[..first]))
    ensures After(perms, mbps, s, run).video.idrCalls > s.video.idrCalls <==> VideoSteps(run[first + 1..]) >= 2
  {
    RequestWaits(perms, mbps, s.task, Delivered(run[..first]));
    AfterSplit(perms, mbps, s, run, first + 1);
    SecondStepAnswers(perms, mbps, After(perms, mbps, s, run[..first + 1]), run[first + 1..]);
  }

  lemma {:induction false} RequestWaits(perms: Permissions, mbps: u32, t: Task, rs: seq<Received>)
    requires t.forceIdr
    ensures Run(perms, mbps, t, rs).forceIdr
  {
    hide FileTransfer.Step, Clamp;
    if rs != [] {
      RequestWaits(perms, mbps, t, rs[..|rs| - 1]);
    }
  }

  lemma {:induction false} StepsOfSuffix(run: seq<Action>, i: nat, k: nat)
    requires i <= k <= |run|
    ensures VideoSteps(run[i..]) >= VideoSteps(run[k..])
    decreases |run|
  {
    if k == |run| {
      assert run[k..] == [];
    } else {
      var pre := run[..|run| - 1];
      StepsOfSuffix(pre, i, k);
      assert run[i..][..|run| - i - 1] == pre[i..] && run[k..][..|run| - k - 1] == pre[k..];
    }
  }

  /** A request, then a rate before every step of the video loop. */
  function Busy(bps: u32, n: nat): seq<Action> {
    if n == 0 then [Deliver(Message(RequestIdr))]
    else Busy(bps, n - 1) + [Deliver(Message(SetBitrate(bps)))] + [Advance]
  }

  /** Such a schedule keeps the drain going for any number of rounds: nothing is applied, and the request still waits. */
  lemma {:induction false} BusyInputHoldsUpVideo(perms: Permissions, mbps: u32, s: System, bps: u32, n: nat)
    requires Start(s) && mbps != 0
    ensures var t := After(perms, mbps, s, Busy(bps, n));
            && t.video.taken == |t.task.rates| == n
            && t.video.applied == [] && t.video.place.Draining?
            && t.task.forceIdr && t.video.idrCalls == 0
            && t.task.status.Running?
  {
    if n > 0 {
      var before := Busy(bps, n - 1);
      var rate := Deliver(Message(SetBitrate(bps)));
      BusyInputHoldsUpVideo(perms, mbps, s, bps, n - 1);
      ScheduleOneMore(perms, mbps, s, before, rate);
      ScheduleOneMore(perms, mbps, s, before + [rate], Advance);
      hide After, Run, Delivered;
    } else {
      assert Busy(bps, 0)[..0] == [];
    }
  }
}
