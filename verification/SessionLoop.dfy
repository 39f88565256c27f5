/**
  The session loop: the consent gate in front of every connection, the Hello
  behind it, and the peer store that both share.

  Each connection brings an authenticated key, the answer the operator would
  give if asked, and the Hello that follows, if one does.
 */
module SessionLoop {
  import opened Prelude
  import opened HostTypes
  import PinLockout
  import EphemeralCode
  import Auth = AuthValidator

  datatype Answer =
    | NoChannel
    | ChannelClosed
    | ResponderDropped
    | Refused
    | Accepted(permissions: Permissions, remember: bool, name: string)

  datatype Hello = Hello(msg: FirstMessage, times: PinLockout.Times)

  datatype Arrival =
    | Rotation(value: seq<byte>, now: int)
    | Connection(peer: string, answer: Answer, hello: Option<Hello>)

  datatype Decision = Grant(permissions: Permissions) | Reject(code: RejectCode)

  /** What an arrival shows: whether the operator was asked, and how a Hello was answered. */
  datatype Trace = Trace(prompted: bool, decision: Option<Decision>)

  /** `saved` is the store as last saved; the file lists it by ascending key. */
  datatype Host = Host(auth: Auth.State, saved: seq<KnownPeer>)

  datatype Setup = Setup(cfg: Config, silentAllow: bool)

  function DecisionOn(v: Auth.Verdict, silentAllow: bool): Decision {
    match v
    case Granted(permissions, _) => Grant(permissions)
    case Rejected(code) => Reject(code)
    case NeedsConsent(_, permissions) => if silentAllow then Grant(permissions) else Reject(ConsentDenied)
  }

  /** The events that an arrival hands to the store and the validator. */
  function EventsOf(setup: Setup, peers: seq<KnownPeer>, a: Arrival): seq<Auth.Event> {
    match a
    case Rotation(value, now) => [Auth.Rotate(value, now)]
    case Connection(peer, answer, hello) =>
      var calls := if hello.Some? then [Auth.Call(hello.value.msg, peer, hello.value.times)] else [];
      if setup.silentAllow || IsKnown(peers, peer) then calls
      else if answer.Accepted? then [Auth.Record(peer, answer.permissions, answer.name)] + calls
      else []
  }

  predicate Prompts(setup: Setup, peers: seq<KnownPeer>, a: Arrival) {
    && a.Connection? && !setup.silentAllow && !IsKnown(peers, a.peer)
    && (a.answer.ResponderDropped? || a.answer.Refused? || a.answer.Accepted?)
  }

  function HelloStep(setup: Setup, h: Host, peer: string, hello: Option<Hello>): (Host, Option<Decision>) {
    if hello.None? then (h, None)
    else
      var v := Auth.ValidateStep(setup.cfg, h.auth, hello.value.msg, peer, hello.value.times);
      (h.(auth := v.0), Some(DecisionOn(v.1, setup.silentAllow)))
  }

  function Remembered(h: Host, peer: string, answer: Answer): Host
    requires answer.Accepted?
  {
    var peers := Recorded(h.auth.peers, peer, answer.permissions, answer.name);
    Host(h.auth.(peers := peers), if answer.remember then peers else h.saved)
  }

  function ArrivalStep(setup: Setup, h: Host, a: Arrival): (Host, Trace) {
    match a
    case Rotation(value, now) => (h.(auth := Auth.EventStep(setup.cfg, h.auth, Auth.Rotate(value, now))), Trace(false, None))
    case Connection(peer, answer, hello) =>
      var prompted := Prompts(setup, h.auth.peers, a);
      if setup.silentAllow || IsKnown(h.auth.peers, peer) then
        var s := HelloStep(setup, h, peer, hello);
        (s.0, Trace(prompted, s.1))
      else if answer.Accepted? then
        var s := HelloStep(setup, Remembered(h, peer, answer), peer, hello);
        (s.0, Trace(prompted, s.1))
      else (h, Trace(prompted, None))
  }

  function Start(stored: seq<KnownPeer>): Host {
    Host(Auth.State(stored, map[], None), stored)
  }

  function After(setup: Setup, stored: seq<KnownPeer>, run: seq<Arrival>): Host {
    if run == [] then Start(stored)
    else ArrivalStep(setup, After(setup, stored, run[..|run| - 1]), run[|run| - 1]).0
  }

  function TraceOn(setup: Setup, stored: seq<KnownPeer>, run: seq<Arrival>, a: Arrival): Trace {
    ArrivalStep(setup, After(setup, stored, run), a).1
  }

  function PeersAfter(setup: Setup, stored: seq<KnownPeer>, run: seq<Arrival>): seq<KnownPeer> {
    After(setup, stored, run).auth.peers
  }

  lemma NothingArrived(setup: Setup, stored: seq<KnownPeer>, arrivals: seq<Arrival>)
    ensures After(setup, stored, arrivals[..0]) == Start(stored)
  {
  }

  lemma Advance(setup: Setup, stored: seq<KnownPeer>, arrivals: seq<Arrival>, i: nat)
    requires i < |arrivals|
    ensures (After(setup, stored, arrivals[..i + 1]), TraceOn(setup, stored, arrivals[..i], arrivals[i]))
         == ArrivalStep(setup, After(setup, stored, arrivals[..i]), arrivals[i])
  {
    hide ArrivalStep;
    assert arrivals[..i + 1][..i] == arrivals[..i];
  }

  class HostLoop {
    const setup: Setup
    const store: PeerStore
    const validator: Auth.Validator
    var saved: seq<KnownPeer>

    ghost predicate Valid()
      reads this
    {
      validator.config == setup.cfg && validator.store == store
    }

    ghost function Snapshot(): Host
      reads this, store, validator, validator.store
    {
      Host(validator.Snapshot(), saved)
    }

    constructor (setup: Setup, stored: seq<KnownPeer>)
      ensures Valid() && fresh(store) && fresh(validator)
      ensures this.setup == setup && Snapshot() == Start(stored)
    {
      var peerStore := new PeerStore(stored);
      var validator := new Auth.Validator(setup.cfg, peerStore);
      this.setup := setup;
      this.store := peerStore;
      this.validator := validator;
      this.saved := stored;
    }

    /** The gate in front of a connection: whether it goes on to the Hello, and whether the operator was asked. */
    method Gate(peer: string, answer: Answer) returns (proceed: bool, prompted: bool)
      requires Valid()
      modifies store, this`saved
      ensures Valid()
      ensures prompted == Prompts(setup, old(store.peers), Connection(peer, answer, None))
      ensures var open := setup.silentAllow || IsKnown(old(store.peers), peer);
              && proceed == (open || answer.Accepted?)
              && Host(validator.Snapshot(), saved)
                 == if open || !answer.Accepted? then old(Snapshot()) else Remembered(old(Snapshot()), peer, answer)
    {
      if setup.silentAllow {
        return true, false;
      }
      var i := store.Find(peer);
      if i < |store.peers| {
        return true, false;
      }
      match answer {
        case NoChannel => return false, false;
        case ChannelClosed => return false, false;
        case ResponderDropped => return false, true;
        case Refused => return false, true;
        case Accepted(permissions, remember, name) =>
          store.Record(peer, permissions, name);
          if remember {
            saved := store.peers;
          }
          return true, true;
      }
    }

    method Evaluate(hello: Hello, peer: string) returns (d: Decision)
      requires Valid()
      modifies validator
      ensures Valid()
      ensures (Snapshot(), Some(d)) == HelloStep(setup, old(Snapshot()), peer, Some(hello))
    {
      var v := validator.Validate(hello.msg, peer, hello.times);
      match v {
        case Granted(permissions, _) => return Grant(permissions);
        case Rejected(code) => return Reject(code);
        case NeedsConsent(_, permissions) =>
          if setup.silentAllow {
            return Grant(permissions);
          }
          return Reject(ConsentDenied);
      }
    }

    /** The loop over everything that arrives. */
    method Serve(arrivals: seq<Arrival>, ghost stored: seq<KnownPeer>) returns (traces: seq<Trace>)
      requires Valid() && Snapshot() == Start(stored)
      modifies this, store, validator
      ensures Valid() && Snapshot() == After(setup, stored, arrivals)
      ensures |traces| == |arrivals|
      ensures forall k :: 0 <= k < |arrivals| ==> traces[k] == TraceOn(setup, stored, arrivals[..k], arrivals[k])
    {
      traces := [];
      var i := 0;
      NothingArrived(setup, stored, arrivals);
      hide After, ArrivalStep;
      while i < |arrivals|
        invariant 0 <= i <= |arrivals| && |traces| == i
        invariant Valid() && Snapshot() == After(setup, stored, arrivals[..i])
        invariant forall k :: 0 <= k < i ==> traces[k] == TraceOn(setup, stored, arrivals[..k], arrivals[k])
      {
        Advance(setup, stored, arrivals, i);
        var trace := HandleArrival(arrivals[i]);
        traces := traces + [trace];
        i := i + 1;
      }
      assert arrivals[..|arrivals|] == arrivals;
    }

    method HandleArrival(a: Arrival) returns (trace: Trace)
      requires Valid()
      modifies this, store, validator
      ensures Valid() && (Snapshot(), trace) == ArrivalStep(setup, old(Snapshot()), a)
    {
      match a {
        case Rotation(value, now) =>
          validator.RotateEphemeral(value, now);
          return Trace(false, None);
        case Connection(peer, answer, hello) =>
          var proceed, prompted := Gate(peer, answer);
          if !proceed || hello.None? {
            return Trace(prompted, None);
          }
          var d := Evaluate(hello.value, peer);
          return Trace(prompted, Some(d));
      }
    }
  }

  // ---------------------------------------------------------------------
  // The validator's run inside the loop's
  // ---------------------------------------------------------------------

  function Events(setup: Setup, stored: seq<KnownPeer>, run: seq<Arrival>): seq<Auth.Event> {
    if run == [] then []
    else
      var pre := run[..|run| - 1];
      Events(setup, stored, pre) + EventsOf(setup, PeersAfter(setup, stored, pre), run[|run| - 1])
  }

  lemma OneEvent(cfg: Config, stored: seq<KnownPeer>, events: seq<Auth.Event>, e: Auth.Event)
    ensures Auth.After(cfg, stored, events + [e]) == Auth.EventStep(cfg, Auth.After(cfg, stored, events), e)
  {
    hide Auth.EventStep;
    assert (events + [e])[..|events|] == events;
  }

  lemma StepIsEvents(setup: Setup, stored: seq<KnownPeer>, h: Host, a: Arrival, events: seq<Auth.Event>)
    requires h.auth == Auth.After(setup.cfg, stored, events)
    ensures ArrivalStep(setup, h, a).0.auth
         == Auth.After(setup.cfg, stored, events + EventsOf(setup, h.auth.peers, a))
  {
    hide Auth.After, Auth.ValidateStep, Recorded;
    var more := EventsOf(setup, h.auth.peers, a);
    assert more == [] ==> events + more == events;
    if |more| == 1 {
      assert more == [more[0]];
      OneEvent(setup.cfg, stored, events, more[0]);
    } else if |more| == 2 {
      OneEvent(setup.cfg, stored, events, more[0]);
      OneEvent(setup.cfg, stored, events + [more[0]], more[1]);
      assert events + more == events + [more[0]] + [more[1]];
    }
  }

  /** Every run of the session loop is a run of the validator, so what holds over those holds here. */
  lemma {:induction false} LoopIsValidatorRun(setup: Setup, stored: seq<KnownPeer>, run: seq<Arrival>)
    ensures After(setup, stored, run).auth == Auth.After(setup.cfg, stored, Events(setup, stored, run))
  {
    if run != [] {
      var pre, a := run[..|run| - 1], run[|run| - 1];
      LoopIsValidatorRun(setup, stored, pre);
      StepIsEvents(setup, stored, After(setup, stored, pre), a, Events(setup, stored, pre));
      hide ArrivalStep, EventsOf, Auth.After;
    }
  }

  // ---------------------------------------------------------------------
  // Consent and trust on first use
  // ---------------------------------------------------------------------

  /** The first permissions the operator would accept for a key. */
  function FirstAccepted(run: seq<Arrival>, key: string): Option<Permissions> {
    if run == [] then None
    else
      var before, a := FirstAccepted(run[..|run| - 1], key), run[|run| - 1];
      if before.Some? then before
      else if a.Connection? && a.peer == key && a.answer.Accepted? then Some(a.answer.permissions)
      else None
  }

  function Stored(peers: seq<KnownPeer>, key: string): Option<Permissions> {
    var i := IndexOf(peers, key);
    if i < |peers| then Some(peers[i].permissions) else None
  }

  function OrElse(a: Option<Permissions>, b: Option<Permissions>): Option<Permissions> {
    if a.Some? then a else b
  }

  lemma IndexUnique(peers: seq<KnownPeer>, key: string, i: nat)
    requires i <= |peers| && (i < |peers| ==> peers[i].key == key)
    requires forall k :: 0 <= k < i ==> peers[k].key != key
    ensures IndexOf(peers, key) == i
  {
  }

  /** Recording a key that is not stored adds it behind the others and touches none of them. */
  lemma RecordedReads(peers: seq<KnownPeer>, key: string, permissions: Permissions, name: string, other: string)
    requires !IsKnown(peers, key)
    ensures Stored(Recorded(peers, key, permissions, name), other)
         == if other == key then Some(permissions) else Stored(peers, other)
  {
    var i, after := IndexOf(peers, other), Recorded(peers, key, permissions, name);
    if i == |peers| && other != key {
      IndexUnique(after, other, i + 1);
    } else {
      IndexUnique(after, other, i);
    }
  }

  lemma GatedPeers(setup: Setup, h: Host, a: Arrival)
    ensures ArrivalStep(setup, h, a).0.auth.peers
         == if a.Connection? && !setup.silentAllow && !IsKnown(h.auth.peers, a.peer) && a.answer.Accepted?
            then Recorded(h.auth.peers, a.peer, a.answer.permissions, a.answer.name)
            else h.auth.peers
    ensures ArrivalStep(setup, h, a).0.saved
         == if Prompts(setup, h.auth.peers, a) && a.answer.Accepted? && a.answer.remember
            then ArrivalStep(setup, h, a).0.auth.peers
            else h.saved
  {
    hide PinLockout.PinStep, Recorded;
  }

  /** The store after any run: what was loaded, or else the first permissions accepted for the key. */
  lemma {:induction false} StoreHoldsFirstConsent(setup: Setup, stored: seq<KnownPeer>, run: seq<Arrival>, key: string)
    requires !setup.silentAllow
    ensures Stored(PeersAfter(setup, stored, run), key) == OrElse(Stored(stored, key), FirstAccepted(run, key))
  {
    if run != [] {
      var pre, a := run[..|run| - 1], run[|run| - 1];
      var h := After(setup, stored, pre);
      StoreHoldsFirstConsent(setup, stored, pre, key);
      GatedPeers(setup, h, a);
      hide ArrivalStep, Recorded;
      if a.Connection? && a.answer.Accepted? && !IsKnown(h.auth.peers, a.peer) {
        RecordedReads(h.auth.peers, a.peer, a.answer.permissions, a.answer.name, key);
      }
    }
  }

  /** The label of the entry for a key. */
  function Label(peers: seq<KnownPeer>, key: string): Option<string> {
    var i := IndexOf(peers, key);
    if i < |peers| then Some(peers[i].name) else None
  }

  /** The label that goes with the first permissions accepted for a key: the operator's, or the key when that is empty. */
  function FirstLabel(run: seq<Arrival>, key: string): Option<string> {
    if run == [] then None
    else
      var before, a := FirstLabel(run[..|run| - 1], key), run[|run| - 1];
      if before.Some? then before
      else if a.Connection? && a.peer == key && a.answer.Accepted? then
        Some(if a.answer.name == "" then key else a.answer.name)
      else None
  }

  lemma RecordedLabel(peers: seq<KnownPeer>, key: string, permissions: Permissions, name: string, other: string)
    requires !IsKnown(peers, key)
    ensures Label(Recorded(peers, key, permissions, name), other)
         == if other == key then Some(if name == "" then key else name) else Label(peers, other)
  {
    var i, after := IndexOf(peers, other), Recorded(peers, key, permissions, name);
    if i == |peers| && other != key {
      IndexUnique(after, other, i + 1);
    } else {
      IndexUnique(after, other, i);
    }
  }

  /** A stored peer is shown under the label that was loaded, or else that of its first accept; later ones do not rename it. */
  lemma {:induction false} LabelOfFirstConsent(setup: Setup, stored: seq<KnownPeer>, run: seq<Arrival>, key: string)
    requires !setup.silentAllow
    ensures var loaded, shown := Label(stored, key), Label(PeersAfter(setup, stored, run), key);
            shown == if loaded.Some? then loaded else FirstLabel(run, key)
  {
    if run != [] {
      var pre, a := run[..|run| - 1], run[|run| - 1];
      var h := After(setup, stored, pre);
      LabelOfFirstConsent(setup, stored, pre, key);
      GatedPeers(setup, h, a);
      hide ArrivalStep, Recorded;
      if a.Connection? && a.answer.Accepted? && !IsKnown(h.auth.peers, a.peer) {
        RecordedLabel(h.auth.peers, a.peer, a.answer.permissions, a.answer.name, key);
      }
    }
  }

  /** With silent-allow nothing is ever recorded. */
  lemma {:induction false} SilentRecordsNothing(setup: Setup, stored: seq<KnownPeer>, run: seq<Arrival>)
    requires setup.silentAllow
    ensures PeersAfter(setup, stored, run) == stored && After(setup, stored, run).saved == stored
  {
    if run != [] {
      SilentRecordsNothing(setup, stored, run[..|run| - 1]);
      GatedPeers(setup, After(setup, stored, run[..|run| - 1]), run[|run| - 1]);
      hide Auth.ValidateStep;
    }
  }

  /**
    The operator is asked exactly when the question can be delivered and the key
    was neither loaded nor accepted before; so never again after an accept.
   */
  lemma PromptedExactly(setup: Setup, stored: seq<KnownPeer>, run: seq<Arrival>, a: Arrival)
    requires a.Connection?
    ensures TraceOn(setup, stored, run, a).prompted <==>
              && !setup.silentAllow && !a.answer.NoChannel? && !a.answer.ChannelClosed?
              && Stored(stored, a.peer).None? && FirstAccepted(run, a.peer).None?
  {
    if !setup.silentAllow {
      StoreHoldsFirstConsent(setup, stored, run, a.peer);
    }
    hide Auth.ValidateStep, After;
  }

  /** What the validator says to the Hello of a connection, once the gate is passed. */
  function VerdictAt(setup: Setup, stored: seq<KnownPeer>, run: seq<Arrival>, a: Arrival): Option<Auth.Verdict>
    requires a.Connection?
  {
    var h := After(setup, stored, run);
    if a.hello.None? then None
    else if setup.silentAllow || IsKnown(h.auth.peers, a.peer) then
      Some(Auth.ValidateStep(setup.cfg, h.auth, a.hello.value.msg, a.peer, a.hello.value.times).1)
    else if a.answer.Accepted? then
      Some(Auth.ValidateStep(setup.cfg, Remembered(h, a.peer, a.answer).auth, a.hello.value.msg, a.peer, a.hello.value.times).1)
    else None
  }

  /** Without silent-allow the Hello never finds an unknown key: the gate has settled it. */
  lemma NeverNeedsConsent(setup: Setup, stored: seq<KnownPeer>, run: seq<Arrival>, a: Arrival)
    requires a.Connection? && !setup.silentAllow
    ensures VerdictAt(setup, stored, run, a) != None ==> !VerdictAt(setup, stored, run, a).value.NeedsConsent?
  {
    var h := After(setup, stored, run);
    if !IsKnown(h.auth.peers, a.peer) && a.answer.Accepted? {
      RecordedReads(h.auth.peers, a.peer, a.answer.permissions, a.answer.name, a.peer);
    }
    hide PinLockout.PinStep, After, Recorded;
  }

  /** In every mode a grant carries the permissions loaded for the key, or else the first accepted for it. */
  lemma GrantCarriesFirstConsent(setup: Setup, stored: seq<KnownPeer>, run: seq<Arrival>, a: Arrival)
    requires a.Connection? && !setup.silentAllow
    ensures var d := TraceOn(setup, stored, run, a).decision;
            d.Some? && d.value.Grant? ==>
              OrElse(Stored(stored, a.peer), FirstAccepted(run + [a], a.peer)) == Some(d.value.permissions)
  {
    var h := After(setup, stored, run);
    assert (run + [a])[..|run|] == run;
    StoreHoldsFirstConsent(setup, stored, run, a.peer);
    if !IsKnown(h.auth.peers, a.peer) && a.answer.Accepted? {
      RecordedReads(h.auth.peers, a.peer, a.answer.permissions, a.answer.name, a.peer);
    }
    hide PinLockout.PinStep, EphemeralCode.EphemeralStep, After, Recorded;
  }

  /**
    Trust on first use through the loop: a connection whose Hello reaches the
    TOFU check is granted exactly when its key was loaded, accepted earlier or
    is accepted now, and with the permissions of the first of these.  With
    silent-allow it is always granted, an unloaded key with the defaults.
   */
  lemma TofuGrantsFirstConsent(setup: Setup, stored: seq<KnownPeer>, run: seq<Arrival>, a: Arrival)
    requires a.Connection? && a.hello.Some? && Auth.Reaches(setup.cfg, a.hello.value.msg, Tofu)
    ensures TraceOn(setup, stored, run, a).decision
         == if setup.silentAllow then
              Some(Grant(match Stored(stored, a.peer) case Some(p) => p case None => setup.cfg.defaults))
            else
              match OrElse(Stored(stored, a.peer), FirstAccepted(run + [a], a.peer))
              case Some(permissions) => Some(Grant(permissions))
              case None => None
  {
    var h := After(setup, stored, run);
    assert (run + [a])[..|run|] == run;
    if setup.silentAllow {
      SilentRecordsNothing(setup, stored, run);
    } else {
      StoreHoldsFirstConsent(setup, stored, run, a.peer);
      if !IsKnown(h.auth.peers, a.peer) && a.answer.Accepted? {
        RecordedReads(h.auth.peers, a.peer, a.answer.permissions, a.answer.name, a.peer);
      }
    }
    hide PinLockout.PinStep, After, Recorded;
  }

  /** The key was loaded, accepted earlier or is accepted now; with silent-allow every key is let through. */
  predicate LetThrough(setup: Setup, stored: seq<KnownPeer>, run: seq<Arrival>, a: Arrival)
    requires a.Connection?
  {
    setup.silentAllow || Stored(stored, a.peer).Some? || FirstAccepted(run + [a], a.peer).Some?
  }

  /** The gate's own events: at most the record of an accepted key. */
  function GateEvents(setup: Setup, peers: seq<KnownPeer>, a: Arrival): seq<Auth.Event>
    requires a.Connection?
  {
    EventsOf(setup, peers, a.(hello := None))
  }

  lemma GateDisturbsNothing(setup: Setup, peers: seq<KnownPeer>, events: seq<Auth.Event>, a: Arrival)
    requires a.Connection?
    ensures var more := events + GateEvents(setup, peers, a);
            && Auth.PinAttempts(setup.cfg, more) == Auth.PinAttempts(setup.cfg, events)
            && Auth.CodeEvents(setup.cfg, more) == Auth.CodeEvents(setup.cfg, events)
  {
    var gate := GateEvents(setup, peers, a);
    hide Auth.PinAttempts, Auth.CodeEvents;
    if gate == [] {
      assert events + gate == events;
    } else {
      Auth.OneMoreEvent(setup.cfg, peers, events, gate[0]);
      assert gate == [gate[0]];
      assert Auth.PinAttempts(setup.cfg, events) + [] == Auth.PinAttempts(setup.cfg, events);
      assert Auth.CodeEvents(setup.cfg, events) + [] == Auth.CodeEvents(setup.cfg, events);
    }
  }

  lemma GateOpensExactly(setup: Setup, stored: seq<KnownPeer>, run: seq<Arrival>, a: Arrival)
    requires a.Connection?
    ensures var peers := PeersAfter(setup, stored, run);
            LetThrough(setup, stored, run, a) <==> setup.silentAllow || IsKnown(peers, a.peer) || a.answer.Accepted?
  {
    assert (run + [a])[..|run|] == run;
    if !setup.silentAllow {
      StoreHoldsFirstConsent(setup, stored, run, a.peer);
    }
    hide After;
  }

  lemma EventsBehindGate(setup: Setup, stored: seq<KnownPeer>, run: seq<Arrival>, a: Arrival)
    requires a.Connection? && a.hello.Some? && LetThrough(setup, stored, run, a)
    ensures Events(setup, stored, run + [a])
         == Events(setup, stored, run) + GateEvents(setup, PeersAfter(setup, stored, run), a)
            + [Auth.Call(a.hello.value.msg, a.peer, a.hello.value.times)]
  {
    GateOpensExactly(setup, stored, run, a);
    var peers, events := PeersAfter(setup, stored, run), Events(setup, stored, run);
    var call := Auth.Call(a.hello.value.msg, a.peer, a.hello.value.times);
    assert Events(setup, stored, run + [a]) == events + EventsOf(setup, peers, a) by {
      assert (run + [a])[..|run|] == run;
      hide After, LetThrough, EventsOf;
    }
    assert EventsOf(setup, peers, a) == GateEvents(setup, peers, a) + [call];
    hide After, LetThrough, Events, EventsOf, GateEvents;
    Assoc(events, GateEvents(setup, peers, a), [call]);
  }

  /** What the Hello of a connection that gets through the gate is answered. */
  lemma DecisionBehindGate(setup: Setup, stored: seq<KnownPeer>, run: seq<Arrival>, a: Arrival)
    requires a.Connection? && a.hello.Some? && LetThrough(setup, stored, run, a)
    ensures var events := Events(setup, stored, run) + GateEvents(setup, PeersAfter(setup, stored, run), a);
            var hello := a.hello.value;
            && TraceOn(setup, stored, run, a).decision
               == Some(DecisionOn(Auth.VerdictOn(setup.cfg, stored, events, hello.msg, a.peer, hello.times), setup.silentAllow))
            && (setup.silentAllow || IsKnown(Auth.PeerRecords(stored, events), a.peer))
  {
    var h := After(setup, stored, run);
    var gate := a.(hello := None);
    LoopIsValidatorRun(setup, stored, run);
    StepIsEvents(setup, stored, h, gate, Events(setup, stored, run));
    GateOpensExactly(setup, stored, run, a);
    Auth.RunProjects(setup.cfg, stored, Events(setup, stored, run) + GateEvents(setup, h.auth.peers, a));
    hide Auth.ValidateStep, After, Auth.After, Events, LetThrough, Auth.PeerRecords, Auth.PinAttempts, Auth.CodeEvents;
    if !setup.silentAllow && !IsKnown(h.auth.peers, a.peer) {
      RecordedReads(h.auth.peers, a.peer, a.answer.permissions, a.answer.name, a.peer);
    }
    hide Recorded;
  }

  lemma HistoryBehindGate(setup: Setup, peers: seq<KnownPeer>, events: seq<Auth.Event>, a: Arrival, msg: FirstMessage, now: int)
    requires a.Connection?
    ensures Auth.Refusal(setup.cfg, events + GateEvents(setup, peers, a), msg, a.peer, now)
         == Auth.Refusal(setup.cfg, events, msg, a.peer, now)
  {
    hide GateEvents, Auth.PinAttempts, Auth.CodeEvents, Auth.Refusal;
    GateDisturbsNothing(setup, peers, events, a);
    Auth.RefusalReadsAttempts(setup.cfg, events + GateEvents(setup, peers, a), events, msg, a.peer, now);
  }

  lemma GateShut(setup: Setup, stored: seq<KnownPeer>, run: seq<Arrival>, a: Arrival)
    requires a.Connection? && !LetThrough(setup, stored, run, a)
    ensures TraceOn(setup, stored, run, a).decision == None
  {
    GateOpensExactly(setup, stored, run, a);
    hide After, LetThrough, Auth.ValidateStep;
  }

  /**
    What a connection is answered, over any run of the loop: nothing when the
    key is not let through; else a refusal exactly when the history of the loop
    calls for one, with its code; else a grant.
   */
  lemma RefusedExactly(setup: Setup, stored: seq<KnownPeer>, run: seq<Arrival>, a: Arrival)
    requires a.Connection? && a.hello.Some? && Auth.Timed(setup.cfg, Events(setup, stored, run + [a]))
    ensures var d, hello := TraceOn(setup, stored, run, a).decision, a.hello.value;
            var refusal := Auth.Refusal(setup.cfg, Events(setup, stored, run), hello.msg, a.peer, hello.times.check);
            && (d == None <==> !LetThrough(setup, stored, run, a))
            && (d.Some? && refusal.Some? ==> d.value == Reject(refusal.value))
            && (d.Some? && refusal.None? ==> d.value.Grant?)
  {
    hide After, Events, LetThrough, Auth.ValidateStep, Auth.VerdictOn, Auth.Timed, GateEvents, Auth.Refusal,
      Auth.PeerRecords, IndexOf, TraceOn;
    if !LetThrough(setup, stored, run, a) {
      GateShut(setup, stored, run, a);
    } else {
      var peers, events, hello := PeersAfter(setup, stored, run), Events(setup, stored, run), a.hello.value;
      var all := events + GateEvents(setup, peers, a);
      DecisionBehindGate(setup, stored, run, a);
      EventsBehindGate(setup, stored, run, a);
      HistoryBehindGate(setup, peers, events, a, hello.msg, hello.times.check);
      Auth.VerdictExactly(setup.cfg, stored, all, hello.msg, a.peer, hello.times);
    }
  }

  /** A refused peer is told which check failed: the codes one by one. */
  lemma CodesExactly(setup: Setup, stored: seq<KnownPeer>, run: seq<Arrival>, a: Arrival)
    requires a.Connection? && a.hello.Some? && Auth.Timed(setup.cfg, Events(setup, stored, run + [a]))
    requires LetThrough(setup, stored, run, a)
    ensures var d, msg, mode := TraceOn(setup, stored, run, a).decision, a.hello.value.msg, setup.cfg.mode;
            var events, now := Events(setup, stored, run), a.hello.value.times.check;
            var fine := msg.Hello? && msg.version == 4 && |msg.payload| <= 64;
            var reaches := fine && msg.authMethod == mode;
            var locked := Auth.LockedByHistory(setup.cfg, events, a.peer, now);
            && (d == Some(Reject(ProtocolVersionMismatch)) <==> msg.Hello? && msg.version != 4)
            && (d == Some(Reject(Unspecified)) <==> msg.OtherMessage? || (msg.version == 4 && |msg.payload| > 64))
            && (d == Some(Reject(PinRequired)) <==> fine && mode == Pin != msg.authMethod)
            && (d == Some(Reject(EphemeralRequired)) <==> fine && mode == Ephemeral != msg.authMethod)
            && (d == Some(Reject(ConsentDenied)) <==> fine && mode == Tofu != msg.authMethod)
            && (d == Some(Reject(AuthLockout)) <==> reaches && mode == Pin && locked)
            && (d == Some(Reject(AuthFailed)) <==>
                  reaches && ((mode == Pin && !locked && setup.cfg.checkPin(msg.payload) != Right)
                              || (mode == Ephemeral && !Auth.HoldsFreshCode(setup.cfg, events, msg.payload, now))))
  {
    hide After, Events, LetThrough, Auth.Timed, TraceOn, Auth.LockedByHistory, Auth.HoldsFreshCode;
    RefusedExactly(setup, stored, run, a);
  }

  /** The Hello's own right, by the history of the loop. */
  ghost predicate Credential(setup: Setup, stored: seq<KnownPeer>, run: seq<Arrival>, a: Arrival)
    requires a.Connection? && a.hello.Some? && a.hello.value.msg.Hello?
  {
    var events, msg, now := Events(setup, stored, run), a.hello.value.msg, a.hello.value.times.check;
    match setup.cfg.mode
    case Tofu => true
    case Pin => setup.cfg.checkPin(msg.payload) == Right && !Auth.LockedByHistory(setup.cfg, events, a.peer, now)
    case Ephemeral => Auth.HoldsFreshCode(setup.cfg, events, msg.payload, now)
  }

  /**
    The gate and the validator together: a session starts exactly when the key
    is let through, the Hello is well formed and names the configured mode, and
    it carries what that mode asks for.
   */
  lemma SessionStartsExactly(setup: Setup, stored: seq<KnownPeer>, run: seq<Arrival>, a: Arrival)
    requires a.Connection? && a.hello.Some?
    requires Auth.Timed(setup.cfg, Events(setup, stored, run + [a]))
    ensures var d := TraceOn(setup, stored, run, a).decision;
            (d.Some? && d.value.Grant?) <==>
              && LetThrough(setup, stored, run, a)
              && Auth.Reaches(setup.cfg, a.hello.value.msg, setup.cfg.mode)
              && Credential(setup, stored, run, a)
  {
    hide After, Events, LetThrough, Auth.Timed, TraceOn, Auth.LockedByHistory, Auth.HoldsFreshCode;
    RefusedExactly(setup, stored, run, a);
  }

  lemma RecordedExtends(peers: seq<KnownPeer>, key: string, permissions: Permissions, name: string)
    requires !IsKnown(peers, key)
    ensures var after := Recorded(peers, key, permissions, name);
            peers <= after && (Distinct(peers) ==> Distinct(after))
  {
  }

  /** Keys that are loaded pairwise distinct stay so, in memory and in the file, and no entry ever moves. */
  lemma {:induction false} KeysStayDistinct(setup: Setup, stored: seq<KnownPeer>, run: seq<Arrival>)
    ensures var h := After(setup, stored, run);
            && stored <= h.saved <= h.auth.peers
            && (Distinct(stored) ==> Distinct(h.auth.peers) && Distinct(h.saved))
  {
    if run != [] {
      var pre, a := run[..|run| - 1], run[|run| - 1];
      KeysStayDistinct(setup, stored, pre);
      var h := After(setup, stored, pre);
      GatedPeers(setup, h, a);
      hide ArrivalStep, Recorded, Distinct, IsKnown;
      if a.Connection? && a.answer.Accepted? && !IsKnown(h.auth.peers, a.peer) {
        RecordedExtends(h.auth.peers, a.peer, a.answer.permissions, a.answer.name);
      }
    }
  }

  /** The arrivals up to the last remembered accept that found its key unknown. */
  function UpToLastSave(setup: Setup, stored: seq<KnownPeer>, run: seq<Arrival>): seq<Arrival> {
    if run == [] then []
    else
      var pre, a := run[..|run| - 1], run[|run| - 1];
      if Prompts(setup, PeersAfter(setup, stored, pre), a) && a.answer.Accepted? && a.answer.remember then run
      else UpToLastSave(setup, stored, pre)
  }

  /**
    What the file holds: every key loaded or accepted up to the last remembered
    accept, remembered itself or not; accepts after it are not in the file.
   */
  lemma {:induction false} FileHoldsAllUpToLastSave(setup: Setup, stored: seq<KnownPeer>, run: seq<Arrival>)
    ensures After(setup, stored, run).saved == PeersAfter(setup, stored, UpToLastSave(setup, stored, run))
  {
    if run != [] {
      var pre, a := run[..|run| - 1], run[|run| - 1];
      FileHoldsAllUpToLastSave(setup, stored, pre);
      GatedPeers(setup, After(setup, stored, pre), a);
      hide ArrivalStep, Recorded, IsKnown;
    }
  }
}
