/**
  The decision on a Hello message: the checks common to all modes, then the
  mode's own, over the shared peer store, the PIN table and the ephemeral slot.

  The class is the validator itself.  Runs of it are then tied to the two
  protocols inside it, so that a verdict can be read off the history.
 */
module AuthValidator {
  import opened Prelude
  import opened HostTypes
  import PinLockout
  import EphemeralCode

  const PROTOCOL_VERSION := 4
  const PAYLOAD_MAX := 64

  datatype Verdict =
    | Granted(permissions: Permissions, remember: bool)
    | Rejected(code: RejectCode)
    | NeedsConsent(peer: string, permissions: Permissions)

  datatype State = State(peers: seq<KnownPeer>, attempts: PinLockout.Attempts, slot: Option<EphemeralCode.Slot>)

  /** A Hello that gets past the version and size checks. */
  predicate WellFormed(msg: FirstMessage) {
    msg.Hello? && msg.version == 4 && |msg.payload| <= 64
  }

  /** A Hello that reaches the check of the configured mode. */
  predicate Reaches(cfg: Config, msg: FirstMessage, mode: AuthMethod) {
    WellFormed(msg) && cfg.mode == mode && msg.authMethod == mode
  }

  function PinVerdict(cfg: Config, peers: seq<KnownPeer>, peer: string, outcome: PinLockout.Outcome): Verdict {
    match outcome
    case LockedOut => Rejected(AuthLockout)
    case BadText => Rejected(AuthFailed)
    case WrongPin(_) => Rejected(AuthFailed)
    case Accepted => Granted(PermissionsOf(peers, peer, cfg.defaults), false)
  }

  function CodeVerdict(cfg: Config, peers: seq<KnownPeer>, peer: string, outcome: EphemeralCode.Outcome): Verdict {
    match outcome
    case Rejected(code) => Rejected(code)
    case _ => Granted(PermissionsOf(peers, peer, cfg.defaults), false)
  }

  /** One Hello, in terms of the protocol of the configured mode. */
  function ValidateStep(cfg: Config, s: State, msg: FirstMessage, peer: string, t: PinLockout.Times): (State, Verdict) {
    if msg.OtherMessage? then (s, Rejected(Unspecified))
    else if msg.version != PROTOCOL_VERSION then (s, Rejected(ProtocolVersionMismatch))
    else if |msg.payload| > PAYLOAD_MAX then (s, Rejected(Unspecified))
    else
      match cfg.mode
      case Tofu =>
        if msg.authMethod != Tofu then (s, Rejected(ConsentDenied))
        else if IsKnown(s.peers, peer) then (s, Granted(PermissionsOf(s.peers, peer, cfg.defaults), true))
        else (s, NeedsConsent(peer, cfg.defaults))
      case Pin =>
        if msg.authMethod != Pin then (s, Rejected(PinRequired))
        else
          var p := PinLockout.PinStep(cfg, s.attempts, peer, cfg.checkPin(msg.payload), t);
          (s.(attempts := p.0), PinVerdict(cfg, s.peers, peer, p.1))
      case Ephemeral =>
        var e := EphemeralCode.EphemeralStep(cfg, s.slot, EphemeralCode.Try(msg.authMethod, msg.payload, t.check));
        (s.(slot := e.0), CodeVerdict(cfg, s.peers, peer, e.1))
  }

  class Validator {
    const config: Config
    const store: PeerStore
    var slot: Option<EphemeralCode.Slot>
    var attempts: PinLockout.Attempts

    constructor (config: Config, store: PeerStore)
      ensures this.config == config && this.store == store
      ensures Snapshot() == State(store.peers, map[], None)
    {
      this.config := config;
      this.store := store;
      this.slot := None;
      this.attempts := map[];
    }

    ghost function Snapshot(): State
      reads this, store
    {
      State(store.peers, attempts, slot)
    }

    /** A new code replaces the old one, used or not. */
    method RotateEphemeral(value: seq<byte>, now: int)
      modifies this`slot
      ensures slot == EphemeralCode.EphemeralStep(config, old(slot), EphemeralCode.Rotate(value, now)).0
    {
      slot := Some(EphemeralCode.Slot(value, now));
    }

    method Validate(msg: FirstMessage, peer: string, t: PinLockout.Times) returns (v: Verdict)
      modifies this`slot, this`attempts
      ensures (Snapshot(), v) == ValidateStep(config, old(Snapshot()), msg, peer, t)
    {
      if msg.OtherMessage? {
        return Rejected(Unspecified);
      }
      if msg.version != PROTOCOL_VERSION {
        return Rejected(ProtocolVersionMismatch);
      }
      if |msg.payload| > PAYLOAD_MAX {
        return Rejected(Unspecified);
      }
      match config.mode {
        case Tofu => v := ValidateTofu(msg.authMethod, peer);
        case Pin => v := ValidatePin(msg.authMethod, msg.payload, peer, t);
        case Ephemeral => v := ValidateEphemeral(msg.authMethod, msg.payload, peer, t.check);
      }
    }

    method ValidateTofu(authMethod: AuthMethod, peer: string) returns (v: Verdict)
      ensures v == if authMethod != Tofu then Rejected(ConsentDenied)
                   else if IsKnown(store.peers, peer) then Granted(PermissionsOf(store.peers, peer, config.defaults), true)
                   else NeedsConsent(peer, config.defaults)
    {
      if authMethod != Tofu {
        return Rejected(ConsentDenied);
      }
      var i := store.Find(peer);
      if i < |store.peers| {
        return Granted(store.peers[i].permissions, true);
      }
      return NeedsConsent(peer, config.defaults);
    }

    method PermissionsFor(peer: string) returns (p: Permissions)
      ensures p == PermissionsOf(store.peers, peer, config.defaults)
    {
      var i := store.Find(peer);
      p := if i < |store.peers| then store.peers[i].permissions else config.defaults;
    }

    method ValidatePin(authMethod: AuthMethod, payload: seq<byte>, peer: string, t: PinLockout.Times)
      returns (v: Verdict)
      modifies this`attempts
      ensures authMethod != Pin ==> v == Rejected(PinRequired) && attempts == old(attempts)
      ensures authMethod == Pin ==>
                var p := PinLockout.PinStep(config, old(attempts), peer, config.checkPin(payload), t);
                attempts == p.0 && v == PinVerdict(config, store.peers, peer, p.1)
    {
      if authMethod != Pin {
        return Rejected(PinRequired);
      }
      attempts := PinLockout.Prune(attempts, t.prune);
      if peer in attempts {
        match attempts[peer].lockedUntil {
          case None =>
          case Some(until) =>
            if t.check < until {
              return Rejected(AuthLockout);
            }
        }
      }
      match config.checkPin(payload) {
        case NotUtf8 =>
          return Rejected(AuthFailed);
        case Wrong =>
          var entry := if peer in attempts then attempts[peer] else PinLockout.Failures(0, None);
          entry := entry.(count := (entry.count + 1) % 256);
          if entry.count >= config.maxPinAttempts {
            entry := entry.(lockedUntil := Some(t.commit + config.lockoutSeconds * SECOND));
          }
          attempts := attempts[peer := entry];
          return Rejected(AuthFailed);
        case Right =>
          attempts := attempts - {peer};
          var permissions := PermissionsFor(peer);
          return Granted(permissions, false);
      }
    }

    method ValidateEphemeral(authMethod: AuthMethod, payload: seq<byte>, peer: string, now: int)
      returns (v: Verdict)
      modifies this`slot
      ensures var e := EphemeralCode.EphemeralStep(config, old(slot), EphemeralCode.Try(authMethod, payload, now));
              slot == e.0 && v == CodeVerdict(config, store.peers, peer, e.1)
    {
      if authMethod != Ephemeral {
        return Rejected(EphemeralRequired);
      }
      if slot.None? {
        return Rejected(AuthFailed);
      }
      var code := slot.value;
      var age := if now < code.createdAt then 0 else now - code.createdAt;
      if age > config.lifetimeSeconds * SECOND {
        return Rejected(AuthFailed);
      }
      if |payload| != |code.value| {
        return Rejected(AuthFailed);
      }
      if payload != code.value {
        return Rejected(AuthFailed);
      }
      slot := None;
      var permissions := PermissionsFor(peer);
      return Granted(permissions, false);
    }
  }

  // ---------------------------------------------------------------------
  // Runs
  // ---------------------------------------------------------------------

  datatype Event =
    | Rotate(value: seq<byte>, now: int)
    | Record(key: string, permissions: Permissions, name: string)
    | Call(msg: FirstMessage, peer: string, times: PinLockout.Times)

  function EventStep(cfg: Config, s: State, e: Event): State {
    match e
    case Rotate(value, now) => s.(slot := EphemeralCode.EphemeralStep(cfg, s.slot, EphemeralCode.Rotate(value, now)).0)
    case Record(key, permissions, name) => s.(peers := Recorded(s.peers, key, permissions, name))
    case Call(msg, peer, times) => ValidateStep(cfg, s, msg, peer, times).0
  }

  function After(cfg: Config, peers: seq<KnownPeer>, run: seq<Event>): State {
    if run == [] then State(peers, map[], None)
    else EventStep(cfg, After(cfg, peers, run[..|run| - 1]), run[|run| - 1])
  }

  function VerdictOn(cfg: Config, peers: seq<KnownPeer>, run: seq<Event>, msg: FirstMessage, peer: string, t: PinLockout.Times): Verdict {
    ValidateStep(cfg, After(cfg, peers, run), msg, peer, t).1
  }

  function AttemptOf(cfg: Config, e: Event): seq<PinLockout.Attempt> {
    if e.Call? && Reaches(cfg, e.msg, Pin)
    then [PinLockout.Attempt(e.peer, cfg.checkPin(e.msg.payload), e.times)] else []
  }

  function CodeEventOf(cfg: Config, e: Event): seq<EphemeralCode.Event> {
    match e
    case Rotate(value, now) => [EphemeralCode.Rotate(value, now)]
    case Record(_, _, _) => []
    case Call(msg, _, times) =>
      if Reaches(cfg, msg, Ephemeral)
      then [EphemeralCode.Try(msg.authMethod, msg.payload, times.check)] else []
  }

  function PeerRecords(peers: seq<KnownPeer>, run: seq<Event>): seq<KnownPeer> {
    if run == [] then peers
    else
      var before, e := PeerRecords(peers, run[..|run| - 1]), run[|run| - 1];
      if e.Record? then Recorded(before, e.key, e.permissions, e.name) else before
  }

  /** The PIN attempts of a run. */
  function PinAttempts(cfg: Config, run: seq<Event>): seq<PinLockout.Attempt> {
    if run == [] then [] else PinAttempts(cfg, run[..|run| - 1]) + AttemptOf(cfg, run[|run| - 1])
  }

  /** The rotations and uses of the ephemeral code in a run. */
  function CodeEvents(cfg: Config, run: seq<Event>): seq<EphemeralCode.Event> {
    if run == [] then [] else CodeEvents(cfg, run[..|run| - 1]) + CodeEventOf(cfg, run[|run| - 1])
  }

  lemma AttemptsStep(cfg: Config, s: State, e: Event, attempts: seq<PinLockout.Attempt>)
    requires s.attempts == PinLockout.After(cfg, attempts)
    ensures EventStep(cfg, s, e).attempts == PinLockout.After(cfg, attempts + AttemptOf(cfg, e))
  {
    hide PinLockout.PinStep, PinLockout.After, EphemeralCode.EphemeralStep, Recorded;
    if e.Call? && Reaches(cfg, e.msg, Pin) {
      PinLockout.AfterOneMore(cfg, attempts, AttemptOf(cfg, e)[0], e.peer);
    } else {
      assert attempts + AttemptOf(cfg, e) == attempts;
    }
  }

  lemma SlotStep(cfg: Config, s: State, e: Event, events: seq<EphemeralCode.Event>)
    requires s.slot == EphemeralCode.SlotAfter(cfg, events)
    ensures EventStep(cfg, s, e).slot == EphemeralCode.SlotAfter(cfg, events + CodeEventOf(cfg, e))
  {
    hide PinLockout.PinStep, EphemeralCode.SlotAfter, Recorded;
    var more := CodeEventOf(cfg, e);
    if more == [] {
      assert events + more == events;
    } else {
      EphemeralCode.SlotOneMore(cfg, events, more[0]);
      assert more == [more[0]];
    }
  }

  lemma PeersStep(cfg: Config, s: State, e: Event)
    ensures EventStep(cfg, s, e).peers == if e.Record? then Recorded(s.peers, e.key, e.permissions, e.name) else s.peers
  {
    hide PinLockout.PinStep, EphemeralCode.EphemeralStep, Recorded;
  }

  lemma OneMoreEvent(cfg: Config, peers: seq<KnownPeer>, run: seq<Event>, e: Event)
    ensures After(cfg, peers, run + [e]) == EventStep(cfg, After(cfg, peers, run), e)
    ensures PinAttempts(cfg, run + [e]) == PinAttempts(cfg, run) + AttemptOf(cfg, e)
    ensures CodeEvents(cfg, run + [e]) == CodeEvents(cfg, run) + CodeEventOf(cfg, e)
    ensures var before := PeerRecords(peers, run);
            PeerRecords(peers, run + [e]) == if e.Record? then Recorded(before, e.key, e.permissions, e.name) else before
  {
    hide EventStep, AttemptOf, CodeEventOf, Recorded;
    assert (run + [e])[..|run|] == run;
  }

  ghost predicate Projects(cfg: Config, peers: seq<KnownPeer>, run: seq<Event>) {
    After(cfg, peers, run)
    == State(PeerRecords(peers, run), PinLockout.After(cfg, PinAttempts(cfg, run)),
             EphemeralCode.SlotAfter(cfg, CodeEvents(cfg, run)))
  }

  lemma ProjectsStep(cfg: Config, peers: seq<KnownPeer>, run: seq<Event>, e: Event)
    requires Projects(cfg, peers, run)
    ensures Projects(cfg, peers, run + [e])
  {
    hide EventStep, AttemptOf, CodeEventOf, Recorded, After, PinAttempts, CodeEvents, PeerRecords,
      PinLockout.After, EphemeralCode.SlotAfter;
    var s := After(cfg, peers, run);
    OneMoreEvent(cfg, peers, run, e);
    PeersStep(cfg, s, e);
    AttemptsStep(cfg, s, e, PinAttempts(cfg, run));
    SlotStep(cfg, s, e, CodeEvents(cfg, run));
  }

  lemma NothingProjects(cfg: Config, peers: seq<KnownPeer>)
    ensures Projects(cfg, peers, [])
  {
  }

  /** A run of the validator is a run of each protocol inside it, undisturbed by the others. */
  lemma {:induction false} RunProjects(cfg: Config, peers: seq<KnownPeer>, run: seq<Event>)
    ensures Projects(cfg, peers, run)
  {
    hide Projects;
    NothingProjects(cfg, peers);
    if run != [] {
      RunProjects(cfg, peers, run[..|run| - 1]);
      assert run[..|run| - 1] + [run[|run| - 1]] == run;
      ProjectsStep(cfg, peers, run[..|run| - 1], run[|run| - 1]);
    }
  }

  // ---------------------------------------------------------------------
  // Verdicts from the history
  // ---------------------------------------------------------------------

  /** The peer's last wrong PIN set a lockout and is less than the configured seconds old. */
  predicate LockedByHistory(cfg: Config, run: seq<Event>, peer: string, now: int) {
    var w := PinLockout.WrongTimes(cfg, PinAttempts(cfg, run), peer);
    && w != [] && |w| % 256 >= cfg.maxPinAttempts
    && now < w[|w| - 1] + cfg.lockoutSeconds * 1_000_000_000
  }

  /** The clock readings of the PIN attempts never go back. */
  ghost predicate Timed(cfg: Config, run: seq<Event>) {
    PinLockout.Timed(PinAttempts(cfg, run))
  }

  /** The payload is the value of the latest rotation, that is young enough and no grant has used it. */
  ghost predicate HoldsFreshCode(cfg: Config, run: seq<Event>, payload: seq<byte>, now: int) {
    var events := CodeEvents(cfg, run);
    var i := EphemeralCode.LatestRotation(events, |events|);
    && i.Some?
    && EphemeralCode.Unused(cfg, events, |events|)
    && payload == events[i.value].value
    && now - events[i.value].createdAt <= cfg.lifetimeSeconds * 1_000_000_000
  }

  /** A Hello that reaches the PIN check is an attempt behind those of the run. */
  lemma PinOutcome(cfg: Config, run: seq<Event>, msg: FirstMessage, peer: string, t: PinLockout.Times)
    returns (outcome: PinLockout.Outcome)
    requires Timed(cfg, run + [Call(msg, peer, t)]) && Reaches(cfg, msg, Pin)
    ensures PinLockout.PinStep(cfg, PinLockout.After(cfg, PinAttempts(cfg, run)), peer, cfg.checkPin(msg.payload), t).1 == outcome
    ensures outcome.LockedOut? <==> LockedByHistory(cfg, run, peer, t.check)
    ensures outcome.Accepted? <==> !LockedByHistory(cfg, run, peer, t.check) && cfg.checkPin(msg.payload) == Right
  {
    OneMoreEvent(cfg, [], run, Call(msg, peer, t));
    hide PinLockout.PinStep, PinLockout.After, PinLockout.WrongTimes, PinLockout.Timed, PinAttempts;
    var x := PinLockout.Attempt(peer, cfg.checkPin(msg.payload), t);
    PinLockout.OutcomeExactly(cfg, PinAttempts(cfg, run), x);
    outcome := PinLockout.OutcomeOf(cfg, PinAttempts(cfg, run), x);
  }

  /** A Hello that reaches the ephemeral check is granted exactly with a fresh code. */
  lemma CodeOutcome(cfg: Config, run: seq<Event>, msg: FirstMessage, now: int)
    requires Reaches(cfg, msg, Ephemeral)
    ensures EphemeralCode.EphemeralStep(cfg, EphemeralCode.SlotAfter(cfg, CodeEvents(cfg, run)),
                                        EphemeralCode.Try(Ephemeral, msg.payload, now)).1
         == if HoldsFreshCode(cfg, run, msg.payload, now) then EphemeralCode.Granted else EphemeralCode.Rejected(AuthFailed)
  {
    hide EphemeralCode.SlotAfter, CodeEvents;
    var events := CodeEvents(cfg, run);
    EphemeralCode.SlotIsLatestRotation(cfg, events, |events|);
    assert events[..|events|] == events;
  }

  /** The one reason for which a Hello is refused by its history; `None` when there is none. */
  ghost function Refusal(cfg: Config, run: seq<Event>, msg: FirstMessage, peer: string, now: int): Option<RejectCode> {
    if msg.OtherMessage? then Some(Unspecified)
    else if msg.version != 4 then Some(ProtocolVersionMismatch)
    else if |msg.payload| > 64 then Some(Unspecified)
    else if msg.authMethod != cfg.mode then
      Some(match cfg.mode case Tofu => ConsentDenied case Pin => PinRequired case Ephemeral => EphemeralRequired)
    else
      match cfg.mode
      case Tofu => None
      case Pin =>
        if LockedByHistory(cfg, run, peer, now) then Some(AuthLockout)
        else if cfg.checkPin(msg.payload) == Right then None
        else Some(AuthFailed)
      case Ephemeral => if HoldsFreshCode(cfg, run, msg.payload, now) then None else Some(AuthFailed)
  }

  lemma CodeReadsEvents(cfg: Config, a: seq<Event>, b: seq<Event>, payload: seq<byte>, now: int)
    requires CodeEvents(cfg, a) == CodeEvents(cfg, b)
    ensures HoldsFreshCode(cfg, a, payload, now) == HoldsFreshCode(cfg, b, payload, now)
  {
    hide CodeEvents, EphemeralCode.LatestRotation, EphemeralCode.Unused;
  }

  lemma LockReadsAttempts(cfg: Config, a: seq<Event>, b: seq<Event>, peer: string, now: int)
    requires PinAttempts(cfg, a) == PinAttempts(cfg, b)
    ensures LockedByHistory(cfg, a, peer, now) == LockedByHistory(cfg, b, peer, now)
  {
    hide PinAttempts, PinLockout.WrongTimes;
  }

  /** Only the PIN attempts and the uses of the code matter to it. */
  lemma RefusalReadsAttempts(cfg: Config, a: seq<Event>, b: seq<Event>, msg: FirstMessage, peer: string, now: int)
    requires PinAttempts(cfg, a) == PinAttempts(cfg, b) && CodeEvents(cfg, a) == CodeEvents(cfg, b)
    ensures Refusal(cfg, a, msg, peer, now) == Refusal(cfg, b, msg, peer, now)
  {
    hide PinAttempts, CodeEvents, LockedByHistory, HoldsFreshCode;
    LockReadsAttempts(cfg, a, b, peer, now);
    if msg.Hello? {
      CodeReadsEvents(cfg, a, b, msg.payload, now);
    }
  }

  /** The verdict a history calls for. */
  ghost function Deserved(cfg: Config, peers: seq<KnownPeer>, run: seq<Event>, msg: FirstMessage, peer: string, now: int): Verdict {
    var i := IndexOf(peers, peer);
    match Refusal(cfg, run, msg, peer, now)
    case Some(code) => Rejected(code)
    case None =>
      if i < |peers| then Granted(peers[i].permissions, cfg.mode == Tofu)
      else if cfg.mode == Tofu then NeedsConsent(peer, cfg.defaults)
      else Granted(cfg.defaults, false)
  }

  /**
    The verdict on a Hello, read off the history.  It is refused as no Hello or
    with more than 64 bytes, for a version other than 4, for another method than
    the configured one, during a lockout by the peer's own failures, or for a
    wrong PIN or a code that is not the latest, unused and young; each with its
    own code.  Otherwise a stored key gets its permissions, and any other the
    defaults, or in TOFU mode a question to the operator.
   */
  lemma VerdictExactly(cfg: Config, peers: seq<KnownPeer>, run: seq<Event>, msg: FirstMessage, peer: string, t: PinLockout.Times)
    requires Timed(cfg, run + [Call(msg, peer, t)])
    ensures VerdictOn(cfg, peers, run, msg, peer, t) == Deserved(cfg, PeerRecords(peers, run), run, msg, peer, t.check)
  {
    RunProjects(cfg, peers, run);
    hide PinLockout.PinStep, PinLockout.After, EphemeralCode.SlotAfter, EphemeralCode.EphemeralStep, PeerRecords,
      PinAttempts, CodeEvents, LockedByHistory, HoldsFreshCode, After, Timed, IndexOf;
    if Reaches(cfg, msg, Pin) {
      var outcome := PinOutcome(cfg, run, msg, peer, t);
    } else if msg.Hello? && cfg.mode == Ephemeral && msg.authMethod == Ephemeral && WellFormed(msg) {
      CodeOutcome(cfg, run, msg, t.check);
    } else if msg.Hello? && cfg.mode == Ephemeral {
      OtherMethod(cfg, EphemeralCode.SlotAfter(cfg, CodeEvents(cfg, run)), msg, t.check);
    }
  }

  lemma OtherMethod(cfg: Config, slot: Option<EphemeralCode.Slot>, msg: FirstMessage, now: int)
    requires msg.Hello?
    ensures msg.authMethod != Ephemeral ==>
              EphemeralCode.EphemeralStep(cfg, slot, EphemeralCode.Try(msg.authMethod, msg.payload, now)).1
              == EphemeralCode.Rejected(EphemeralRequired)
  {
  }

  /**
    A Hello is granted exactly when it is well formed, names the configured
    mode, and has the right: the key is stored, the PIN is right outside a
    lockout, or the payload is the latest code, unused and young.
   */
  lemma GrantedExactly(cfg: Config, peers: seq<KnownPeer>, run: seq<Event>, msg: FirstMessage, peer: string, t: PinLockout.Times)
    requires Timed(cfg, run + [Call(msg, peer, t)])
    ensures var v, stored := VerdictOn(cfg, peers, run, msg, peer, t), PeerRecords(peers, run);
            var i := IndexOf(stored, peer);
            && (v.Granted? <==>
                  && msg.Hello? && msg.version == 4 && |msg.payload| <= 64 && msg.authMethod == cfg.mode
                  && (cfg.mode == Tofu ==> i < |stored|)
                  && (cfg.mode == Pin ==> cfg.checkPin(msg.payload) == Right && !LockedByHistory(cfg, run, peer, t.check))
                  && (cfg.mode == Ephemeral ==> HoldsFreshCode(cfg, run, msg.payload, t.check)))
            && (v.Granted? ==>
                  v == Granted(if i < |stored| then stored[i].permissions else cfg.defaults, cfg.mode == Tofu))
  {
    hide VerdictOn, PeerRecords, LockedByHistory, HoldsFreshCode, Timed, IndexOf;
    VerdictExactly(cfg, peers, run, msg, peer, t);
  }

  /** Why a Hello is refused: each code for its one reason. */
  lemma RejectionExactly(cfg: Config, peers: seq<KnownPeer>, run: seq<Event>, msg: FirstMessage, peer: string, t: PinLockout.Times)
    requires Timed(cfg, run + [Call(msg, peer, t)])
    ensures var v := VerdictOn(cfg, peers, run, msg, peer, t);
            var fine := msg.Hello? && msg.version == 4 && |msg.payload| <= 64;
            var reaches := fine && msg.authMethod == cfg.mode;
            var locked := LockedByHistory(cfg, run, peer, t.check);
            && (v == Rejected(ProtocolVersionMismatch) <==> msg.Hello? && msg.version != 4)
            && (v == Rejected(Unspecified) <==> msg.OtherMessage? || (msg.version == 4 && |msg.payload| > 64))
            && (v == Rejected(PinRequired) <==> fine && cfg.mode == Pin != msg.authMethod)
            && (v == Rejected(EphemeralRequired) <==> fine && cfg.mode == Ephemeral != msg.authMethod)
            && (v == Rejected(ConsentDenied) <==> fine && cfg.mode == Tofu != msg.authMethod)
            && (v == Rejected(AuthLockout) <==> reaches && cfg.mode == Pin && locked)
            && (v == Rejected(AuthFailed) <==>
                  reaches && ((cfg.mode == Pin && !locked && cfg.checkPin(msg.payload) != Right)
                              || (cfg.mode == Ephemeral && !HoldsFreshCode(cfg, run, msg.payload, t.check))))
            && (v.NeedsConsent? <==> reaches && cfg.mode == Tofu && !IsKnown(PeerRecords(peers, run), peer))
  {
    hide VerdictOn, PeerRecords, LockedByHistory, HoldsFreshCode, Timed, IndexOf;
    VerdictExactly(cfg, peers, run, msg, peer, t);
  }
}
