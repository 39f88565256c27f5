/** The single-use ephemeral code under every interleaving of rotations and validations. */
module EphemeralCode {
  import opened Prelude
  import opened HostTypes

  datatype Slot = Slot(value: seq<byte>, createdAt: int)

  /** Rotations and validations in the order in which they hold the lock. */
  datatype Event =
    | Rotate(value: seq<byte>, createdAt: int)
    | Try(authMethod: AuthMethod, payload: seq<byte>, now: int)

  datatype Outcome = Rotated | Granted | Rejected(code: RejectCode)

  /** Time since creation; the clock difference saturates at zero. */
  function Age(s: Slot, now: int): nat {
    if now < s.createdAt then 0 else now - s.createdAt
  }

  predicate Alive(cfg: Config, s: Slot, now: int) {
    Age(s, now) <= cfg.lifetimeSeconds * SECOND
  }

  function EphemeralStep(cfg: Config, slot: Option<Slot>, e: Event): (Option<Slot>, Outcome) {
    match e
    case Rotate(value, createdAt) => (Some(Slot(value, createdAt)), Rotated)
    case Try(authMethod, payload, now) =>
      if authMethod != Ephemeral then (slot, Rejected(EphemeralRequired))
      else if slot.None? then (slot, Rejected(AuthFailed))
      else if !Alive(cfg, slot.value, now) then (slot, Rejected(AuthFailed))
      else if |payload| != |slot.value.value| then (slot, Rejected(AuthFailed))
      else if payload != slot.value.value then (slot, Rejected(AuthFailed))
      else (None, Granted)
  }

  function SlotAfter(cfg: Config, run: seq<Event>): Option<Slot> {
    if run == [] then None else EphemeralStep(cfg, SlotAfter(cfg, run[..|run| - 1]), run[|run| - 1]).0
  }

  lemma SlotOneMore(cfg: Config, run: seq<Event>, e: Event)
    ensures SlotAfter(cfg, run + [e]) == EphemeralStep(cfg, SlotAfter(cfg, run), e).0
  {
    hide EphemeralStep;
    assert (run + [e])[..|run|] == run;
  }

  predicate GrantAt(cfg: Config, run: seq<Event>, j: nat)
    requires j < |run|
  {
    EphemeralStep(cfg, SlotAfter(cfg, run[..j]), run[j]).1 == Granted
  }

  /** Index of the latest rotation before event j. */
  function LatestRotation(run: seq<Event>, j: nat): (i: Option<nat>)
    requires j <= |run|
    ensures i.Some? ==> i.value < j && run[i.value].Rotate? && forall k :: i.value < k < j ==> run[k].Try?
    ensures i.None? ==> forall k :: 0 <= k < j ==> run[k].Try?
  {
    if j == 0 then None else if run[j - 1].Rotate? then Some(j - 1) else LatestRotation(run, j - 1)
  }

  /** The code of the latest rotation has not been granted on before event j. */
  ghost predicate Unused(cfg: Config, run: seq<Event>, j: nat)
    requires j <= |run| && LatestRotation(run, j).Some?
  {
    forall k :: LatestRotation(run, j).value < k < j ==> !GrantAt(cfg, run, k)
  }

  /** The slot always holds the latest rotation, until the one grant on it. */
  lemma {:induction false} SlotIsLatestRotation(cfg: Config, run: seq<Event>, j: nat)
    requires j <= |run|
    ensures SlotAfter(cfg, run[..j]) ==
              match LatestRotation(run, j)
              case None => None
              case Some(i) =>
                if Unused(cfg, run, j) then Some(Slot(run[i].value, run[i].createdAt)) else None
  {
    if j > 0 {
      SlotIsLatestRotation(cfg, run, j - 1);
      assert run[..j][..j - 1] == run[..j - 1];
      if run[j - 1].Try? && LatestRotation(run, j).Some? {
        assert Unused(cfg, run, j) <==> Unused(cfg, run, j - 1) && !GrantAt(cfg, run, j - 1);
      }
    }
  }

  /**
    A validation is granted exactly when it names the method, its payload is the
    latest rotation's value, that is at most the configured seconds old, and no
    grant came in between.
   */
  lemma GrantExactly(cfg: Config, run: seq<Event>, j: nat)
    requires j < |run| && run[j].Try?
    ensures GrantAt(cfg, run, j) <==>
              var i := LatestRotation(run, j);
              && run[j].authMethod == Ephemeral && i.Some? && Unused(cfg, run, j)
              && run[j].payload == run[i.value].value
              && run[j].now - run[i.value].createdAt <= cfg.lifetimeSeconds * 1_000_000_000
  {
    SlotIsLatestRotation(cfg, run, j);
  }

  /** Single use: two grants never rest on the same rotation. */
  lemma GrantsUseDistinctRotations(cfg: Config, run: seq<Event>, j: nat, k: nat)
    requires j < k < |run| && GrantAt(cfg, run, j) && GrantAt(cfg, run, k)
    ensures LatestRotation(run, j).Some? && LatestRotation(run, k).Some?
    ensures LatestRotation(run, j).value < j < LatestRotation(run, k).value
  {
    assert run[j].Try? && run[k].Try?;
    GrantExactly(cfg, run, j);
    GrantExactly(cfg, run, k);
    assert run[j].Try?;
  }

  /** A rejected validation consumes nothing. */
  lemma RejectionKeepsCode(cfg: Config, slot: Option<Slot>, e: Event)
    ensures EphemeralStep(cfg, slot, e).1.Rejected? ==> EphemeralStep(cfg, slot, e).0 == slot
    ensures EphemeralStep(cfg, slot, e).1.Granted? ==> EphemeralStep(cfg, slot, e).0 == None
  {
  }
}
