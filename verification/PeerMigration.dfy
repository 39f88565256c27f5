/** The one-time migration of the legacy known-peers file into the store that the session loop starts with. */
module PeerMigration {
  import opened Prelude
  import opened HostTypes
  import opened TrustText
  import Auth = AuthValidator
  import KnownPeersFile
  import SessionLoop

  /** The keys of a map, in whatever order it is traversed. */
  ghost predicate Enumerates(keys: seq<PubKey>, legacy: KnownPeersFile.Peers) {
    && (forall i, j :: 0 <= i < j < |keys| ==> keys[i] != keys[j])
    && (forall k :: k in keys <==> k in legacy)
  }

  function Migrated(keys: seq<PubKey>, legacy: KnownPeersFile.Peers): (peers: seq<KnownPeer>)
    requires forall i :: 0 <= i < |keys| ==> keys[i] in legacy
    ensures |peers| == |keys|
    ensures forall i :: 0 <= i < |keys| ==> peers[i] == KnownPeer(ToBase64(keys[i]), legacy[keys[i]], ALL)
  {
    seq(|keys|, i requires 0 <= i < |keys| => KnownPeer(ToBase64(keys[i]), legacy[keys[i]], ALL))
  }

  /** The migrated store has pairwise distinct keys and holds exactly the legacy ones, with every permission. */
  lemma MigratedStore(keys: seq<PubKey>, legacy: KnownPeersFile.Peers, k: PubKey)
    requires Enumerates(keys, legacy)
    ensures Distinct(Migrated(keys, legacy))
    ensures SessionLoop.Stored(Migrated(keys, legacy), ToBase64(k)) == if k in legacy then Some(Permissions(true, true, true, true)) else None
  {
    var peers := Migrated(keys, legacy);
    hide ToBase64, Migrated;
    forall i, j | 0 <= i < j < |keys| ensures peers[i].key != peers[j].key {
      TextTellsKey(keys[i], keys[j]);
    }
    forall i | 0 <= i < |keys| ensures peers[i].key == ToBase64(k) <==> keys[i] == k {
      TextTellsKey(keys[i], k);
    }
    if k in legacy {
      assert k in keys;
      var i :| 0 <= i < |keys| && keys[i] == k;
      assert peers[i].key == ToBase64(k);
    } else {
      assert k !in keys;
    }
  }

  /**
    In any run after the migration the operator is never asked about a legacy
    peer, any session it gets has every permission, and in TOFU mode each Hello
    that names the mode gets one.
   */
  lemma LegacyPeersKeepAll(setup: SessionLoop.Setup, keys: seq<PubKey>, legacy: KnownPeersFile.Peers, k: PubKey,
                           run: seq<SessionLoop.Arrival>, a: SessionLoop.Arrival)
    requires Enumerates(keys, legacy) && k in legacy && !setup.silentAllow
    requires a.Connection? && a.peer == ToBase64(k)
    ensures var trace := SessionLoop.TraceOn(setup, Migrated(keys, legacy), run, a);
            && !trace.prompted
            && (trace.decision.Some? && trace.decision.value.Grant? ==> trace.decision.value.permissions == Permissions(true, true, true, true))
            && (a.hello.Some? && Auth.Reaches(setup.cfg, a.hello.value.msg, Tofu) ==>
                  trace.decision == Some(SessionLoop.Grant(Permissions(true, true, true, true))))
  {
    hide ToBase64, SessionLoop.TraceOn;
    MigratedStore(keys, legacy, k);
    SessionLoop.PromptedExactly(setup, Migrated(keys, legacy), run, a);
    SessionLoop.GrantCarriesFirstConsent(setup, Migrated(keys, legacy), run, a);
    if a.hello.Some? && Auth.Reaches(setup.cfg, a.hello.value.msg, Tofu) {
      SessionLoop.TofuGrantsFirstConsent(setup, Migrated(keys, legacy), run, a);
    }
  }
}
