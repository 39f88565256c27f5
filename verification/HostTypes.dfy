/** Values shared by the host's authentication, consent gate and input task. */
module HostTypes {
  import opened Prelude

  datatype Permissions = Permissions(input: bool, clipboard: bool, fileTransfer: bool, audio: bool)

  const ALL := Permissions(true, true, true, true)

  datatype AuthMethod = Tofu | Pin | Ephemeral

  datatype RejectCode =
    | Unspecified | ProtocolVersionMismatch | PinRequired | EphemeralRequired
    | AuthFailed | AuthLockout | ConsentDenied

  /** The part of a first message that authentication looks at; anything but a Hello is `OtherMessage`. */
  datatype FirstMessage =
    | Hello(version: nat, authMethod: AuthMethod, payload: seq<byte>)
    | OtherMessage

  /** What decoding a payload as UTF-8 and verifying it against the stored hash say. */
  datatype PinCheck = NotUtf8 | Wrong | Right

  type u8 = x: int | 0 <= x < 256

  datatype Config = Config(mode: AuthMethod, lifetimeSeconds: nat, defaults: Permissions,
                           maxPinAttempts: u8, lockoutSeconds: nat, checkPin: seq<byte> -> PinCheck)

  /** Clock readings are in nanoseconds. */
  const SECOND := 1_000_000_000

  datatype KnownPeer = KnownPeer(key: string, name: string, permissions: Permissions)

  /** Index of the first entry for a key, or the number of entries. */
  function IndexOf(peers: seq<KnownPeer>, key: string): (i: nat)
    ensures i <= |peers|
    ensures i < |peers| ==> peers[i].key == key
    ensures forall k :: 0 <= k < i ==> peers[k].key != key
  {
    if peers == [] || peers[0].key == key then 0 else 1 + IndexOf(peers[1..], key)
  }

  predicate IsKnown(peers: seq<KnownPeer>, key: string) {
    IndexOf(peers, key) < |peers|
  }

  function PermissionsOf(peers: seq<KnownPeer>, key: string, default: Permissions): Permissions {
    var i := IndexOf(peers, key);
    if i < |peers| then peers[i].permissions else default
  }

  ghost predicate Distinct(peers: seq<KnownPeer>) {
    forall i, j :: 0 <= i < j < |peers| ==> peers[i].key != peers[j].key
  }

  /** What an accepted consent does to the store: rewrite the first entry for the key, or append one. */
  function Recorded(peers: seq<KnownPeer>, key: string, permissions: Permissions, name: string): seq<KnownPeer> {
    var i, shown := IndexOf(peers, key), if name == "" then key else name;
    if i < |peers| then
      peers[i := KnownPeer(key, if shown == "" then peers[i].name else shown, permissions)]
    else peers + [KnownPeer(key, shown, permissions)]
  }

  /** The store of known peers, shared by the consent gate and the validator. */
  class PeerStore {
    var peers: seq<KnownPeer>

    constructor (peers: seq<KnownPeer>)
      ensures this.peers == peers
    {
      this.peers := peers;
    }

    method Find(key: string) returns (i: nat)
      ensures i == IndexOf(peers, key)
    {
      i := 0;
      while i < |peers| && peers[i].key != key
        invariant i <= |peers|
        invariant forall k :: 0 <= k < i ==> peers[k].key != key
      {
        i := i + 1;
      }
    }

    method Record(key: string, permissions: Permissions, name: string)
      modifies this
      ensures peers == Recorded(old(peers), key, permissions, name)
      ensures var i, shown := IndexOf(old(peers), key), if name == "" then key else name;
              && |peers| == (if i < |old(peers)| then |old(peers)| else |old(peers)| + 1)
              && (forall k :: 0 <= k < |old(peers)| && k != i ==> peers[k] == old(peers[k]))
              && peers[i].key == key && peers[i].permissions == permissions
              && (shown != "" ==> peers[i].name == shown)
    {
      var shown := name;
      if name == "" {
        shown := key;
      }
      var i := Find(key);
      if i < |peers| {
        var entry := peers[i].(permissions := permissions);
        if shown != "" {
          entry := entry.(name := shown);
        }
        peers := peers[i := entry];
      } else {
        peers := peers + [KnownPeer(key, shown, permissions)];
      }
    }
  }
}
