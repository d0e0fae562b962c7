/**
 Publishing and accepting presence beacons (crates/discovery/src/beacon.rs): whatever an
 agent publishes, every other agent accepts.
 */
module BeaconAgent {
  import opened Bytes
  import opened M = Multiaddr
  import B = Beacon
  import K = PublicKey

  // ---- addresses ----

  /** `is_supported_addr`. */
  predicate Supported(a: Addr) {
    !IsWildcardHost(a) && a != [] && (IsTransport(a) || IsRelayCircuit(a))
  }

  /** `normalize_addr`: drops the peer's own suffix, refuses another peer's. */
  function NormalizeAddr(peer: PeerId, a: Addr): Option<Addr> {
    if a != [] && a[|a| - 1].P2p? then
      if a[|a| - 1].peer == peer && Supported(a[..|a| - 1]) then Some(a[..|a| - 1]) else None
    else if Supported(a) then Some(a)
    else None
  }

  /** `normalize_addrs`: undecodable and unusable addresses are skipped. */
  function NormalizeAll(from: PeerId, raw: seq<seq<Byte>>, done: seq<Addr>, cap: nat): seq<Addr>
    decreases |raw|
  {
    if raw == [] then done
    else if FromBytes(raw[0]).Err? then NormalizeAll(from, raw[1..], done, cap)
    else
      var a := NormalizeAddr(from, FromBytes(raw[0]).value);
      if a.None? || a.value in done then NormalizeAll(from, raw[1..], done, cap)
      else if |done| + 1 == cap then done + [a.value]
      else NormalizeAll(from, raw[1..], done + [a.value], cap)
  }

  // ---- publishing ----

  /** An agent that can be constructed. */
  datatype Publisher = Publisher(key: K.PublicKey, addrs: seq<Addr>, maxAnnounced: nat)

  predicate ValidPublisher(p: Publisher) {
    && K.ValidKey(p.key) && |K.Encode(p.key)| <= B.MAX_KEY
    && 0 < p.maxAnnounced <= B.MAX_ADDRS
    && forall i | 0 <= i < |p.addrs| :: ValidAddr(p.addrs[i])
  }

  function Suffixed(a: Addr, peer: PeerId): Addr {
    a + [P2p(peer)]
  }

  lemma SuffixedValid(a: Addr, peer: PeerId)
    requires ValidAddr(a) && ValidPeer(peer)
    ensures ValidAddr(Suffixed(a, peer))
  {
  }

  function WireOne(a: Addr, peer: PeerId): seq<Byte>
    requires ValidAddr(a) && ValidPeer(peer)
  {
    SuffixedValid(a, peer);
    ToBytes(Suffixed(a, peer))
  }

  predicate AllValid(s: seq<Addr>) {
    forall i | 0 <= i < |s| :: ValidAddr(s[i])
  }

  /** The byte forms of the announced addresses. */
  function Wire(announced: seq<Addr>, peer: PeerId): (r: seq<seq<Byte>>)
    requires AllValid(announced) && ValidPeer(peer)
    ensures |r| == |announced| && forall i | 0 <= i < |r| :: r[i] == WireOne(announced[i], peer)
  {
    seq(|announced|, i requires 0 <= i < |announced| => WireOne(announced[i], peer))
  }

  /** `build_beacon`: what is announced, from the addresses not yet looked at. */
  function Build(addrs: seq<Addr>, announced: seq<Addr>, key: seq<Byte>, peer: PeerId, cap: nat): (r: seq<Addr>)
    requires AllValid(addrs) && AllValid(announced) && ValidPeer(peer)
    ensures AllValid(r)
    decreases |addrs|
  {
    if addrs == [] then announced
    else
      var a, rest := addrs[0], addrs[1..];
      if !Supported(a) || |WireOne(a, peer)| > B.MAX_ADDR || WireOne(a, peer) in Wire(announced, peer)
      then Build(rest, announced, key, peer, cap)
      else
        var next := announced + [a];
        if B.EncodedLen(B.Beacon(key, Wire(next, peer))) > B.MAX_BEACON then announced
        else if |next| == cap then next
        else Build(rest, next, key, peer, cap)
  }

  // ---- what is announced ----

  /** Two addresses have the same byte form only when they are the same. */
  lemma WireInjective(a: Addr, b: Addr, peer: PeerId)
    requires ValidAddr(a) && ValidAddr(b) && ValidPeer(peer) && WireOne(a, peer) == WireOne(b, peer)
    ensures a == b
  {
    hide ToBytes, FromBytes;
    SuffixedValid(a, peer);
    SuffixedValid(b, peer);
    FromToBytes(Suffixed(a, peer));
    FromToBytes(Suffixed(b, peer));
    assert Suffixed(a, peer)[..|a|] == a && Suffixed(b, peer)[..|b|] == b;
  }

  predicate Distinct(s: seq<Addr>) {
    forall i, j | 0 <= i < j < |s| :: s[i] != s[j]
  }

  /** Supported, distinct, short enough, and the beacon within its size. */
  predicate Announceable(announced: seq<Addr>, key: seq<Byte>, peer: PeerId, cap: nat)
    requires AllValid(announced) && ValidPeer(peer)
  {
    && Distinct(announced) && |announced| <= cap
    && (forall i | 0 <= i < |announced| :: Supported(announced[i]) && |WireOne(announced[i], peer)| <= B.MAX_ADDR)
    && B.EncodedLen(B.Beacon(key, Wire(announced, peer))) <= B.MAX_BEACON
  }

  lemma NewIsDistinct(announced: seq<Addr>, a: Addr, peer: PeerId)
    requires AllValid(announced) && ValidAddr(a) && ValidPeer(peer) && WireOne(a, peer) !in Wire(announced, peer)
    ensures a !in announced
  {
    hide WireOne, Wire;
    assert forall i | 0 <= i < |announced| :: Wire(announced, peer)[i] == WireOne(announced[i], peer);
  }

  lemma {:induction false} BuildAnnounceable(addrs: seq<Addr>, announced: seq<Addr>, key: seq<Byte>, peer: PeerId, cap: nat)
    requires AllValid(addrs) && AllValid(announced) && ValidPeer(peer)
    requires Announceable(announced, key, peer, cap) && |announced| < cap
    ensures Announceable(Build(addrs, announced, key, peer, cap), key, peer, cap)
    decreases |addrs|
  {
    hide WireOne, Wire, Supported, B.EncodedLen;
    if addrs != [] {
      var a, rest := addrs[0], addrs[1..];
      if !Supported(a) || |WireOne(a, peer)| > B.MAX_ADDR || WireOne(a, peer) in Wire(announced, peer) {
        BuildAnnounceable(rest, announced, key, peer, cap);
      } else {
        var next := announced + [a];
        NewIsDistinct(announced, a, peer);
        if B.EncodedLen(B.Beacon(key, Wire(next, peer))) <= B.MAX_BEACON && |next| != cap {
          BuildAnnounceable(rest, next, key, peer, cap);
        }
      }
    }
  }

  // ---- accepting ----

  datatype Outcome = Ignored | Violation | Observation(peer: PeerId, addrs: seq<Addr>)

  /** `handle_beacon` of an agent with its own id and cap. */
  function HandleBeacon(local: PeerId, cap: nat, from: PeerId, payload: seq<Byte>, signed: bool, digest: seq<Byte> -> seq<Byte>)
    : Outcome
  {
    if from == local then Ignored
    else if !signed then Violation
    else
      match B.Decode(payload)
      case Err(_) => Violation
      case Ok(beacon) =>
        match K.Decode(beacon.publicKey)
        case Err(_) => Violation
        case Ok(key) =>
          if K.PeerOf(K.Encode(key), digest) != from then Violation
          else Observation(from, NormalizeAll(from, beacon.addrs, [], cap))
  }

  lemma NormalizeSuffixed(a: Addr, peer: PeerId)
    requires ValidAddr(a) && ValidPeer(peer) && Supported(a)
    ensures FromBytes(WireOne(a, peer)) == Ok(Suffixed(a, peer))
    ensures NormalizeAddr(peer, Suffixed(a, peer)) == Some(a)
  {
    hide ToBytes, FromBytes, Supported;
    SuffixedValid(a, peer);
    FromToBytes(Suffixed(a, peer));
    assert Suffixed(a, peer)[..|a|] == a;
  }

  /** The receiver recovers the announced addresses in order, up to its own cap. */
  lemma {:induction false} NormalizeWire(announced: seq<Addr>, peer: PeerId, k: nat, cap: nat)
    requires AllValid(announced) && ValidPeer(peer) && Distinct(announced) && k <= |announced| && k < cap
    requires forall i | 0 <= i < |announced| :: Supported(announced[i])
    ensures NormalizeAll(peer, Wire(announced, peer)[k..], announced[..k], cap) == announced[..Min(cap, |announced|)]
    decreases |announced| - k
  {
    hide WireOne, Wire, Supported, NormalizeAddr, FromBytes;
    var raw := Wire(announced, peer)[k..];
    if k < |announced| {
      var a := announced[k];
      NormalizeSuffixed(a, peer);
      assert raw[0] == WireOne(a, peer) && raw[1..] == Wire(announced, peer)[k + 1..];
      assert a !in announced[..k];
      assert announced[..k] + [a] == announced[..k + 1];
      if k + 1 < cap {
        NormalizeWire(announced, peer, k + 1, cap);
      }
    } else {
      assert announced[..k] == announced;
    }
  }

  function PeerOf(p: Publisher, digest: seq<Byte> -> seq<Byte>): PeerId {
    K.PeerOf(K.Encode(p.key), digest)
  }

  function Announced(p: Publisher, digest: seq<Byte> -> seq<Byte>): (r: seq<Addr>)
    requires ValidPublisher(p) && |digest(K.Encode(p.key))| == 32
    ensures AllValid(r)
  {
    K.PeerOfValid(K.Encode(p.key), digest);
    Build(p.addrs, [], K.Encode(p.key), PeerOf(p, digest), p.maxAnnounced)
  }

  function Published(p: Publisher, digest: seq<Byte> -> seq<Byte>): B.Beacon
    requires ValidPublisher(p) && |digest(K.Encode(p.key))| == 32
  {
    K.PeerOfValid(K.Encode(p.key), digest);
    B.Beacon(K.Encode(p.key), Wire(Announced(p, digest), PeerOf(p, digest)))
  }

  lemma EmptyAnnounceable(key: seq<Byte>, peer: PeerId, cap: nat)
    requires ValidPeer(peer) && |key| <= B.MAX_KEY
    ensures Announceable([], key, peer, cap)
  {
    B.V.LenMonotone(|key|, B.MAX_KEY);
    assert B.V.Len(63) == 1;
    assert B.V.Len(B.MAX_KEY) == 2;
  }

  lemma PublishedFits(p: Publisher, digest: seq<Byte> -> seq<Byte>)
    requires ValidPublisher(p) && |digest(K.Encode(p.key))| == 32
    ensures K.PeerOf(K.Encode(p.key), digest) == PeerOf(p, digest) && ValidPeer(PeerOf(p, digest))
    ensures Announceable(Announced(p, digest), K.Encode(p.key), PeerOf(p, digest), p.maxAnnounced)
    ensures B.Decode(B.Encode(Published(p, digest))) == Ok(Published(p, digest))
  {
    hide Build, WireOne, Wire, Supported, B.EncodedLen, B.Encode, B.Decode;
    var key, peer := K.Encode(p.key), PeerOf(p, digest);
    K.PeerOfValid(key, digest);
    EmptyAnnounceable(key, peer, p.maxAnnounced);
    BuildAnnounceable(p.addrs, [], key, peer, p.maxAnnounced);
    B.EncodedLenExact(Published(p, digest));
    B.DecodeEncode(Published(p, digest));
  }

  /**
   Every beacon an agent publishes is accepted by any other agent without a violation, and
   the observation lists exactly the announced addresses in order, up to the receiver's cap.
   */
  lemma PublishedIsAccepted(p: Publisher, local: PeerId, cap: nat, digest: seq<Byte> -> seq<Byte>)
    requires ValidPublisher(p) && |digest(K.Encode(p.key))| == 32 && cap > 0
    requires local != PeerOf(p, digest)
    ensures var announced := Announced(p, digest);
            HandleBeacon(local, cap, PeerOf(p, digest), B.Encode(Published(p, digest)), true, digest)
            == Observation(PeerOf(p, digest), announced[..Min(cap, |announced|)])
  {
    hide Build, WireOne, Wire, Supported, B.EncodedLen, B.Encode, B.Decode, K.Decode, K.Encode, NormalizeAll;
    PublishedFits(p, digest);
    K.DecodeEncode(p.key);
    var announced, peer := Announced(p, digest), PeerOf(p, digest);
    NormalizeWire(announced, peer, 0, cap);
    assert Wire(announced, peer)[0..] == Wire(announced, peer) && announced[..0] == [];
  }

  // ---- which addresses are announced ----

  /** The distinct supported addresses of usable size, in order, after those in `done`. */
  function Eligible(addrs: seq<Addr>, done: seq<Addr>, peer: PeerId): (r: seq<Addr>)
    requires AllValid(addrs) && AllValid(done) && ValidPeer(peer)
    ensures done <= r && AllValid(r)
    decreases |addrs|
  {
    if addrs == [] then done
    else if Supported(addrs[0]) && |WireOne(addrs[0], peer)| <= B.MAX_ADDR && addrs[0] !in done
    then Eligible(addrs[1..], done + [addrs[0]], peer)
    else Eligible(addrs[1..], done, peer)
  }

  /** The beacon could not take one more eligible address. */
  predicate Full(announced: seq<Addr>, eligible: seq<Addr>, key: seq<Byte>, peer: PeerId, cap: nat)
    requires AllValid(announced) && AllValid(eligible) && ValidPeer(peer) && announced <= eligible
  {
    || announced == eligible
    || |announced| == cap
    || B.EncodedLen(B.Beacon(key, Wire(eligible[..|announced| + 1], peer))) > B.MAX_BEACON
  }

  lemma InWire(announced: seq<Addr>, a: Addr, peer: PeerId)
    requires AllValid(announced) && ValidAddr(a) && ValidPeer(peer)
    ensures WireOne(a, peer) in Wire(announced, peer) <==> a in announced
  {
    hide WireOne, Wire;
    if WireOne(a, peer) in Wire(announced, peer) {
      var i :| 0 <= i < |announced| && Wire(announced, peer)[i] == WireOne(a, peer);
      WireInjective(announced[i], a, peer);
    } else {
      NewIsDistinct(announced, a, peer);
    }
  }

  /** What is announced is the longest front of the eligible addresses that the cap and the size allow. */
  lemma {:induction false} BuildIsMaximal(addrs: seq<Addr>, announced: seq<Addr>, key: seq<Byte>, peer: PeerId, cap: nat)
    requires AllValid(addrs) && AllValid(announced) && ValidPeer(peer) && |announced| < cap
    ensures Build(addrs, announced, key, peer, cap) <= Eligible(addrs, announced, peer)
    ensures Full(Build(addrs, announced, key, peer, cap), Eligible(addrs, announced, peer), key, peer, cap)
    decreases |addrs|
  {
    hide WireOne, Wire, Supported, B.EncodedLen;
    if addrs != [] {
      var a, rest := addrs[0], addrs[1..];
      InWire(announced, a, peer);
      if !Supported(a) || |WireOne(a, peer)| > B.MAX_ADDR || a in announced {
        BuildIsMaximal(rest, announced, key, peer, cap);
      } else {
        var next := announced + [a];
        var e := Eligible(rest, next, peer);
        assert next <= e && e[..|next|] == next;
        if B.EncodedLen(B.Beacon(key, Wire(next, peer))) <= B.MAX_BEACON && |next| != cap {
          BuildIsMaximal(rest, next, key, peer, cap);
        }
      }
    }
  }

  method NormalizeLoop(from: PeerId, raw: seq<seq<Byte>>, cap: nat) returns (r: seq<Addr>)
    ensures r == NormalizeAll(from, raw, [], cap)
  {
    hide NormalizeAddr, FromBytes;
    r := [];
    var i := 0;
    while i < |raw|
      invariant 0 <= i <= |raw|
      invariant NormalizeAll(from, raw, [], cap) == NormalizeAll(from, raw[i..], r, cap)
    {
      assert raw[i..][1..] == raw[i + 1..];
      var parsed := FromBytesLoop(raw[i]);
      if parsed.Ok? {
        var a := NormalizeAddr(from, parsed.value);
        if a.Some? && a.value !in r {
          r := r + [a.value];
          if |r| == cap {
            return;
          }
        }
      }
      i := i + 1;
    }
    assert raw[i..] == [];
  }

  /** The publishing loop; the last address is taken back when the beacon grows too large. */
  method BuildLoop(addrs: seq<Addr>, key: seq<Byte>, peer: PeerId, cap: nat) returns (announced: seq<Addr>)
    requires AllValid(addrs) && ValidPeer(peer)
    ensures announced == Build(addrs, [], key, peer, cap)
  {
    hide WireOne, Wire, Supported, B.EncodedLen;
    announced := [];
    var i := 0;
    while i < |addrs|
      invariant 0 <= i <= |addrs| && AllValid(announced)
      invariant Build(addrs, [], key, peer, cap) == Build(addrs[i..], announced, key, peer, cap)
    {
      assert addrs[i..][1..] == addrs[i + 1..];
      var a := addrs[i];
      if Supported(a) {
        var bytes := WireOne(a, peer);
        if |bytes| <= B.MAX_ADDR && bytes !in Wire(announced, peer) {
          announced := announced + [a];
          if B.EncodedLen(B.Beacon(key, Wire(announced, peer))) > B.MAX_BEACON {
            announced := announced[..|announced| - 1];
            return;
          }
          if |announced| == cap {
            return;
          }
        }
      }
      i := i + 1;
    }
    assert addrs[i..] == [];
  }
}
