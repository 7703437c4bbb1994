/** Exactly which packets a repeater passes on: the rules said once more, as conditions on the packet that
    came and on the configuration. */
module Allowed {
  import opened Bytes
  import opened Wrappers
  import opened Paths
  import opened Payloads
  import opened Packets
  import opened Forwarding

  /** The region is open to floods and the packet carries its code. */
  predicate Admits(h: Hashing, region: Region, p: Packet, primary: u16) {
    !region.denyFlood && TransportCode(h, region, p) == Some(primary)
  }

  /** The search goes on past a region that is closed or has another code, not past an unusable key. */
  predicate PassedOver(h: Hashing, region: Region, p: Packet, primary: u16) {
    region.denyFlood || (TransportCode(h, region, p).Some? && TransportCode(h, region, p).value != primary)
  }

  ghost predicate FirstAdmitting(h: Hashing, regions: seq<Region>, p: Packet, primary: u16, i: nat) {
    i < |regions| && Admits(h, regions[i], p, primary)
    && forall j :: 0 <= j < i ==> PassedOver(h, regions[j], p, primary)
  }

  /** The region found is the first that admits the packet. */
  lemma {:induction false} MatchIsFirst(h: Hashing, regions: seq<Region>, p: Packet, primary: u16, region: Region)
    ensures MatchTransport(h, regions, p, primary) == Some(region) <==>
            exists i: nat :: FirstAdmitting(h, regions, p, primary, i) && regions[i] == region
  {
    if regions == [] {
    } else {
      MatchIsFirst(h, regions[1..], p, primary, region);
      if FirstAdmitting(h, regions, p, primary, 0) && regions[0] == region {
        assert MatchTransport(h, regions, p, primary) == Some(region);
      }
      forall i: nat | FirstAdmitting(h, regions[1..], p, primary, i) && PassedOver(h, regions[0], p, primary)
        ensures FirstAdmitting(h, regions, p, primary, i + 1) && regions[i + 1] == regions[1..][i]
      {
        forall j | 0 <= j < i + 1
          ensures PassedOver(h, regions[j], p, primary)
        {
          assert j > 0 ==> regions[j] == regions[1..][j - 1];
        }
      }
      forall i: nat | i > 0 && FirstAdmitting(h, regions, p, primary, i)
        ensures FirstAdmitting(h, regions[1..], p, primary, i - 1) && PassedOver(h, regions[0], p, primary)
      {
        forall j | 0 <= j < i - 1
          ensures PassedOver(h, regions[1..][j], p, primary)
        {
          assert regions[1..][j] == regions[j + 1];
        }
      }
    }
  }

  /** A region with a usable key gives a packet the digest of its kind and payload as code, moved off the two
      codes that are reserved; other regions give none. */
  lemma CodeOf(h: Hashing, region: Region, p: Packet, q: Packet)
    requires p.payload == q.payload
    ensures TransportCode(h, region, p) == TransportCode(h, region, q)
    ensures TransportCode(h, region, p).Some? <==> region.keyed && p.payload.Encode().Ok?
    ensures TransportCode(h, region, p).Some? ==>
              var (code, digest) := (TransportCode(h, region, p).value,
                                     h.code(region, p.payload.Kind().Nibble(), p.payload.Encode().value));
              && 0x0001 <= code <= 0xFFFE && (0x0001 <= digest <= 0xFFFE ==> code == digest)
              && (digest == 0x0000 ==> code == 0x0001) && (digest == 0xFFFF ==> code == 0xFFFE)
  {
  }

  /** A flood leaves a repeater only in a scope that admits it and below the hop limits: adverts below
      theirs, unscoped floods below theirs and not where the wildcard is closed, scoped ones with the usable
      code of an open region. */
  lemma FloodOnlyWhereAllowed(h: Hashing, c: Config, p: Packet, nodeHash: seq<u8>)
    requires OnWire(p) && PrepareFlood(h, c, p, nodeHash).Sends()
    ensures var (q, hops) := (PrepareFlood(h, c, p, nodeHash).packet, p.path.path.HopCount());
            && q.routeType.IsFlood() && p.routeType.IsFlood() && q.payload == p.payload
            && (p.payload.Kind() == Advert ==> hops < c.maxAdvertHops)
            && (q.routeType == Flood ==> !c.wildcardDenied && hops < c.maxUnscopedHops)
            && (q.routeType == TransportFlood ==>
                  && q.codes.Some? && 0 < q.codes.value.primary < 0xFFFF
                  && exists region :: region in c.regions && Admits(h, region, q, q.codes.value.primary)
                                      && (region.id == 0 ==> hops < c.maxUnscopedHops))
  {
    WireParts(p);
    var q := PrepareFlood(h, c, p, nodeHash).packet;
    var (scoped, _) := Captured(h, c, p).value;
    assert scoped.path == p.path && scoped.payload == p.payload
           && q.routeType == scoped.routeType && q.codes == scoped.codes;
    if q.routeType == TransportFlood {
      var region := MatchTransport(h, c.regions, scoped, scoped.codes.value.primary).value;
      MatchIsFirst(h, c.regions, scoped, scoped.codes.value.primary, region);
      CodeOf(h, region, scoped, q);
      assert region in c.regions && Admits(h, region, q, q.codes.value.primary);
    }
  }

  /** A captured flood came unscoped with no hops behind it, and leaves in the default region's scope. */
  lemma CaptureIsFirstHop(h: Hashing, c: Config, p: Packet, nodeHash: seq<u8>)
    requires OnWire(p) && PrepareFlood(h, c, p, nodeHash).Capture?
    ensures var q := PrepareFlood(h, c, p, nodeHash).packet;
            && c.regionCapture && c.defaultRegion.Some?
            && p.routeType == Flood && p.path.path.HopCount() == 0 && q.path.path.HopCount() == 1
            && (if c.defaultRegion.value.id == 0 then q.routeType == Flood
                else q.routeType == TransportFlood
                     && q.codes == Some(TransportCodes(TransportCode(h, c.defaultRegion.value, p).value, 0)))
  {
    FloodHop(h, c, p, nodeHash);
  }

  /** A direct packet is passed on exactly by the node its next hop names, and leaves without that hop. */
  lemma DirectExactly(h: Hashing, p: Packet, nodeHash: seq<u8>)
    requires OnWire(p)
    ensures PrepareDirect(h, p, nodeHash).Sends() <==>
            && p.routeType.IsDirect() && p.path.Normal? && p.path.path.HopCount() > 0
            && HashMatches(p.path.path.Hashes()[0], nodeHash)
    ensures PrepareDirect(h, p, nodeHash).Sends() ==>
              var q := PrepareDirect(h, p, nodeHash).packet;
              q.path.Normal? && q.path.path.Hashes() == p.path.path.Hashes()[1..] && q.payload == p.payload
              && q.routeType == p.routeType && q.codes == p.codes
  {
    WireParts(p);
    if p.path.Normal? && p.path.path.HopCount() > 0 {
      RemoveHashes(p.path.path);
    }
  }

  /** Region capture applies: an unscoped flood fresh from its origin, at a node with a default region. */
  predicate Captures(c: Config, p: Packet) {
    p.routeType == Flood && c.regionCapture && c.defaultRegion.Some? && p.path.Normal? && p.path.path.HopCount() == 0
  }

  /** The packet as it stands once capture, if it applies, has put it into the default region's scope. */
  predicate InScope(h: Hashing, c: Config, p: Packet, s: Packet) {
    if !Captures(c, p) then s == p
    else if c.defaultRegion.value.id == 0 then s == p.(codes := None)
    else
      var code := TransportCode(h, c.defaultRegion.value, p);
      code.Some? && s == p.(routeType := TransportFlood, codes := Some(TransportCodes(code.value, 0)))
  }

  /** The scope is open here: the wildcard for a plain flood, else the first admitting region. */
  ghost predicate Admitted(h: Hashing, c: Config, s: Packet, unscoped: bool) {
    if s.routeType == Flood then !c.wildcardDenied && unscoped
    else s.codes.Some? && exists i: nat ::
           FirstAdmitting(h, c.regions, s, s.codes.value.primary, i) && unscoped == (c.regions[i].id == 0)
  }

  /** The first bytes of the node's hash stand at this place, counted in bytes. */
  predicate NamesAt(bytes: seq<u8>, at: int, size: nat, nodeHash: seq<u8>) {
    0 <= at && at + size <= |bytes| && size <= |nodeHash| && bytes[at..at + size] == nodeHash[..size]
  }

  /** The hops of a route that carry the node's own prefix. */
  function OwnHops(path: Path, nodeHash: seq<u8>): set<nat> {
    set i: nat | i < |path.bytes| && NamesAt(path.bytes, i * path.hashSize.Size(), path.hashSize.Size(), nodeHash)
  }

  /** Loop detection lets a route with that many own prefixes of that many bytes pass. */
  predicate Unlooped(mode: LoopDetection, size: nat, own: nat) {
    match mode
    case Off => true
    case Minimal => own < if size == 1 then 4 else if size == 2 then 2 else 1
    case Moderate => own < if size == 1 then 2 else 1
    case Strict => own == 0
  }

  /** No limit is reached: hops of adverts and of unscoped floods, own prefixes, and the size of a route. */
  predicate WithinLimits(c: Config, p: Packet, nodeHash: seq<u8>, unscoped: bool)
    requires p.path.Normal?
  {
    var path := p.path.path;
    && (unscoped ==> path.HopCount() < c.maxUnscopedHops)
    && (p.payload.Kind() == Advert ==> path.HopCount() < c.maxAdvertHops)
    && Unlooped(c.loopDetection, path.hashSize.Size(), |OwnHops(path, nodeHash)|)
    && path.hashSize.Size() <= |nodeHash| && |path.bytes| + path.hashSize.Size() <= 64 && path.HopCount() < 63
  }

  lemma ShiftHop(i: nat, size: nat, n: nat)
    requires 1 <= size <= 3
    ensures (i + 1) * size == i * size + size
    ensures i < n / size <==> i * size + size <= n
  {
    if size == 1 {} else if size == 2 {} else {}
  }

  /** Hop `i` of a route is its `i`-th stretch of bytes. */
  lemma {:induction false} ChunkAt(bytes: seq<u8>, size: nat, i: nat)
    requires 1 <= size <= 3 && i < |bytes| / size
    ensures i * size + size <= |bytes| && Chunks(bytes, size)[i] == bytes[i * size..i * size + size]
    decreases i
  {
    hide Chunks;
    ShiftHop(i, size, |bytes|);
    ChunkNext(bytes, size);
    if i == 0 {
      assert 0 * size == 0;
    } else {
      var before := (i - 1) * size;
      ShiftHop(i - 1, size, |bytes|);
      ChunkAt(bytes[size..], size, i - 1);
      TailSlice(bytes, size, before, before + size);
    }
  }

  lemma ChunkNext(bytes: seq<u8>, size: nat)
    requires 1 <= size <= 3 && size <= |bytes|
    ensures Chunks(bytes, size) == [bytes[..size]] + Chunks(bytes[size..], size)
    ensures |bytes[size..]| / size == |bytes| / size - 1
  {
    DivStep(|bytes| - size, size);
  }

  lemma {:induction false} OwnCounts(hashes: seq<seq<u8>>, nodeHash: seq<u8>)
    ensures Own(hashes, nodeHash) == |(set i: nat | i < |hashes| && HashMatches(hashes[i], nodeHash))|
  {
    hide HashMatches;
    var all := set i: nat | i < |hashes| && HashMatches(hashes[i], nodeHash);
    if hashes == [] {
      assert all == {};
    } else {
      var n, front := |hashes| - 1, hashes[..|hashes| - 1];
      var before := set i: nat | i < |front| && HashMatches(front[i], nodeHash);
      OwnCounts(front, nodeHash);
      if HashMatches(hashes[n], nodeHash) {
        assert all == before + {n};
      } else {
        assert all == before;
      }
    }
  }

  /** Counting hashes that match is counting hops that carry the own prefix. */
  lemma OwnIsOwnHops(path: Path, nodeHash: seq<u8>)
    ensures Own(path.Hashes(), nodeHash) == |OwnHops(path, nodeHash)|
  {
    var (hashes, size) := (path.Hashes(), path.hashSize.Size());
    OwnCounts(hashes, nodeHash);
    forall i: nat
      ensures i < |hashes| && HashMatches(hashes[i], nodeHash) <==> i in OwnHops(path, nodeHash)
    {
      ShiftHop(i, size, |path.bytes|);
      if i < |hashes| {
        ChunkAt(path.bytes, size, i);
      }
    }
    assert OwnHops(path, nodeHash) == set i: nat | i < |hashes| && HashMatches(hashes[i], nodeHash);
  }

  lemma UnloopedExactly(mode: LoopDetection, path: Path, nodeHash: seq<u8>)
    ensures mode.DetectsLoop(path, nodeHash) <==>
            !Unlooped(mode, path.hashSize.Size(), |OwnHops(path, nodeHash)|)
  {
    hide Own, OwnHops;
    OwnIsOwnHops(path, nodeHash);
  }

  /** Once the scope is known, only the limits decide. */
  lemma OnwardExactly(h: Hashing, c: Config, s: Packet, captured: bool, unscoped: bool, nodeHash: seq<u8>)
    requires s.path.Normal? && SignatureOf(h, s).Some?
    ensures FloodOnward(h, c, s, captured, unscoped, nodeHash).Sends() <==> WithinLimits(c, s, nodeHash, unscoped)
  {
    hide LoopDetection.DetectsLoop, Unlooped, OwnHops;
    UnloopedExactly(c.loopDetection, s.path.path, nodeHash);
  }

  lemma ScopedSigns(h: Hashing, c: Config, p: Packet, s: Packet)
    requires OnWire(p) && p.path.Normal? && InScope(h, c, p, s)
    ensures SignatureOf(h, s).Some? && s.path == p.path && s.payload == p.payload
    ensures p.routeType.IsFlood() ==> s.routeType.IsFlood()
    ensures s.routeType == TransportFlood ==> s.codes.Some?
  {
    hide Path.Validate;
    WireParts(p);
  }

  lemma CapturedIs(h: Hashing, c: Config, p: Packet, s: Packet)
    ensures InScope(h, c, p, s) <==> Captured(h, c, p).Some? && Captured(h, c, p).value.0 == s
  {
    assert p.routeType == Flood ==> p.(routeType := Flood, codes := None) == p.(codes := None);
  }

  lemma MatchedIs(h: Hashing, c: Config, s: Packet, unscoped: bool)
    requires s.routeType.IsFlood()
    ensures MatchFlood(h, c, s) == Some(unscoped) <==> Admitted(h, c, s, unscoped)
  {
    if s.routeType == TransportFlood && s.codes.Some? {
      var primary := s.codes.value.primary;
      var found := MatchTransport(h, c.regions, s, primary);
      if found.Some? {
        MatchIsFirst(h, c.regions, s, primary, found.value);
      }
      forall i: nat | FirstAdmitting(h, c.regions, s, primary, i)
        ensures found == Some(c.regions[i])
      {
        MatchIsFirst(h, c.regions, s, primary, c.regions[i]);
      }
    }
  }

  /** A flood, plain, scoped or captured, is passed on exactly when the scope it is in or is put into is
      open here and no limit is reached. */
  lemma FloodExactly(h: Hashing, c: Config, p: Packet, nodeHash: seq<u8>)
    requires OnWire(p)
    ensures PrepareFlood(h, c, p, nodeHash).Sends() <==>
              && p.routeType.IsFlood() && p.path.Normal?
              && exists s, unscoped ::
                   InScope(h, c, p, s) && Admitted(h, c, s, unscoped) && WithinLimits(c, p, nodeHash, unscoped)
  {
    hide OnWire, FloodOnward, Captured, MatchFlood, InScope, Admitted, WithinLimits;
    if p.routeType.IsFlood() && p.path.Normal? {
      forall s, unscoped | InScope(h, c, p, s) && Admitted(h, c, s, unscoped)
        ensures Captured(h, c, p).Some? && Captured(h, c, p).value.0 == s && MatchFlood(h, c, s) == Some(unscoped)
        ensures WithinLimits(c, p, nodeHash, unscoped) ==> PrepareFlood(h, c, p, nodeHash).Sends()
      {
        FloodSends(h, c, p, s, unscoped, nodeHash);
      }
      if PrepareFlood(h, c, p, nodeHash).Sends() {
        var s, unscoped := FloodSent(h, c, p, nodeHash);
      }
    } else if p.routeType.IsFlood() {
      TraceIsNoFlood(h, c, p, nodeHash);
    }
  }

  lemma TraceIsNoFlood(h: Hashing, c: Config, p: Packet, nodeHash: seq<u8>)
    requires p.path.TraceRoute?
    ensures !PrepareFlood(h, c, p, nodeHash).Sends()
  {
  }

  lemma FloodSends(h: Hashing, c: Config, p: Packet, s: Packet, unscoped: bool, nodeHash: seq<u8>)
    requires OnWire(p) && p.routeType.IsFlood() && p.path.Normal? && InScope(h, c, p, s) && Admitted(h, c, s, unscoped)
    ensures Captured(h, c, p).Some? && Captured(h, c, p).value.0 == s && MatchFlood(h, c, s) == Some(unscoped)
    ensures PrepareFlood(h, c, p, nodeHash).Sends() <==> WithinLimits(c, p, nodeHash, unscoped)
  {
    hide OnWire, FloodOnward, Captured, MatchFlood, InScope, Admitted;
    ScopedSigns(h, c, p, s);
    CapturedIs(h, c, p, s);
    MatchedIs(h, c, s, unscoped);
    OnwardExactly(h, c, s, Captured(h, c, p).value.1, unscoped, nodeHash);
  }

  lemma FloodSent(h: Hashing, c: Config, p: Packet, nodeHash: seq<u8>) returns (s: Packet, unscoped: bool)
    requires OnWire(p) && p.path.Normal? && PrepareFlood(h, c, p, nodeHash).Sends()
    ensures InScope(h, c, p, s) && Admitted(h, c, s, unscoped) && WithinLimits(c, p, nodeHash, unscoped)
  {
    hide OnWire, FloodOnward, Captured, MatchFlood, InScope, Admitted;
    s := Captured(h, c, p).value.0;
    CapturedIs(h, c, p, s);
    ScopedSigns(h, c, p, s);
    unscoped := MatchFlood(h, c, s).value;
    MatchedIs(h, c, s, unscoped);
    OnwardExactly(h, c, s, Captured(h, c, p).value.1, unscoped, nodeHash);
  }

  /** For a plain flood that is not captured: the wildcard is open and no limit is reached. */
  lemma PlainFloodExactly(h: Hashing, c: Config, p: Packet, nodeHash: seq<u8>)
    requires OnWire(p) && p.routeType == Flood && p.path.Normal? && !Captures(c, p)
    ensures PrepareFlood(h, c, p, nodeHash).Sends() <==> !c.wildcardDenied && WithinLimits(c, p, nodeHash, true)
  {
    hide OnWire, WithinLimits, PrepareFlood;
    FloodExactly(h, c, p, nodeHash);
    assert InScope(h, c, p, p) && (!c.wildcardDenied ==> Admitted(h, c, p, true));
  }
}
