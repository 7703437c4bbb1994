/** The forwarding rules as they run: a packet changed step by step, and the region list searched in a
    loop. */
module ForwardingSteps {
  import opened Bytes
  import opened Wrappers
  import opened SeenPackets
  import opened Paths
  import opened Payloads
  import opened Packets
  import opened Forwarding

  method MatchTransportRegion(h: Hashing, regions: seq<Region>, p: Packet) returns (r: Option<Region>)
    ensures r == if p.codes.None? then None else MatchTransport(h, regions, p, p.codes.value.primary)
  {
    if p.codes.None? {
      return None;
    }
    var primary := p.codes.value.primary;
    for i := 0 to |regions|
      invariant MatchTransport(h, regions, p, primary) == MatchTransport(h, regions[i..], p, primary)
    {
      if !regions[i].denyFlood {
        var code := TransportCode(h, regions[i], p);
        if code.None? {
          return None;
        }
        if code.value == primary {
          return Some(regions[i]);
        }
      }
      assert regions[i..][1..] == regions[i + 1..];
    }
    return None;
  }

  /** Counts the route's occurrences of this node, one hash at a time. */
  method DetectsLoop(mode: LoopDetection, path: Path, nodeHash: seq<u8>) returns (loops: bool)
    ensures loops == mode.DetectsLoop(path, nodeHash)
  {
    var threshold := mode.Threshold(path.hashSize);
    if threshold.None? {
      return false;
    }
    var hashes, count := path.Hashes(), 0;
    for i := 0 to |hashes|
      invariant count == Own(hashes[..i], nodeHash)
    {
      assert Front(hashes[..i + 1]) == hashes[..i];
      if HashMatches(hashes[i], nodeHash) {
        count := count + 1;
      }
    }
    assert hashes[..|hashes|] == hashes;
    return count >= threshold.value;
  }

  method PrepareFloodForward(h: Hashing, c: Config, received: Packet, nodeHash: seq<u8>) returns (d: ForwardDecision)
    ensures d == PrepareFlood(h, c, received, nodeHash)
  {
    var packet, captured := received, false;
    if !packet.routeType.IsFlood() {
      return Drop;
    }
    if packet.routeType == Flood && c.regionCapture && packet.path.Normal? && packet.path.path.HopCount() == 0
       && c.defaultRegion.Some? {
      var scoped := ApplyScope(h, c.defaultRegion.value, packet);
      if scoped.None? {
        return Drop;
      }
      packet, captured := scoped.value, true;
    }
    var unscoped: bool;
    if packet.routeType == TransportFlood {
      var region := MatchTransportRegion(h, c.regions, packet);
      if region.None? {
        return Drop;
      }
      unscoped := region.value.id == 0;
    } else if c.wildcardDenied {
      return Drop;
    } else {
      unscoped := true;
    }
    if packet.path.TraceRoute? {
      return Drop;
    }
    var hops := packet.path.path.HopCount();
    var loops := DetectsLoop(c.loopDetection, packet.path.path, nodeHash);
    if loops {
      return Drop;
    }
    if packet.payload.Kind() == Advert && hops >= c.maxAdvertHops {
      return DoNotForward;
    }
    if unscoped && hops >= c.maxUnscopedHops {
      return DoNotForward;
    }
    var signature := SignatureOf(h, packet);
    if signature.None? {
      return Drop;
    }
    var appended := packet.AppendFloodHop(nodeHash);
    if appended.Err? {
      return DoNotForward;
    }
    packet := appended.value;
    return if captured then Capture(packet, signature.value) else Forward(packet, signature.value);
  }

  method PrepareDirectForward(h: Hashing, received: Packet, nodeHash: seq<u8>) returns (d: ForwardDecision)
    ensures d == PrepareDirect(h, received, nodeHash)
  {
    var packet := received;
    if !packet.routeType.IsDirect() || packet.path.TraceRoute? {
      return Drop;
    }
    if packet.path.path.HopCount() == 0 {
      return DoNotForward;
    }
    var signature := SignatureOf(h, packet);
    if signature.None? {
      return Drop;
    }
    if !packet.path.path.FirstHashMatches(nodeHash) {
      return DoNotForward;
    }
    packet := packet.(path := Normal(packet.path.path.RemoveFirstHash()));
    return Forward(packet, signature.value);
  }

  method PrepareTraceForward(h: Hashing, received: Packet, snr: i16, nodeHash: seq<u8>) returns (d: ForwardDecision)
    ensures d == PrepareTrace(h, received, snr, nodeHash)
  {
    var packet := received;
    if packet.routeType != Direct || packet.path.Normal? {
      return Drop;
    }
    var complete := packet.TraceIsComplete();
    if complete.Err? {
      return Drop;
    }
    if complete.value {
      return DoNotForward;
    }
    var mine := packet.TraceNextHopMatches(nodeHash);
    if mine.Err? {
      return Drop;
    }
    if !mine.value {
      return DoNotForward;
    }
    var signature := SignatureOf(h, packet);
    if signature.None? {
      return Drop;
    }
    var appended := packet.AppendTraceSnr(ClampSample(snr));
    if appended.Err? {
      return DoNotForward;
    }
    packet := appended.value;
    return Forward(packet, signature.value);
  }
}
