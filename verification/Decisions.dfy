/** Which packets off the wire a repeater passes on, and as what, said over the packet, the configuration
    and the node's hash alone. */
module Decisions {
  import opened Bytes
  import opened Wrappers
  import opened Paths
  import opened Payloads
  import opened Packets
  import opened Forwarding
  import opened Allowed

  /** How many bytes of a node's hash a trace names it by. */
  function NameLength(p: Payload): nat
    requires p.TracePayload?
  {
    match p.hashSize
    case TraceOne => 1
    case TraceTwo => 2
    case TraceFour => 4
  }

  /** It is this node's turn in the trace, and there is room for another sample. */
  predicate TraceTurn(p: Packet, nodeHash: seq<u8>) {
    && p.routeType == Direct && p.path.TraceRoute? && p.payload.TracePayload? && p.path.consumedHops < 63
    && NamesAt(p.payload.pathHashes, p.path.consumedHops * NameLength(p.payload), NameLength(p.payload), nodeHash)
  }

  /** The next hop of a direct packet is this node. */
  predicate DirectTurn(p: Packet, nodeHash: seq<u8>) {
    p.path.Normal? && NamesAt(p.path.path.bytes, 0, p.path.path.hashSize.Size(), nodeHash)
  }

  /** The flood is in an open scope, or is moved into one, and reaches no limit. */
  ghost predicate FloodTurn(h: Hashing, c: Config, p: Packet, nodeHash: seq<u8>) {
    p.path.Normal? && exists s, unscoped ::
      InScope(h, c, p, s) && Admitted(h, c, s, unscoped) && WithinLimits(c, p, nodeHash, unscoped)
  }

  /** Repeating is on, the kind is one that is repeated, and the rule for its route lets it pass. */
  ghost predicate Passes(h: Hashing, c: Config, p: Packet, nodeHash: seq<u8>) {
    && c.repeatEnabled && !p.payload.ReservedPayload? && !p.payload.RawPayload?
    && if p.payload.TracePayload? then TraceTurn(p, nodeHash)
       else if p.routeType == Flood || p.routeType == TransportFlood then FloodTurn(h, c, p, nodeHash)
       else DirectTurn(p, nodeHash)
  }

  lemma TraceExactly(h: Hashing, p: Packet, snr: i16, nodeHash: seq<u8>)
    requires OnWire(p) && p.payload.TracePayload?
    ensures PrepareTrace(h, p, snr, nodeHash).Sends() <==> TraceTurn(p, nodeHash)
  {
    WireParts(p);
    TraceParts(p);
    NameRoom(p.payload, if p.path.TraceRoute? then p.path.consumedHops else 0);
    TraceSigned(h, p);
  }

  lemma TraceParts(p: Packet)
    requires OnWire(p) && p.payload.TracePayload?
    ensures p.path.TraceRoute? && p.path.consumedHops == |p.path.samples| <= 63
    ensures |p.payload.pathHashes| % p.payload.hashSize.Size() == 0
  {
    WireParts(p);
  }

  lemma TraceSigned(h: Hashing, p: Packet)
    requires OnWire(p) && p.payload.TracePayload?
    ensures SignatureOf(h, p).Some?
  {
    WireParts(p);
  }

  /** Whether a list of names goes on past some of them. */
  lemma NameRoom(p: Payload, k: nat)
    requires p.TracePayload? && |p.pathHashes| % p.hashSize.Size() == 0
    ensures p.hashSize.Size() == NameLength(p)
    ensures k * NameLength(p) >= 0
    ensures k * NameLength(p) < |p.pathHashes| ==> k * NameLength(p) + NameLength(p) <= |p.pathHashes|
  {
  }

  lemma NextHopNames(path: Path, nodeHash: seq<u8>)
    requires path.Valid()
    ensures path.HopCount() > 0 && HashMatches(path.Hashes()[0], nodeHash) <==>
            NamesAt(path.bytes, 0, path.hashSize.Size(), nodeHash)
  {
    var size := path.hashSize.Size();
    ShiftHop(0, size, |path.bytes|);
    if path.HopCount() > 0 {
      ChunkAt(path.bytes, size, 0);
    }
  }

  /** A repeater passes a packet off the wire on if and only if repeating is on, its kind is neither reserved
      nor raw, and: for a trace, the next name on its list is this node's and there is room for a sample; for
      another flood, its scope is open here and no limit is reached; for another direct packet, its next hop
      is this node. */
  lemma PrepareExactly(h: Hashing, c: Config, p: Packet, snr: i16, nodeHash: seq<u8>)
    requires OnWire(p)
    ensures Prepare(h, c, p, snr, nodeHash).Sends() <==> Passes(h, c, p, nodeHash)
  {
    hide PrepareTrace, PrepareFlood, PrepareDirect, TraceTurn, FloodTurn, OnWire, InScope, Admitted, WithinLimits;
    if p.payload.TracePayload? {
      TraceExactly(h, p, snr, nodeHash);
    } else if p.routeType.IsFlood() {
      FloodIs(h, c, p, nodeHash);
    } else {
      DirectIs(h, p, nodeHash);
    }
  }

  lemma FloodIs(h: Hashing, c: Config, p: Packet, nodeHash: seq<u8>)
    requires OnWire(p) && p.routeType.IsFlood()
    ensures PrepareFlood(h, c, p, nodeHash).Sends() <==> FloodTurn(h, c, p, nodeHash)
  {
    hide OnWire, PrepareFlood, InScope, Admitted, WithinLimits;
    FloodExactly(h, c, p, nodeHash);
  }

  lemma DirectIs(h: Hashing, p: Packet, nodeHash: seq<u8>)
    requires OnWire(p) && p.routeType.IsDirect() && !p.payload.TracePayload?
    ensures PrepareDirect(h, p, nodeHash).Sends() <==> DirectTurn(p, nodeHash)
  {
    hide PrepareDirect, NamesAt;
    DirectExactly(h, p, nodeHash);
    WireParts(p);
    if p.path.Normal? {
      NextHopNames(p.path.path, nodeHash);
    }
  }

  /** The flood is in an open scope, or is moved into one, and does not loop. */
  ghost predicate FloodHeard(h: Hashing, c: Config, p: Packet, nodeHash: seq<u8>) {
    p.path.Normal? && (exists s, unscoped :: InScope(h, c, p, s) && Admitted(h, c, s, unscoped))
    && Unlooped(c.loopDetection, p.path.path.hashSize.Size(), |OwnHops(p.path.path, nodeHash)|)
  }

  /** Of the packets that are not passed on, those are reported as dropped that are reserved or raw, traces
      that are not direct, and floods in no open scope or in a loop; the others are let go without a word. */
  lemma DropExactly(h: Hashing, c: Config, p: Packet, snr: i16, nodeHash: seq<u8>)
    requires OnWire(p)
    ensures Prepare(h, c, p, snr, nodeHash) == Drop <==>
            c.repeatEnabled &&
            (|| p.payload.ReservedPayload? || p.payload.RawPayload?
             || (if p.payload.TracePayload? then p.routeType != Direct
                 else (p.routeType == Flood || p.routeType == TransportFlood) && !FloodHeard(h, c, p, nodeHash)))
  {
    hide PrepareTrace, PrepareFlood, PrepareDirect, FloodHeard, OnWire;
    if p.payload.TracePayload? {
      TraceDropped(h, p, snr, nodeHash);
    } else if p.routeType.IsFlood() {
      FloodDropped(h, c, p, nodeHash);
    } else {
      DirectNeverDropped(h, p, nodeHash);
    }
  }

  lemma TraceDropped(h: Hashing, p: Packet, snr: i16, nodeHash: seq<u8>)
    requires OnWire(p) && p.payload.TracePayload?
    ensures PrepareTrace(h, p, snr, nodeHash) == Drop <==> p.routeType != Direct
  {
    hide OnWire, SignatureOf;
    TraceParts(p);
    NameRoom(p.payload, if p.path.TraceRoute? then p.path.consumedHops else 0);
    TraceSigned(h, p);
  }

  lemma DirectNeverDropped(h: Hashing, p: Packet, nodeHash: seq<u8>)
    requires OnWire(p) && p.routeType.IsDirect() && !p.payload.TracePayload?
    ensures PrepareDirect(h, p, nodeHash) != Drop
  {
    WireParts(p);
  }

  lemma FloodDropped(h: Hashing, c: Config, p: Packet, nodeHash: seq<u8>)
    requires OnWire(p) && p.routeType.IsFlood() && !p.payload.TracePayload?
    ensures PrepareFlood(h, c, p, nodeHash) == Drop <==> !FloodHeard(h, c, p, nodeHash)
  {
    hide OnWire, Captured, MatchFlood, InScope, Admitted, Unlooped, OwnHops, FloodOnward;
    NormalRoute(p);
    if Captured(h, c, p).Some? {
      var s := Captured(h, c, p).value.0;
      CapturedIs(h, c, p, s);
      ScopedSigns(h, c, p, s);
      if MatchFlood(h, c, s).Some? {
        MatchedIs(h, c, s, MatchFlood(h, c, s).value);
        OnwardDropped(h, c, s, Captured(h, c, p).value.1, MatchFlood(h, c, s).value, nodeHash);
      }
    }
    forall s, unscoped | InScope(h, c, p, s) && Admitted(h, c, s, unscoped)
      ensures Captured(h, c, p).Some? && Captured(h, c, p).value.0 == s && MatchFlood(h, c, s) == Some(unscoped)
    {
      CapturedIs(h, c, p, s);
      ScopedSigns(h, c, p, s);
      MatchedIs(h, c, s, unscoped);
    }
  }

  lemma NormalRoute(p: Packet)
    requires OnWire(p) && !p.payload.TracePayload?
    ensures p.path.Normal?
  {
    WireParts(p);
  }

  lemma OnwardDropped(h: Hashing, c: Config, s: Packet, captured: bool, unscoped: bool, nodeHash: seq<u8>)
    requires s.path.Normal? && SignatureOf(h, s).Some?
    ensures FloodOnward(h, c, s, captured, unscoped, nodeHash) == Drop <==>
            !Unlooped(c.loopDetection, s.path.path.hashSize.Size(), |OwnHops(s.path.path, nodeHash)|)
  {
    hide LoopDetection.DetectsLoop, Unlooped, OwnHops, SignatureOf;
    UnloopedExactly(c.loopDetection, s.path.path, nodeHash);
  }

  // ---------- As what it is passed on ----------

  /** The next sample of a trace: the signal clamped to a signed byte. */
  function Sample(snr: i16): i8 {
    Max(-128, Min(snr, 127))
  }

  /** What leaves: a trace with one hop more behind it and the sample at the end; a flood in its scope with
      the node's prefix at the end of its route, marked as captured exactly if it was moved there; a direct
      packet without its first hop.  Each under its own signature. */
  ghost predicate PassedAs(h: Hashing, c: Config, p: Packet, snr: i16, nodeHash: seq<u8>, d: ForwardDecision)
    requires d.Sends()
  {
    if p.payload.TracePayload? then
      && d.Forward? && SignatureOf(h, p) == Some(d.signature) && p.path.TraceRoute? && p.path.consumedHops < 63
      && d.packet == p.(path := TraceRoute(p.path.consumedHops + 1, p.path.samples + [Sample(snr)]))
    else if p.routeType == Flood || p.routeType == TransportFlood then
      && p.path.Normal? && |nodeHash| >= p.path.path.hashSize.Size()
      && exists s :: InScope(h, c, p, s) && SignatureOf(h, s) == Some(d.signature)
                     && (d.Capture? <==> Captures(c, p)) && d.packet == s.(path := Normal(Grown(p.path.path, nodeHash)))
    else
      && d.Forward? && SignatureOf(h, p) == Some(d.signature) && p.path.Normal?
      && |p.path.path.bytes| >= p.path.path.hashSize.Size()
      && d.packet == p.(path := Normal(Path(p.path.path.hashSize, p.path.path.bytes[p.path.path.hashSize.Size()..])))
  }

  function Grown(path: Path, nodeHash: seq<u8>): Path
    requires |nodeHash| >= path.hashSize.Size()
  {
    Path(path.hashSize, path.bytes + nodeHash[..path.hashSize.Size()])
  }

  lemma PreparedExactly(h: Hashing, c: Config, p: Packet, snr: i16, nodeHash: seq<u8>)
    requires OnWire(p) && Prepare(h, c, p, snr, nodeHash).Sends()
    ensures PassedAs(h, c, p, snr, nodeHash, Prepare(h, c, p, snr, nodeHash))
  {
    hide OnWire, PrepareTrace, PrepareFlood, PrepareDirect, PassedAs;
    if p.payload.TracePayload? {
      TracePassedAs(h, c, p, snr, nodeHash);
    } else if p.routeType.IsFlood() {
      FloodPassedAs(h, c, p, snr, nodeHash);
    } else {
      DirectPassedAs(h, c, p, snr, nodeHash);
    }
  }

  lemma TracePassedAs(h: Hashing, c: Config, p: Packet, snr: i16, nodeHash: seq<u8>)
    requires p.payload.TracePayload? && PrepareTrace(h, p, snr, nodeHash).Sends()
    ensures PassedAs(h, c, p, snr, nodeHash, PrepareTrace(h, p, snr, nodeHash))
  {
    hide SignatureOf;
  }

  lemma FloodPassedAs(h: Hashing, c: Config, p: Packet, snr: i16, nodeHash: seq<u8>)
    requires !p.payload.TracePayload? && PrepareFlood(h, c, p, nodeHash).Sends()
    ensures PassedAs(h, c, p, snr, nodeHash, PrepareFlood(h, c, p, nodeHash))
  {
    hide SignatureOf, MatchFlood, InScope, LoopDetection.DetectsLoop;
    var s := Captured(h, c, p).value.0;
    CapturedIs(h, c, p, s);
    assert s.path == p.path && (Captured(h, c, p).value.1 <==> Captures(c, p));
  }

  lemma DirectPassedAs(h: Hashing, c: Config, p: Packet, snr: i16, nodeHash: seq<u8>)
    requires p.routeType.IsDirect() && !p.payload.TracePayload? && PrepareDirect(h, p, nodeHash).Sends()
    ensures PassedAs(h, c, p, snr, nodeHash, PrepareDirect(h, p, nodeHash))
  {
    hide SignatureOf;
    var path := p.path.path;
    ShiftHop(0, path.hashSize.Size(), |path.bytes|);
  }
}
