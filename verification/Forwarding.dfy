/** What a repeater does with a decoded packet: loop detection, region capture, and the three ways a
    packet is prepared for forwarding. */
module Forwarding {
  import opened Bytes
  import opened Wrappers
  import opened SeenPackets
  import opened Paths
  import opened Payloads
  import opened Packets

  datatype LoopDetection = Off | Minimal | Moderate | Strict {
    /** Occurrences of the node's own prefix at which a packet counts as looping. */
    function Threshold(size: HashSize): Option<nat> {
      match (this, size)
      case (Off, _) => None
      case (Minimal, One) => Some(4)
      case (Minimal, Two) => Some(2)
      case (Moderate, One) => Some(2)
      case (_, _) => Some(1)
    }

    predicate DetectsLoop(path: Path, nodeHash: seq<u8>) {
      var t := Threshold(path.hashSize);
      t.Some? && Own(path.Hashes(), nodeHash) >= t.value
    }
  }

  /** How many hashes of a route are prefixes of this node's hash. */
  function Own(hashes: seq<seq<u8>>, nodeHash: seq<u8>): (n: nat)
    ensures n <= |hashes|
  {
    if hashes == [] then 0
    else Own(Front(hashes), nodeHash) + if HashMatches(Last(hashes), nodeHash) then 1 else 0
  }

  /** A region; `keyed` is whether its name yields a transport key. */
  datatype Region = Region(id: u16, denyFlood: bool, keyed: bool)

  /** Keyed digest and packet digest, taken as given functions of their inputs. */
  datatype Hashing = Hashing(code: (Region, u8, seq<u8>) -> u16, digest: seq<u8> -> Signature)

  datatype Config = Config(
    repeatEnabled: bool, regionCapture: bool, loopDetection: LoopDetection,
    maxUnscopedHops: u8, maxAdvertHops: u8,
    wildcardDenied: bool, defaultRegion: Option<Region>, regions: seq<Region>)

  datatype ForwardDecision =
    | Forward(packet: Packet, signature: Signature)
    | Capture(packet: Packet, signature: Signature)
    | DoNotForward
    | Drop
  {
    predicate Sends() {
      Forward? || Capture?
    }
  }

  function TransportCode(h: Hashing, region: Region, p: Packet): Option<u16> {
    if !region.keyed || p.payload.Encode().Err? then None
    else
      var code := h.code(region, p.payload.Kind().Nibble(), p.payload.Encode().value);
      Some(if code == 0 then 1 else if code == 0xFFFF then 0xFFFE else code)
  }

  /** The packet moved into a region's scope, or None when the region has no usable key. */
  function ApplyScope(h: Hashing, region: Region, p: Packet): Option<Packet> {
    if region.id == 0 then Some(p.(routeType := Flood, codes := None))
    else
      match TransportCode(h, region, p)
      case None => None
      case Some(code) => Some(p.(routeType := TransportFlood, codes := Some(TransportCodes(code, 0))))
  }

  /** The first allowed region whose code the packet carries; an unusable key ends the search. */
  function MatchTransport(h: Hashing, regions: seq<Region>, p: Packet, primary: u16): Option<Region> {
    if regions == [] then None
    else if regions[0].denyFlood then MatchTransport(h, regions[1..], p, primary)
    else
      match TransportCode(h, regions[0], p)
      case None => None
      case Some(code) => if code == primary then Some(regions[0]) else MatchTransport(h, regions[1..], p, primary)
  }

  /** Whether a flood is in an allowed region, and if so whether that is the wildcard. */
  function MatchFlood(h: Hashing, c: Config, p: Packet): Option<bool> {
    match p.routeType
    case TransportFlood =>
      if p.codes.None? then None
      else
        (match MatchTransport(h, c.regions, p, p.codes.value.primary)
         case None => None
         case Some(region) => Some(region.id == 0))
    case Flood => if c.wildcardDenied then None else Some(true)
    case _ => None
  }

  /** Region capture: a zero-hop unscoped flood moves into the default region. */
  function Captured(h: Hashing, c: Config, p: Packet): Option<(Packet, bool)> {
    if p.routeType == Flood && c.regionCapture && p.path.Normal? && p.path.path.HopCount() == 0
        && c.defaultRegion.Some? then
      match ApplyScope(h, c.defaultRegion.value, p)
      case None => None
      case Some(scoped) => Some((scoped, true))
    else Some((p, false))
  }

  function SignatureOf(h: Hashing, p: Packet): Option<Signature> {
    match p.DedupPreimage()
    case Err(_) => None
    case Ok(preimage) => Some(h.digest(preimage))
  }

  function PrepareFlood(h: Hashing, c: Config, p: Packet, nodeHash: seq<u8>): ForwardDecision {
    if !p.routeType.IsFlood() then Drop
    else
      match Captured(h, c, p)
      case None => Drop
      case Some((p, captured)) =>
        match MatchFlood(h, c, p)
        case None => Drop
        case Some(unscoped) => FloodOnward(h, c, p, captured, unscoped, nodeHash)
  }

  function FloodOnward(h: Hashing, c: Config, p: Packet, captured: bool, unscoped: bool,
      nodeHash: seq<u8>): ForwardDecision {
    if p.path.TraceRoute? then Drop
    else
      var hops := p.path.path.HopCount();
      if c.loopDetection.DetectsLoop(p.path.path, nodeHash) then Drop
      else if p.payload.Kind() == Advert && hops >= c.maxAdvertHops then DoNotForward
      else if unscoped && hops >= c.maxUnscopedHops then DoNotForward
      else
        var signature := SignatureOf(h, p);
        var appended := p.AppendFloodHop(nodeHash);
        if signature.None? then Drop
        else if appended.Err? then DoNotForward
        else if captured then Capture(appended.value, signature.value)
        else Forward(appended.value, signature.value)
  }

  function PrepareDirect(h: Hashing, p: Packet, nodeHash: seq<u8>): ForwardDecision {
    if !p.routeType.IsDirect() || p.path.TraceRoute? then Drop
    else if p.path.path.HopCount() == 0 then DoNotForward
    else
      var signature := SignatureOf(h, p);
      if signature.None? then Drop
      else
        match p.ConsumeDirectHop(nodeHash)
        case Err(_) => Drop
        case Ok(None) => DoNotForward
        case Ok(Some(next)) => Forward(next, signature.value)
  }

  function ClampSample(snr: i16): i8 {
    if snr < -0x80 then -0x80 else if snr > 0x7F then 0x7F else snr
  }

  function PrepareTrace(h: Hashing, p: Packet, snr: i16, nodeHash: seq<u8>): ForwardDecision {
    if p.routeType != Direct || p.path.Normal? then Drop
    else
      match p.TraceIsComplete()
      case Err(_) => Drop
      case Ok(true) => DoNotForward
      case Ok(false) =>
        match p.TraceNextHopMatches(nodeHash)
        case Err(_) => Drop
        case Ok(false) => DoNotForward
        case Ok(true) =>
          var signature := SignatureOf(h, p);
          var appended := p.AppendTraceSnr(ClampSample(snr));
          if signature.None? then Drop
          else if appended.Err? then DoNotForward
          else Forward(appended.value, signature.value)
  }

  function Prepare(h: Hashing, c: Config, p: Packet, snr: i16, nodeHash: seq<u8>): ForwardDecision {
    if !c.repeatEnabled then DoNotForward
    else if p.payload.Kind().Reserved? || p.payload.Kind().RawCustom? then Drop
    else if p.payload.Kind() == Trace then PrepareTrace(h, p, snr, nodeHash)
    else if p.routeType.IsFlood() then PrepareFlood(h, c, p, nodeHash)
    else PrepareDirect(h, p, nodeHash)
  }

  // ---------- Forwarded packets always re-encode ----------

  /** A packet that came off the wire, or equally one that can go onto it. */
  ghost predicate OnWire(p: Packet) {
    p.Typed() && p.NibblesInRange() && p.Encode().Ok?
  }

  lemma DecodedOnWire(b: seq<u8>)
    requires Decode(b).Ok?
    ensures OnWire(Decode(b).value) && Decode(b).value.Encode() == Ok(b)
  {
    DecodedEncodes(Decode(b).value, b);
  }

  /** Nothing but the sizes of the parts stands between a packet and its wire form. */
  lemma FitsOnWire(p: Packet)
    requires p.Typed() && p.NibblesInRange() && p.CheckCodes().Ok? && p.ValidateSemantics().Ok?
    requires p.RouteBytes().Ok? && p.payload.Encode().Ok? && |p.payload.Encode().value| <= MAX_PACKET_PAYLOAD
    ensures OnWire(p) && |p.Encode().value| <= 254 && Decode(p.Encode().value) == Ok(p)
  {
    var route, body := p.RouteBytes().value, p.payload.Encode().value;
    var b := [HeaderByte(p.payload.Kind(), p.routeType)] + (CodesBytes(p.codes) + (route + body));
    assert |route| <= 65 && |CodesBytes(p.codes)| <= 4;
    EncodesTo(p, b);
    PacketCodec(p, b);
  }

  lemma WireParts(p: Packet)
    requires OnWire(p)
    ensures p.CheckCodes().Ok? && p.ValidateSemantics().Ok? && p.RouteBytes().Ok? && p.payload.Encode().Ok?
    ensures |p.payload.Encode().value| <= MAX_PACKET_PAYLOAD
    ensures p.path.Normal? ==> p.path.path.Valid() && p.payload.Kind() != Trace
    ensures p.path.TraceRoute? ==> p.payload.Kind() == Trace
  {
  }

  lemma FloodFits(h: Hashing, c: Config, p: Packet, nodeHash: seq<u8>)
    requires OnWire(p) && PrepareFlood(h, c, p, nodeHash).Sends()
    ensures var q := PrepareFlood(h, c, p, nodeHash).packet;
            OnWire(q) && |q.Encode().value| <= 254 && Decode(q.Encode().value) == Ok(q)
  {
    WireParts(p);
    var (scoped, _) := Captured(h, c, p).value;
    AppendHashes(scoped.path.path, nodeHash);
    FitsOnWire(PrepareFlood(h, c, p, nodeHash).packet);
  }

  lemma DirectFits(h: Hashing, p: Packet, nodeHash: seq<u8>)
    requires OnWire(p) && PrepareDirect(h, p, nodeHash).Sends()
    ensures var q := PrepareDirect(h, p, nodeHash).packet;
            OnWire(q) && |q.Encode().value| <= 254 && Decode(q.Encode().value) == Ok(q)
  {
    WireParts(p);
    RemoveHashes(p.path.path);
    FitsOnWire(PrepareDirect(h, p, nodeHash).packet);
  }

  lemma TraceFits(h: Hashing, p: Packet, snr: i16, nodeHash: seq<u8>)
    requires OnWire(p) && PrepareTrace(h, p, snr, nodeHash).Sends()
    ensures var q := PrepareTrace(h, p, snr, nodeHash).packet;
            OnWire(q) && |q.Encode().value| <= 254 && Decode(q.Encode().value) == Ok(q)
  {
    WireParts(p);
    FitsOnWire(PrepareTrace(h, p, snr, nodeHash).packet);
  }

  /** Every packet the decoder accepts and the rules forward or capture encodes to at most 254 bytes
      and decodes back to itself: queueing it never fails for its encoding. */
  lemma ForwardedFits(h: Hashing, c: Config, b: seq<u8>, snr: i16, nodeHash: seq<u8>)
    requires Decode(b).Ok? && Prepare(h, c, Decode(b).value, snr, nodeHash).Sends()
    ensures var q := Prepare(h, c, Decode(b).value, snr, nodeHash).packet;
            q.Encode().Ok? && |q.Encode().value| <= 254 && Decode(q.Encode().value) == Ok(q)
  {
    var p := Decode(b).value;
    DecodedOnWire(b);
    if p.payload.Kind() == Trace {
      TraceFits(h, p, snr, nodeHash);
    } else if p.routeType.IsFlood() {
      FloodFits(h, c, p, nodeHash);
    } else {
      DirectFits(h, p, nodeHash);
    }
  }

  /** The reservation is made under the signature of the packet as sent, hops or no hops: appending or
      consuming a hop does not change what is hashed. */
  lemma SignatureSurvivesHop(h: Hashing, c: Config, p: Packet, snr: i16, nodeHash: seq<u8>)
    requires Prepare(h, c, p, snr, nodeHash).Sends() && p.payload.Kind() != Trace
    ensures var d := Prepare(h, c, p, snr, nodeHash);
            SignatureOf(h, d.packet) == Some(d.signature) && d.packet.payload == p.payload
            && ((d.packet.routeType == p.routeType && d.packet.codes == p.codes) || d.Capture?)
  {
  }

  // ---------- Loops ----------

  /** One flood forward: one more hop, this node's own prefix, and it had not reached its threshold. */
  lemma FloodHop(h: Hashing, c: Config, p: Packet, nodeHash: seq<u8>)
    requires OnWire(p) && PrepareFlood(h, c, p, nodeHash).Sends()
    ensures var q := PrepareFlood(h, c, p, nodeHash).packet;
            && OnWire(q) && q.path.Normal? && p.path.Normal? && q.path.path.hashSize == p.path.path.hashSize
            && q.path.path.Hashes() == p.path.path.Hashes() + [nodeHash[..p.path.path.hashSize.Size()]]
            && q.path.path.HopCount() == p.path.path.HopCount() + 1 <= 63 && |q.path.path.bytes| <= 64
            && HashMatches(nodeHash[..p.path.path.hashSize.Size()], nodeHash)
    ensures var t := c.loopDetection.Threshold(p.path.path.hashSize);
            t.Some? ==> Own(p.path.path.Hashes(), nodeHash) < t.value
  {
    WireParts(p);
    FloodFits(h, c, p, nodeHash);
    var (scoped, _) := Captured(h, c, p).value;
    AppendHashes(scoped.path.path, nodeHash);
  }
}
