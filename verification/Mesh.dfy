/** A network of repeaters.  Each node runs the forwarding engine; whatever a node's radio sends, and
    whatever any station originates, is in the air and may be heard by any node, any number of times
    and after any delay. */
module Mesh {
  import opened Bytes
  import opened Wrappers
  import opened SeenPackets
  import opened Outbound
  import opened Engine
  import opened EngineRuns
  import opened EngineTheorems
  import opened Paths
  import opened Payloads
  import opened Packets
  import opened Forwarding
  import opened FloodChains

  /** Nodes with fixed hashes; `allows` says which forwarding configurations a node may be in when it
      handles a packet.  It may change between any two steps, to anything that is allowed. */
  datatype Network = Network(hashing: Hashing, hashes: seq<seq<u8>>, profiles: seq<Profile>,
      allows: (nat, Config) -> bool) {
    ghost predicate Valid() {
      |profiles| == |hashes|
    }
  }

  datatype MeshState = MeshState(systems: seq<System>, air: set<seq<u8>>, origins: set<seq<u8>>)

  /** What a node has in its hands when it handles a packet. */
  datatype Reception = Reception(frame: seq<u8>, snr: i16, config: Config)

  datatype MeshEvent =
    | Originate(frame: seq<u8>)
    | NodeStep(node: nat, event: Event, heard: Reception)

  /** The decision the repeater rules take on a reception that decodes. */
  function Decision(n: Network, i: nat, r: Reception): ForwardDecision
    requires i < |n.hashes| && Decode(r.frame).Ok?
  {
    Prepare(n.hashing, r.config, Decode(r.frame).value, r.snr, n.hashes[i])
  }

  /** A forward is enqueued only for a frame heard from the air, as the repeater rules prepare it. */
  ghost predicate Justified(n: Network, m: MeshState, i: nat, e: Event, r: Reception)
    requires n.Valid() && i < |n.hashes|
  {
    e.HandlerForward? ==>
      && r.frame in m.air && Decode(r.frame).Ok? && n.allows(i, r.config)
      && Decision(n, i, r).Sends() && e.signature == Decision(n, i, r).signature
      && Decision(n, i, r).packet.Encode() == Ok(e.packet)
  }

  ghost predicate MeshEnabled(n: Network, m: MeshState, e: MeshEvent)
    requires n.Valid() && |m.systems| == |n.hashes|
  {
    e.NodeStep? ==>
      e.node < |n.hashes| && Enabled(m.systems[e.node], e.event) && Justified(n, m, e.node, e.event, e.heard)
  }

  /** What a node's radio puts into the air with this event. */
  function Emitted(s: System, e: Event): set<seq<u8>> {
    if e.RadioEnd? && e.ok && s.radio.Sending? then {s.radio.item.packet} else {}
  }

  ghost function MeshStep(n: Network, m: MeshState, e: MeshEvent): (r: MeshState)
    requires n.Valid() && |m.systems| == |n.hashes| && MeshEnabled(n, m, e)
    ensures |r.systems| == |n.hashes|
  {
    match e
    case Originate(frame) => m.(air := m.air + {frame}, origins := m.origins + {frame})
    case NodeStep(i, event, _) =>
      MeshState(m.systems[i := Step(n.profiles[i], m.systems[i], event)],
                m.air + Emitted(m.systems[i], event),
                m.origins + if event.HandlerReply? then {event.packet} else {})
  }

  // ---------- Where frames come from ----------

  predicate IsFloodFrame(frame: seq<u8>) {
    Decode(frame).Ok? && Decode(frame).value.routeType.IsFlood() && Decode(frame).value.payload.Kind() != Trace
  }

  /** The flood descends from an originated frame through a chain of forwards. */
  ghost predicate Descends(n: Network, origins: set<seq<u8>>, frame: seq<u8>) {
    IsFloodFrame(frame) ==>
      exists hops: seq<Hop>, packets: seq<Packet> :: ChainTo(n, origins, frame, hops, packets)
  }

  ghost predicate ChainTo(n: Network, origins: set<seq<u8>>, frame: seq<u8>, hops: seq<Hop>, packets: seq<Packet>) {
    && FloodChain(n.hashing, n.hashes, hops, packets)
    && (forall i :: 0 <= i < |hops| ==> n.allows(hops[i].node, hops[i].config))
    && packets[0].Encode().value in origins && Decode(frame) == Ok(Last(packets))
  }

  /** A forward is queued under the signature of the very packet that will be sent. */
  ghost predicate SignedAs(n: Network, frame: seq<u8>, s: Signature) {
    && Decode(frame).Ok?
    && (Decode(frame).value.payload.Kind() != Trace ==> SignatureOf(n.hashing, Decode(frame).value) == Some(s))
  }

  ghost predicate FrameSound(n: Network, origins: set<seq<u8>>, frame: seq<u8>, s: Option<Signature>) {
    Descends(n, origins, frame) && (s.Some? ==> SignedAs(n, frame, s.value))
  }

  ghost predicate QueueSound(n: Network, origins: set<seq<u8>>, queue: seq<QueuedTransmit>) {
    forall k :: 0 <= k < |queue| ==> FrameSound(n, origins, queue[k].packet, queue[k].signature)
  }

  ghost predicate NodeSound(n: Network, origins: set<seq<u8>>, s: System) {
    && QueueSound(n, origins, s.core.queue)
    && (s.radio.Sending? ==> FrameSound(n, origins, s.radio.item.packet, s.radio.item.signature))
    && |s.log.frames| == |s.log.touches|
    && (forall k :: 0 <= k < |s.log.frames| ==> SignedAs(n, s.log.frames[k], s.log.touches[k].signature))
  }

  ghost predicate MeshInv(n: Network, m: MeshState) {
    && n.Valid() && |m.systems| == |n.hashes|
    && (forall i :: 0 <= i < |m.systems| ==> Inv(n.profiles[i], m.systems[i]) && NodeSound(n, m.origins, m.systems[i]))
    && (forall frame <- m.air :: Descends(n, m.origins, frame))
  }

  lemma OriginDescends(n: Network, origins: set<seq<u8>>, frame: seq<u8>)
    requires frame in origins
    ensures Descends(n, origins, frame)
  {
    if IsFloodFrame(frame) {
      DecodedOnWire(frame);
      assert ChainTo(n, origins, frame, [], [Decode(frame).value]);
    }
  }

  lemma MoreOrigins(n: Network, origins: set<seq<u8>>, more: set<seq<u8>>, frame: seq<u8>)
    requires Descends(n, origins, frame) && origins <= more
    ensures Descends(n, more, frame)
  {
    if IsFloodFrame(frame) {
      var hops: seq<Hop>, packets: seq<Packet> :| ChainTo(n, origins, frame, hops, packets);
      assert ChainTo(n, more, frame, hops, packets);
    }
  }

  lemma MoreOriginsNode(n: Network, origins: set<seq<u8>>, more: set<seq<u8>>, s: System)
    requires NodeSound(n, origins, s) && origins <= more
    ensures NodeSound(n, more, s)
  {
    forall k | 0 <= k < |s.core.queue| {
      MoreOrigins(n, origins, more, s.core.queue[k].packet);
    }
    if s.radio.Sending? {
      MoreOrigins(n, origins, more, s.radio.item.packet);
    }
  }

  /** Forwarding extends the chain of the frame that was heard. */
  lemma ForwardDescends(n: Network, origins: set<seq<u8>>, i: nat, r: Reception, frame: seq<u8>)
    requires n.Valid() && i < |n.hashes| && Decode(r.frame).Ok? && Descends(n, origins, r.frame)
             && n.allows(i, r.config)
    requires Decision(n, i, r).Sends() && Decision(n, i, r).packet.Encode() == Ok(frame)
    ensures FrameSound(n, origins, frame, Some(Decision(n, i, r).signature))
  {
    hide Prepare, Decode, OnWire, FloodChain;
    var p, d := Decode(r.frame).value, Decision(n, i, r);
    ForwardedFits(n.hashing, r.config, r.frame, r.snr, n.hashes[i]);
    assert Decode(frame) == Ok(d.packet);
    if d.packet.payload.Kind() != Trace {
      KindKept(n.hashing, r.config, p, r.snr, n.hashes[i]);
      SignatureSurvivesHop(n.hashing, r.config, p, r.snr, n.hashes[i]);
      if d.packet.routeType.IsFlood() {
        FloodDescends(n, origins, i, r, frame);
      }
    }
  }

  lemma FloodDescends(n: Network, origins: set<seq<u8>>, i: nat, r: Reception, frame: seq<u8>)
    requires n.Valid() && i < |n.hashes| && Decode(r.frame).Ok? && Descends(n, origins, r.frame)
             && n.allows(i, r.config)
    requires IsFloodFrame(r.frame) && Decision(n, i, r).Sends() && Decode(frame) == Ok(Decision(n, i, r).packet)
    ensures Descends(n, origins, frame)
  {
    hide Decode, OnWire, Prepare, PassesFlood;
    var hops: seq<Hop>, packets: seq<Packet> :| ChainTo(n, origins, r.frame, hops, packets);
    var hop, q := Hop(i, r.config), Decision(n, i, r).packet;
    PrepareIsFlood(n.hashing, r.config, Last(packets), r.snr, n.hashes[i]);
    ExtendChain(n.hashing, n.hashes, hops, packets, hop, q);
    Kept(n, hops, packets, hop, q);
    assert ChainTo(n, origins, frame, hops + [hop], packets + [q]);
  }

  lemma Kept(n: Network, hops: seq<Hop>, packets: seq<Packet>, hop: Hop, q: Packet)
    requires forall i :: 0 <= i < |hops| ==> n.allows(hops[i].node, hops[i].config)
    requires n.allows(hop.node, hop.config) && packets != []
    ensures forall i :: 0 <= i < |hops + [hop]| ==> n.allows((hops + [hop])[i].node, (hops + [hop])[i].config)
    ensures (packets + [q])[0] == packets[0] && Last(packets + [q]) == q
  {
  }

  lemma PrepareIsFlood(h: Hashing, c: Config, p: Packet, snr: i16, nodeHash: seq<u8>)
    requires Prepare(h, c, p, snr, nodeHash).Sends() && p.payload.Kind() != Trace && p.routeType.IsFlood()
    ensures PassesFlood(h, nodeHash, c, p, Prepare(h, c, p, snr, nodeHash).packet)
  {
  }

  lemma KindKept(h: Hashing, c: Config, p: Packet, snr: i16, nodeHash: seq<u8>)
    requires Prepare(h, c, p, snr, nodeHash).Sends()
    ensures var q := Prepare(h, c, p, snr, nodeHash).packet;
            q.payload == p.payload && (p.payload.Kind() != Trace ==> (q.routeType.IsFlood() <==> p.routeType.IsFlood()))
  {
  }

  // ---------- Every step keeps it ----------

  lemma InsertedSound(n: Network, origins: set<seq<u8>>, queue: seq<QueuedTransmit>, item: QueuedTransmit)
    requires QueueSound(n, origins, queue) && FrameSound(n, origins, item.packet, item.signature)
    ensures QueueSound(n, origins, Inserted(queue, item))
  {
    var i, r := FirstLater(queue, item.eligibleAt), Inserted(queue, item);
    forall k | 0 <= k < |r|
      ensures FrameSound(n, origins, r[k].packet, r[k].signature)
    {
      assert r[k] == if k < i then queue[k] else if k == i then item else queue[k - 1];
    }
  }

  lemma StartKeepsSound(n: Network, origins: set<seq<u8>>, p: Profile, s: System, e: Event)
    requires NodeSound(n, origins, s) && Enabled(s, e) && e.RadioStart?
    ensures NodeSound(n, origins, Step(p, s, e))
  {
    var (d, b) := Decided(s.core, s.budget, e.settings, e.duty, e.repeat, e.t1);
    var s' := Step(p, s, e);
    assert s'.log.frames == s.log.frames && s'.log.touches == s.log.touches;
    if d == Wait {
      assert s'.core.queue == s.core.queue;
    } else {
      assert s'.core.queue == s.core.queue[1..] && d.item == s.core.queue[0];
    }
  }

  lemma EndKeepsSound(n: Network, origins: set<seq<u8>>, p: Profile, s: System, e: Event)
    requires NodeSound(n, origins, s) && Enabled(s, e) && e.RadioEnd?
    ensures NodeSound(n, origins, Step(p, s, e))
  {
    var s', item := Step(p, s, e), s.radio.item;
    if !e.ok && item.attempts + 1 < OUTBOUND_MAX_ATTEMPTS {
      InsertedSound(n, origins, s.core.queue, Retried(item, e.t1, e.retryDelay));
    } else {
      assert s'.core.queue == s.core.queue;
    }
    if e.ok && item.signature.Some? {
      assert s'.log.frames == s.log.frames + [item.packet];
      assert s'.log.touches == s.log.touches + [Seen(item.signature.value, e.t1)];
    } else {
      assert s'.log.frames == s.log.frames && s'.log.touches == s.log.touches;
    }
  }

  lemma HandlerKeepsSound(n: Network, origins: set<seq<u8>>, p: Profile, s: System, e: Event)
    requires NodeSound(n, origins, s) && Enabled(s, e) && (e.HandlerForward? || e.HandlerReply?)
    requires FrameSound(n, origins, e.packet, if e.HandlerForward? then Some(e.signature) else None)
    ensures NodeSound(n, origins, Step(p, s, e))
  {
    var s' := Step(p, s, e);
    if e.HandlerForward? {
      ForwardCases(p, s.core, e.packet, e.delay, e.signature, e.t1, e.t2);
      InsertedSound(n, origins, s.core.queue, Item(e.packet, e.delay, Some(e.signature), false, e.t2));
    } else {
      InsertedSound(n, origins, s.core.queue, Item(e.packet, e.delay, None, e.reboot, e.t1));
    }
    assert s'.radio == s.radio && s'.log.frames == s.log.frames && s'.log.touches == s.log.touches;
  }

  lemma NodeStepKeeps(n: Network, m: MeshState, e: MeshEvent)
    requires MeshInv(n, m) && MeshEnabled(n, m, e) && e.NodeStep?
    ensures var m' := MeshStep(n, m, e);
            Inv(n.profiles[e.node], m'.systems[e.node]) && NodeSound(n, m'.origins, m'.systems[e.node])
  {
    var i, p, s := e.node, n.profiles[e.node], m.systems[e.node];
    var origins := MeshStep(n, m, e).origins;
    StepKeeps(p, s, e.event);
    MoreOriginsNode(n, m.origins, origins, s);
    match e.event
    case HandlerForward(_, _, _, _, _) =>
      MoreOrigins(n, m.origins, origins, e.heard.frame);
      ForwardDescends(n, origins, i, e.heard, e.event.packet);
      HandlerKeepsSound(n, origins, p, s, e.event);
    case HandlerReply(packet, _, _, _) =>
      OriginDescends(n, origins, packet);
      HandlerKeepsSound(n, origins, p, s, e.event);
    case RadioStart(_, _, _, _) => StartKeepsSound(n, origins, p, s, e.event);
    case RadioEnd(_, _, _, _) => EndKeepsSound(n, origins, p, s, e.event);
    case RadioPoll(_, _) =>
  }

  lemma MeshStepKeeps(n: Network, m: MeshState, e: MeshEvent)
    requires MeshInv(n, m) && MeshEnabled(n, m, e)
    ensures MeshInv(n, MeshStep(n, m, e))
  {
    hide Inv, Descends, Justified;
    var m' := MeshStep(n, m, e);
    forall i | 0 <= i < |m'.systems|
      ensures Inv(n.profiles[i], m'.systems[i]) && NodeSound(n, m'.origins, m'.systems[i])
    {
      if e.NodeStep? && i == e.node {
        NodeStepKeeps(n, m, e);
      } else {
        MoreOriginsNode(n, m.origins, m'.origins, m.systems[i]);
      }
    }
    forall frame | frame in m'.air
      ensures Descends(n, m'.origins, frame)
    {
      if frame in m.air {
        MoreOrigins(n, m.origins, m'.origins, frame);
      } else if e.Originate? {
        OriginDescends(n, m'.origins, frame);
      } else {
        var s := m.systems[e.node];
        assert FrameSound(n, m.origins, s.radio.item.packet, s.radio.item.signature);
        MoreOrigins(n, m.origins, m'.origins, frame);
      }
    }
  }

  ghost predicate MeshLegal(n: Network, m: MeshState, es: seq<MeshEvent>)
    requires n.Valid() && |m.systems| == |n.hashes|
    decreases |es|, 0
  {
    es == [] || (MeshLegal(n, m, Front(es)) && MeshEnabled(n, MeshRun(n, m, Front(es)), Last(es)))
  }

  ghost function MeshRun(n: Network, m: MeshState, es: seq<MeshEvent>): (r: MeshState)
    requires n.Valid() && |m.systems| == |n.hashes| && MeshLegal(n, m, es)
    ensures |r.systems| == |n.hashes|
    decreases |es|, 1
  {
    if es == [] then m else MeshStep(n, MeshRun(n, m, Front(es)), Last(es))
  }

  /** All nodes freshly started, nothing in the air. */
  ghost predicate MeshInit(n: Network, m: MeshState) {
    && n.Valid() && |m.systems| == |n.hashes| && m.air == {} && m.origins == {}
    && forall i :: 0 <= i < |m.systems| ==> exists start, duty :: m.systems[i] == Init(start, duty)
  }

  lemma {:induction false} MeshRunKeeps(n: Network, m: MeshState, es: seq<MeshEvent>)
    requires MeshInit(n, m) && MeshLegal(n, m, es)
    ensures MeshInv(n, MeshRun(n, m, es))
  {
    if es == [] {
      forall i | 0 <= i < |m.systems|
        ensures Inv(n.profiles[i], m.systems[i]) && NodeSound(n, m.origins, m.systems[i])
      {
        var start, duty :| m.systems[i] == Init(start, duty);
        InitInv(n.profiles[i], start, duty);
      }
    } else {
      MeshRunKeeps(n, m, Front(es));
      MeshStepKeeps(n, MeshRun(n, m, Front(es)), Last(es));
    }
  }

  // ---------- What a flood can do to the network ----------

  /** No configuration the node may be in has loop detection off or a larger threshold. */
  ghost predicate AlwaysWithin(n: Network, v: nat, size: HashSize, bound: nat) {
    forall c: Config :: n.allows(v, c) ==> ThresholdWithin(c, size, bound)
  }

  /** How far a chain reaches: within 63 hops, each node within its threshold, and the whole of it within
      all thresholds together. */
  ghost predicate Contained(n: Network, hops: seq<Hop>, first: Packet, bounds: seq<nat>)
    requires |bounds| == |n.hashes|
  {
    && first.path.Normal? && first.path.path.HopCount() + |hops| <= 63
    && (forall v :: 0 <= v < |n.hashes| && AlwaysWithin(n, v, first.path.path.hashSize, bounds[v]) ==>
          Times(hops, v) <= bounds[v])
    && ((forall v :: 0 <= v < |n.hashes| ==> AlwaysWithin(n, v, first.path.path.hashSize, bounds[v])) ==>
          |hops| <= SumOf(bounds))
  }

  /** Every flood in the air descends from an originated frame through a chain of forwards on which each
      node that always has loop detection on appears at most as often as its largest threshold, and which
      is never longer than the remaining route allows. */
  lemma FloodsDescend(n: Network, m: MeshState, es: seq<MeshEvent>, frame: seq<u8>, bounds: seq<nat>)
    requires MeshInit(n, m) && MeshLegal(n, m, es) && |bounds| == |n.hashes|
    requires frame in MeshRun(n, m, es).air && IsFloodFrame(frame)
    ensures exists hops: seq<Hop>, packets: seq<Packet> ::
              ChainTo(n, MeshRun(n, m, es).origins, frame, hops, packets) && Contained(n, hops, packets[0], bounds)
  {
    hide FloodChain, OnWire, Decode, NodeSound, Inv;
    MeshRunKeeps(n, m, es);
    var r := MeshRun(n, m, es);
    assert Descends(n, r.origins, frame);
    var hops: seq<Hop>, packets: seq<Packet> :| ChainTo(n, r.origins, frame, hops, packets);
    ChainContained(n, r.origins, frame, hops, packets, bounds);
  }

  lemma ChainContained(n: Network, origins: set<seq<u8>>, frame: seq<u8>, hops: seq<Hop>, packets: seq<Packet>,
      bounds: seq<nat>)
    requires ChainTo(n, origins, frame, hops, packets) && IsFloodFrame(frame) && |bounds| == |n.hashes|
    ensures Contained(n, hops, packets[0], bounds)
  {
    hide OnWire, Decode, PassesFlood;
    FirstIsNormal(n.hashing, n.hashes, hops, packets);
    ChainLengthBounded(n.hashing, n.hashes, hops, packets, bounds);
    var size := packets[0].path.path.hashSize;
    forall v | 0 <= v < |n.hashes| && AlwaysWithin(n, v, size, bounds[v])
      ensures Capped(hops, size, v, bounds[v])
    {
      assert forall i :: 0 <= i < |hops| ==> n.allows(hops[i].node, hops[i].config);
    }
  }

  lemma FirstIsNormal(h: Hashing, hashes: seq<seq<u8>>, hops: seq<Hop>, packets: seq<Packet>)
    requires FloodChain(h, hashes, hops, packets) && Last(packets).payload.Kind() != Trace
    ensures packets[0].path.Normal?
  {
    WireParts(packets[0]);
    if hops != [] {
      HopOnRoute(h, hashes[hops[0].node], hops[0].config, packets[0], packets[1]);
    }
  }

  /** One flood, whatever route its copies took: same kind, route type, region code and payload. */
  predicate SameFlood(p: Packet, q: Packet) {
    p.payload.Kind() == q.payload.Kind() && p.routeType == q.routeType && p.payload.Encode() == q.payload.Encode()
    && (p.routeType.HasTransportCodes() && p.codes.Some? && q.codes.Some? ==>
        p.codes.value.primary == q.codes.value.primary)
  }

  lemma PreimageParts(p: Packet)
    requires OnWire(p) && p.payload.Kind() != Trace
    ensures p.payload.Encode().Ok? && (p.codes.Some? <==> p.routeType.HasTransportCodes())
    ensures p.DedupPreimage() ==
            Ok([p.payload.Kind().Nibble(), p.routeType.Bits()] + (ScopeBytes(p.codes) + p.payload.Encode().value))
  {
    WireParts(p);
    var head, scope, body := [p.payload.Kind().Nibble(), p.routeType.Bits()],
                             ScopeBytes(p.codes), p.payload.Encode().value;
    assert head + scope + body == head + (scope + body);
  }

  /** Hashed bytes and flood identity say the same about packets off the wire. */
  lemma SameFloodSamePreimage(p: Packet, q: Packet)
    requires OnWire(p) && OnWire(q) && p.payload.Kind() != Trace && q.payload.Kind() != Trace
    ensures SameFlood(p, q) <==> p.DedupPreimage() == q.DedupPreimage()
  {
    PreimageParts(p);
    PreimageParts(q);
    if p.DedupPreimage() == q.DedupPreimage() {
      var a, b := [p.payload.Kind().Nibble(), p.routeType.Bits()], [q.payload.Kind().Nibble(), q.routeType.Bits()];
      Cancel(a, ScopeBytes(p.codes) + p.payload.Encode().value, b, ScopeBytes(q.codes) + q.payload.Encode().value);
      assert a[0] == b[0] && a[1] == b[1];
      KindCodec(p.payload.Kind(), a[0]);
      KindCodec(q.payload.Kind(), a[0]);
      SameScope(p.codes, p.payload.Encode().value, q.codes, q.payload.Encode().value);
    }
  }

  function ScopeBytes(codes: Option<TransportCodes>): seq<u8> {
    if codes.Some? then ToLe(codes.value.primary, 2) else []
  }

  lemma SameScope(c: Option<TransportCodes>, body: seq<u8>, d: Option<TransportCodes>, other: seq<u8>)
    requires c.Some? <==> d.Some?
    requires ScopeBytes(c) + body == ScopeBytes(d) + other
    ensures body == other && (c.Some? ==> c.value.primary == d.value.primary)
  {
    Cancel(ScopeBytes(c), body, ScopeBytes(d), other);
    if c.Some? {
      ShortCodec(c.value.primary, ScopeBytes(c));
      ShortCodec(d.value.primary, ScopeBytes(c));
    }
  }

  /** Transmission `k` of a node is a forward of the flood `p`. */
  predicate Forwards(s: System, k: nat, p: Packet) {
    && k < |s.log.frames| && Decode(s.log.frames[k]).Ok?
    && Decode(s.log.frames[k]).value.payload.Kind() != Trace && SameFlood(p, Decode(s.log.frames[k]).value)
  }

  /** A stretch of time at one node. */
  datatype Window = Window(from: u64, to: u64) {
    predicate Holds(at: u64) {
      from <= at <= to
    }
  }

  function ForwardsIn(s: System, p: Packet, w: Window): set<nat> {
    set k: nat | k < |s.log.frames| && k < |s.log.touches| && w.Holds(s.log.touches[k].at) && Forwards(s, k, p)
  }

  /** All signatures a node transmitted in the window, whatever they belong to. */
  function SentIn(touches: seq<Seen>, w: Window): set<Signature> {
    set k | 0 <= k < |touches| && w.Holds(touches[k].at) :: touches[k].signature
  }

  /** The window is no longer than the TTL, and the node's cache has room for everything it sent in it. */
  ghost predicate Remembered(s: System, w: Window, cacheLen: nat) {
    w.to - w.from <= SEEN_PACKET_TTL_MS && |SentIn(s.log.touches, w)| <= cacheLen
  }

  lemma SameSignature(n: Network, s: System, origins: set<seq<u8>>, p: Packet, i: nat, j: nat)
    requires OnWire(p) && p.payload.Kind() != Trace && NodeSound(n, origins, s)
    requires Forwards(s, i, p) && Forwards(s, j, p)
    ensures s.log.touches[i].signature == s.log.touches[j].signature
  {
    DecodedOnWire(s.log.frames[i]);
    DecodedOnWire(s.log.frames[j]);
    SameFloodSamePreimage(p, Decode(s.log.frames[i]).value);
    SameFloodSamePreimage(p, Decode(s.log.frames[j]).value);
  }

  /** Two transmissions of one signature do not both fall into a remembered window. */
  lemma NoRepeatInWindow(touches: seq<Seen>, clock: u64, cacheLen: nat, w: Window, i: nat, j: nat)
    requires Sorted(touches, clock) && NoEarlyRepeat(touches, cacheLen) && i < j < |touches|
    requires w.Holds(touches[i].at) && w.Holds(touches[j].at)
    requires w.to - w.from <= SEEN_PACKET_TTL_MS && |SentIn(touches, w)| <= cacheLen
    ensures touches[i].signature != touches[j].signature
  {
    if touches[i].signature == touches[j].signature {
      var sig, between := touches[i].signature, touches[i + 1..j];
      RepeatIsLate(touches, clock, cacheLen, i, j);
      BetweenIsSent(touches, clock, w, i, j);
      assert sig in SentIn(touches, w);
      SubsetCount(Signatures(between) - {sig}, SentIn(touches, w) - {sig});
    }
  }

  lemma BetweenIsSent(touches: seq<Seen>, clock: u64, w: Window, i: nat, j: nat)
    requires Sorted(touches, clock) && i < j < |touches| && w.Holds(touches[i].at) && w.Holds(touches[j].at)
    ensures Signatures(touches[i + 1..j]) <= SentIn(touches, w)
  {
    var between := touches[i + 1..j];
    forall x: Signature | x in Signatures(between)
      ensures x in SentIn(touches, w)
    {
      var k := SignatureAt(between, x);
      assert between[k] == touches[i + 1 + k];
    }
  }

  lemma {:induction false} SignatureAt(touches: seq<Seen>, x: Signature) returns (k: nat)
    requires x in Signatures(touches)
    ensures k < |touches| && touches[k].signature == x
  {
    if Last(touches).signature == x {
      k := |touches| - 1;
    } else {
      k := SignatureAt(Front(touches), x);
    }
  }

  lemma NodeForwardsOnce(n: Network, m: MeshState, i: nat, p: Packet, w: Window)
    requires MeshInv(n, m) && i < |n.hashes| && OnWire(p) && p.payload.Kind() != Trace
    requires Remembered(m.systems[i], w, n.profiles[i].seenCacheLen)
    ensures |ForwardsIn(m.systems[i], p, w)| <= 1
  {
    hide NodeSound, Forwards, OnWire;
    var s := m.systems[i];
    assert Inv(n.profiles[i], s) && NodeSound(n, m.origins, s);
    forall a: nat, b: nat | a in ForwardsIn(s, p, w) && b in ForwardsIn(s, p, w)
      ensures a == b
    {
      SameSignature(n, s, m.origins, p, a, b);
      if a < b {
        NoRepeatInWindow(s.log.touches, s.clock, n.profiles[i].seenCacheLen, w, a, b);
      } else if b < a {
        NoRepeatInWindow(s.log.touches, s.clock, n.profiles[i].seenCacheLen, w, b, a);
      }
    }
    AtMostOne(ForwardsIn(s, p, w));
  }

  lemma AtMostOne<T>(s: set<T>)
    requires forall a, b :: a in s && b in s ==> a == b
    ensures |s| <= 1
  {
    if s != {} {
      var x :| x in s;
      assert s == {x};
    }
  }

  /** Forwards of a flood over all nodes, each counted in its own window. */
  function TotalForwards(systems: seq<System>, p: Packet, windows: seq<Window>): nat
    requires |windows| == |systems|
  {
    if systems == [] then 0
    else TotalForwards(Front(systems), p, Front(windows)) + |ForwardsIn(Last(systems), p, Last(windows))|
  }

  lemma {:induction false} SumAtMost(systems: seq<System>, p: Packet, windows: seq<Window>)
    requires |windows| == |systems|
    requires forall i :: 0 <= i < |systems| ==> |ForwardsIn(systems[i], p, windows[i])| <= 1
    ensures TotalForwards(systems, p, windows) <= |systems|
  {
    if systems == [] {
    } else {
      SumAtMost(Front(systems), p, Front(windows));
    }
  }

  /** In every run of the network, and in any window no longer than the TTL in which a node sends no more
      signatures than its cache holds, that node forwards a given flood at most once. */
  lemma FloodForwardedOnce(n: Network, m: MeshState, es: seq<MeshEvent>, p: Packet, i: nat, w: Window)
    requires MeshInit(n, m) && MeshLegal(n, m, es) && OnWire(p) && p.payload.Kind() != Trace && i < |n.hashes|
    requires Remembered(MeshRun(n, m, es).systems[i], w, n.profiles[i].seenCacheLen)
    ensures |ForwardsIn(MeshRun(n, m, es).systems[i], p, w)| <= 1
  {
    hide MeshInv, OnWire, Remembered;
    MeshRunKeeps(n, m, es);
    NodeForwardsOnce(n, MeshRun(n, m, es), i, p, w);
  }

  /** So one such window per node sees at most as many forwards of the flood as there are nodes. */
  lemma FloodForwardedAtMostN(n: Network, m: MeshState, es: seq<MeshEvent>, p: Packet, windows: seq<Window>)
    requires MeshInit(n, m) && MeshLegal(n, m, es) && OnWire(p) && p.payload.Kind() != Trace
    requires |windows| == |n.hashes|
    requires forall i :: 0 <= i < |n.hashes| ==>
               Remembered(MeshRun(n, m, es).systems[i], windows[i], n.profiles[i].seenCacheLen)
    ensures TotalForwards(MeshRun(n, m, es).systems, p, windows) <= |n.hashes|
  {
    hide OnWire, Remembered;
    var systems := MeshRun(n, m, es).systems;
    forall i | 0 <= i < |n.hashes|
      ensures |ForwardsIn(systems[i], p, windows[i])| <= 1
    {
      FloodForwardedOnce(n, m, es, p, i, windows[i]);
    }
    SumAtMost(systems, p, windows);
  }
}
