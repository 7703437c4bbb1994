/** A reply on its way back along the route its request left behind: what each node decides, and whether
    its engine then takes the packet. */
module Replies {
  import opened Bytes
  import opened Wrappers
  import opened SeenPackets
  import opened Outbound
  import opened Engine
  import opened EngineRuns
  import opened Schedules
  import opened Paths
  import opened Payloads
  import opened Packets
  import opened Forwarding
  import opened Allowed
  import opened FloodChains

  // ---------- What each node decides ----------

  /** The reply on its way back: `k` of the original hops are still ahead. */
  function Reply(request: Packet, payload: Payload, k: nat): Packet
    requires request.path.Normal? && k <= request.path.path.HopCount()
  {
    var path := request.path.path;
    Packet(Direct, None, Normal(Path(path.hashSize, Flat(Reverse(path.Hashes()[..k])))), payload)
  }

  lemma {:induction false} RoutePrefixes(hashes: seq<seq<u8>>, size: HashSize, hops: seq<Hop>,
      routes: seq<seq<seq<u8>>>)
    requires RouteChain(hashes, size, hops, routes) && routes[0] == []
    ensures |Last(routes)| == |hops|
    ensures forall i :: 0 <= i < |hops| ==> HashMatches(Last(routes)[i], hashes[hops[i].node])
  {
    if hops == [] {
    } else {
      RoutePrefixes(hashes, size, Front(hops), Front(routes));
      var last := |hops| - 1;
      assert RouteHop(hashes[hops[last].node], hops[last].config, size, routes[last], routes[last + 1]);
    }
  }

  lemma Shorter(size: nat, k: nat, n: nat)
    requires k <= n
    ensures size * k <= size * n
  {
  }

  lemma SizedSlice(path: Path, k: nat)
    requires path.Valid() && k <= path.HopCount()
    ensures var r := Path(path.hashSize, Flat(Reverse(path.Hashes()[..k])));
            r.Valid() && r.HopCount() == k && r.Hashes() == Reverse(path.Hashes()[..k])
  {
    var size := path.hashSize.Size();
    FlatOfChunks(path.bytes, size);
    ReverseSized(path.Hashes()[..k], size);
    PathOfHashes(path.hashSize, Reverse(path.Hashes()[..k]));
    FlatLength(Reverse(path.Hashes()[..k]), size);
    FlatLength(path.Hashes(), size);
    Shorter(size, k, path.HopCount());
  }

  /** With its first hop taken off, the reply with `k` hops ahead is the one with `k - 1`. */
  lemma NextReply(request: Packet, payload: Payload, k: nat)
    requires OnWire(request) && request.path.Normal? && 0 < k <= request.path.path.HopCount()
    ensures var p := Reply(request, payload, k);
            && p.path.path.Hashes() != [] && p.path.path.Hashes()[0] == request.path.path.Hashes()[k - 1]
            && p.(path := Normal(p.path.path.RemoveFirstHash())) == Reply(request, payload, k - 1)
  {
    hide Path.Validate, Chunks;
    var path := request.path.path;
    var size, hashes := path.hashSize.Size(), path.Hashes();
    WireParts(request);
    SizedSlice(path, k);
    assert hashes[..k] == hashes[..k - 1] + [hashes[k - 1]];
    ReverseAppend(hashes[..k - 1], hashes[k - 1]);
    SizedHash(path, k - 1);
    var rest := Reverse(hashes[..k - 1]);
    assert ([hashes[k - 1]] + rest)[1..] == rest;
    var bytes := Flat([hashes[k - 1]] + rest);
    assert bytes == hashes[k - 1] + Flat(rest);
    assert bytes[size..] == Flat(rest);
  }

  lemma SizedHash(path: Path, i: nat)
    requires path.Valid() && i < path.HopCount()
    ensures |path.Hashes()[i]| == path.hashSize.Size()
  {
    FlatOfChunks(path.bytes, path.hashSize.Size());
  }

  /** Packets of this payload are passed on at all, and the reply with `k` hops ahead can be sent. */
  ghost predicate Repliable(request: Packet, payload: Payload, k: nat)
    requires request.path.Normal? && k <= request.path.path.HopCount()
  {
    !payload.Kind().Reserved? && !payload.Kind().RawCustom? && OnWire(Reply(request, payload, k))
  }

  /** The node decides to forward the reply with its own hop, the first of `k + 1`, taken off. */
  ghost predicate PassedBack(h: Hashing, hash: seq<u8>, c: Config, request: Packet, payload: Payload, k: nat, snr: i16)
    requires request.path.Normal? && k < request.path.path.HopCount()
  {
    Prepare(h, c, Reply(request, payload, k + 1), snr, hash)
    == Forward(Reply(request, payload, k), ReplySignature(h, payload))
  }

  /** Every copy of the reply is signed alike: the route is not hashed. */
  function ReplySignature(h: Hashing, payload: Payload): Signature {
    match SignatureOf(h, Packet(Direct, None, Normal(EmptyPath), payload))
    case None => 0
    case Some(s) => s
  }

  lemma RepliesSignedAlike(h: Hashing, request: Packet, payload: Payload, k: nat)
    requires request.path.Normal? && k <= request.path.path.HopCount() && Repliable(request, payload, k)
    ensures SignatureOf(h, Reply(request, payload, k)) == Some(ReplySignature(h, payload))
  {
    hide Path.Validate;
    WireParts(Reply(request, payload, k));
  }

  /** The node the reply meets next takes exactly its own hop off the route and passes it on. */
  lemma ReplyStep(h: Hashing, request: Packet, payload: Payload, k: nat, hash: seq<u8>, c: Config, snr: i16)
    requires OnWire(request) && request.path.Normal? && 0 < k <= request.path.path.HopCount()
    requires HashMatches(request.path.path.Hashes()[k - 1], hash) && c.repeatEnabled && Repliable(request, payload, k)
    ensures PassedBack(h, hash, c, request, payload, k - 1, snr) && Repliable(request, payload, k - 1)
  {
    hide Path.Validate, Chunks;
    var p := Reply(request, payload, k);
    WireParts(request);
    WireParts(p);
    SizedSlice(request.path.path, k);
    NextReply(request, payload, k);
    RepliesSignedAlike(h, request, payload, k);
    DirectForwards(h, p, hash, ReplySignature(h, payload));
    DirectFits(h, p, hash);
  }

  lemma DirectForwards(h: Hashing, p: Packet, hash: seq<u8>, s: Signature)
    requires p.routeType.IsDirect() && p.path.Normal? && p.path.path.HopCount() > 0 && SignatureOf(h, p) == Some(s)
    requires HashMatches(p.path.path.Hashes()[0], hash)
    ensures PrepareDirect(h, p, hash) == Forward(p.(path := Normal(p.path.path.RemoveFirstHash())), s)
  {
  }

  lemma {:induction false} RepliableDown(h: Hashing, hashes: seq<seq<u8>>, hops: seq<Hop>, request: Packet,
      payload: Payload, k: nat)
    requires OnWire(request) && request.path.Normal? && request.path.path.HopCount() == |hops| && k <= |hops|
    requires Repliable(request, payload, |hops|) && forall i :: 0 <= i < |hops| ==> hops[i].node < |hashes|
    requires forall i :: 0 <= i < |hops| ==> HashMatches(request.path.path.Hashes()[i], hashes[hops[i].node])
    ensures Repliable(request, payload, k)
    decreases |hops| - k
  {
    hide Repliable;
    if k == |hops| {
    } else {
      RepliableDown(h, hashes, hops, request, payload, k + 1);
      var c := Config(true, false, Off, 0, 0, false, None, []);
      ReplyStep(h, request, payload, k + 1, hashes[hops[k].node], c, 0);
    }
  }

  /** Where a request has come through `hops`, the reversed route names them backwards. */
  lemma RouteNamesHops(h: Hashing, hashes: seq<seq<u8>>, hops: seq<Hop>, packets: seq<Packet>)
    requires FloodChain(h, hashes, hops, packets) && packets[0].path.Normal? && packets[0].path.path.HopCount() == 0
    ensures var request := Last(packets);
            && OnWire(request) && request.path.Normal? && request.path.path.HopCount() == |hops|
            && forall i :: 0 <= i < |hops| ==> HashMatches(request.path.path.Hashes()[i], hashes[hops[i].node])
  {
    ChainIsRoute(h, hashes, hops, packets);
    RoutePrefixes(hashes, packets[0].path.path.hashSize, hops, RoutesOf(packets));
  }

  /** The request came through `hops` from a fresh flood, and a reply with this payload can be sent back. */
  ghost predicate Returning(h: Hashing, hashes: seq<seq<u8>>, hops: seq<Hop>, packets: seq<Packet>, payload: Payload) {
    && FloodChain(h, hashes, hops, packets) && packets[0].path.Normal? && packets[0].path.path.HopCount() == 0
    && Last(packets).path.Normal? && Last(packets).path.path.HopCount() == |hops|
    && Repliable(Last(packets), payload, |hops|)
  }

  /** A reply sent with the reversed route of a request that arrived through `hops` starts out with the
      whole way ahead; the last of those nodes decides to pass it on, then the one before, down to the
      first, each under whatever configuration it then has; and only then has it no hops left. */
  lemma ReplyNamesEachHop(h: Hashing, hashes: seq<seq<u8>>, hops: seq<Hop>, packets: seq<Packet>, payload: Payload,
      back: seq<Config>, snr: i16)
    requires Returning(h, hashes, hops, packets, payload)
    requires |back| == |hops| && forall i :: 0 <= i < |back| ==> back[i].repeatEnabled
    ensures var request := Last(packets);
            && Packet(Direct, None, Normal(request.path.path.Reversed()), payload) == Reply(request, payload, |hops|)
            && (forall k :: 0 <= k <= |hops| ==> Reply(request, payload, k).path.path.HopCount() == k)
            && (forall k :: 0 <= k < |hops| ==>
                  hops[k].node < |hashes| && PassedBack(h, hashes[hops[k].node], back[k], request, payload, k, snr))
  {
    hide Repliable, PassedBack, PassesFlood, OnWire;
    var request := Last(packets);
    RouteNamesHops(h, hashes, hops, packets);
    WireParts(request);
    assert request.path.path.Hashes()[..|hops|] == request.path.path.Hashes();
    forall k | 0 <= k <= |hops|
      ensures Reply(request, payload, k).path.path.HopCount() == k
    {
      SizedSlice(request.path.path, k);
    }
    forall k | 0 <= k < |hops|
      ensures hops[k].node < |hashes| && PassedBack(h, hashes[hops[k].node], back[k], request, payload, k, snr)
    {
      RepliableDown(h, hashes, hops, request, payload, k + 1);
      ReplyStep(h, request, payload, k + 1, hashes[hops[k].node], back[k], snr);
    }
  }

  // ---------- What the engine then does ----------

  /** The node knows nothing of the signature. */
  ghost predicate Free(p: Profile, s: System, sig: Signature) {
    !Holds(p, s, sig, s.clock)
  }

  /** Only a forward of that signature changes that. */
  lemma StepStaysFree(p: Profile, s: System, e: Event, sig: Signature)
    requires Inv(p, s) && Enabled(s, e) && Free(p, s, sig) && (e.HandlerForward? ==> e.signature != sig)
    ensures Free(p, Step(p, s, e), sig)
  {
    var s' := Step(p, s, e);
    ForgottenLater(p, s, sig, s'.clock);
    match e
    case HandlerForward(_, _, _, _, _) =>
      ForwardCases(p, s.core, e.packet, e.delay, e.signature, e.t1, e.t2);
    case HandlerReply(_, _, _, _) =>
    case RadioStart(_, _, _, _) =>
      StartedPending(p, s.core, Decided(s.core, s.budget, e.settings, e.duty, e.repeat, e.t1).0, e.t1, sig);
    case RadioEnd(_, _, _, _) => EndStaysFree(p, s, e, sig);
    case RadioPoll(_, _) =>
  }

  lemma ForgottenLater(p: Profile, s: System, sig: Signature, now: u64)
    requires Free(p, s, sig) && s.clock <= now
    ensures !Remembers(s.log.touches, SEEN_PACKET_TTL_MS, p.seenCacheLen, sig, now)
  {
  }

  lemma RemovedIn<T>(s: seq<T>, x: T, y: T)
    requires y in Removed(s, x)
    ensures y in s
  {
  }

  lemma StartedPending(p: Profile, c: Core, d: Decision, now: u64, sig: Signature)
    requires (d != Wait ==> c.queue != []) && sig !in c.pending
    ensures sig !in Started(p, c, d, now).pending
  {
    if d.Discard? && d.item.signature.Some? && sig in Started(p, c, d, now).pending {
      RemovedIn(c.pending, d.item.signature.value, sig);
    }
  }

  /** What is transmitted was reserved. */
  lemma InFlightReserved(core: Core, radio: RadioTask)
    requires ReservationsExact(core, radio) && radio.Sending? && radio.item.signature.Some?
    ensures radio.item.signature.value in core.pending
  {
    assert radio.item.signature.value in Count(core.pending);
  }

  lemma EndStaysFree(p: Profile, s: System, e: Event, sig: Signature)
    requires Inv(p, s) && Enabled(s, e) && Free(p, s, sig) && e.RadioEnd?
    ensures Free(p, Step(p, s, e), sig)
  {
    hide ReservationsExact, QueueInOrder, BudgetSound, HistorySound, Conserved, Remembers;
    var s', own := Step(p, s, e), s.radio.item.signature;
    ForgottenLater(p, s, sig, s'.clock);
    EndedPending(p, s.core, s.radio.item, e, sig);
    if e.ok && own.Some? {
      InFlightReserved(s.core, s.radio);
      Forgotten(s.log.touches, SEEN_PACKET_TTL_MS, p.seenCacheLen, sig, s.clock, Seen(own.value, e.t1), e.t2);
    }
  }

  lemma EndedPending(p: Profile, c: Core, item: QueuedTransmit, e: Event, sig: Signature)
    requires e.RadioEnd? && sig !in c.pending
    ensures sig !in Ended(p, c, item, e.ok, e.retryDelay, e.t1).pending
  {
    if item.signature.Some? && sig in Removed(c.pending, item.signature.value) {
      RemovedIn(c.pending, item.signature.value, sig);
    }
  }

  predicate NoForwardOf(es: seq<Event>, sig: Signature) {
    forall i :: 0 <= i < |es| && es[i].HandlerForward? ==> es[i].signature != sig
  }

  lemma {:induction false} RunStaysFree(p: Profile, s: System, es: seq<Event>, sig: Signature)
    requires Inv(p, s) && Legal(p, s, es) && Free(p, s, sig) && NoForwardOf(es, sig)
    ensures Free(p, Run(p, s, es), sig)
  {
    hide Inv, Free, Step, Enabled;
    if es == [] {
    } else {
      RunStaysFree(p, s, Front(es), sig);
      RunKeeps(p, s, Front(es));
      StepStaysFree(p, Run(p, s, Front(es)), Last(es), sig);
    }
  }

  /** A node while the reply is on its way: where it started and everything its two sides did. */
  datatype Relay = Relay(profile: Profile, start: System, es: seq<Event>)

  ghost predicate RelaySound(r: Relay, sig: Signature) {
    Inv(r.profile, r.start) && Legal(r.profile, r.start, r.es) && Free(r.profile, r.start, sig)
  }

  /** The state in which the node handles its event number `i`. */
  ghost function Before(r: Relay, i: nat): System
    requires Legal(r.profile, r.start, r.es) && i <= |r.es|
  {
    PrefixLegal(r.profile, r.start, r.es, i);
    Run(r.profile, r.start, r.es[..i])
  }

  /** The node that is named for hop `k` handles exactly the packet it decided to pass on. */
  ghost predicate HandlesPass(h: Hashing, r: Relay, i: nat, request: Packet, payload: Payload, k: nat)
    requires request.path.Normal? && k <= request.path.path.HopCount()
  {
    && i < |r.es| && r.es[i].HandlerForward? && r.es[i].signature == ReplySignature(h, payload)
    && Reply(request, payload, k).Encode() == Ok(r.es[i].packet)
  }

  ghost predicate TakesPass(r: Relay, i: nat)
    requires Legal(r.profile, r.start, r.es) && i < |r.es|
  {
    r.es[i].HandlerForward? && Accepted(r.profile, Before(r, i), r.es[i])
  }

  /** A node that has handled no forward of the signature before takes this one if its queue has room. */
  lemma FirstPassTaken(r: Relay, sig: Signature, i: nat)
    requires RelaySound(r, sig) && i < |r.es| && r.es[i].HandlerForward? && r.es[i].signature == sig
    requires NoForwardOf(r.es[..i], sig) && HasRoom(r.profile, Before(r, i).core)
    ensures TakesPass(r, i)
  {
    hide Inv, Step, Accepted, Remembers;
    var s := Before(r, i);
    PrefixLegal(r.profile, r.start, r.es, i);
    RunKeeps(r.profile, r.start, r.es[..i]);
    RunStaysFree(r.profile, r.start, r.es[..i], sig);
    ForgottenLater(r.profile, s, sig, r.es[i].t1);
    AcceptedExactly(r.profile, s, r.es[i]);
  }

  /** Among the forwards that node `v` handles, those of the reply's signature are its own passes, `at[k]`
      being the place of pass `k` among the events of its node. */
  ghost predicate OnlyTheReply(hops: seq<Hop>, r: Relay, v: nat, at: seq<nat>, sig: Signature)
    requires |at| == |hops|
  {
    forall i :: 0 <= i < |r.es| && r.es[i].HandlerForward? && r.es[i].signature == sig ==>
      exists k :: 0 <= k < |hops| && hops[k].node == v && at[k] == i
  }

  ghost predicate NodesDistinct(hops: seq<Hop>) {
    forall j, k :: 0 <= j < k < |hops| ==> hops[j].node != hops[k].node
  }

  lemma NoEarlierPass(hops: seq<Hop>, r: Relay, at: seq<nat>, sig: Signature, k: nat)
    requires NodesDistinct(hops) && k < |hops| == |at| && at[k] <= |r.es|
    requires OnlyTheReply(hops, r, hops[k].node, at, sig)
    ensures NoForwardOf(r.es[..at[k]], sig)
  {
    var es := r.es[..at[k]];
    forall i | 0 <= i < |es| && es[i].HandlerForward?
      ensures es[i].signature != sig
    {
      assert es[i] == r.es[i];
    }
  }

  /** Each named node did not know the reply's signature when the reply set off, handles nothing of that
      signature but its passes, and has room in its queue at each. */
  ghost predicate RelaysReady(h: Hashing, hops: seq<Hop>, relays: seq<Relay>, at: seq<nat>, request: Packet,
      payload: Payload)
    requires request.path.Normal? && request.path.path.HopCount() == |hops|
  {
    |at| == |hops| && forall k :: 0 <= k < |hops| ==>
      hops[k].node < |relays| && RelayReady(h, hops, relays[hops[k].node], at, request, payload, k)
  }

  ghost predicate RelayReady(h: Hashing, hops: seq<Hop>, r: Relay, at: seq<nat>, request: Packet,
      payload: Payload, k: nat)
    requires request.path.Normal? && k < request.path.path.HopCount() && k < |hops| == |at|
  {
    && RelaySound(r, ReplySignature(h, payload)) && OnlyTheReply(hops, r, hops[k].node, at, ReplySignature(h, payload))
    && HandlesPass(h, r, at[k], request, payload, k) && HasRoom(r.profile, Before(r, at[k]).core)
  }

  lemma PassTaken(h: Hashing, hops: seq<Hop>, relays: seq<Relay>, at: seq<nat>, request: Packet,
      payload: Payload, k: nat)
    requires request.path.Normal? && request.path.path.HopCount() == |hops| && k < |hops| && NodesDistinct(hops)
    requires RelaysReady(h, hops, relays, at, request, payload)
    ensures |at| == |hops| && hops[k].node < |relays| && RelaySound(relays[hops[k].node], ReplySignature(h, payload))
    ensures at[k] < |relays[hops[k].node].es| && TakesPass(relays[hops[k].node], at[k])
  {
    hide Inv, Free, Accepted, Before, HasRoom, Reply;
    assert RelayReady(h, hops, relays[hops[k].node], at, request, payload, k);
    NoEarlierPass(hops, relays[hops[k].node], at, ReplySignature(h, payload), k);
    FirstPassTaken(relays[hops[k].node], ReplySignature(h, payload), at[k]);
  }

  /** Pass `k` happens: the node named decides to pass the reply on, and its engine takes it. */
  ghost predicate Passes(h: Hashing, hashes: seq<seq<u8>>, hops: seq<Hop>, relays: seq<Relay>,
      at: seq<nat>, back: seq<Config>,
      request: Packet, payload: Payload, k: nat, snr: i16)
    requires request.path.Normal? && k < request.path.path.HopCount() && k < |hops| == |at| == |back|
  {
    && hops[k].node < |hashes| == |relays| && PassedBack(h, hashes[hops[k].node], back[k], request, payload, k, snr)
    && HandlesPass(h, relays[hops[k].node], at[k], request, payload, k)
    && RelaySound(relays[hops[k].node], ReplySignature(h, payload)) && TakesPass(relays[hops[k].node], at[k])
  }

  /** A reply retraces its request.  Sent on the reversed route of a flood that came through pairwise
      distinct nodes which do not know its signature and handle no other packet of it, it is not only
      passed on by the decision of each of them: each takes it into its queue, provided there is room, as
      the copy with exactly its own hop taken off. */
  lemma ReplyRetraces(h: Hashing, hashes: seq<seq<u8>>, hops: seq<Hop>, packets: seq<Packet>, payload: Payload,
      back: seq<Config>, snr: i16, relays: seq<Relay>, at: seq<nat>)
    requires Returning(h, hashes, hops, packets, payload) && NodesDistinct(hops)
    requires |back| == |hops| && forall i :: 0 <= i < |back| ==> back[i].repeatEnabled
    requires |relays| == |hashes| && RelaysReady(h, hops, relays, at, Last(packets), payload)
    ensures |at| == |hops|
    ensures forall k :: 0 <= k < |hops| ==> Passes(h, hashes, hops, relays, at, back, Last(packets), payload, k, snr)
  {
    hide PassesFlood, OnWire, Repliable, PassedBack, TakesPass, Before, HasRoom, RelaySound, HandlesPass, Reply;
    ReplyNamesEachHop(h, hashes, hops, packets, payload, back, snr);
    forall k | 0 <= k < |hops|
      ensures Passes(h, hashes, hops, relays, at, back, Last(packets), payload, k, snr)
    {
      PassTaken(h, hops, relays, at, Last(packets), payload, k);
    }
  }

  // ---------- A route that names one node twice ----------

  /** While a node holds the signature it refuses the reply, and its queue and reservations stay as they
      were: a pass that it has reserved or transmitted is not followed by another. */
  lemma HeldIsRefused(p: Profile, s: System, e: Event)
    requires Inv(p, s) && Enabled(s, e) && e.HandlerForward? && Holds(p, s, e.signature, e.t1)
    ensures !Accepted(p, s, e)
    ensures Step(p, s, e).core.queue == s.core.queue && Step(p, s, e).core.pending == s.core.pending
  {
    AcceptedExactly(p, s, e);
  }

  /** Two passes in a row at one node: the second is dropped as a duplicate. */
  lemma SecondPassRefused(p: Profile, s: System, first: Event, second: Event)
    requires Inv(p, s) && Enabled(s, first) && first.HandlerForward? && Accepted(p, s, first)
    requires Enabled(Step(p, s, first), second) && second.HandlerForward? && second.signature == first.signature
    ensures var s' := Step(p, s, first);
            !Accepted(p, s', second) && Step(p, s', second).core.queue == s'.core.queue
  {
    hide Inv, Enabled, Accepted;
    AcceptedExactly(p, s, first);
    StepKeeps(p, s, first);
    assert first.signature in Step(p, s, first).core.pending;
    HeldIsRefused(p, Step(p, s, first), second);
  }

  /** A plain flood fresh from its origin, with one-byte hops, at a node in minimal mode. */
  predicate Loopable(c: Config, p: Packet, hash: seq<u8>) {
    && p.routeType == Flood && p.path.Normal? && p.path.path.HopCount() == 0
    && p.path.path.hashSize == One && hash != []
    && c.loopDetection == Minimal && !c.regionCapture && !c.wildcardDenied && c.maxUnscopedHops >= 2
    && c.maxAdvertHops >= 2
  }

  /** Such a node passes a flood on twice in a row, so there are requests whose reversed route names a
      node twice; on it, by the lemma above, the reply is dropped at the second pass. */
  lemma RouteNamesNodeTwice(h: Hashing, c: Config, p: Packet, hash: seq<u8>) returns (packets: seq<Packet>)
    requires OnWire(p) && Loopable(c, p, hash)
    ensures FloodChain(h, [hash], [Hop(0, c), Hop(0, c)], packets) && packets[0] == p
    ensures Last(packets).path.Normal? && Last(packets).path.path.HopCount() == 2
    ensures !NodesDistinct([Hop(0, c), Hop(0, c)])
  {
    hide OnWire, Loopable, PassesFlood;
    var q := FirstPass(h, c, p, hash);
    var r := NextPass(h, c, p, q, hash);
    packets := [p, q, r];
    var hops := [Hop(0, c), Hop(0, c)];
    assert hops[0].node == hops[1].node;
    assert PassesFlood(h, hash, c, packets[0], packets[1]) && PassesFlood(h, hash, c, packets[1], packets[2]);
  }

  lemma FirstPass(h: Hashing, c: Config, p: Packet, hash: seq<u8>) returns (q: Packet)
    requires OnWire(p) && Loopable(c, p, hash)
    ensures PassesFlood(h, hash, c, p, q) && OnWire(q) && q.routeType == Flood && q.payload == p.payload
    ensures q.path.Normal? && q.path.path.HopCount() == 1 && q.path.path.hashSize == One
  {
    hide OnWire, PrepareFlood, Chunks;
    PlainFloodExactly(h, c, p, hash);
    q := PrepareFlood(h, c, p, hash).packet;
    FloodHop(h, c, p, hash);
    PlainStays(h, c, p, hash);
  }

  lemma NextPass(h: Hashing, c: Config, p: Packet, q: Packet, hash: seq<u8>) returns (r: Packet)
    requires OnWire(q) && Loopable(c, p, hash) && q.routeType == Flood && q.payload == p.payload
    requires q.path.Normal? && q.path.path.HopCount() == 1 && q.path.path.hashSize == One
    ensures PassesFlood(h, hash, c, q, r) && r.path.Normal? && r.path.path.HopCount() == 2
  {
    hide OnWire, PrepareFlood, Chunks;
    OwnIsOwnHops(q.path.path, hash);
    PlainFloodExactly(h, c, q, hash);
    r := PrepareFlood(h, c, q, hash).packet;
    FloodHop(h, c, q, hash);
  }

  lemma PlainStays(h: Hashing, c: Config, p: Packet, hash: seq<u8>)
    requires PrepareFlood(h, c, p, hash).Sends() && p.routeType == Flood && !c.regionCapture
    ensures PrepareFlood(h, c, p, hash).packet.routeType == Flood
    ensures PrepareFlood(h, c, p, hash).packet.payload == p.payload
  {
  }
}
