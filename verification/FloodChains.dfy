/** Chains of flood forwards: how far a flood can travel, and what loop detection does to it.  Every hop is
    made under the configuration the node had at that moment. */
module FloodChains {
  import opened Bytes
  import opened Wrappers
  import opened SeenPackets
  import opened Paths
  import opened Payloads
  import opened Packets
  import opened Forwarding

  datatype Hop = Hop(node: nat, config: Config)

  ghost predicate PassesFlood(h: Hashing, hash: seq<u8>, c: Config, p: Packet, q: Packet) {
    PrepareFlood(h, c, p, hash).Sends() && PrepareFlood(h, c, p, hash).packet == q
  }

  /** `packets` is a flood passed on by `hops[0]`, then `hops[1]`, and so on, among nodes with these hashes. */
  ghost predicate FloodChain(h: Hashing, hashes: seq<seq<u8>>, hops: seq<Hop>, packets: seq<Packet>) {
    && |packets| == |hops| + 1 && OnWire(packets[0])
    && forall i :: 0 <= i < |hops| ==>
         hops[i].node < |hashes| && PassesFlood(h, hashes[hops[i].node], hops[i].config, packets[i], packets[i + 1])
  }

  lemma ExtendChain(h: Hashing, hashes: seq<seq<u8>>, hops: seq<Hop>, packets: seq<Packet>, hop: Hop, q: Packet)
    requires FloodChain(h, hashes, hops, packets) && hop.node < |hashes|
    requires PassesFlood(h, hashes[hop.node], hop.config, Last(packets), q)
    ensures FloodChain(h, hashes, hops + [hop], packets + [q])
  {
    hide PassesFlood, OnWire;
    var hops', packets' := hops + [hop], packets + [q];
    forall i | 0 <= i < |hops'|
      ensures hops'[i].node < |hashes|
      ensures PassesFlood(h, hashes[hops'[i].node], hops'[i].config, packets'[i], packets'[i + 1])
    {
      if i < |hops| {
        assert hops'[i] == hops[i] && packets'[i] == packets[i] && packets'[i + 1] == packets[i + 1];
      } else {
        assert hops'[i] == hop && packets'[i] == Last(packets) && packets'[i + 1] == q;
      }
    }
  }

  /** The routes a chain leaves behind: each node adds its own prefix, below its threshold. */
  ghost predicate RouteChain(hashes: seq<seq<u8>>, size: HashSize, hops: seq<Hop>, routes: seq<seq<seq<u8>>>) {
    && |routes| == |hops| + 1
    && forall i :: 0 <= i < |hops| ==>
         hops[i].node < |hashes| && RouteHop(hashes[hops[i].node], hops[i].config, size, routes[i], routes[i + 1])
  }

  ghost predicate RouteHop(hash: seq<u8>, c: Config, size: HashSize, before: seq<seq<u8>>, after: seq<seq<u8>>) {
    var t := c.loopDetection.Threshold(size);
    && after != [] && Front(after) == before && HashMatches(Last(after), hash)
    && (t.Some? ==> Own(before, hash) < t.value)
  }

  function RouteOf(p: Packet): seq<seq<u8>> {
    if p.path.Normal? then p.path.path.Hashes() else []
  }

  function RoutesOf(packets: seq<Packet>): (r: seq<seq<seq<u8>>>)
    ensures |r| == |packets| && forall i :: 0 <= i < |r| ==> r[i] == RouteOf(packets[i])
  {
    seq(|packets|, i requires 0 <= i < |packets| => RouteOf(packets[i]))
  }

  lemma HopOnRoute(h: Hashing, hash: seq<u8>, c: Config, p: Packet, q: Packet)
    requires OnWire(p) && PassesFlood(h, hash, c, p, q)
    ensures OnWire(q) && p.path.Normal? && q.path.Normal? && q.path.path.hashSize == p.path.path.hashSize
    ensures RouteHop(hash, c, p.path.path.hashSize, RouteOf(p), RouteOf(q))
    ensures q.path.path.HopCount() <= 63 && |q.path.path.bytes| <= 64
  {
    hide OnWire, PrepareFlood;
    FloodHop(h, c, p, hash);
    assert Front(q.path.path.Hashes()) == p.path.path.Hashes();
  }

  lemma {:induction false} ChainOnWire(h: Hashing, hashes: seq<seq<u8>>, hops: seq<Hop>, packets: seq<Packet>, i: nat)
    requires FloodChain(h, hashes, hops, packets) && packets[0].path.Normal? && i <= |hops|
    ensures OnWire(packets[i]) && packets[i].path.Normal?
    ensures packets[i].path.path.hashSize == packets[0].path.path.hashSize
  {
    hide OnWire, PassesFlood, RouteHop;
    if i == 0 {
    } else {
      ChainOnWire(h, hashes, hops, packets, i - 1);
      HopOnRoute(h, hashes[hops[i - 1].node], hops[i - 1].config, packets[i - 1], packets[i]);
    }
  }

  lemma ChainIsRoute(h: Hashing, hashes: seq<seq<u8>>, hops: seq<Hop>, packets: seq<Packet>)
    requires FloodChain(h, hashes, hops, packets) && packets[0].path.Normal?
    ensures RouteChain(hashes, packets[0].path.path.hashSize, hops, RoutesOf(packets))
    ensures OnWire(Last(packets)) && Last(packets).path.Normal?
    ensures Last(packets).path.path.hashSize == packets[0].path.path.hashSize
    ensures Last(RoutesOf(packets)) == Last(packets).path.path.Hashes()
    ensures Last(packets).path.path.HopCount() <= 63
  {
    hide PassesFlood, RouteHop;
    forall i | 0 <= i < |hops|
      ensures RouteHop(hashes[hops[i].node], hops[i].config, packets[0].path.path.hashSize,
                       RoutesOf(packets)[i], RoutesOf(packets)[i + 1])
    {
      ChainOnWire(h, hashes, hops, packets, i);
      HopOnRoute(h, hashes[hops[i].node], hops[i].config, packets[i], packets[i + 1]);
    }
    ChainOnWire(h, hashes, hops, packets, |hops|);
    WireParts(Last(packets));
  }

  // ---------- How often a node appears ----------

  function Times(hops: seq<Hop>, v: nat): (n: nat) {
    if hops == [] then 0 else Times(Front(hops), v) + if Last(hops).node == v then 1 else 0
  }

  /** Whenever the node passed the flood on, loop detection was on with a threshold of at most `bound`. */
  ghost predicate Capped(hops: seq<Hop>, size: HashSize, v: nat, bound: nat) {
    forall i :: 0 <= i < |hops| && hops[i].node == v ==> ThresholdWithin(hops[i].config, size, bound)
  }

  predicate ThresholdWithin(c: Config, size: HashSize, bound: nat) {
    c.loopDetection.Threshold(size).Some? && c.loopDetection.Threshold(size).value <= bound
  }

  /** Along a chain the route grows by one hop a step, and every node's appearances are on it. */
  lemma {:induction false} RouteGrows(hashes: seq<seq<u8>>, size: HashSize, hops: seq<Hop>, routes: seq<seq<seq<u8>>>,
      v: nat)
    requires RouteChain(hashes, size, hops, routes) && v < |hashes|
    ensures |Last(routes)| == |routes[0]| + |hops|
    ensures Times(hops, v) <= Own(Last(routes), hashes[v])
  {
    if hops == [] {
    } else {
      RouteGrows(hashes, size, Front(hops), Front(routes), v);
      var last := |hops| - 1;
      assert RouteHop(hashes[hops[last].node], hops[last].config, size, routes[last], routes[last + 1]);
    }
  }

  /** A node appears on a chain at most as often as its threshold. */
  lemma {:induction false} AppearancesBounded(hashes: seq<seq<u8>>, size: HashSize, hops: seq<Hop>,
      routes: seq<seq<seq<u8>>>, v: nat, bound: nat)
    requires RouteChain(hashes, size, hops, routes) && v < |hashes| && Capped(hops, size, v, bound)
    ensures Times(hops, v) <= bound
  {
    if hops == [] {
    } else {
      AppearancesBounded(hashes, size, Front(hops), Front(routes), v, bound);
      RouteGrows(hashes, size, Front(hops), Front(routes), v);
      var last := |hops| - 1;
      assert RouteHop(hashes[hops[last].node], hops[last].config, size, routes[last], routes[last + 1]);
    }
  }

  function SumOf(bounds: seq<nat>): nat {
    if bounds == [] then 0 else SumOf(Front(bounds)) + Last(bounds)
  }

  function TotalTimes(hops: seq<Hop>, n: nat): nat {
    if n == 0 then 0 else TotalTimes(hops, n - 1) + Times(hops, n - 1)
  }

  lemma {:induction false} TotalOfFront(hops: seq<Hop>, n: nat)
    requires hops != []
    ensures TotalTimes(hops, n) == TotalTimes(Front(hops), n) + if Last(hops).node < n then 1 else 0
  {
    if n == 0 {
    } else {
      TotalOfFront(hops, n - 1);
    }
  }

  lemma {:induction false} TotalOfNone(n: nat)
    ensures TotalTimes([], n) == 0
  {
    if n == 0 {
    } else {
      TotalOfNone(n - 1);
    }
  }

  lemma {:induction false} TotalIsLength(hops: seq<Hop>, n: nat)
    requires forall i :: 0 <= i < |hops| ==> hops[i].node < n
    ensures TotalTimes(hops, n) == |hops|
  {
    if hops == [] {
      TotalOfNone(n);
    } else {
      TotalIsLength(Front(hops), n);
      TotalOfFront(hops, n);
    }
  }

  lemma {:induction false} TotalBounded(hashes: seq<seq<u8>>, size: HashSize, hops: seq<Hop>,
      routes: seq<seq<seq<u8>>>, bounds: seq<nat>)
    requires RouteChain(hashes, size, hops, routes) && |bounds| <= |hashes|
    requires forall v :: 0 <= v < |bounds| ==> Capped(hops, size, v, bounds[v])
    ensures TotalTimes(hops, |bounds|) <= SumOf(bounds)
  {
    if bounds == [] {
    } else {
      TotalBounded(hashes, size, hops, routes, Front(bounds));
      AppearancesBounded(hashes, size, hops, routes, |bounds| - 1, Last(bounds));
    }
  }

  /** A node whose loop detection was on whenever it passed the flood on did so at most as often as its
      largest threshold; when that is so of every node the chain is at most as long as those thresholds
      together; and no chain goes past 63 hops. */
  lemma ChainLengthBounded(h: Hashing, hashes: seq<seq<u8>>, hops: seq<Hop>, packets: seq<Packet>, bounds: seq<nat>)
    requires FloodChain(h, hashes, hops, packets) && packets[0].path.Normal? && |bounds| == |hashes|
    ensures packets[0].path.path.HopCount() + |hops| <= 63
    ensures forall v :: 0 <= v < |hashes| && Capped(hops, packets[0].path.path.hashSize, v, bounds[v]) ==>
              Times(hops, v) <= bounds[v]
    ensures (forall v :: 0 <= v < |hashes| ==> Capped(hops, packets[0].path.path.hashSize, v, bounds[v])) ==>
              |hops| <= SumOf(bounds)
  {
    hide PassesFlood, RouteHop, OnWire;
    var size, routes := packets[0].path.path.hashSize, RoutesOf(packets);
    ChainIsRoute(h, hashes, hops, packets);
    if hops != [] {
      RouteGrows(hashes, size, hops, routes, hops[0].node);
    }
    forall v | 0 <= v < |hashes| && Capped(hops, size, v, bounds[v])
      ensures Times(hops, v) <= bounds[v]
    {
      AppearancesBounded(hashes, size, hops, routes, v, bounds[v]);
    }
    TotalIsLength(hops, |hashes|);
    if forall v :: 0 <= v < |hashes| ==> Capped(hops, size, v, bounds[v]) {
      TotalBounded(hashes, size, hops, routes, bounds);
    }
  }
}
