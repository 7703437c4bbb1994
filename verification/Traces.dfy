/** Trace packets: each listed node passes the packet on once, in the listed order, adding its sample. */
module Traces {
  import opened Bytes
  import opened Wrappers
  import opened Paths
  import opened Payloads
  import opened Packets
  import opened Forwarding

  /** The hash the trace names for its `k`-th hop. */
  function NamedHop(p: Packet, k: nat): seq<u8>
    requires p.payload.TracePayload? && (k + 1) * p.payload.hashSize.Size() <= |p.payload.pathHashes|
  {
    var size := p.payload.hashSize.Size();
    assert k * size <= (k + 1) * size;
    assert (k + 1) * size == k * size + size;
    p.payload.pathHashes[k * size..(k + 1) * size]
  }

  /** One trace hop: it was this node's turn, the sample goes on the end, and the packet hashes anew. */
  ghost predicate TraceHop(p: Packet, q: Packet, hash: seq<u8>, snr: i16) {
    && p.path.TraceRoute? && q.path.TraceRoute? && p.payload.TracePayload? && q.payload == p.payload
    && q.routeType == p.routeType && q.codes == p.codes
    && q.path.consumedHops == p.path.consumedHops + 1
    && q.path.samples == p.path.samples + [ClampSample(snr)]
    && (p.path.consumedHops + 1) * p.payload.hashSize.Size() <= |p.payload.pathHashes|
    && HashMatches(NamedHop(p, p.path.consumedHops), hash)
  }

  lemma ForwardIsTraceHop(h: Hashing, p: Packet, hash: seq<u8>, snr: i16)
    requires OnWire(p) && PrepareTrace(h, p, snr, hash).Sends()
    ensures var q := PrepareTrace(h, p, snr, hash).packet;
            OnWire(q) && TraceHop(p, q, hash, snr)
  {
    TraceFits(h, p, snr, hash);
    WireParts(p);
    var size, k := p.payload.hashSize.Size(), p.path.consumedHops;
    assert (k + 1) * size == k * size + size;
  }

  /** `packets` is a trace passed on by `hops[0]`, then `hops[1]`, and so on. */
  ghost predicate TraceChain(h: Hashing, hashes: seq<seq<u8>>, hops: seq<nat>, snrs: seq<i16>, packets: seq<Packet>) {
    && |packets| == |hops| + 1 && |snrs| == |hops| && OnWire(packets[0])
    && packets[0].path.TraceRoute? && packets[0].payload.TracePayload?
    && forall i :: 0 <= i < |hops| ==>
         && hops[i] < |hashes|
         && PrepareTrace(h, packets[i], snrs[i], hashes[hops[i]]).Sends()
         && PrepareTrace(h, packets[i], snrs[i], hashes[hops[i]]).packet == packets[i + 1]
  }

  function Samples(snrs: seq<i16>): (r: seq<i8>)
    ensures |r| == |snrs|
  {
    if snrs == [] then [] else Samples(snrs[..|snrs| - 1]) + [ClampSample(snrs[|snrs| - 1])]
  }

  lemma {:induction false} ChainState(h: Hashing, hashes: seq<seq<u8>>, hops: seq<nat>, snrs: seq<i16>,
      packets: seq<Packet>, i: nat)
    requires TraceChain(h, hashes, hops, snrs, packets) && i <= |hops|
    ensures OnWire(packets[i]) && packets[i].path.TraceRoute? && packets[i].payload == packets[0].payload
    ensures packets[i].routeType == packets[0].routeType && packets[i].codes == packets[0].codes
    ensures packets[i].path.consumedHops == packets[0].path.consumedHops + i
    ensures packets[i].path.samples == packets[0].path.samples + Samples(snrs[..i])
  {
    if i == 0 {
      assert snrs[..0] == [] && packets[0].path.samples + [] == packets[0].path.samples;
    } else {
      ChainState(h, hashes, hops, snrs, packets, i - 1);
      ForwardIsTraceHop(h, packets[i - 1], hashes[hops[i - 1]], snrs[i - 1]);
      assert snrs[..i][..i - 1] == snrs[..i - 1];
      AppendAssociates(packets[0].path.samples, Samples(snrs[..i - 1]), ClampSample(snrs[i - 1]));
    }
  }

  lemma AppendAssociates(a: seq<i8>, b: seq<i8>, x: i8)
    ensures a + b + [x] == a + (b + [x])
  {
  }

  /** What is hashed of a trace off the wire contains how many hops it has behind it. */
  lemma PreimageCounts(p: Packet)
    requires OnWire(p) && p.path.TraceRoute? && p.payload.TracePayload?
    ensures p.DedupPreimage().Ok?
    ensures var at := 2 + if p.codes.Some? then 2 else 0;
            |p.DedupPreimage().value| > at && p.DedupPreimage().value[at] == p.path.consumedHops
  {
    WireParts(p);
    var head := [p.payload.Kind().Nibble(), p.routeType.Bits()] +
                 (if p.codes.Some? then ToLe(p.codes.value.primary, 2) else []);
    var count: u8 := p.path.consumedHops;
    var body := p.payload.Encode().value;
    assert p.DedupPreimage() == Ok(head + [count] + body);
    assert (head + [count] + body)[|head|] == count;
  }

  /** A trace visits the nodes it names, in order, each adding its sample at the end, and never goes past
      the last one named. */
  lemma TraceFollowsItsList(h: Hashing, hashes: seq<seq<u8>>, hops: seq<nat>, snrs: seq<i16>, packets: seq<Packet>)
    requires TraceChain(h, hashes, hops, snrs, packets)
    ensures forall i :: 0 <= i < |hops| ==> TraceHop(packets[i], packets[i + 1], hashes[hops[i]], snrs[i])
    ensures var last := packets[|hops|];
            && last.path.TraceRoute? && last.path.consumedHops == packets[0].path.consumedHops + |hops|
            && last.path.samples == packets[0].path.samples + Samples(snrs) && last.payload == packets[0].payload
            && (hops != [] ==> last.path.consumedHops * last.payload.hashSize.Size() <= |last.payload.pathHashes|)
  {
    hide PrepareTrace, OnWire;
    forall i | 0 <= i < |hops|
      ensures TraceHop(packets[i], packets[i + 1], hashes[hops[i]], snrs[i])
    {
      ChainState(h, hashes, hops, snrs, packets, i);
      ForwardIsTraceHop(h, packets[i], hashes[hops[i]], snrs[i]);
    }
    ChainState(h, hashes, hops, snrs, packets, |hops|);
    assert snrs[..|hops|] == snrs;
    if hops != [] {
      assert TraceHop(packets[|hops| - 1], packets[|hops|], hashes[hops[|hops| - 1]], snrs[|hops| - 1]);
    }
  }

  /** No two hops of a trace hash alike, so deduplication does not stop it on the way. */
  lemma TraceHashesAnew(h: Hashing, hashes: seq<seq<u8>>, hops: seq<nat>, snrs: seq<i16>, packets: seq<Packet>, i: nat,
      j: nat)
    requires TraceChain(h, hashes, hops, snrs, packets) && i < j <= |hops|
    ensures packets[i].DedupPreimage() != packets[j].DedupPreimage()
  {
    hide PrepareTrace, OnWire;
    ChainState(h, hashes, hops, snrs, packets, i);
    ChainState(h, hashes, hops, snrs, packets, j);
    PreimageCounts(packets[i]);
    PreimageCounts(packets[j]);
  }
}
