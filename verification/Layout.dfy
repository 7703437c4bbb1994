/** The wire format in numbers: which byte of a packet holds what. */
module Layout {
  import opened Bytes
  import opened Wrappers
  import opened Paths
  import opened Payloads
  import opened Packets

  // ---------- Words ----------

  predicate Word(b: seq<u8>, at: nat, v: int) {
    at + 2 <= |b| &&
    var (low: int, high: int) := (b[at], b[at + 1]);
    v == low + 0x100 * high
  }

  predicate DoubleWord(b: seq<u8>, at: nat, v: int) {
    at + 4 <= |b| &&
    var (c: int, d: int, e: int, f: int) := (b[at], b[at + 1], b[at + 2], b[at + 3]);
    v == c + 0x100 * d + 0x1_0000 * e + 0x100_0000 * f
  }

  lemma WordBytes(v: u16)
    ensures Word(ToLe(v, 2), 0, v)
  {
    var b := ToLe(v, 2);
    assert Pow256(2) == 0x1_0000;
    FromToLe(v, 2);
    assert b[1..][1..] == [];
  }

  lemma DoubleWordBytes(v: u32)
    ensures DoubleWord(ToLe(v, 4), 0, v)
  {
    var b := ToLe(v, 4);
    assert Pow256(4) == 0x1_0000_0000;
    FromToLe(v, 4);
    FourDigits(b);
  }

  lemma FourDigits(b: seq<u8>)
    requires |b| == 4
    ensures DoubleWord(b, 0, FromLe(b))
  {
    var (c, d, e) := (b[1..], b[2..], b[3..]);
    assert c[1..] == d && d[1..] == e && e[1..] == [];
    assert FromLe(e) == b[3] && FromLe(d) == b[2] + 0x100 * FromLe(e) && FromLe(c) == b[1] + 0x100 * FromLe(d);
  }

  lemma WordAt(a: seq<u8>, v: u16, rest: seq<u8>)
    ensures Word(a + ToLe(v, 2) + rest, |a|, v)
  {
    WordBytes(v);
  }

  lemma DoubleWordAt(a: seq<u8>, v: u32, rest: seq<u8>)
    ensures DoubleWord(a + ToLe(v, 4) + rest, |a|, v)
  {
    DoubleWordBytes(v);
  }

  // ---------- Packets ----------

  predicate Numbered(kind: PayloadKind, n: int) {
    match kind
    case Request => n == 0
    case Response => n == 1
    case TextMessage => n == 2
    case Ack => n == 3
    case Advert => n == 4
    case GroupText => n == 5
    case GroupData => n == 6
    case AnonymousRequest => n == 7
    case PathReturn => n == 8
    case Trace => n == 9
    case Multipart => n == 10
    case Control => n == 11
    case Reserved(number) => n == number % 16
    case RawCustom => n == 15
  }

  predicate RouteNumbered(route: RouteType, n: int) {
    match route
    case TransportFlood => n == 0
    case Flood => n == 1
    case Direct => n == 2
    case TransportDirect => n == 3
  }

  /** A signed byte in two's complement. */
  predicate InByte(v: int, b: int) {
    b == if v < 0 then v + 0x100 else v
  }

  /** The length byte of a route and what follows it: the hash length less one in the top two bits over the
      hop count, and the hashes; or of a trace the number of hops behind it, and its samples. */
  predicate RouteAt(b: seq<u8>, at: nat, end: nat, path: RoutePath) {
    at < end <= |b| &&
    match path
    case Normal(path) =>
      && b[at] / 64 + 1 == (match path.hashSize case One => 1 case Two => 2 case Three => 3)
      && b[at] % 64 * (b[at] / 64 + 1) == |path.bytes| && b[at + 1..end] == path.bytes
    case TraceRoute(consumed, samples) =>
      && b[at] == consumed == |samples| && end == at + 1 + consumed
      && forall i :: 0 <= i < consumed ==> InByte(samples[i], b[at + 1 + i])
  }

  /** A packet is its kind in the four bits above two bits of route type, the two transport codes if the
      route type has them, the route, and the payload. */
  lemma PacketLayout(p: Packet, b: seq<u8>) returns (body: nat)
    requires p.Encode() == Ok(b)
    ensures var route := if p.routeType == TransportFlood || p.routeType == TransportDirect then 5 else 1;
            && route < body <= |b| && Numbered(p.payload.Kind(), b[0] / 4) && RouteNumbered(p.routeType, b[0] % 4)
            && (route == 5 ==>
                  p.codes.Some? && Word(b, 1, p.codes.value.primary) && Word(b, 3, p.codes.value.secondary))
            && RouteAt(b, route, body, p.path) && p.payload.Encode() == Ok(b[body..])
  {
    hide Payload.Encode, CodesBytes, Packet.RouteBytes, Packet.Encode, RouteAt, HeaderByte;
    EncodedParts(p, b);
    var header, codes := HeaderByte(p.payload.Kind(), p.routeType), CodesBytes(p.codes);
    var route, payload := p.RouteBytes().value, p.payload.Encode().value;
    HeaderLayout(p.payload.Kind(), p.routeType);
    CodesLayout(p.codes, [header], route + payload);
    body := 1 + |codes| + |route|;
    RouteLayout(p, [header] + codes, payload);
    assert b == [header] + codes + (route + payload) == [header] + codes + route + payload;
    assert b[body..] == payload;
  }

  lemma HeaderLayout(kind: PayloadKind, route: RouteType)
    ensures Numbered(kind, HeaderByte(kind, route) / 4) && RouteNumbered(route, HeaderByte(kind, route) % 4)
  {
  }

  lemma CodesLayout(codes: Option<TransportCodes>, front: seq<u8>, rest: seq<u8>)
    requires |front| == 1
    ensures |CodesBytes(codes)| == if codes.Some? then 4 else 0
    ensures codes.Some? ==> var b := front + CodesBytes(codes) + rest;
                            Word(b, 1, codes.value.primary) && Word(b, 3, codes.value.secondary)
  {
    if codes.Some? {
      var (primary, secondary) := (ToLe(codes.value.primary, 2), ToLe(codes.value.secondary, 2));
      WordAt(front, codes.value.primary, secondary + rest);
      WordAt(front + primary, codes.value.secondary, rest);
      assert front + CodesBytes(codes) + rest == front + primary + (secondary + rest)
             == front + primary + secondary + rest;
    }
  }

  lemma RouteLayout(p: Packet, front: seq<u8>, payload: seq<u8>)
    requires p.RouteBytes().Ok?
    ensures p.RouteBytes().value != []
    ensures RouteAt(front + p.RouteBytes().value + payload, |front|, |front| + |p.RouteBytes().value|, p.path)
  {
    hide RouteAt, Path.HopCount;
    match p.path
    case Normal(path) =>
      NormalLayout(path, p.RouteBytes().value[0], front, payload);
    case TraceRoute(consumed, samples) =>
      TraceRouteLayout(consumed, samples, front, payload);
  }

  lemma NormalLayout(path: Path, length: u8, front: seq<u8>, payload: seq<u8>)
    requires path.EncodedLengthByte() == Ok(length)
    ensures RouteAt(front + ([length] + path.bytes) + payload, |front|, |front| + 1 + |path.bytes|, Normal(path))
  {
    var b, at := front + ([length] + path.bytes) + payload, |front|;
    WholeHops(path);
    hide Path.HopCount;
    assert b[at] == length && b[at + 1..at + 1 + |path.bytes|] == path.bytes;
  }

  lemma TraceRouteLayout(consumed: u8, samples: seq<i8>, front: seq<u8>, payload: seq<u8>)
    requires consumed == |samples|
    ensures RouteAt(front + ([consumed] + SampleBytes(samples)) + payload, |front|, |front| + 1 + consumed,
                    TraceRoute(consumed, samples))
  {
    var b, at := front + ([consumed] + SampleBytes(samples)) + payload, |front|;
    assert b[at] == consumed;
    forall i | 0 <= i < consumed
      ensures InByte(samples[i], b[at + 1 + i])
    {
      assert b[at + 1 + i] == SampleByte(samples[i]);
    }
  }

  lemma WholeHops(path: Path)
    requires path.Valid()
    ensures path.HopCount() < 64 && path.HopCount() * path.hashSize.Size() == |path.bytes|
    ensures (path.hashSize.Code() * 64 + path.HopCount()) / 64 == path.hashSize.Code()
    ensures (path.hashSize.Code() * 64 + path.HopCount()) % 64 == path.HopCount()
  {
  }

  // ---------- Payloads ----------

  /** Each kind of payload, field by field. */
  predicate LaidOut(v: Payload, b: seq<u8>) {
    match v
    case DirectPayload(_, destination, source, mac, ciphertext) =>
      |b| >= 4 && b[0] == destination && b[1] == source && b[2..4] == mac && b[4..] == ciphertext
    case AckPayload(hash) => b == hash
    case AdvertPayload(key, timestamp, signature, app) =>
      && |b| >= 100 && b[..32] == key && DoubleWord(b, 32, timestamp) && b[36..100] == signature
      && (if app.None? then |b| == 100 else app.value.Encode() == Ok(b[100..]))
    case GroupPayload(_, channel, mac, ciphertext) =>
      |b| >= 3 && b[0] == channel && b[1..3] == mac && b[3..] == ciphertext
    case AnonymousPayload(destination, key, mac, ciphertext) =>
      |b| >= 35 && b[0] == destination && b[1..33] == key && b[33..35] == mac && b[35..] == ciphertext
    case TracePayload(tag, auth, size, hashes) =>
      && |b| >= 9 && DoubleWord(b, 0, tag) && DoubleWord(b, 4, auth) && b[9..] == hashes
      && (match size
          case TraceOne => b[8] == 0
          case TraceTwo => b[8] == 1 && |hashes| % 2 == 0
          case TraceFour => b[8] == 2 && |hashes| % 4 == 0)
    case MultipartPayload(remaining, subType, sub) =>
      |b| >= 1 && b[0] / 16 == remaining % 16 && Numbered(subType, b[0] % 16) && b[1..] == sub
    case ControlPayload(flags, data) => |b| >= 1 && b[0] == flags && b[1..] == data
    case ReservedPayload(_, bytes) => b == bytes
    case RawPayload(bytes) => b == bytes
  }

  lemma PayloadLayout(v: Payload, b: seq<u8>)
    requires v.Typed() && v.Encode() == Ok(b)
    ensures LaidOut(v, b)
  {
    hide Payload.Encode, Payload.Typed, LaidOut;
    match v
    case AdvertPayload(_, _, _, _) => AdvertLayout(v, b);
    case TracePayload(_, _, _, _) => TraceLayout(v, b);
    case DirectPayload(_, _, _, _, _) => EncryptedLayout(v, b);
    case GroupPayload(_, _, _, _) => EncryptedLayout(v, b);
    case AnonymousPayload(_, _, _, _) => EncryptedLayout(v, b);
    case _ => PlainLayout(v, b);
  }

  lemma EncryptedLayout(v: Payload, b: seq<u8>)
    requires v.DirectPayload? || v.GroupPayload? || v.AnonymousPayload?
    requires v.Typed() && v.Encode() == Ok(b)
    ensures LaidOut(v, b)
  {
    hide ValidUtf8, ToLe, AdvertAppData.Encode;
    match v
    case DirectPayload(_, _, _, mac, ciphertext) => Sliced(b, [v.destination, v.source], [], mac, ciphertext);
    case GroupPayload(_, _, mac, ciphertext) => Sliced(b, [v.channel], [], mac, ciphertext);
    case AnonymousPayload(_, key, mac, ciphertext) => Sliced(b, [v.destination], key, mac, ciphertext);
  }

  lemma Sliced(b: seq<u8>, head: seq<u8>, key: seq<u8>, mac: seq<u8>, rest: seq<u8>)
    requires b == head + key + mac + rest || (key == [] && b == head + mac + rest)
    ensures var (n, m) := (|head| + |key|, |head| + |key| + |mac|);
            m <= |b| && b[..|head|] == head && b[|head|..n] == key && b[n..m] == mac && b[m..] == rest
  {
  }

  lemma PlainLayout(v: Payload, b: seq<u8>)
    requires v.Encode() == Ok(b) && !v.AdvertPayload? && !v.TracePayload?
    requires !v.DirectPayload? && !v.GroupPayload? && !v.AnonymousPayload?
    ensures LaidOut(v, b)
  {
  }

  lemma AdvertLayout(v: Payload, b: seq<u8>)
    requires v.AdvertPayload? && v.Typed() && v.Encode() == Ok(b)
    ensures LaidOut(v, b)
  {
    hide AdvertAppData.Encode, ValidUtf8, ToLe, AdvertData;
    AdvertEncodes(v);
    AdvertDataIs(v.appData);
    var rest := AdvertData(v.appData).value;
    var (key, time, signature) := (v.publicKey, ToLe(v.timestamp, 4), v.signature);
    DoubleWordAt(key, v.timestamp, signature + rest);
    assert b == key + time + signature + rest == key + time + (signature + rest);
    assert b[..32] == key && b[36..100] == signature && b[100..] == rest;
  }

  lemma AdvertDataIs(app: Option<AdvertAppData>)
    ensures app.None? ==> AdvertData(app) == Ok([])
    ensures app.Some? ==> AdvertData(app) == app.value.Encode()
  {
  }

  lemma TraceLayout(v: Payload, b: seq<u8>)
    requires v.TracePayload? && v.Encode() == Ok(b)
    ensures LaidOut(v, b)
  {
    hide ToLe;
    var (tag, auth, size) := (ToLe(v.tag, 4), ToLe(v.authCode, 4), [v.hashSize.Bits()]);
    DoubleWordAt([], v.tag, auth + size + v.pathHashes);
    DoubleWordAt(tag, v.authCode, size + v.pathHashes);
    assert b == tag + auth + size + v.pathHashes == [] + tag + (auth + size + v.pathHashes)
           == tag + auth + (size + v.pathHashes);
    assert b[9..] == v.pathHashes && b[8] == size[0];
  }

  // ---------- Advert data ----------

  predicate TypeNumbered(nodeType: AdvertNodeType, n: int) {
    match nodeType
    case NoType => n == 0
    case Chat => n == 1
    case Repeater => n == 2
    case Room => n == 3
    case Sensor => n == 4
    case ReservedType(number) => n == number % 16
  }

  /** A signed number in two's complement. */
  predicate SignedAt(b: seq<u8>, at: nat, v: i32) {
    DoubleWord(b, at, if v < 0 then v + 0x1_0000_0000 else v)
  }

  /** A flags byte with the node type in its low half and one bit per field, then the fields that are there:
      latitude and longitude, two features, and the name to the end. */
  predicate DataLaidOut(v: AdvertAppData, b: seq<u8>) {
    var first := if v.location.Some? then 9 else 1;
    var second := first + if v.feature1.Some? then 2 else 0;
    var name := second + if v.feature2.Some? then 2 else 0;
    && name <= |b| <= 32 && TypeNumbered(v.nodeType, b[0] % 16)
    && (b[0] / 16 % 2 == 1 <==> v.location.Some?) && (b[0] / 32 % 2 == 1 <==> v.feature1.Some?)
    && (b[0] / 64 % 2 == 1 <==> v.feature2.Some?) && (b[0] / 128 % 2 == 1 <==> v.name.Some?)
    && (v.location.Some? ==> SignedAt(b, 1, v.location.value.0) && SignedAt(b, 5, v.location.value.1))
    && (v.feature1.Some? ==> Word(b, first, v.feature1.value))
    && (v.feature2.Some? ==> Word(b, second, v.feature2.value))
    && b[name..] == if v.name.Some? then v.name.value else []
  }

  lemma DataLayout(v: AdvertAppData, b: seq<u8>)
    requires v.Encode() == Ok(b)
    ensures DataLaidOut(v, b)
  {
    hide ToLe, Le32, LocationBytes, FeatureBytes, NameBytes, Word, SignedAt, TypeNumbered, AdvertAppData.Flags;
    var (flags, place, one, two, name) := ([v.Flags()], LocationBytes(v.location), FeatureBytes(v.feature1),
                                           FeatureBytes(v.feature2), NameBytes(v.name));
    FlagBits(v);
    LocationLayout(v.location, flags, one + two + name);
    FeatureLayout(v.feature1, flags + place, two + name);
    FeatureLayout(v.feature2, flags + place + one, name);
    NameIs(v.name);
    assert b == flags + place + one + two + name;
    FiveParts(flags, place, one, two, name);
  }

  lemma FiveParts(a: seq<u8>, c: seq<u8>, d: seq<u8>, e: seq<u8>, f: seq<u8>)
    ensures var b := a + c + d + e + f;
            b == a + c + (d + e + f) == a + c + d + (e + f) && b[|b| - |f|..] == f
  {
  }

  lemma FlagBits(v: AdvertAppData)
    ensures TypeNumbered(v.nodeType, v.Flags() % 16)
    ensures v.Flags() / 16 % 2 == 1 <==> v.location.Some?
    ensures v.Flags() / 32 % 2 == 1 <==> v.feature1.Some?
    ensures v.Flags() / 64 % 2 == 1 <==> v.feature2.Some?
    ensures v.Flags() / 128 % 2 == 1 <==> v.name.Some?
  {
    BitsOf(v.nodeType.Nibble(), Bit(v.location.Some?), Bit(v.feature1.Some?), Bit(v.feature2.Some?),
           Bit(v.name.Some?), v.Flags());
  }

  lemma LocationLayout(location: Option<(i32, i32)>, front: seq<u8>, rest: seq<u8>)
    ensures |LocationBytes(location)| == if location.Some? then 8 else 0
    ensures location.Some? ==> var b := front + LocationBytes(location) + rest;
              SignedAt(b, |front|, location.value.0) && SignedAt(b, |front| + 4, location.value.1)
  {
    hide ToLe;
    if location.Some? {
      var (latitude, longitude) := location.value;
      var (north, east) := (if latitude < 0 then latitude + 0x1_0000_0000 else latitude,
                            if longitude < 0 then longitude + 0x1_0000_0000 else longitude);
      DoubleWordAt(front, north, Le32(longitude) + rest);
      DoubleWordAt(front + Le32(latitude), east, rest);
      assert front + LocationBytes(location) + rest == front + Le32(latitude) + (Le32(longitude) + rest)
             == front + Le32(latitude) + Le32(longitude) + rest;
    }
  }

  lemma FeatureLayout(feature: Option<u16>, front: seq<u8>, rest: seq<u8>)
    ensures |FeatureBytes(feature)| == if feature.Some? then 2 else 0
    ensures feature.Some? ==> Word(front + FeatureBytes(feature) + rest, |front|, feature.value)
  {
    hide ToLe;
    if feature.Some? {
      WordAt(front, feature.value, rest);
    }
  }

  lemma NameIs(name: Option<seq<u8>>)
    ensures NameBytes(name) == if name.Some? then name.value else []
  {
  }

  // ---------- What can be encoded ----------

  /** A route fits its length byte: whole hashes, at most 63 of them and at most 64 bytes, for all but traces,
      and for traces as many samples as hops, at most 63. */
  predicate RouteFits(p: Packet) {
    if p.payload.TracePayload? then p.path.TraceRoute? && p.path.consumedHops == |p.path.samples| <= 63
    else
      && p.path.Normal? && |p.path.path.bytes| <= 64
      && match p.path.path.hashSize
         case One => |p.path.path.bytes| <= 63
         case Two => |p.path.path.bytes| % 2 == 0
         case Three => |p.path.path.bytes| % 3 == 0
  }

  /** Advert data fits 32 bytes, and the names of a trace are whole. */
  predicate PayloadFits(v: Payload) {
    match v
    case AdvertPayload(_, _, _, app) => app.Some? ==> DataLength(app.value) <= 32
    case TracePayload(_, _, size, hashes) =>
      (match size case TraceOne => true case TraceTwo => |hashes| % 2 == 0 case TraceFour => |hashes| % 4 == 0)
    case _ => true
  }

  function DataLength(v: AdvertAppData): nat {
    1 + (if v.location.Some? then 8 else 0) + (if v.feature1.Some? then 2 else 0)
    + (if v.feature2.Some? then 2 else 0) + (if v.name.Some? then |v.name.value| else 0)
  }

  /** A packet has a wire form exactly when it carries transport codes if and only if its route type has them,
      a control payload with its top bit set goes out direct with no hops, route and payload fit, and the
      payload takes at most 184 bytes. */
  lemma EncodesExactly(p: Packet)
    ensures p.Encode().Ok? <==>
            && (p.codes.Some? <==> p.routeType == TransportFlood || p.routeType == TransportDirect)
            && (p.payload.ControlPayload? && p.payload.flags >= 0x80 ==>
                  && (p.routeType == Direct || p.routeType == TransportDirect)
                  && p.path.Normal? && p.path.path.bytes == [])
            && RouteFits(p) && PayloadFits(p.payload)
            && (p.payload.Encode().Ok? ==> |p.payload.Encode().value| <= 184)
  {
    hide Payload.Encode, RouteFits, PayloadFits, Path.HopCount;
    PayloadFitsExactly(p.payload);
    RouteFitsExactly(p);
    if p.RouteBytes().Ok? {
      SemanticsExactly(p);
    }
    assert p.RouteBytes().Ok? ==> |p.RouteBytes().value| <= 65 by {
      RouteIsShort(p);
    }
  }

  lemma RouteIsShort(p: Packet)
    ensures p.RouteBytes().Ok? ==> |p.RouteBytes().value| <= 65
  {
  }

  lemma SemanticsExactly(p: Packet)
    requires p.RouteBytes().Ok?
    ensures p.ValidateSemantics().Ok? <==>
            (p.payload.ControlPayload? && p.payload.flags >= 0x80 ==>
               (p.routeType == Direct || p.routeType == TransportDirect) && p.path.Normal? && p.path.path.bytes == [])
  {
  }

  lemma PayloadFitsExactly(v: Payload)
    ensures v.Encode().Ok? <==> PayloadFits(v)
  {
    if v.AdvertPayload? && v.appData.Some? {
      EncodedAppData(v.appData.value);
    }
  }

  lemma RouteFitsExactly(p: Packet)
    ensures p.RouteBytes().Ok? <==> RouteFits(p)
  {
  }

  // ---------- What is hashed ----------

  /** The bytes hashed for deduplication: kind, route type, the region's code if there is one, for a trace
      the number of hops behind it, and the payload. */
  lemma HashedLayout(p: Packet, b: seq<u8>)
    requires p.DedupPreimage() == Ok(b)
    ensures var at := if p.routeType == TransportFlood || p.routeType == TransportDirect then 4 else 2;
            var body := at + if p.payload.TracePayload? then 1 else 0;
            && body <= |b| && Numbered(p.payload.Kind(), b[0]) && RouteNumbered(p.routeType, b[1])
            && (at == 4 ==> p.codes.Some? && Word(b, 2, p.codes.value.primary))
            && (p.payload.TracePayload? ==> p.path.TraceRoute? && b[at] == p.path.consumedHops)
            && p.payload.Encode() == Ok(b[body..])
  {
    hide Payload.Encode, ToLe;
    var head := [p.payload.Kind().Nibble(), p.routeType.Bits()];
    var scope := if p.codes.Some? then ToLe(p.codes.value.primary, 2) else [];
    var count := if p.payload.TracePayload? then [p.path.consumedHops] else [];
    var body := p.payload.Encode().value;
    assert b == head + scope + count + body;
    if p.codes.Some? {
      WordAt(head, p.codes.value.primary, count + body);
      assert b == head + scope + (count + body);
    }
    assert b[|head + scope + count|..] == body;
  }
}
