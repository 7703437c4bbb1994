/** The packet wire format, the hop operations on packets, and the deduplication signature. */
module Packets {
  import opened Bytes
  import opened Wrappers
  import opened Paths
  import opened Payloads

  const MAX_TRANS_UNIT: nat := 255

  datatype RouteType = TransportFlood | Flood | Direct | TransportDirect {
    function Bits(): (b: u8)
      ensures b < 4
    {
      match this
      case TransportFlood => 0
      case Flood => 1
      case Direct => 2
      case TransportDirect => 3
    }

    predicate HasTransportCodes() {
      TransportFlood? || TransportDirect?
    }

    predicate IsFlood() {
      Flood? || TransportFlood?
    }

    predicate IsDirect() {
      Direct? || TransportDirect?
    }
  }

  function RouteTypeFromBits(bits: u8): RouteType {
    match bits % 4
    case 0 => TransportFlood
    case 1 => Flood
    case 2 => Direct
    case _ => TransportDirect
  }

  datatype TransportCodes = TransportCodes(primary: u16, secondary: u16)

  /** A source route, or the SNR samples a trace packet has collected. */
  datatype RoutePath = Normal(path: Path) | TraceRoute(consumedHops: u8, samples: seq<i8>)

  function SampleByte(x: i8): u8 {
    if x < 0 then x + 0x100 else x
  }

  function SampleOf(b: u8): i8 {
    if b >= 0x80 then b - 0x100 else b
  }

  function SampleBytes(samples: seq<i8>): seq<u8> {
    seq(|samples|, i requires 0 <= i < |samples| => SampleByte(samples[i]))
  }

  function SamplesOf(bytes: seq<u8>): seq<i8> {
    seq(|bytes|, i requires 0 <= i < |bytes| => SampleOf(bytes[i]))
  }

  datatype Packet = Packet(routeType: RouteType, codes: Option<TransportCodes>, path: RoutePath, payload: Payload) {

    /** Everything the field types guarantee. */
    predicate Typed() {
      payload.Typed()
    }

    /** Every reserved number fits the bits the wire gives it. */
    predicate NibblesInRange() {
      payload.NibblesInRange() && payload.Kind().InRange()
    }

    predicate IsDirectZeroHop() {
      routeType.IsDirect() && path.Normal? && path.path.HopCount() == 0
    }

    function ValidateSemantics(): Result<(), Error> {
      if payload.ZeroHopOnly() && !IsDirectZeroHop() then Err(InvalidZeroHopControlRoute) else Ok(())
    }

    function CheckCodes(): Result<(), Error> {
      if routeType.HasTransportCodes() && codes.None? then Err(MissingTransportCodes)
      else if !routeType.HasTransportCodes() && codes.Some? then Err(UnexpectedTransportCodes)
      else Ok(())
    }

    function RouteBytes(): Result<seq<u8>, Error> {
      if path.TraceRoute? && payload.Kind() == Trace then
        if path.consumedHops != |path.samples| || path.consumedHops > 63 then
          Err(InvalidTracePathLength(path.consumedHops))
        else Ok([path.consumedHops] + SampleBytes(path.samples))
      else if path.Normal? && payload.Kind() != Trace then
        var length :- path.path.EncodedLengthByte();
        Ok([length] + path.path.bytes)
      else Err(PathKindMismatch)
    }

    function Encode(): Result<seq<u8>, Error> {
      var _ :- CheckCodes();
      var _ :- ValidateSemantics();
      var route :- RouteBytes();
      var body :- payload.Encode();
      var out := [HeaderByte(payload.Kind(), routeType)] + CodesBytes(codes) + route + body;
      if |body| > MAX_PACKET_PAYLOAD then Err(PayloadTooLong(|body|))
      else if |out| > MAX_TRANS_UNIT then Err(PacketTooLong(|out|))
      else Ok(out)
    }

    // ---------- Hop operations ----------

    function AppendFloodHop(nodeHash: seq<u8>): Result<Packet, Error> {
      if path.TraceRoute? then Err(PathKindMismatch)
      else
        var appended :- path.path.AppendHash(nodeHash);
        Ok(this.(path := Normal(appended)))
    }

    /** The packet with its first hop consumed, or None when that hop is another node. */
    function ConsumeDirectHop(nodeHash: seq<u8>): Result<Option<Packet>, Error> {
      if path.TraceRoute? then Err(PathKindMismatch)
      else if !path.path.FirstHashMatches(nodeHash) then Ok(None)
      else Ok(Some(this.(path := Normal(path.path.RemoveFirstHash()))))
    }

    function TraceNextHopMatches(nodeHash: seq<u8>): Result<bool, Error> {
      if !path.TraceRoute? || !payload.TracePayload? then Err(PathKindMismatch)
      else
        var size := payload.hashSize.Size();
        var offset := path.consumedHops * size;
        if offset >= |payload.pathHashes| then Ok(false)
        else if offset + size > |payload.pathHashes| then Err(InvalidLength)
        else Ok(HashMatches(payload.pathHashes[offset..offset + size], nodeHash))
    }

    function TraceIsComplete(): Result<bool, Error> {
      if !path.TraceRoute? || !payload.TracePayload? then Err(PathKindMismatch)
      else Ok(path.consumedHops * payload.hashSize.Size() >= |payload.pathHashes|)
    }

    function AppendTraceSnr(snr: i8): Result<Packet, Error> {
      if path.Normal? then Err(PathKindMismatch)
      else if path.consumedHops >= 63 then Err(InvalidTracePathLength(path.consumedHops))
      else Ok(this.(path := TraceRoute(path.consumedHops + 1, path.samples + [snr])))
    }

    /** The bytes that are hashed into the deduplication signature. */
    function DedupPreimage(): Result<seq<u8>, Error> {
      var _ :- CheckCodes();
      var scope := [payload.Kind().Nibble(), routeType.Bits()] +
                   (if codes.Some? then ToLe(codes.value.primary, 2) else []);
      var body :- payload.Encode();
      if payload.Kind() == Trace then
        if path.Normal? then Err(PathKindMismatch)
        else if path.consumedHops != |path.samples| || path.consumedHops > 63 then
          Err(InvalidTracePathLength(path.consumedHops))
        else Ok(scope + [path.consumedHops] + body)
      else Ok(scope + body)
    }
  }

  function HeaderByte(kind: PayloadKind, route: RouteType): u8 {
    kind.Nibble() * 4 + route.Bits()
  }

  function CodesBytes(codes: Option<TransportCodes>): seq<u8> {
    if codes.Some? then ToLe(codes.value.primary, 2) + ToLe(codes.value.secondary, 2) else []
  }

  function DecodeHeader(byte: u8): Result<(PayloadKind, RouteType), Error> {
    if byte == 0xFF then Err(InvalidHeaderSentinel)
    else if byte / 64 + 1 != 1 then Err(UnsupportedPayloadVersion(byte / 64 + 1))
    else Ok((KindFromNibble(byte / 4), RouteTypeFromBits(byte)))
  }

  function DecodeCodes(present: bool, input: seq<u8>): Result<(Option<TransportCodes>, seq<u8>), Error> {
    if !present then Ok((None, input))
    else
      var (primary, rest) :- Cut(input, 2);
      var (secondary, rest) :- Cut(rest, 2);
      ShortCodec(0, primary);
      ShortCodec(0, secondary);
      Ok((Some(TransportCodes(FromLe(primary), FromLe(secondary))), rest))
  }

  function DecodeRoute(kind: PayloadKind, length: u8, input: seq<u8>): Result<(RoutePath, seq<u8>), Error> {
    if kind == Trace then
      if length >= 64 then Err(InvalidTracePathLength(length))
      else
        var (bytes, rest) :- Cut(input, length);
        Ok((TraceRoute(length, SamplesOf(bytes)), rest))
    else
      var (path, rest) :- DecodeWire(length, input);
      Ok((Normal(path), rest))
  }

  function DecodeBody(kind: PayloadKind, route: RouteType, codes: Option<TransportCodes>, path: RoutePath,
      input: seq<u8>)
    : Result<Packet, Error>
  {
    if |input| > MAX_PACKET_PAYLOAD then Err(PayloadTooLong(|input|))
    else
      var payload :- DecodePayload(kind, input);
      var packet := Packet(route, codes, path, payload);
      var _ :- packet.ValidateSemantics();
      Ok(packet)
  }

  function Decode(input: seq<u8>): Result<Packet, Error> {
    if input == [] then Err(EmptyPacket)
    else if |input| > MAX_TRANS_UNIT then Err(PacketTooLong(|input|))
    else
      var (kind, route) :- DecodeHeader(input[0]);
      var (codes, rest) :- DecodeCodes(route.HasTransportCodes(), input[1..]);
      DecodeTail(kind, route, codes, rest)
  }

  /** The path length byte, the path and the payload. */
  function DecodeTail(kind: PayloadKind, route: RouteType, codes: Option<TransportCodes>, input: seq<u8>)
    : Result<Packet, Error>
  {
    if input == [] then Err(Truncated)
    else
      var (path, body) :- DecodeRoute(kind, input[0], input[1..]);
      DecodeBody(kind, route, codes, path, body)
  }

  // ---------- The same two operations as the code performs them, step by step ----------

  lemma CodesTake(input: seq<u8>)
    ensures var r := DecodeCodes(true, input); r.Ok? ==> |input| >= 4 && r.value.1 == input[4..]
  {
  }

  lemma RouteTakes(kind: PayloadKind, length: u8, input: seq<u8>)
    ensures var r := DecodeRoute(kind, length, input);
            r.Ok? ==> |r.value.1| <= |input| && r.value.1 == input[|input| - |r.value.1|..]
  {
  }

  method DecodeStepwise(input: seq<u8>) returns (r: Result<Packet, Error>)
    ensures r == Decode(input)
  {
    if input == [] {
      return Err(EmptyPacket);
    }
    if |input| > MAX_TRANS_UNIT {
      return Err(PacketTooLong(|input|));
    }
    var header :- DecodeHeader(input[0]);
    var (kind, route) := header;
    var offset := 1;
    var codes: Option<TransportCodes> := None;
    if route.HasTransportCodes() {
      var decoded :- DecodeCodes(true, input[offset..]);
      codes := decoded.0;
      CodesTake(input[offset..]);
      offset := offset + 4;
      assert decoded.1 == input[offset..];
    }
    ghost var rest := input[offset..];
    assert DecodeCodes(route.HasTransportCodes(), input[1..]) == Ok((codes, rest));
    r := DecodeAfterCodes(kind, route, codes, input, offset);
  }

  method DecodeAfterCodes(kind: PayloadKind, route: RouteType, codes: Option<TransportCodes>,
      input: seq<u8>, start: nat)
    returns (r: Result<Packet, Error>)
    requires start <= |input|
    ensures r == DecodeTail(kind, route, codes, input[start..])
  {
    hide DecodeRoute, DecodeBody;
    if start >= |input| {
      return Err(Truncated);
    }
    var length := input[start];
    var offset := start + 1;
    assert input[start..][1..] == input[offset..];
    var decoded := DecodeRoute(kind, length, input[offset..]);
    if decoded.Err? {
      return Err(decoded.error);
    }
    RouteTakes(kind, length, input[offset..]);
    offset := |input| - |decoded.value.1|;
    var body := input[offset..];
    assert body == decoded.value.1;
    r := DecodeBody(kind, route, codes, decoded.value.0, body);
  }

  method EncodeStepwise(p: Packet) returns (r: Result<seq<u8>, Error>)
    ensures r == p.Encode()
  {
    var _ :- p.CheckCodes();
    var _ :- p.ValidateSemantics();
    var out: seq<u8> := [HeaderByte(p.payload.Kind(), p.routeType)];
    if p.codes.Some? {
      out := out + ToLe(p.codes.value.primary, 2) + ToLe(p.codes.value.secondary, 2);
    }
    assert out == [HeaderByte(p.payload.Kind(), p.routeType)] + CodesBytes(p.codes);
    var route :- p.RouteBytes();
    out := out + route;
    var body :- p.payload.Encode();
    if |body| > MAX_PACKET_PAYLOAD {
      return Err(PayloadTooLong(|body|));
    }
    out := out + body;
    if |out| > MAX_TRANS_UNIT {
      return Err(PacketTooLong(|out|));
    }
    return Ok(out);
  }

  // ---------- The format is canonical ----------

  lemma HeaderCodec(byte: u8, kind: PayloadKind, route: RouteType)
    ensures DecodeHeader(byte) == Ok((kind, route)) <==> kind.InRange() && byte == HeaderByte(kind, route)
  {
    if byte < 64 {
      KindCodec(kind, byte / 4);
    }
  }

  lemma CodesCodec(present: bool, codes: Option<TransportCodes>, input: seq<u8>, rest: seq<u8>)
    ensures DecodeCodes(present, input) == Ok((codes, rest)) <==>
          present == codes.Some? && input == CodesBytes(codes) + rest
  {
    assert [] + rest == rest;
    if present && codes.Some? {
      var (a, b) := (ToLe(codes.value.primary, 2), ToLe(codes.value.secondary, 2));
      if |input| >= 4 {
        ShortCodec(codes.value.primary, input[..2]);
        ShortCodec(codes.value.secondary, input[2..][..2]);
        assert input == input[..2] + input[2..][..2] + input[2..][2..];
        if input == a + b + rest {
          Cancel(a + b, rest, input[..2] + input[2..][..2], input[2..][2..]);
          Cancel(a, b, input[..2], input[2..][..2]);
        }
      }
    }
  }

  lemma SamplesCodec(samples: seq<i8>, bytes: seq<u8>)
    ensures SamplesOf(bytes) == samples <==> bytes == SampleBytes(samples)
  {
    if |samples| == |bytes| {
      assert forall i :: 0 <= i < |bytes| ==>
               (SampleOf(bytes[i]) == samples[i] <==> bytes[i] == SampleByte(samples[i]));
    }
  }

  /** A route decodes from exactly the bytes it encodes to. */
  lemma RouteCodec(p: Packet, input: seq<u8>, rest: seq<u8>)
    requires input != []
    ensures DecodeRoute(p.payload.Kind(), input[0], input[1..]) == Ok((p.path, rest)) <==>
            p.RouteBytes().Ok? && input == p.RouteBytes().value + rest
  {
    var tail := input[1..];
    assert input == [input[0]] + tail;
    match p.path
    case Normal(path) =>
      PathCodec(path, input[0], tail, rest);
      if p.RouteBytes().Ok? {
        var length := path.EncodedLengthByte().value;
        assert [length] + path.bytes + rest == [length] + (path.bytes + rest);
      }
    case TraceRoute(consumed, samples) =>
      var bytes := SampleBytes(samples);
      CutIs(tail, bytes, rest);
      assert [consumed] + bytes + rest == [consumed] + (bytes + rest);
      if input[0] <= |tail| {
        SamplesCodec(samples, tail[..input[0]]);
      }
  }

  lemma BodyCodec(p: Packet, kind: PayloadKind, body: seq<u8>)
    requires kind.InRange()
    ensures DecodeBody(kind, p.routeType, p.codes, p.path, body) == Ok(p) <==>
            && p.payload.Kind() == kind && p.Typed() && p.NibblesInRange() && p.ValidateSemantics().Ok?
            && |body| <= MAX_PACKET_PAYLOAD && p.payload.Encode() == Ok(body)
  {
    PayloadCodec(kind, p.payload, body);
  }

  /** What an encoding is made of. */
  lemma EncodedParts(p: Packet, b: seq<u8>)
    requires p.Encode() == Ok(b)
    ensures p.CheckCodes().Ok? && p.ValidateSemantics().Ok? && p.RouteBytes().Ok? && p.payload.Encode().Ok?
    ensures |p.payload.Encode().value| <= MAX_PACKET_PAYLOAD && |b| <= MAX_TRANS_UNIT
    ensures b == [HeaderByte(p.payload.Kind(), p.routeType)]
                 + (CodesBytes(p.codes) + (p.RouteBytes().value + p.payload.Encode().value))
  {
    hide Packet.RouteBytes, Payload.Encode, CodesBytes, HeaderByte;
    var header, codes := [HeaderByte(p.payload.Kind(), p.routeType)], CodesBytes(p.codes);
    var route, body := p.RouteBytes().value, p.payload.Encode().value;
    assert header + codes + route + body == header + (codes + (route + body));
  }

  /** The decoder's steps put together. */
  lemma DecodeFrom(b: seq<u8>, kind: PayloadKind, p: Packet, rest: seq<u8>, body: seq<u8>)
    requires 0 < |b| <= MAX_TRANS_UNIT && DecodeHeader(b[0]) == Ok((kind, p.routeType))
    requires DecodeCodes(p.routeType.HasTransportCodes(), b[1..]) == Ok((p.codes, rest))
    requires rest != [] && DecodeRoute(kind, rest[0], rest[1..]) == Ok((p.path, body))
    requires DecodeBody(kind, p.routeType, p.codes, p.path, body) == Ok(p)
    ensures Decode(b) == Ok(p)
  {
    hide DecodeHeader, DecodeCodes, DecodeRoute, DecodeBody;
  }

  lemma RouteNotEmpty(p: Packet)
    requires p.RouteBytes().Ok?
    ensures p.RouteBytes().value != []
  {
  }

  /** An in-range packet that encodes is decoded back. */
  lemma EncodedDecodes(p: Packet, b: seq<u8>)
    requires p.Encode() == Ok(b) && p.Typed() && p.NibblesInRange()
    ensures Decode(b) == Ok(p)
  {
    hide Decode, DecodeHeader, DecodeCodes, DecodeRoute, DecodeBody, Packet.Encode, Packet.RouteBytes, Payload.Encode,
      CodesBytes, HeaderByte, Payload.NibblesInRange, Payload.Typed;
    EncodedParts(p, b);
    RouteNotEmpty(p);
    var kind := p.payload.Kind();
    var route, body := p.RouteBytes().value, p.payload.Encode().value;
    var rest := route + body;
    HeaderCodec(b[0], kind, p.routeType);
    CodesCodec(p.routeType.HasTransportCodes(), p.codes, b[1..], rest);
    RouteCodec(p, rest, body);
    BodyCodec(p, kind, body);
    DecodeFrom(b, kind, p, rest, body);
  }

  lemma TailEncodes(p: Packet, kind: PayloadKind, rest: seq<u8>)
    requires kind.InRange() && DecodeTail(kind, p.routeType, p.codes, rest) == Ok(p)
    ensures p.payload.Kind() == kind && p.Typed() && p.NibblesInRange() && p.ValidateSemantics().Ok?
    ensures p.RouteBytes().Ok? && p.payload.Encode().Ok? && |p.payload.Encode().value| <= MAX_PACKET_PAYLOAD
    ensures rest == p.RouteBytes().value + p.payload.Encode().value
  {
    var (path, body) := DecodeRoute(kind, rest[0], rest[1..]).value;
    assert path == p.path by { DecodedKind(kind, body); }
    BodyCodec(p, kind, body);
    RouteCodec(p, rest, body);
  }

  lemma TailShape(kind: PayloadKind, route: RouteType, codes: Option<TransportCodes>, rest: seq<u8>)
    ensures var r := DecodeTail(kind, route, codes, rest);
            r.Ok? ==> r.value.routeType == route && r.value.codes == codes
  {
  }

  lemma EncodesTo(p: Packet, b: seq<u8>)
    requires p.CheckCodes().Ok? && p.ValidateSemantics().Ok? && p.RouteBytes().Ok? && p.payload.Encode().Ok?
    requires |p.payload.Encode().value| <= MAX_PACKET_PAYLOAD && |b| <= MAX_TRANS_UNIT
    requires b == [HeaderByte(p.payload.Kind(), p.routeType)]
                  + (CodesBytes(p.codes) + (p.RouteBytes().value + p.payload.Encode().value))
    ensures p.Encode() == Ok(b)
  {
    var route, body := p.RouteBytes().value, p.payload.Encode().value;
    assert b == [HeaderByte(p.payload.Kind(), p.routeType)] + CodesBytes(p.codes) + route + body;
  }

  /** The decoder's steps taken apart. */
  lemma DecodeSteps(p: Packet, b: seq<u8>) returns (kind: PayloadKind, rest: seq<u8>)
    requires Decode(b) == Ok(p)
    ensures 0 < |b| <= MAX_TRANS_UNIT && DecodeHeader(b[0]) == Ok((kind, p.routeType))
    ensures DecodeCodes(p.routeType.HasTransportCodes(), b[1..]) == Ok((p.codes, rest))
    ensures DecodeTail(kind, p.routeType, p.codes, rest) == Ok(p)
  {
    hide DecodeHeader, DecodeCodes, DecodeTail;
    var header := DecodeHeader(b[0]).value;
    var scope := DecodeCodes(header.1.HasTransportCodes(), b[1..]).value;
    kind, rest := header.0, scope.1;
    TailShape(kind, header.1, scope.0, rest);
  }

  /** Whatever decodes is in range and encodes back to the very same bytes. */
  lemma DecodedEncodes(p: Packet, b: seq<u8>)
    requires Decode(b) == Ok(p)
    ensures p.Encode() == Ok(b) && p.Typed() && p.NibblesInRange()
  {
    hide Decode, DecodeHeader, DecodeCodes, DecodeTail, Packet.Encode, Packet.RouteBytes, Payload.Encode, CodesBytes,
      HeaderByte, Packet.NibblesInRange, Packet.Typed;
    var kind, rest := DecodeSteps(p, b);
    HeaderCodec(b[0], kind, p.routeType);
    CodesCodec(p.routeType.HasTransportCodes(), p.codes, b[1..], rest);
    TailEncodes(p, kind, rest);
    assert b == [b[0]] + b[1..];
    EncodesTo(p, b);
  }

  /** The wire format is canonical: bytes and in-range packets correspond one to one. */
  lemma PacketCodec(p: Packet, b: seq<u8>)
    ensures Decode(b) == Ok(p) <==> p.Typed() && p.NibblesInRange() && p.Encode() == Ok(b)
  {
    if Decode(b) == Ok(p) {
      DecodedEncodes(p, b);
    }
    if p.Typed() && p.NibblesInRange() && p.Encode() == Ok(b) {
      EncodedDecodes(p, b);
    }
  }

  /** A packet that encodes survives the round trip exactly when its reserved numbers are in range. */
  lemma RoundTripExactly(p: Packet)
    requires p.Typed() && p.Encode().Ok?
    ensures Decode(p.Encode().value) == Ok(p) <==> p.NibblesInRange()
  {
    PacketCodec(p, p.Encode().value);
  }

  /** A reserved kind numbered 16 shares its header bits with a request and does not come back. */
  lemma OutOfRangeKindIsLost()
    ensures var p := Packet(Direct, None, Normal(EmptyPath), ReservedPayload(0x10, []));
            p.Typed() && p.Encode() == Ok([2, 0]) && Decode([2, 0]) != Ok(p)
  {
    var p := Packet(Direct, None, Normal(EmptyPath), ReservedPayload(0x10, []));
    assert EmptyPath.EncodedLengthByte() == Ok(0);
    assert [0] + EmptyPath.bytes == [0];
    assert p.RouteBytes() == Ok([0]);
    assert HeaderByte(p.payload.Kind(), p.routeType) == 2;
    EncodesTo(p, [2, 0]);
    PacketCodec(p, [2, 0]);
  }
}
