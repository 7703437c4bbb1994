/** Packet payloads and their wire forms.  Every decoder is proved to accept exactly the encodings of
    in-range values, which makes the format canonical in both directions. */
module Payloads {
  import opened Bytes
  import opened Wrappers
  import opened Paths

  const MAX_ADVERT_DATA_SIZE: nat := 32
  const MAX_PACKET_PAYLOAD: nat := 184

  // ---------- Kinds ----------

  datatype PayloadKind =
    | Request | Response | TextMessage | Ack | Advert | GroupText | GroupData | AnonymousRequest | PathReturn
    | Trace | Multipart | Control | Reserved(n: u8) | RawCustom
  {
    function Nibble(): (r: u8)
      ensures r < 16
    {
      match this
      case Request => 0
      case Response => 1
      case TextMessage => 2
      case Ack => 3
      case Advert => 4
      case GroupText => 5
      case GroupData => 6
      case AnonymousRequest => 7
      case PathReturn => 8
      case Trace => 9
      case Multipart => 10
      case Control => 11
      case Reserved(n) => n % 16
      case RawCustom => 15
    }

    /** A reserved kind is in range when its number is one the header can say. */
    predicate InRange() {
      Reserved? ==> 12 <= n <= 14
    }
  }

  function KindFromNibble(nibble: u8): PayloadKind {
    match nibble % 16
    case 0 => Request
    case 1 => Response
    case 2 => TextMessage
    case 3 => Ack
    case 4 => Advert
    case 5 => GroupText
    case 6 => GroupData
    case 7 => AnonymousRequest
    case 8 => PathReturn
    case 9 => Trace
    case 10 => Multipart
    case 11 => Control
    case 15 => RawCustom
    case other => Reserved(other)
  }

  lemma KindCodec(kind: PayloadKind, nibble: u8)
    requires nibble < 16
    ensures KindFromNibble(nibble) == kind <==> kind.InRange() && kind.Nibble() == nibble
  {
  }

  // ---------- Advert application data ----------

  datatype AdvertNodeType = NoType | Chat | Repeater | Room | Sensor | ReservedType(n: u8) {
    function Nibble(): (r: u8)
      ensures r < 16
    {
      match this
      case NoType => 0
      case Chat => 1
      case Repeater => 2
      case Room => 3
      case Sensor => 4
      case ReservedType(n) => n % 16
    }

    predicate InRange() {
      ReservedType? ==> 5 <= n <= 15
    }
  }

  function NodeTypeFromNibble(flags: u8): AdvertNodeType {
    match flags % 16
    case 0 => NoType
    case 1 => Chat
    case 2 => Repeater
    case 3 => Room
    case 4 => Sensor
    case other => ReservedType(other)
  }

  /** A continuation byte of UTF-8 between `lo` and `hi`. */
  predicate Between(b: seq<u8>, i: nat, lo: u8, hi: u8) {
    i < |b| && lo <= b[i] <= hi
  }

  /** Well-formed UTF-8: Table 3-7 of the Unicode Standard. */
  predicate ValidUtf8(b: seq<u8>)
    decreases |b|
  {
    if b == [] then true
    else if b[0] < 0x80 then ValidUtf8(b[1..])
    else if 0xC2 <= b[0] <= 0xDF then Between(b, 1, 0x80, 0xBF) && ValidUtf8(b[2..])
    else if 0xE0 <= b[0] <= 0xEF then
      && Between(b, 1, if b[0] == 0xE0 then 0xA0 else 0x80, if b[0] == 0xED then 0x9F else 0xBF)
      && Between(b, 2, 0x80, 0xBF) && ValidUtf8(b[3..])
    else if 0xF0 <= b[0] <= 0xF4 then
      && Between(b, 1, if b[0] == 0xF0 then 0x90 else 0x80, if b[0] == 0xF4 then 0x8F else 0xBF)
      && Between(b, 2, 0x80, 0xBF) && Between(b, 3, 0x80, 0xBF) && ValidUtf8(b[4..])
    else false
  }

  function Le32(v: i32): seq<u8> {
    ToLe(if v < 0 then v + 0x1_0000_0000 else v, 4)
  }

  function FromLe32(b: seq<u8>): i32
    requires |b| == 4
  {
    FourBytes(b);
    var v := FromLe(b);
    if v >= 0x8000_0000 then v - 0x1_0000_0000 else v
  }

  lemma FourBytes(b: seq<u8>)
    requires |b| == 4
    ensures FromLe(b) < 0x1_0000_0000 && ToLe(FromLe(b), 4) == b
  {
    ToFromLe(b);
    assert Pow256(4) == 0x1_0000_0000;
  }

  lemma FourBytesBack(v: u32)
    ensures FromLe(ToLe(v, 4)) == v
  {
    assert Pow256(4) == 0x1_0000_0000;
    FromToLe(v, 4);
  }

  lemma SignedCodec(v: i32, b: seq<u8>)
    requires |b| == 4
    ensures FromLe32(b) == v <==> b == Le32(v)
  {
    FourBytes(b);
    FourBytesBack(if v < 0 then v + 0x1_0000_0000 else v);
  }

  lemma WordCodec(v: u32, b: seq<u8>)
    requires |b| == 4
    ensures FromLe(b) == v <==> b == ToLe(v, 4)
  {
    FourBytes(b);
    FourBytesBack(v);
  }

  lemma ShortCodec(v: u16, b: seq<u8>)
    requires |b| == 2
    ensures FromLe(b) < 0x1_0000 && (FromLe(b) == v <==> b == ToLe(v, 2))
  {
    ToFromLe(b);
    assert Pow256(2) == 0x1_0000;
    FromToLe(v, 2);
  }

  datatype AdvertAppData = AdvertAppData(
    nodeType: AdvertNodeType, location: Option<(i32, i32)>, feature1: Option<u16>, feature2: Option<u16>,
    name: Option<seq<u8>>)
  {
    /** Node types in range and, as the string type guarantees, a name that is UTF-8. */
    predicate InRange() {
      nodeType.InRange() && (name.Some? ==> ValidUtf8(name.value))
    }

    function Flags(): u8 {
      nodeType.Nibble() + (if location.Some? then 0x10 else 0) + (if feature1.Some? then 0x20 else 0)
      + (if feature2.Some? then 0x40 else 0) + (if name.Some? then 0x80 else 0)
    }

    function Encode(): Result<seq<u8>, Error> {
      var out := [Flags()] + LocationBytes(location) + FeatureBytes(feature1) + FeatureBytes(feature2)
                 + NameBytes(name);
      if |out| > MAX_ADVERT_DATA_SIZE then Err(InvalidLength) else Ok(out)
    }
  }

  function LocationBytes(location: Option<(i32, i32)>): seq<u8> {
    if location.Some? then Le32(location.value.0) + Le32(location.value.1) else []
  }

  function FeatureBytes(feature: Option<u16>): seq<u8> {
    if feature.Some? then ToLe(feature.value, 2) else []
  }

  function DecodeLocation(present: bool, input: seq<u8>): Result<(Option<(i32, i32)>, seq<u8>), Error> {
    if !present then Ok((None, input))
    else
      var (latitude, rest) :- Cut(input, 4);
      var (longitude, rest) :- Cut(rest, 4);
      Ok((Some((FromLe32(latitude), FromLe32(longitude))), rest))
  }

  function DecodeFeature(present: bool, input: seq<u8>): Result<(Option<u16>, seq<u8>), Error> {
    if !present then Ok((None, input))
    else
      var (feature, rest) :- Cut(input, 2);
      ShortCodec(0, feature);
      Ok((Some(FromLe(feature)), rest))
  }

  function DecodeName(present: bool, input: seq<u8>): Result<Option<seq<u8>>, Error> {
    if present then (if ValidUtf8(input) then Ok(Some(input)) else Err(InvalidUtf8))
    else if input != [] then Err(InvalidLength)
    else Ok(None)
  }

  function DecodeAppData(input: seq<u8>): Result<AdvertAppData, Error> {
    if |input| > MAX_ADVERT_DATA_SIZE then Err(InvalidLength)
    else
      var (head, rest) :- Cut(input, 1);
      var flags := head[0];
      var (location, rest) :- DecodeLocation(flags / 0x10 % 2 == 1, rest);
      DecodeRest(flags, location, rest)
  }

  function DecodeRest(flags: u8, location: Option<(i32, i32)>, input: seq<u8>): Result<AdvertAppData, Error> {
    var (feature1, rest) :- DecodeFeature(flags / 0x20 % 2 == 1, input);
    var (feature2, rest) :- DecodeFeature(flags / 0x40 % 2 == 1, rest);
    var name :- DecodeName(flags / 0x80 % 2 == 1, rest);
    Ok(AdvertAppData(NodeTypeFromNibble(flags), location, feature1, feature2, name))
  }

  lemma CutIs(input: seq<u8>, head: seq<u8>, rest: seq<u8>)
    ensures Cut(input, |head|) == Ok((head, rest)) <==> input == head + rest
  {
    if input == head + rest {
      assert input[..|head|] == head && input[|head|..] == rest;
    }
  }

  lemma LocationCodec(present: bool, location: Option<(i32, i32)>, input: seq<u8>, rest: seq<u8>)
    ensures DecodeLocation(present, input) == Ok((location, rest)) <==>
            present == location.Some? && input == LocationBytes(location) + rest
  {
    assert [] + rest == rest;
    if present && location.Some? {
      var (latitude, longitude) := (Le32(location.value.0), Le32(location.value.1));
      CutIs(input, latitude, longitude + rest);
      CutIs(longitude + rest, longitude, rest);
      assert latitude + (longitude + rest) == latitude + longitude + rest;
      SignedCodec(location.value.0, latitude);
      SignedCodec(location.value.1, longitude);
      if DecodeLocation(present, input) == Ok((location, rest)) {
        SignedCodec(location.value.0, input[..4]);
        SignedCodec(location.value.1, input[4..][..4]);
        assert input == input[..4] + (input[4..][..4] + input[4..][4..]);
      }
    }
  }

  lemma FeatureCodec(present: bool, feature: Option<u16>, input: seq<u8>, rest: seq<u8>)
    ensures DecodeFeature(present, input) == Ok((feature, rest)) <==>
            present == feature.Some? && input == FeatureBytes(feature) + rest
  {
    assert [] + rest == rest;
    if present && feature.Some? {
      var bytes := ToLe(feature.value, 2);
      CutIs(input, bytes, rest);
      ShortCodec(feature.value, bytes);
      if DecodeFeature(present, input) == Ok((feature, rest)) {
        ShortCodec(feature.value, input[..2]);
      }
    }
  }

  function Bit(b: bool): u8 {
    if b then 1 else 0
  }

  /** A flags byte is its low nibble and four bits. */
  lemma BitsOf(n: u8, a: u8, b: u8, c: u8, d: u8, f: u8)
    requires n < 16 && a < 2 && b < 2 && c < 2 && d < 2
    ensures f == n + 0x10 * a + 0x20 * b + 0x40 * c + 0x80 * d <==>
            f % 16 == n && f / 0x10 % 2 == a && f / 0x20 % 2 == b && f / 0x40 % 2 == c && f / 0x80 % 2 == d
  {
    var q := f / 16;
    assert f == 16 * q + f % 16 && q < 16;
    assert f / 0x20 == q / 2 && f / 0x40 == q / 4 && f / 0x80 == q / 8;
    NibbleBits(q, a, b, c, d);
  }

  lemma NibbleBits(q: u8, a: u8, b: u8, c: u8, d: u8)
    requires q < 16 && a < 2 && b < 2 && c < 2 && d < 2
    ensures q == a + 2 * b + 4 * c + 8 * d <==> q % 2 == a && q / 2 % 2 == b && q / 4 % 2 == c && q / 8 % 2 == d
  {
  }

  lemma FlagsCodec(v: AdvertAppData, flags: u8)
    ensures v.nodeType.InRange() && v.Flags() == flags <==>
            && NodeTypeFromNibble(flags) == v.nodeType
            && (flags / 0x10 % 2 == 1 <==> v.location.Some?) && (flags / 0x20 % 2 == 1 <==> v.feature1.Some?)
            && (flags / 0x40 % 2 == 1 <==> v.feature2.Some?) && (flags / 0x80 % 2 == 1 <==> v.name.Some?)
  {
    BitsOf(v.nodeType.Nibble(), Bit(v.location.Some?), Bit(v.feature1.Some?), Bit(v.feature2.Some?),
           Bit(v.name.Some?), flags);
    NodeTypeCodec(v.nodeType, flags);
  }

  lemma NodeTypeCodec(nodeType: AdvertNodeType, flags: u8)
    ensures NodeTypeFromNibble(flags) == nodeType <==> nodeType.InRange() && nodeType.Nibble() == flags % 16
  {
  }

  function NameBytes(name: Option<seq<u8>>): seq<u8> {
    if name.Some? then name.value else []
  }

  /** The bytes after the location, and those after the flags. */
  function Rest(v: AdvertAppData): seq<u8> {
    FeatureBytes(v.feature1) + (FeatureBytes(v.feature2) + NameBytes(v.name))
  }

  function Tail(v: AdvertAppData): seq<u8> {
    LocationBytes(v.location) + Rest(v)
  }

  lemma RestCodec(flags: u8, v: AdvertAppData, input: seq<u8>)
    ensures DecodeRest(flags, v.location, input) == Ok(v) <==>
            && NodeTypeFromNibble(flags) == v.nodeType && (v.name.Some? ==> ValidUtf8(v.name.value))
            && (flags / 0x20 % 2 == 1 <==> v.feature1.Some?) && (flags / 0x40 % 2 == 1 <==> v.feature2.Some?)
            && (flags / 0x80 % 2 == 1 <==> v.name.Some?) && input == Rest(v)
  {
    var name := NameBytes(v.name);
    var r2 := FeatureBytes(v.feature2) + name;
    FeatureCodec(flags / 0x20 % 2 == 1, v.feature1, input, r2);
    FeatureCodec(flags / 0x40 % 2 == 1, v.feature2, r2, name);
    if DecodeRest(flags, v.location, input) == Ok(v) {
      var (_, rest1) := DecodeFeature(flags / 0x20 % 2 == 1, input).value;
      var (_, rest2) := DecodeFeature(flags / 0x40 % 2 == 1, rest1).value;
      FeatureCodec(flags / 0x20 % 2 == 1, v.feature1, input, rest1);
      FeatureCodec(flags / 0x40 % 2 == 1, v.feature2, rest1, rest2);
    }
  }

  lemma EncodedAppData(v: AdvertAppData)
    ensures v.Encode() == if 1 + |Tail(v)| > MAX_ADVERT_DATA_SIZE then Err(InvalidLength) else Ok([v.Flags()] + Tail(v))
  {
    assert [v.Flags()] + LocationBytes(v.location) + FeatureBytes(v.feature1) + FeatureBytes(v.feature2)
           + NameBytes(v.name) == [v.Flags()] + Tail(v);
  }

  lemma AppDataEncodes(v: AdvertAppData)
    requires v.InRange() && 1 + |Tail(v)| <= MAX_ADVERT_DATA_SIZE
    ensures DecodeAppData([v.Flags()] + Tail(v)) == Ok(v)
  {
    var flags := v.Flags();
    CutIs([flags] + Tail(v), [flags], Tail(v));
    FlagsCodec(v, flags);
    LocationCodec(flags / 0x10 % 2 == 1, v.location, Tail(v), Rest(v));
    RestCodec(flags, v, Rest(v));
  }

  /** The application data format is canonical. */
  lemma AppDataCodec(v: AdvertAppData, input: seq<u8>)
    ensures DecodeAppData(input) == Ok(v) <==> v.InRange() && v.Encode() == Ok(input)
  {
    EncodedAppData(v);
    if v.InRange() && 1 + |Tail(v)| <= MAX_ADVERT_DATA_SIZE {
      AppDataEncodes(v);
    }
    if DecodeAppData(input) == Ok(v) {
      AppDataParts(v, input);
    }
  }

  /** The decoder takes the flags, then the location, then the rest. */
  lemma AppDataSteps(v: AdvertAppData, input: seq<u8>) returns (rest: seq<u8>)
    requires DecodeAppData(input) == Ok(v)
    ensures input != [] && DecodeLocation(input[0] / 0x10 % 2 == 1, input[1..]) == Ok((v.location, rest))
    ensures DecodeRest(input[0], v.location, rest) == Ok(v)
  {
    hide DecodeLocation, NodeTypeFromNibble, DecodeFeature, DecodeName;
    rest := DecodeLocation(input[0] / 0x10 % 2 == 1, input[1..]).value.1;
  }

  /** What the decoder consumed is what the encoder writes. */
  lemma AppDataParts(v: AdvertAppData, input: seq<u8>)
    requires DecodeAppData(input) == Ok(v)
    ensures v.InRange() && input == [v.Flags()] + Tail(v)
  {
    hide ValidUtf8, DecodeAppData, DecodeLocation, DecodeRest, LocationBytes, Rest,
      NodeTypeFromNibble, AdvertAppData.Flags;
    var rest := AppDataSteps(v, input);
    var flags := input[0];
    LocationCodec(flags / 0x10 % 2 == 1, v.location, input[1..], rest);
    RestCodec(flags, v, rest);
    FlagsCodec(v, flags);
  }

  // ---------- Payloads ----------

  datatype TraceHashSize = TraceOne | TraceTwo | TraceFour {
    function Size(): (n: nat) {
      match this
      case TraceOne => 1
      case TraceTwo => 2
      case TraceFour => 4
    }

    function Bits(): u8 {
      match this
      case TraceOne => 0
      case TraceTwo => 1
      case TraceFour => 2
    }
  }

  /** Which of the kinds that share a layout a payload is. */
  datatype DirectKind = OfRequest | OfResponse | OfText | OfPath {
    function Kind(): PayloadKind {
      match this
      case OfRequest => Request
      case OfResponse => Response
      case OfText => TextMessage
      case OfPath => PathReturn
    }
  }

  datatype GroupKind = OfGroupText | OfGroupData {
    function Kind(): PayloadKind {
      if OfGroupText? then GroupText else GroupData
    }
  }

  datatype Payload =
    | DirectPayload(directKind: DirectKind, destination: u8, source: u8, mac: seq<u8>, ciphertext: seq<u8>)
    | AckPayload(ackHash: seq<u8>)
    | AdvertPayload(publicKey: seq<u8>, timestamp: u32, signature: seq<u8>, appData: Option<AdvertAppData>)
    | GroupPayload(groupKind: GroupKind, channel: u8, mac: seq<u8>, ciphertext: seq<u8>)
    | AnonymousPayload(destination: u8, publicKey: seq<u8>, mac: seq<u8>, ciphertext: seq<u8>)
    | TracePayload(tag: u32, authCode: u32, hashSize: TraceHashSize, pathHashes: seq<u8>)
    | MultipartPayload(remaining: u8, subType: PayloadKind, subPayload: seq<u8>)
    | ControlPayload(flags: u8, data: seq<u8>)
    | ReservedPayload(reserved: u8, bytes: seq<u8>)
    | RawPayload(bytes: seq<u8>)
  {
    function Kind(): PayloadKind {
      match this
      case DirectPayload(kind, _, _, _, _) => kind.Kind()
      case AckPayload(_) => Ack
      case AdvertPayload(_, _, _, _) => Advert
      case GroupPayload(kind, _, _, _) => kind.Kind()
      case AnonymousPayload(_, _, _, _) => AnonymousRequest
      case TracePayload(_, _, _, _) => Trace
      case MultipartPayload(_, _, _) => Multipart
      case ControlPayload(_, _) => Control
      case ReservedPayload(n, _) => Reserved(n)
      case RawPayload(_) => RawCustom
    }

    /** What the field types guarantee: fixed array lengths and UTF-8 names. */
    predicate Typed() {
      match this
      case DirectPayload(_, _, _, mac, _) => |mac| == 2
      case AckPayload(hash) => |hash| == 4
      case AdvertPayload(key, _, signature, app) =>
        |key| == 32 && |signature| == 64 && (app.Some? && app.value.name.Some? ==> ValidUtf8(app.value.name.value))
      case GroupPayload(_, _, mac, _) => |mac| == 2
      case AnonymousPayload(_, key, mac, _) => |key| == 32 && |mac| == 2
      case _ => true
    }

    /** Reserved numbers that fit the bits the wire gives them. */
    predicate NibblesInRange() {
      match this
      case AdvertPayload(_, _, _, app) => app.Some? ==> app.value.nodeType.InRange()
      case MultipartPayload(remaining, subType, _) => remaining < 16 && subType.InRange()
      case ReservedPayload(n, _) => Reserved(n).InRange()
      case _ => true
    }

    predicate ZeroHopOnly() {
      ControlPayload? && flags >= 0x80
    }

    function Encode(): Result<seq<u8>, Error> {
      match this
      case DirectPayload(_, destination, source, mac, ciphertext) => Ok([destination, source] + mac + ciphertext)
      case AckPayload(hash) => Ok(hash)
      case AdvertPayload(key, timestamp, signature, app) =>
        var head := key + ToLe(timestamp, 4) + signature;
        if app.None? then Ok(head)
        else
          var data :- app.value.Encode();
          Ok(head + data)
      case GroupPayload(_, channel, mac, ciphertext) => Ok([channel] + mac + ciphertext)
      case AnonymousPayload(destination, key, mac, ciphertext) => Ok([destination] + key + mac + ciphertext)
      case TracePayload(tag, auth, size, hashes) =>
        if |hashes| % size.Size() != 0 then Err(InvalidLength)
        else Ok(ToLe(tag, 4) + ToLe(auth, 4) + [size.Bits()] + hashes)
      case MultipartPayload(remaining, subType, sub) => Ok([remaining % 16 * 16 + subType.Nibble()] + sub)
      case ControlPayload(flags, data) => Ok([flags] + data)
      case ReservedPayload(_, bytes) => Ok(bytes)
      case RawPayload(bytes) => Ok(bytes)
    }
  }

  function DecodeDirect(kind: DirectKind, input: seq<u8>): Result<Payload, Error> {
    var (head, rest) :- Cut(input, 2);
    var (mac, rest) :- Cut(rest, 2);
    Ok(DirectPayload(kind, head[0], head[1], mac, rest))
  }

  function DecodeAdvert(input: seq<u8>): Result<Payload, Error> {
    var (key, rest) :- Cut(input, 32);
    var (timestamp, rest) :- Cut(rest, 4);
    var (signature, rest) :- Cut(rest, 64);
    FourBytes(timestamp);
    var data :- DecodeAdvertData(rest);
    Ok(AdvertPayload(key, FromLe(timestamp), signature, data))
  }

  function DecodeAdvertData(rest: seq<u8>): Result<Option<AdvertAppData>, Error> {
    if |rest| > MAX_ADVERT_DATA_SIZE then Err(InvalidLength)
    else if rest == [] then Ok(None)
    else
      var data :- DecodeAppData(rest);
      Ok(Some(data))
  }

  function DecodeGroup(kind: GroupKind, input: seq<u8>): Result<Payload, Error> {
    var (head, rest) :- Cut(input, 1);
    var (mac, rest) :- Cut(rest, 2);
    Ok(GroupPayload(kind, head[0], mac, rest))
  }

  function DecodeAnonymous(input: seq<u8>): Result<Payload, Error> {
    var (head, rest) :- Cut(input, 1);
    var (key, rest) :- Cut(rest, 32);
    var (mac, rest) :- Cut(rest, 2);
    Ok(AnonymousPayload(head[0], key, mac, rest))
  }

  function DecodeTrace(input: seq<u8>): Result<Payload, Error> {
    var (tag, rest) :- Cut(input, 4);
    var (auth, rest) :- Cut(rest, 4);
    var (head, rest) :- Cut(rest, 1);
    FourBytes(tag);
    FourBytes(auth);
    if head[0] >= 3 then Err(InvalidTraceFlags(head[0]))
    else
      var size := if head[0] == 0 then TraceOne else if head[0] == 1 then TraceTwo else TraceFour;
      if |rest| % size.Size() != 0 then Err(InvalidLength)
      else Ok(TracePayload(FromLe(tag), FromLe(auth), size, rest))
  }

  function DecodePayload(kind: PayloadKind, input: seq<u8>): Result<Payload, Error> {
    if |input| > MAX_PACKET_PAYLOAD then Err(PayloadTooLong(|input|))
    else
      match kind
      case Ack => if |input| != 4 then Err(InvalidLength) else Ok(AckPayload(input))
      case Advert => DecodeAdvert(input)
      case AnonymousRequest => DecodeAnonymous(input)
      case Trace => DecodeTrace(input)
      case Multipart =>
        if input == [] then Err(Truncated)
        else Ok(MultipartPayload(input[0] / 16, KindFromNibble(input[0]), input[1..]))
      case Control => if input == [] then Err(Truncated) else Ok(ControlPayload(input[0], input[1..]))
      case Reserved(n) => Ok(ReservedPayload(n, input))
      case RawCustom => Ok(RawPayload(input))
      case GroupText => DecodeGroup(OfGroupText, input)
      case GroupData => DecodeGroup(OfGroupData, input)
      case Request => DecodeDirect(OfRequest, input)
      case Response => DecodeDirect(OfResponse, input)
      case TextMessage => DecodeDirect(OfText, input)
      case PathReturn => DecodeDirect(OfPath, input)
  }

  lemma DirectCodec(v: Payload, input: seq<u8>)
    requires v.DirectPayload?
    ensures DecodeDirect(v.directKind, input) == Ok(v) <==> |v.mac| == 2 && v.Encode() == Ok(input)
  {
    CutIs(input, [v.destination, v.source], v.mac + v.ciphertext);
    CutIs(v.mac + v.ciphertext, v.mac, v.ciphertext);
    assert [v.destination, v.source] + (v.mac + v.ciphertext) == [v.destination, v.source] + v.mac + v.ciphertext;
    if |input| >= 4 {
      assert input == [input[0], input[1]] + input[2..][..2] + input[2..][2..];
    }
  }

  lemma GroupCodec(v: Payload, input: seq<u8>)
    requires v.GroupPayload?
    ensures DecodeGroup(v.groupKind, input) == Ok(v) <==> |v.mac| == 2 && v.Encode() == Ok(input)
  {
    CutIs(input, [v.channel], v.mac + v.ciphertext);
    CutIs(v.mac + v.ciphertext, v.mac, v.ciphertext);
    assert [v.channel] + (v.mac + v.ciphertext) == [v.channel] + v.mac + v.ciphertext;
    if |input| >= 3 {
      assert input == [input[0]] + input[1..][..2] + input[1..][2..];
    }
  }

  lemma AnonymousCodec(v: Payload, input: seq<u8>)
    requires v.AnonymousPayload?
    ensures DecodeAnonymous(input) == Ok(v) <==> v.Typed() && v.Encode() == Ok(input)
  {
    var rest := v.mac + v.ciphertext;
    CutIs(input, [v.destination], v.publicKey + rest);
    CutIs(v.publicKey + rest, v.publicKey, rest);
    CutIs(rest, v.mac, v.ciphertext);
    assert [v.destination] + (v.publicKey + rest) == [v.destination] + v.publicKey + v.mac + v.ciphertext;
    if |input| >= 35 {
      var r1 := input[1..];
      assert input == [input[0]] + r1[..32] + r1[32..][..2] + r1[32..][2..];
    }
  }

  function AdvertData(data: Option<AdvertAppData>): Result<seq<u8>, Error> {
    if data.None? then Ok([]) else data.value.Encode()
  }

  lemma AdvertDataCodec(data: Option<AdvertAppData>, rest: seq<u8>)
    ensures DecodeAdvertData(rest) == Ok(data) <==>
            (data.Some? ==> data.value.InRange()) && AdvertData(data) == Ok(rest)
  {
    hide DecodeAppData, AdvertAppData.Encode, AdvertAppData.InRange;
    if data.Some? {
      AppDataCodec(data.value, rest);
      EncodedAppData(data.value);
    }
  }

  lemma AdvertEncodes(v: Payload)
    requires v.AdvertPayload?
    ensures v.Encode() == match AdvertData(v.appData)
            case Ok(rest) => Ok(v.publicKey + ToLe(v.timestamp, 4) + v.signature + rest)
            case Err(e) => Err(e)
  {
    hide AdvertAppData.Encode, ToLe;
    var head := v.publicKey + ToLe(v.timestamp, 4) + v.signature;
    assert head + [] == head;
  }

  lemma AdvertCodec(v: Payload, input: seq<u8>)
    requires v.AdvertPayload?
    ensures DecodeAdvert(input) == Ok(v) <==> v.Typed() && v.NibblesInRange() && v.Encode() == Ok(input)
  {
    AdvertEncodes(v);
    hide Payload.Encode, AdvertData, DecodeAdvertData, ToLe, FromLe, ValidUtf8;
    if |input| >= 100 {
      var (key, rest) := (input[..32], input[32..]);
      var (stamp, rest2) := (rest[..4], rest[4..]);
      var (signature, data) := (rest2[..64], rest2[64..]);
      assert input == key + stamp + signature + data;
      WordCodec(v.timestamp, stamp);
      AdvertDataCodec(v.appData, data);
      if v.Typed() && AdvertData(v.appData).Ok? {
        Parts(v.publicKey, ToLe(v.timestamp, 4), v.signature, AdvertData(v.appData).value,
              key, stamp, signature, data);
      }
    }
  }

  lemma Cancel(a: seq<u8>, b: seq<u8>, c: seq<u8>, d: seq<u8>)
    requires a + b == c + d && |a| == |c|
    ensures a == c && b == d
  {
    assert (a + b)[..|a|] == a && (c + d)[..|a|] == c;
    assert (a + b)[|a|..] == b && (c + d)[|a|..] == d;
  }

  lemma Parts(k: seq<u8>, t: seq<u8>, s: seq<u8>, r: seq<u8>, key: seq<u8>, stamp: seq<u8>, signature: seq<u8>,
      data: seq<u8>)
    requires |k| == |key| && |t| == |stamp| && |s| == |signature|
    ensures k + t + s + r == key + stamp + signature + data <==> k == key && t == stamp && s == signature && r == data
  {
    if k + t + s + r == key + stamp + signature + data {
      Cancel(k + t + s, r, key + stamp + signature, data);
      Cancel(k + t, s, key + stamp, signature);
      Cancel(k, t, key, stamp);
    }
  }

  lemma TraceCodec(v: Payload, input: seq<u8>)
    requires v.TracePayload?
    ensures DecodeTrace(input) == Ok(v) <==> v.Encode() == Ok(input)
  {
    var (tag, auth) := (ToLe(v.tag, 4), ToLe(v.authCode, 4));
    if |input| >= 9 {
      var (t, rest) := (input[..4], input[4..]);
      var (a, rest2) := (rest[..4], rest[4..]);
      assert input == t + a + [rest2[0]] + rest2[1..];
      WordCodec(v.tag, t);
      WordCodec(v.authCode, a);
      Parts(tag, auth, [v.hashSize.Bits()], v.pathHashes, t, a, [rest2[0]], rest2[1..]);
    }
  }

  lemma DecodedKind(kind: PayloadKind, input: seq<u8>)
    ensures var r := DecodePayload(kind, input); r.Ok? ==> r.value.Kind() == kind && |input| <= MAX_PACKET_PAYLOAD
  {
    hide Cut, DecodeAdvertData, FromLe, KindFromNibble;
  }

  lemma PayloadCodecOfKind(v: Payload, input: seq<u8>)
    requires v.Kind().InRange() && |input| <= MAX_PACKET_PAYLOAD
    ensures DecodePayload(v.Kind(), input) == Ok(v) <==> v.Typed() && v.NibblesInRange() && v.Encode() == Ok(input)
  {
    hide DecodePayload, Payload.Encode, Payload.Typed, Payload.NibblesInRange;
    match v
    case DirectPayload(_, _, _, _, _) => EncryptedCodec(v, input);
    case GroupPayload(_, _, _, _) => EncryptedCodec(v, input);
    case AnonymousPayload(_, _, _, _) => EncryptedCodec(v, input);
    case AdvertPayload(_, _, _, _) => AdvertOfKind(v, input);
    case TracePayload(_, _, _, _) => TraceOfKind(v, input);
    case MultipartPayload(_, _, _) => MultipartOfKind(v, input);
    case _ => UnstructuredCodec(v, input);
  }

  lemma EncryptedCodec(v: Payload, input: seq<u8>)
    requires |input| <= MAX_PACKET_PAYLOAD && (v.DirectPayload? || v.GroupPayload? || v.AnonymousPayload?)
    ensures DecodePayload(v.Kind(), input) == Ok(v) <==> v.Typed() && v.NibblesInRange() && v.Encode() == Ok(input)
  {
    hide DecodeDirect, DecodeGroup, DecodeAnonymous;
    match v
    case DirectPayload(_, _, _, _, _) => DirectCodec(v, input);
    case GroupPayload(_, _, _, _) => GroupCodec(v, input);
    case AnonymousPayload(_, _, _, _) => AnonymousCodec(v, input);
  }

  lemma AdvertOfKind(v: Payload, input: seq<u8>)
    requires |input| <= MAX_PACKET_PAYLOAD && v.AdvertPayload?
    ensures DecodePayload(v.Kind(), input) == Ok(v) <==> v.Typed() && v.NibblesInRange() && v.Encode() == Ok(input)
  {
    hide DecodeAdvert, Payload.Typed, Payload.Encode;
    AdvertCodec(v, input);
  }

  lemma TraceOfKind(v: Payload, input: seq<u8>)
    requires |input| <= MAX_PACKET_PAYLOAD && v.TracePayload?
    ensures DecodePayload(v.Kind(), input) == Ok(v) <==> v.Typed() && v.NibblesInRange() && v.Encode() == Ok(input)
  {
    hide DecodeTrace, Payload.Encode;
    TraceCodec(v, input);
  }

  lemma MultipartOfKind(v: Payload, input: seq<u8>)
    requires |input| <= MAX_PACKET_PAYLOAD && v.MultipartPayload?
    ensures DecodePayload(v.Kind(), input) == Ok(v) <==> v.Typed() && v.NibblesInRange() && v.Encode() == Ok(input)
  {
    hide KindFromNibble;
    MultipartCodec(v.remaining, v.subType, v.subPayload, input);
  }

  /** Acknowledgements, control packets and payloads taken as they are. */
  lemma UnstructuredCodec(v: Payload, input: seq<u8>)
    requires v.Kind().InRange() && |input| <= MAX_PACKET_PAYLOAD
    requires v.AckPayload? || v.ControlPayload? || v.ReservedPayload? || v.RawPayload?
    ensures DecodePayload(v.Kind(), input) == Ok(v) <==> v.Typed() && v.NibblesInRange() && v.Encode() == Ok(input)
  {
    if input != [] {
      assert input == [input[0]] + input[1..];
    }
  }

  /** Decoding a payload of a given kind succeeds exactly on the encodings of its in-range values. */
  lemma PayloadCodec(kind: PayloadKind, v: Payload, input: seq<u8>)
    requires kind.InRange()
    ensures DecodePayload(kind, input) == Ok(v) <==>
            && v.Kind() == kind && v.Typed() && v.NibblesInRange()
            && |input| <= MAX_PACKET_PAYLOAD && v.Encode() == Ok(input)
  {
    DecodedKind(kind, input);
    if v.Kind() == kind && |input| <= MAX_PACKET_PAYLOAD {
      PayloadCodecOfKind(v, input);
    }
  }

  lemma MultipartCodec(remaining: u8, subType: PayloadKind, sub: seq<u8>, input: seq<u8>)
    ensures (input != [] && MultipartPayload(input[0] / 16, KindFromNibble(input[0]), input[1..])
                            == MultipartPayload(remaining, subType, sub))
            <==> remaining < 16 && subType.InRange() && input == [remaining % 16 * 16 + subType.Nibble()] + sub
  {
    if input != [] {
      assert input == [input[0]] + input[1..];
      KindCodec(subType, input[0] % 16);
      assert KindFromNibble(input[0]) == KindFromNibble(input[0] % 16);
      PackedByte(remaining, subType.Nibble(), input[0]);
    }
  }

  lemma PackedByte(high: u8, low: u8, b: u8)
    requires low < 16
    ensures high < 16 && b == high % 16 * 16 + low <==> b / 16 == high && b % 16 == low
  {
  }
}
