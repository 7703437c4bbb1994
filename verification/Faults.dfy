/** Which error the decoder gives for which bytes. */
module Faults {
  import opened Bytes
  import opened Wrappers
  import opened Paths
  import opened Payloads
  import opened Packets

  /** Where the route of a packet starts: behind the header, and behind the transport codes if there are any. */
  function RouteStart(header: u8): nat {
    if header % 4 == 0 || header % 4 == 3 then 5 else 1
  }

  /** What is wrong with the bytes in front of the payload, or where the payload starts. */
  function Framing(b: seq<u8>): Result<nat, Error> {
    if b == [] then Err(EmptyPacket)
    else if |b| > 255 then Err(PacketTooLong(|b|))
    else if b[0] == 0xFF then Err(InvalidHeaderSentinel)
    else if b[0] >= 0x40 then Err(UnsupportedPayloadVersion(b[0] / 0x40 + 1))
    else if |b| <= RouteStart(b[0]) then Err(Truncated)
    else RouteFraming(b, RouteStart(b[0]), b[0] / 4 == 9)
  }

  function RouteFraming(b: seq<u8>, at: nat, trace: bool): Result<nat, Error>
    requires at < |b|
  {
    var hops: nat := b[at] % 0x40;
    var len: nat := if trace then b[at] else if b[at] < 0x40 then hops else if b[at] < 0x80 then 2 * hops else 3 * hops;
    if trace && b[at] >= 0x40 then Err(InvalidTracePathLength(b[at]))
    else if !trace && b[at] >= 0xC0 then Err(InvalidHashSizeCode(3))
    else if len > 64 then Err(PathTooLong(len))
    else if at + 1 + len > |b| then Err(Truncated)
    else if |b| - (at + 1 + len) > 184 then Err(PayloadTooLong(|b| - (at + 1 + len)))
    else Ok(at + 1 + len)
  }

  /** Any fault in front of the payload is reported as what it is, the first one first; behind it the payload
      decides, and a control payload for neighbours only must be direct with no hops. */
  lemma DecodeFaults(b: seq<u8>)
    ensures Framing(b).Err? ==> Decode(b) == Err(Framing(b).error)
    ensures Framing(b).Ok? ==>
              var (start, kind) := (Framing(b).value, KindFromNibble(b[0] / 4));
              var payload := DecodePayload(kind, b[start..]);
              && (payload.Err? ==> Decode(b) == Err(payload.error))
              && (payload.Ok? ==>
                    if payload.value.ControlPayload? && payload.value.flags >= 0x80
                       && !(b[0] % 4 >= 2 && start == RouteStart(b[0]) + 1) then
                      Decode(b) == Err(InvalidZeroHopControlRoute)
                    else Decode(b).Ok? && Decode(b).value.payload == payload.value)
  {
    hide DecodePayload, DecodeTail;
    if 0 < |b| <= 255 && b[0] < 0x40 {
      var (route, kind, at) := (RouteTypeFromBits(b[0]), KindFromNibble(b[0] / 4), RouteStart(b[0]));
      CodesFaults(route, b);
      if |b| >= at {
        var codes := DecodeCodes(route.HasTransportCodes(), b[1..]).value.0;
        if |b| > at {
          TailFaults(kind, route, codes, b, at);
        } else {
          EmptyTail(kind, route, codes, b[at..]);
        }
      }
    }
  }

  lemma CodesFaults(route: RouteType, b: seq<u8>)
    requires b != [] && route == RouteTypeFromBits(b[0])
    ensures var r := DecodeCodes(route.HasTransportCodes(), b[1..]);
            if |b| < RouteStart(b[0]) then r == Err(Truncated) else r.Ok? && r.value.1 == b[RouteStart(b[0])..]
  {
  }

  lemma EmptyTail(kind: PayloadKind, route: RouteType, codes: Option<TransportCodes>, rest: seq<u8>)
    requires rest == []
    ensures DecodeTail(kind, route, codes, rest) == Err(Truncated)
  {
  }

  lemma TailFaults(kind: PayloadKind, route: RouteType, codes: Option<TransportCodes>, b: seq<u8>, at: nat)
    requires at < |b|
    ensures var (framing, r) := (RouteFraming(b, at, kind == Trace), DecodeTail(kind, route, codes, b[at..]));
            && (framing.Err? ==> r == Err(framing.error))
            && (framing.Ok? ==>
                  var payload := DecodePayload(kind, b[framing.value..]);
                  && (payload.Err? ==> r == Err(payload.error))
                  && (payload.Ok? ==>
                        if payload.value.ControlPayload? && payload.value.flags >= 0x80
                           && !(route.IsDirect() && framing.value == at + 1) then r == Err(InvalidZeroHopControlRoute)
                        else r.Ok? && r.value.payload == payload.value))
  {
    hide DecodePayload, DecodeRoute, DecodeBody, RouteFraming, Path.HopCount;
    RouteFaults(kind, b, at);
    var decoded := DecodeRoute(kind, b[at], b[at + 1..]);
    assert b[at..][1..] == b[at + 1..];
    if decoded.Ok? {
      BodyFaults(kind, route, codes, decoded.value.0, decoded.value.1);
    }
  }

  lemma BodyFaults(kind: PayloadKind, route: RouteType, codes: Option<TransportCodes>, path: RoutePath, body: seq<u8>)
    ensures var (r, payload) := (DecodeBody(kind, route, codes, path, body), DecodePayload(kind, body));
            && (|body| > 184 ==> r == Err(PayloadTooLong(|body|)))
            && (|body| <= 184 && payload.Err? ==> r == Err(payload.error))
            && (|body| <= 184 && payload.Ok? ==>
                  && payload.value.Kind() == kind
                  && (if payload.value.ControlPayload? && payload.value.flags >= 0x80
                         && !(route.IsDirect() && path.Normal? && path.path.HopCount() == 0) then
                        r == Err(InvalidZeroHopControlRoute)
                      else r.Ok? && r.value.payload == payload.value))
  {
    hide DecodePayload, Path.HopCount;
    DecodedKind(kind, body);
  }

  lemma RouteFaults(kind: PayloadKind, b: seq<u8>, at: nat)
    requires at < |b|
    ensures var (framing, r) := (RouteFraming(b, at, kind == Trace), DecodeRoute(kind, b[at], b[at + 1..]));
            && (framing.Err? && !framing.error.PayloadTooLong? ==> r == Err(framing.error))
            && (framing.Err? && framing.error.PayloadTooLong? ==> r.Ok? && framing.error.len == |r.value.1| > 184)
            && (framing.Ok? ==>
                  && r.Ok? && r.value.1 == b[framing.value..] && |r.value.1| <= 184
                  && (r.value.0.Normal? <==> kind != Trace)
                  && (r.value.0.Normal? ==> (r.value.0.path.HopCount() == 0 <==> framing.value == at + 1)))
  {
    if kind == Trace {
    } else {
      NormalFaults(b, at);
    }
  }

  lemma NormalFaults(b: seq<u8>, at: nat)
    requires at < |b|
    ensures var (framing, r) := (RouteFraming(b, at, false), DecodeWire(b[at], b[at + 1..]));
            && (framing.Err? && !framing.error.PayloadTooLong? ==> r == Err(framing.error))
            && (framing.Err? && framing.error.PayloadTooLong? ==> r.Ok? && framing.error.len == |r.value.1| > 184)
            && (framing.Ok? ==>
                  && r.Ok? && r.value.1 == b[framing.value..] && |r.value.1| <= 184
                  && (r.value.0.HopCount() == 0 <==> framing.value == at + 1))
  {
    if b[at] < 0xC0 {
      var size := HashSizeFromCode(b[at] / 64).value;
      MultipleIsWhole(b[at] % 64, size.Size());
    }
  }

  /** What is wrong with a payload of this kind, if anything, short of the data in an advert. */
  function PayloadFault(kind: PayloadKind, x: seq<u8>): Option<Error> {
    match kind
    case Ack => if |x| == 4 then None else Some(InvalidLength)
    case Advert => if |x| < 100 then Some(Truncated) else if |x| > 132 then Some(InvalidLength) else None
    case AnonymousRequest => if |x| < 35 then Some(Truncated) else None
    case GroupText => if |x| < 3 then Some(Truncated) else None
    case GroupData => if |x| < 3 then Some(Truncated) else None
    case Trace =>
      if |x| < 9 then Some(Truncated)
      else if x[8] >= 3 then Some(InvalidTraceFlags(x[8]))
      else if (x[8] == 1 && (|x| - 9) % 2 != 0) || (x[8] == 2 && (|x| - 9) % 4 != 0) then Some(InvalidLength)
      else None
    case Multipart => if x == [] then Some(Truncated) else None
    case Control => if x == [] then Some(Truncated) else None
    case Reserved(_) => None
    case RawCustom => None
    case _ => if |x| < 4 then Some(Truncated) else None
  }

  lemma PayloadFaults(kind: PayloadKind, x: seq<u8>)
    requires |x| <= 184
    ensures PayloadFault(kind, x).Some? ==> DecodePayload(kind, x) == Err(PayloadFault(kind, x).value)
    ensures PayloadFault(kind, x).None? && (kind != Advert || |x| == 100) ==> DecodePayload(kind, x).Ok?
    ensures PayloadFault(kind, x).None? && kind == Advert && |x| > 100 ==>
              var data := DecodeAppData(x[100..]);
              if data.Err? then DecodePayload(kind, x) == Err(data.error) else DecodePayload(kind, x).Ok?
  {
    hide FromLe, DecodeAppData, DecodeAdvert, DecodeTrace, KindFromNibble;
    if kind == Advert {
      AdvertFaults(x);
    } else if kind == Trace {
      TraceFaults(x);
    }
  }

  lemma TraceFaults(x: seq<u8>)
    ensures |x| < 9 ==> DecodeTrace(x) == Err(Truncated)
    ensures |x| >= 9 && x[8] >= 3 ==> DecodeTrace(x) == Err(InvalidTraceFlags(x[8]))
    ensures |x| >= 9 && x[8] < 3 ==>
              if (x[8] == 1 && (|x| - 9) % 2 != 0) || (x[8] == 2 && (|x| - 9) % 4 != 0) then
                DecodeTrace(x) == Err(InvalidLength)
              else DecodeTrace(x).Ok?
  {
    hide FromLe;
    if |x| >= 9 {
      assert x[4..][4..] == x[8..] && x[8..][1..] == x[9..];
    }
  }

  lemma AdvertFaults(x: seq<u8>)
    ensures |x| < 100 ==> DecodeAdvert(x) == Err(Truncated)
    ensures |x| > 132 ==> DecodeAdvert(x) == Err(InvalidLength)
    ensures |x| == 100 ==> DecodeAdvert(x).Ok?
    ensures 100 < |x| <= 132 ==>
              var data := DecodeAppData(x[100..]);
              if data.Err? then DecodeAdvert(x) == Err(data.error) else DecodeAdvert(x).Ok?
  {
    hide FromLe, DecodeAppData;
    if |x| >= 100 {
      assert x[32..][4..][64..] == x[100..];
    }
  }

  /** What is wrong with advert data: too long or empty, a field that does not fit, a name that is not UTF-8, or
      bytes left over where there is no name. */
  lemma AdvertDataFaults(x: seq<u8>)
    ensures |x| > 32 ==> DecodeAppData(x) == Err(InvalidLength)
    ensures |x| <= 32 && |x| < FieldsEnd(x) ==> DecodeAppData(x) == Err(Truncated)
    ensures FieldsEnd(x) <= |x| <= 32 && x[0] < 0x80 ==>
              if |x| > FieldsEnd(x) then DecodeAppData(x) == Err(InvalidLength) else DecodeAppData(x).Ok?
    ensures FieldsEnd(x) <= |x| <= 32 && x[0] >= 0x80 ==>
              if ValidUtf8(x[FieldsEnd(x)..]) then DecodeAppData(x).Ok? else DecodeAppData(x) == Err(InvalidUtf8)
  {
    hide FromLe, ValidUtf8, FromLe32, NodeTypeFromNibble;
    if 0 < |x| <= 32 {
      var flags := x[0];
      var at := 1 + if flags / 16 % 2 == 1 then 8 else 0;
      var second := at + if flags / 32 % 2 == 1 then 2 else 0;
      LocationFaults(flags / 0x10 % 2 == 1, x, 1);
      if at <= |x| {
        FeatureFaults(flags / 0x20 % 2 == 1, x, at);
        if second <= |x| {
          FeatureFaults(flags / 0x40 % 2 == 1, x, second);
        }
      }
    }
  }

  /** Where the fields before the name end, by the flags. */
  function FieldsEnd(x: seq<u8>): nat {
    if x == [] then 1
    else 1 + (if x[0] / 16 % 2 == 1 then 8 else 0) + (if x[0] / 32 % 2 == 1 then 2 else 0)
         + (if x[0] / 64 % 2 == 1 then 2 else 0)
  }

  lemma LocationFaults(present: bool, x: seq<u8>, at: nat)
    requires at <= |x|
    ensures var (r, end) := (DecodeLocation(present, x[at..]), at + if present then 8 else 0);
            if |x| < end then r == Err(Truncated) else r.Ok? && r.value.1 == x[end..]
  {
    if present && |x| >= at + 8 {
      assert x[at..][4..][4..] == x[at + 8..];
    }
  }

  lemma FeatureFaults(present: bool, x: seq<u8>, at: nat)
    requires at <= |x|
    ensures var (r, end) := (DecodeFeature(present, x[at..]), at + if present then 2 else 0);
            if |x| < end then r == Err(Truncated) else r.Ok? && r.value.1 == x[end..]
  {
    if present && |x| >= at + 2 {
      assert x[at..][2..] == x[at + 2..];
    }
  }
}
