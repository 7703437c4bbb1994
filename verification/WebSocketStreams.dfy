/** Streams a conforming server can send, what the reader delivers from them, and the masked frames
    sent the other way. */
module WebSocketStreams {
  import opened Bytes
  import opened Wrappers
  import opened WebSocket
  import opened WebSocketReader

  datatype ServerFrame = ServerFrame(fin: bool, opcode: nat, payload: seq<u8>) {
    predicate IsData() {
      opcode == 0 || opcode == 2
    }

    /** Section 5.4 for data frames, section 5.5 for pings and pongs; no close. */
    predicate Allowed(fragmented: bool) {
      && |payload| < 0x8000_0000_0000_0000
      && (if IsData() then (opcode == 0) == fragmented
          else (opcode == 9 || opcode == 10) && fin && |payload| <= 125)
    }
  }

  /** The shortest length form, with the mask bit in front. */
  function LengthBytes(len: nat, masked: bool): (b: seq<u8>)
    requires len < 0x8000_0000_0000_0000
  {
    var bit := if masked then 0x80 else 0;
    if len < 126 then [bit + len]
    else if len < 0x1_0000 then [bit + 126] + ToBe(len, 2)
    else [bit + 127] + ToBe(len, 8)
  }

  function EncodeFrame(f: ServerFrame): (b: seq<u8>)
    requires |f.payload| < 0x8000_0000_0000_0000 && f.opcode < 16
  {
    [(if f.fin then 0x80 else 0) + f.opcode] + LengthBytes(|f.payload|, false) + f.payload
  }

  ghost predicate Legal(frames: seq<ServerFrame>, fragmented: bool) {
    frames == [] || (frames[0].Allowed(fragmented) && Legal(frames[1..], NextFragmented(frames[0], fragmented)))
  }

  function NextFragmented(f: ServerFrame, fragmented: bool): bool {
    if f.IsData() then !f.fin else fragmented
  }

  function Encode(frames: seq<ServerFrame>, fragmented: bool): seq<u8>
    requires Legal(frames, fragmented)
  {
    if frames == [] then [] else EncodeFrame(frames[0]) + Encode(frames[1..], NextFragmented(frames[0], fragmented))
  }

  function Payloads(frames: seq<ServerFrame>): seq<u8> {
    if frames == [] then [] else (if frames[0].IsData() then frames[0].payload else []) + Payloads(frames[1..])
  }

  function Pings(frames: seq<ServerFrame>): seq<seq<u8>> {
    if frames == [] then [] else (if frames[0].opcode == 9 then [frames[0].payload] else []) + Pings(frames[1..])
  }

  function EndFragmented(frames: seq<ServerFrame>, fragmented: bool): bool {
    if frames == [] then fragmented else EndFragmented(frames[1..], NextFragmented(frames[0], fragmented))
  }

  lemma LengthFits(len: nat)
    requires len < 0x8000_0000_0000_0000
    ensures len < 0x1_0000 ==> FromBe(ToBe(len, 2)) == len
    ensures FromBe(ToBe(len, 8)) == len
  {
    assert Pow256(2) == 0x1_0000;
    assert Pow256(4) == 0x1_0000_0000;
    assert Pow256(8) == 0x1_0000_0000 * Pow256(4);
    FromToBe(len, 8);
    if len < 0x1_0000 {
      FromToBe(len, 2);
    }
  }

  lemma HeaderParses(first: u8, len: nat, rest: seq<u8>)
    requires len < 0x8000_0000_0000_0000 && first / 16 % 8 == 0
    ensures var length := LengthBytes(len, false);
            ParseHeader([first] + length + rest) == Complete(Header(first >= 0x80, first % 16, len, 1 + |length|))
  {
    var length := LengthBytes(len, false);
    var b := [first] + length + rest;
    LengthFits(len);
    assert b[0] == first && b[1] == length[0];
    assert |length| == 3 ==> b[2..4] == ToBe(len, 2);
    assert |length| == 9 ==> b[2..10] == ToBe(len, 8);
  }

  /** One legal frame is parsed as what it is. */
  lemma FrameParses(f: ServerFrame, fragmented: bool, rest: seq<u8>)
    requires f.Allowed(fragmented)
    ensures var size := 1 + |LengthBytes(|f.payload|, false)|;
            ParseFrame(EncodeFrame(f) + rest, fragmented) ==
              Complete(if f.IsData() then Data(f.fin, |f.payload|, size)
                       else Control(f.opcode == 9, f.payload, size + |f.payload|))
  {
    hide LengthBytes, ParseHeader;
    var first := (if f.fin then 0x80 else 0) + f.opcode;
    var length := LengthBytes(|f.payload|, false);
    var b := EncodeFrame(f) + rest;
    HeaderParses(first, |f.payload|, f.payload + rest);
    assert b == [first] + length + (f.payload + rest);
    assert b[1 + |length|..1 + |length| + |f.payload|] == f.payload;
  }

  /** The parser takes a legal frame in front of anything as its payload and its place in the message. */
  lemma FrameDelivers(f: ServerFrame, fragmented: bool, rest: seq<u8>)
    requires f.Allowed(fragmented)
    ensures Scan(EncodeFrame(f) + rest, State(0, fragmented)) ==
            After(Outcome(State(0, NextFragmented(f, fragmented)), if f.IsData() then f.payload else [],
                          if f.opcode == 9 then [f.payload] else []),
                  Scan(rest, State(0, NextFragmented(f, fragmented))))
  {
    hide ParseFrame, Scan, EncodeFrame, LengthBytes;
    FrameParses(f, fragmented, rest);
    FrameTail(f, rest);
    if f.IsData() {
      ScanData(EncodeFrame(f) + rest, fragmented);
      PayloadScans(f.payload, State(|f.payload|, !f.fin));
      ScanSplit(f.payload, rest, State(|f.payload|, !f.fin));
    } else {
      ScanControl(EncodeFrame(f) + rest, fragmented);
    }
  }

  lemma FrameTail(f: ServerFrame, rest: seq<u8>)
    requires |f.payload| < 0x8000_0000_0000_0000 && f.opcode < 16
    ensures var (b, size) := (EncodeFrame(f) + rest, 1 + |LengthBytes(|f.payload|, false)|);
            |b| == size + |f.payload| + |rest| && b[size..] == f.payload + rest && b[size + |f.payload|..] == rest
  {
  }

  lemma ScanData(b: seq<u8>, fragmented: bool)
    requires ParseFrame(b, fragmented).Complete? && ParseFrame(b, fragmented).item.Data?
    ensures var f := ParseFrame(b, fragmented).item;
            Scan(b, State(0, fragmented)) == Scan(b[f.size..], State(f.len, !f.fin))
  {
    hide ParseFrame;
  }

  lemma ScanControl(b: seq<u8>, fragmented: bool)
    requires ParseFrame(b, fragmented).Complete? && ParseFrame(b, fragmented).item.Control?
    ensures var (f, st) := (ParseFrame(b, fragmented).item, State(0, fragmented));
            Scan(b, st) == After(Outcome(st, [], if f.ping then [f.payload] else []), Scan(b[f.size..], st))
  {
    hide ParseFrame;
  }

  /** The one-shot parser reads every legal stream to its end and delivers exactly its binary payloads. */
  lemma {:induction false} LegalScans(frames: seq<ServerFrame>, fragmented: bool)
    requires Legal(frames, fragmented)
    ensures Scan(Encode(frames, fragmented), State(0, fragmented)) ==
            Some(Outcome(State(0, EndFragmented(frames, fragmented)), Payloads(frames), Pings(frames)))
  {
    if frames == [] {
    } else {
      var next := NextFragmented(frames[0], fragmented);
      LegalScans(frames[1..], next);
      FrameDelivers(frames[0], fragmented, Encode(frames[1..], next));
    }
  }

  /** Wherever between items a legal stream has been cut, what was delivered is the front of its payloads,
      and while any payload is missing the rest of the stream still offers some. */
  lemma DeliveredIsPrefix(frames: seq<ServerFrame>, taken: nat)
    requires Legal(frames, false) && taken <= |Encode(frames, false)|
    requires Scan(Encode(frames, false)[..taken], State(0, false)).Some?
    ensures var (all, done) := (Encode(frames, false), Scan(Encode(frames, false)[..taken], State(0, false)).value);
            && done.delivered <= Payloads(frames) && done.pongs <= Pings(frames)
            && (done.delivered != Payloads(frames) ==> HasPayload(all[taken..], done.state))
  {
    var all := Encode(frames, false);
    var done := Scan(all[..taken], State(0, false)).value;
    LegalScans(frames, false);
    assert all == all[..taken] + all[taken..];
    ScanSplit(all[..taken], all[taken..], State(0, false));
    var rest := Scan(all[taken..], done.state).value;
    assert Payloads(frames) == done.delivered + rest.delivered;
    if done.delivered != Payloads(frames) {
      DeliversPayload(all[taken..], done.state);
    }
  }

  /** So whatever buffers were offered and however the connection cut the stream, a reader on a legal
      stream has handed over a prefix of the binary payloads, and can go on while any are missing. */
  lemma ReaderOnLegalStream(reader: Reader, frames: seq<ServerFrame>)
    requires reader.Valid() && reader.websocket
    requires Legal(frames, false) && reader.inner.stream == Encode(frames, false)
    ensures reader.delivered <= Payloads(frames) && reader.pongs <= Pings(frames)
    ensures reader.delivered != Payloads(frames) ==> HasPayload(reader.Rest(), reader.CurrentState())
  {
    DeliveredIsPrefix(frames, reader.inner.pos);
  }

  /** A session that keeps reading into buffers of any size until the reader gives up: on a legal stream it
      ends with every payload byte handed over, in order, unless the connection failed. */
  method ReadSession(reader: Reader, ghost frames: seq<ServerFrame>) returns (all: seq<u8>)
    requires reader.Valid() && reader.websocket && reader.delivered == []
    requires Legal(frames, false) && reader.inner.stream == Encode(frames, false)
    modifies reader, reader.inner
    ensures all <= Payloads(frames)
    ensures reader.inner.failed || all == Payloads(frames)
  {
    hide Scan, HasPayload, Encode, Legal, Payloads, Pings;
    all := [];
    ReaderOnLegalStream(reader, frames);
    while true
      invariant reader.Valid() && reader.delivered == all && all <= Payloads(frames)
      invariant reader.delivered != Payloads(frames) ==> HasPayload(reader.Rest(), reader.CurrentState())
      decreases |Payloads(frames)| - |all|
    {
      var room: int := *;
      var out := new u8[if room < 1 then 1 else room];
      var n := reader.Read(out);
      if n.Err? {
        return;
      }
      all := all + out[..n.value];
      ReaderOnLegalStream(reader, frames);
    }
  }

  // ---------- Frames sent by the client ----------

  function Masking(data: seq<u8>, mask: seq<u8>): (r: seq<u8>)
    requires |mask| == 4
    ensures |r| == |data| && forall i :: 0 <= i < |r| ==> r[i] == Xor(data[i], mask[i % 4])
  {
    seq<u8>(|data|, i requires 0 <= i < |data| => Xor(data[i], mask[i % 4]))
  }

  /** Masking again with the same key unmasks (section 5.3). */
  lemma MaskedTwice(data: seq<u8>, mask: seq<u8>)
    requires |mask| == 4
    ensures Masking(Masking(data, mask), mask) == data
  {
    forall i | 0 <= i < |data|
      ensures Masking(Masking(data, mask), mask)[i] == data[i]
    {
      XorTwice(data[i], mask[i % 4]);
    }
  }

  datatype ClientFrame = ClientFrame(opcode: nat, payload: seq<u8>)

  /** How a server reads a single-frame client message: reserved bits clear, masked, shortest length
      form. */
  function ReadClientFrame(b: seq<u8>): (r: Parse<ClientFrame>) {
    if |b| < 2 then Incomplete
    else if b[0] < 0x80 || b[0] / 16 % 8 != 0 || b[1] < 0x80 then Malformed
    else
      match ParseHeader(b[1 := b[1] - 0x80])
      case Incomplete => Incomplete
      case Malformed => Malformed
      case Complete(h) =>
        if |b| < h.size + 4 + h.len then Incomplete
        else Complete(ClientFrame(h.opcode, Masking(b[h.size + 4..h.size + 4 + h.len], b[h.size..h.size + 4])))
  }

  /** The final bit is set on top of whatever the opcode's own bits are. */
  function WriteFrame(websocket: bool, opcode: u8, data: seq<u8>, mask: seq<u8>): (frame: seq<u8>)
    requires |mask| == 4 && |data| < 0x8000_0000_0000_0000
  {
    if websocket then [0x80 + opcode % 0x80] + LengthBytes(|data|, true) + mask + Masking(data, mask) else data
  }

  /** Puts a message into a frame, byte by byte. */
  method Write(websocket: bool, opcode: u8, data: seq<u8>, mask: seq<u8>) returns (frame: seq<u8>)
    requires |mask| == 4 && |data| < 0x8000_0000_0000_0000
    ensures frame == WriteFrame(websocket, opcode, data, mask)
  {
    if !websocket {
      return data;
    }
    frame := [0x80 + opcode % 0x80];
    if |data| <= 125 {
      frame := frame + [0x80 + |data|];
    } else if |data| <= 65535 {
      frame := frame + [0xFE] + ToBe(|data|, 2);
    } else {
      frame := frame + [0xFF] + ToBe(|data|, 8);
    }
    frame := frame + mask;
    ghost var head := frame;
    assert head == [0x80 + opcode % 0x80] + LengthBytes(|data|, true) + mask;
    hide LengthBytes, ToBe, Xor;
    for i := 0 to |data|
      invariant frame == head + Masking(data, mask)[..i]
    {
      assert Masking(data, mask)[..i + 1] == Masking(data, mask)[..i] + [Xor(data[i], mask[i % 4])];
      frame := frame + [Xor(data[i], mask[i % 4])];
    }
    assert Masking(data, mask)[..|data|] == Masking(data, mask);
  }

  /** A conforming server gets back exactly what was written. */
  lemma WrittenIsRead(opcode: u8, data: seq<u8>, mask: seq<u8>, rest: seq<u8>)
    requires |mask| == 4 && opcode < 16 && |data| < 0x8000_0000_0000_0000
    ensures ReadClientFrame(WriteFrame(true, opcode, data, mask) + rest) == Complete(ClientFrame(opcode, data))
  {
    hide ParseHeader, Masking;
    assert opcode % 0x80 == opcode;
    var length := LengthBytes(|data|, true);
    var b, size := WriteFrame(true, opcode, data, mask) + rest, 1 + |length|;
    ClearMaskBit(opcode, |data|, mask + Masking(data, mask) + rest);
    assert b == [0x80 + opcode] + length + (mask + Masking(data, mask) + rest);
    assert b[size..size + 4] == mask && b[size + 4..size + 4 + |data|] == Masking(data, mask);
    MaskedTwice(data, mask);
  }

  lemma ClearMaskBit(opcode: u8, len: nat, body: seq<u8>)
    requires opcode < 16 && len < 0x8000_0000_0000_0000
    ensures var length := LengthBytes(len, true);
            var b := [0x80 + opcode] + length + body;
            b[1] >= 0x80 && ParseHeader(b[1 := b[1] - 0x80]) == Complete(Header(true, opcode, len, 1 + |length|))
  {
    hide ParseHeader;
    var masked, plain := LengthBytes(len, true), LengthBytes(len, false);
    assert masked == [0x80 + plain[0]] + plain[1..] && |masked| == |plain|;
    HeaderParses(0x80 + opcode, len, body);
    FirstOfThree(0x80 + opcode, masked, plain, body);
  }

  lemma FirstOfThree(first: u8, masked: seq<u8>, plain: seq<u8>, body: seq<u8>)
    requires masked != [] && plain != [] && masked == [masked[0]] + plain[1..]
    requires plain[0] < 0x80 && masked[0] == 0x80 + plain[0]
    ensures var b := [first] + masked + body;
            b[1] >= 0x80 && b[1 := b[1] - 0x80] == [first] + plain + body
  {
    var b, c := [first] + masked + body, [first] + plain + body;
    assert forall i :: 0 <= i < |b| && i != 1 ==> b[i] == c[i];
  }
}
