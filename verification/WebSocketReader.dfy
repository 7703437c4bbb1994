/** The incremental reader and the frame writer, against the one-shot parser. */
module WebSocketReader {
  import opened Bytes
  import opened Wrappers
  import opened WebSocket

  /** The connection below: `stream` is everything that will ever arrive on it.  A read yields any number
      of bytes up to the limit, none only at the end, or fails. */
  class Source {
    const stream: seq<u8>
    var pos: nat
    var failed: bool

    ghost predicate Valid()
      reads this
    {
      pos <= |stream|
    }

    constructor (stream: seq<u8>)
      ensures Valid() && this.stream == stream && pos == 0 && !failed
    {
      this.stream, pos, failed := stream, 0, false;
    }

    method Read(out: array<u8>, at: nat, limit: nat) returns (r: Result<nat, ()>)
      requires Valid() && at + limit <= out.Length
      modifies this, out
      ensures Valid() && (old(failed) ==> failed)
      ensures r.Ok? ==> r.value <= limit && pos == old(pos) + r.value && failed == old(failed)
      ensures r.Ok? ==> out[..] == old(out[..at]) + stream[old(pos)..pos] + old(out[at + r.value..])
      ensures r == Ok(0) ==> limit == 0 || pos == |stream|
      ensures r.Err? ==> failed && pos == old(pos) && out[..at] == old(out[..at])
    {
      var ok: bool, n: nat := *, *;
      if !ok {
        failed := true;
        return Err(());
      }
      var available := Min(limit, |stream| - pos);
      n := if n < available then n else available;
      if n == 0 && available > 0 {
        n := 1;
      }
      forall i | 0 <= i < n {
        out[at + i] := stream[pos + i];
      }
      pos := pos + n;
      return Ok(n);
    }

    /** Reads until `n` bytes are there; the end of the stream is an error. */
    method ReadExact(n: nat) returns (r: Result<seq<u8>, ()>)
      requires Valid()
      modifies this
      ensures Valid() && (old(failed) ==> failed)
      ensures r.Ok? ==> pos == old(pos) + n && r.value == stream[old(pos)..pos] && failed == old(failed)
      ensures r.Err? && !failed ==> |stream| < old(pos) + n
    {
      var buffer := new u8[n];
      var got := 0;
      while got < n
        invariant Valid() && 0 <= got <= n && pos == old(pos) + got && (failed == old(failed))
        invariant buffer[..got] == stream[old(pos)..pos]
      {
        var part := Read(buffer, got, n - got);
        if part.Err? || part.value == 0 {
          return Err(());
        }
        got := got + part.value;
      }
      return Ok(buffer[..]);
    }
  }

  lemma Filled(now: seq<u8>, before: seq<u8>, chunk: seq<u8>)
    requires |chunk| <= |before| && now == before[..0] + chunk + before[|chunk|..]
    ensures now[..|chunk|] == chunk && now[|chunk|..] == before[|chunk|..]
  {
  }

  lemma Slices(stream: seq<u8>, start: nat, at: nat, len: nat)
    requires start + at + len <= |stream|
    ensures stream[start..][at..at + len] == stream[start + at..start + at + len]
  {
  }

  class Reader {
    const inner: Source
    const websocket: bool
    var remaining: u64
    var fragmented: bool
    var pongs: seq<seq<u8>>
    ghost var delivered: seq<u8>

    function CurrentState(): State
      reads this
    {
      State(remaining, fragmented)
    }

    function Rest(): seq<u8>
      requires inner.Valid()
      reads this, inner
    {
      inner.stream[inner.pos..]
    }

    /** The fields are what the one-shot parser makes of the bytes consumed so far. */
    ghost predicate Valid()
      reads this, inner
    {
      inner.Valid() &&
      if websocket then Scan(inner.stream[..inner.pos], State(0, false)) ==
        Some(Outcome(CurrentState(), delivered, pongs))
      else delivered == inner.stream[..inner.pos]
    }

    constructor (inner: Source, websocket: bool)
      requires inner.Valid() && inner.pos == 0
      ensures Valid() && this.inner == inner && this.websocket == websocket
      ensures delivered == [] && pongs == [] && CurrentState() == State(0, false)
    {
      this.inner, this.websocket := inner, websocket;
      remaining, fragmented, pongs, delivered := 0, false, [], [];
    }

    method ReadHeader() returns (r: Result<Header, ()>)
      requires inner.Valid()
      modifies inner
      ensures inner.Valid() && (old(inner.failed) ==> inner.failed)
      ensures r.Ok? ==> ParseHeader(old(Rest())) == Complete(r.value) && inner.pos == old(inner.pos) + r.value.size
      ensures r.Err? ==> inner.failed || !ParseHeader(old(Rest())).Complete?
    {
      ghost var start := inner.pos;
      var head := inner.ReadExact(2);
      if head.Err? {
        return Err(());
      }
      Slices(inner.stream, start, 0, 2);
      var fin, opcode := head.value[0] >= 0x80, head.value[0] % 16;
      if head.value[0] / 16 % 8 != 0 || head.value[1] >= 0x80 {
        return Err(());
      }
      var len: nat, size := head.value[1], 2;
      if len == 126 {
        var bytes := inner.ReadExact(2);
        if bytes.Err? {
          return Err(());
        }
        Slices(inner.stream, start, 2, 2);
        len, size := FromBe(bytes.value), 4;
        if len < 126 {
          return Err(());
        }
      } else if len == 127 {
        var bytes := inner.ReadExact(8);
        if bytes.Err? {
          return Err(());
        }
        Slices(inner.stream, start, 2, 8);
        len, size := FromBe(bytes.value), 10;
        if len < 0x1_0000 || len >= 0x8000_0000_0000_0000 {
          return Err(());
        }
      }
      return Ok(Header(fin, opcode, len, size));
    }

    /** Takes the next frame header, or a whole control frame, off the stream. */
    method ReadFrame() returns (r: Result<(), ()>)
      requires Valid() && websocket && remaining == 0
      modifies this, inner
      ensures inner.Valid() && (old(inner.failed) ==> inner.failed)
      ensures r.Ok? ==> Valid() && delivered == old(delivered) && inner.pos > old(inner.pos)
      ensures r.Ok? ==> HasPayload(Rest(), CurrentState()) == HasPayload(old(Rest()), old(CurrentState()))
      ensures r.Err? ==> inner.failed || !HasPayload(old(Rest()), old(CurrentState()))
    {
      hide Scan, ParseHeader;
      ghost var start := inner.pos;
      var header := ReadHeader();
      if header.Err? {
        return Err(());
      }
      var Header(fin, opcode, len, _) := header.value;
      if opcode == 0 || opcode == 2 {
        if (opcode == 0) != fragmented {
          return Err(());
        }
        TakenOff(start, Data(fin, len, header.value.size));
        fragmented := !fin;
        remaining := len;
      } else if opcode == 9 || opcode == 10 {
        if !fin || len > 125 {
          return Err(());
        }
        var data := inner.ReadExact(len);
        if data.Err? {
          return Err(());
        }
        Slices(inner.stream, start, header.value.size, len);
        TakenOff(start, Control(opcode == 9, data.value, header.value.size + len));
        if opcode == 9 {
          pongs := pongs + [data.value];
        } else {
          assert pongs + [] == pongs;
        }
      } else {
        return Err(());
      }
      return Ok(());
    }

    /** The item found at the front of the rest has just been consumed, and no field is updated yet. */
    lemma TakenOff(start: nat, frame: Frame)
      requires inner.Valid() && websocket && remaining == 0 && start <= inner.pos == start + frame.size
      requires Scan(inner.stream[..start], State(0, false)) == Some(Outcome(CurrentState(), delivered, pongs))
      requires ParseFrame(inner.stream[start..], fragmented) == Complete(frame)
      ensures Scan(inner.stream[..inner.pos], State(0, false)) == Some(
                match frame
                case Data(fin, len, _) => Outcome(State(len, !fin), delivered, pongs)
                case Control(ping, payload, _) => Outcome(CurrentState(), delivered,
                                                    pongs + if ping then [payload] else []))
      ensures HasPayload(inner.stream[start..], CurrentState()) == HasPayload(Rest(),
                match frame
                case Data(fin, len, _) => State(len, !fin)
                case Control(_, _, _) => CurrentState())
    {
      var before, bytes := inner.stream[..start], inner.stream[start..inner.pos];
      assert inner.stream[start..] == bytes + Rest() && inner.stream[..inner.pos] == before + bytes;
      ParseLess(bytes, Rest(), fragmented);
      FrameScans(before, bytes, Outcome(CurrentState(), delivered, pongs));
      FrameSkipped(bytes, Rest(), CurrentState());
    }

    /** Fills the buffer with payload bytes, at least one if there is room. */
    method Read(out: array<u8>) returns (r: Result<nat, ()>)
      requires Valid()
      modifies this, inner, out
      ensures r.Ok? ==> Valid() && r.value <= out.Length && delivered == old(delivered) + out[..r.value]
                        && out[r.value..] == old(out[r.value..])
      ensures out.Length == 0 ==> r == Ok(0) && inner.pos == old(inner.pos) && CurrentState() == old(CurrentState())
      ensures r == Ok(0) && out.Length > 0 ==> !websocket && inner.pos == |inner.stream|
      ensures r.Ok? && out.Length > 0 && websocket ==> HasPayload(old(Rest()), old(CurrentState()))
      ensures r.Err? ==> inner.failed || (websocket && !HasPayload(old(Rest()), old(CurrentState())))
    {
      hide Scan, HasPayload;
      if out.Length == 0 {
        return Ok(0);
      }
      if !websocket {
        r := ReadThrough(out);
      } else {
        r := ReadFramed(out);
      }
    }

    /** Without framing the bytes of the connection are handed over as they are. */
    method ReadThrough(out: array<u8>) returns (r: Result<nat, ()>)
      requires Valid() && !websocket && out.Length > 0
      modifies this, inner, out
      ensures r.Ok? ==> Valid() && r.value <= out.Length && delivered == old(delivered) + out[..r.value]
                        && out[r.value..] == old(out[r.value..])
      ensures r == Ok(0) ==> inner.pos == |inner.stream|
      ensures r.Err? ==> inner.failed
    {
      r := inner.Read(out, 0, out.Length);
      if r.Ok? {
        Filled(out[..], old(out[..]), inner.stream[old(inner.pos)..inner.pos]);
        delivered := delivered + out[..r.value];
        assert delivered == inner.stream[..inner.pos];
      }
    }

    method ReadFramed(out: array<u8>) returns (r: Result<nat, ()>)
      requires Valid() && websocket && out.Length > 0
      modifies this, inner, out
      ensures r.Ok? ==> Valid() && 0 < r.value <= out.Length && delivered == old(delivered) + out[..r.value]
                        && out[r.value..] == old(out[r.value..]) && HasPayload(old(Rest()), old(CurrentState()))
      ensures r.Err? ==> inner.failed || !HasPayload(old(Rest()), old(CurrentState()))
    {
      hide Scan, ParseFrame;
      while remaining == 0
        invariant Valid() && delivered == old(delivered) && out[..] == old(out[..])
        invariant HasPayload(Rest(), CurrentState()) == HasPayload(old(Rest()), old(CurrentState()))
        decreases |inner.stream| - inner.pos
      {
        var frame := ReadFrame();
        if frame.Err? {
          return Err(());
        }
      }
      r := ReadPayload(out);
    }

    method ReadPayload(out: array<u8>) returns (r: Result<nat, ()>)
      requires Valid() && websocket && remaining > 0 && out.Length > 0
      modifies this, inner, out
      ensures r.Ok? ==> Valid() && 0 < r.value <= out.Length && delivered == old(delivered) + out[..r.value]
                        && out[r.value..] == old(out[r.value..]) && old(Rest()) != []
      ensures r.Err? ==> inner.failed || old(Rest()) == []
    {
      hide Scan, ParseFrame;
      var len := Min(out.Length, remaining);
      ghost var start := inner.pos;
      var got := inner.Read(out, 0, len);
      if got.Err? || got.value == 0 {
        return Err(());
      }
      var n := got.value;
      ghost var chunk := inner.stream[start..inner.pos];
      PayloadChunkScans(inner.stream[..start], chunk, Outcome(CurrentState(), delivered, pongs));
      assert inner.stream[..start] + chunk == inner.stream[..inner.pos];
      Filled(out[..], old(out[..]), chunk);
      remaining := remaining - n;
      delivered := delivered + out[..n];
      return Ok(n);
    }
  }

  lemma ParseLess(frame: seq<u8>, rest: seq<u8>, fragmented: bool)
    requires ParseFrame(frame + rest, fragmented).Complete? && ParseFrame(frame + rest, fragmented).item.size == |frame|
    ensures ParseFrame(frame, fragmented) == ParseFrame(frame + rest, fragmented)
  {
    var all := frame + rest;
    var h := ParseHeader(all).item;
    assert h.size >= 4 ==> all[2..4] == frame[2..4];
    assert h.size >= 10 ==> all[2..10] == frame[2..10];
    assert ParseHeader(frame) == ParseHeader(all);
    assert h.size + h.len <= |frame| ==> all[h.size..h.size + h.len] == frame[h.size..h.size + h.len];
  }
}
