/** Framing of the WebSocket protocol as the MQTT transport uses it (sections 5.2 to 5.5 of RFC 6455):
    a parser of frames, and what it makes of a stream however the stream is cut. */
module WebSocket {
  import opened Bytes
  import opened Wrappers

  function FromBe(b: seq<u8>): nat {
    FromLe(Reverse(b))
  }

  function ToBe(v: nat, n: nat): (b: seq<u8>)
    ensures |b| == n
  {
    Reverse(ToLe(v, n))
  }

  lemma FromToBe(v: nat, n: nat)
    requires v < Pow256(n)
    ensures FromBe(ToBe(v, n)) == v
  {
    ReverseTwice(ToLe(v, n));
    FromToLe(v, n);
  }

  lemma FitsIn(b: seq<u8>)
    requires |b| == 2
    ensures FromBe(b) < 0x1_0000
  {
    ToFromLe(Reverse(b));
    assert Pow256(2) == 0x1_0000;
  }

  datatype Header = Header(fin: bool, opcode: nat, len: nat, size: nat)

  /** What the front of a stream holds: too little to tell, a violation, or a whole item. */
  datatype Parse<T> = Incomplete | Malformed | Complete(item: T)

  function ParseHeader(b: seq<u8>): (r: Parse<Header>)
    ensures r.Complete? ==> 2 <= r.item.size <= |b| && r.item.len < 0x8000_0000_0000_0000
  {
    if |b| < 2 then Incomplete
    else if b[0] / 16 % 8 != 0 || b[1] >= 0x80 then Malformed
    else
      var fin, opcode, short := b[0] >= 0x80, b[0] % 16, b[1];
      if short == 126 then
        if |b| < 4 then Incomplete
        else
          var len := FromBe(b[2..4]);
          assert len < 0x1_0000 by { FitsIn(b[2..4]); }
          if len < 126 then Malformed else Complete(Header(fin, opcode, len, 4))
      else if short == 127 then
        if |b| < 10 then Incomplete
        else
          var len := FromBe(b[2..10]);
          if len < 0x1_0000 || len >= 0x8000_0000_0000_0000 then Malformed else Complete(Header(fin, opcode, len, 10))
      else Complete(Header(fin, opcode, short, 2))
  }

  /** A data frame is taken up to its payload, a control frame whole. */
  datatype Frame =
    | Data(fin: bool, len: nat, size: nat)
    | Control(ping: bool, payload: seq<u8>, size: nat)

  function ParseFrame(b: seq<u8>, fragmented: bool): (r: Parse<Frame>)
    ensures r.Complete? ==> 2 <= r.item.size <= |b|
  {
    match ParseHeader(b)
    case Incomplete => Incomplete
    case Malformed => Malformed
    case Complete(h) =>
      if h.opcode == 0 || h.opcode == 2 then
        if (h.opcode == 0) != fragmented then Malformed else Complete(Data(h.fin, h.len, h.size))
      else if h.opcode == 9 || h.opcode == 10 then
        if !h.fin || h.len > 125 then Malformed
        else if |b| < h.size + h.len then Incomplete
        else Complete(Control(h.opcode == 9, b[h.size..h.size + h.len], h.size + h.len))
      else Malformed
  }

  /** Payload bytes still to come in the current frame, and whether its message goes on. */
  datatype State = State(remaining: nat, fragmented: bool)

  datatype Outcome = Outcome(state: State, delivered: seq<u8>, pongs: seq<seq<u8>>) {
    function Then(next: Outcome): Outcome {
      Outcome(next.state, delivered + next.delivered, pongs + next.pongs)
    }
  }

  function Idle(state: State): Outcome {
    Outcome(state, [], [])
  }

  /** The one-shot parser: what the bytes deliver and the state they leave, or None when they end inside
      a header or control frame or break the protocol. */
  function Scan(b: seq<u8>, st: State): Option<Outcome>
    decreases |b|
  {
    if b == [] then Some(Idle(st))
    else if st.remaining > 0 then
      After(Outcome(st, [b[0]], []), Scan(b[1..], State(st.remaining - 1, st.fragmented)))
    else
      match ParseFrame(b, st.fragmented)
      case Incomplete => None
      case Malformed => None
      case Complete(f) =>
        (match f
         case Data(fin, len, size) => Scan(b[size..], State(len, !fin))
         case Control(ping, payload, size) =>
           After(Outcome(st, [], if ping then [payload] else []), Scan(b[size..], st)))
  }

  function After(first: Outcome, rest: Option<Outcome>): Option<Outcome> {
    match rest
    case None => None
    case Some(next) => Some(first.Then(next))
  }

  /** Whether a payload byte comes before the stream ends or breaks the protocol. */
  predicate HasPayload(b: seq<u8>, st: State)
    decreases |b|
  {
    b != [] && (st.remaining > 0 ||
      match ParseFrame(b, st.fragmented)
      case Incomplete => false
      case Malformed => false
      case Complete(f) =>
        (match f
         case Data(fin, len, size) => HasPayload(b[size..], State(len, !fin))
         case Control(_, _, size) => HasPayload(b[size..], st)))
  }

  lemma ParseMore(a: seq<u8>, b: seq<u8>, fragmented: bool)
    requires ParseFrame(a, fragmented) != Incomplete
    ensures ParseFrame(a + b, fragmented) == ParseFrame(a, fragmented)
  {
    var c := a + b;
    assert |a| >= 4 ==> c[2..4] == a[2..4];
    assert |a| >= 10 ==> c[2..10] == a[2..10];
    assert ParseHeader(c) == ParseHeader(a);
    if ParseFrame(a, fragmented).Complete? && ParseFrame(a, fragmented).item.Control? {
      var h := ParseHeader(a).item;
      assert c[h.size..h.size + h.len] == a[h.size..h.size + h.len];
    }
  }

  lemma ThenAssociates(first: Outcome, mid: Outcome, rest: Option<Outcome>)
    ensures After(first.Then(mid), rest) == After(first, After(mid, rest))
  {
    if rest.Some? {
      var d, p := rest.value.delivered, rest.value.pongs;
      assert first.delivered + mid.delivered + d == first.delivered + (mid.delivered + d);
      assert first.pongs + mid.pongs + p == first.pongs + (mid.pongs + p);
    }
  }

  lemma IdleThen(st: State, rest: Option<Outcome>)
    ensures After(Idle(st), rest) == rest
  {
    if rest.Some? {
      assert [] + rest.value.delivered == rest.value.delivered && [] + rest.value.pongs == rest.value.pongs;
    }
  }

  /** Payload bytes are delivered as they are, in any pieces. */
  lemma {:induction false} PayloadScans(a: seq<u8>, st: State)
    requires |a| <= st.remaining
    ensures Scan(a, st) == Some(Outcome(State(st.remaining - |a|, st.fragmented), a, []))
  {
    if a == [] {
      assert st == State(st.remaining, st.fragmented);
    } else {
      PayloadScans(a[1..], State(st.remaining - 1, st.fragmented));
      var none: seq<seq<u8>> := [];
      assert [a[0]] + a[1..] == a && none + none == none;
    }
  }

  /** Parsing a stream in two goes is parsing it at once, wherever it is cut between items. */
  lemma {:induction false} ScanSplit(a: seq<u8>, b: seq<u8>, st: State)
    requires Scan(a, st).Some?
    ensures Scan(a + b, st) == After(Scan(a, st).value, Scan(b, Scan(a, st).value.state))
    decreases |a|
  {
    if a == [] {
      assert a + b == b;
      IdleThen(st, Scan(b, st));
    } else if st.remaining > 0 {
      var rest := State(st.remaining - 1, st.fragmented);
      assert (a + b)[0] == a[0] && (a + b)[1..] == a[1..] + b;
      ScanSplit(a[1..], b, rest);
      var first, mid := Outcome(st, [a[0]], []), Scan(a[1..], rest).value;
      assert Scan(a, st) == Some(first.Then(mid));
      ThenAssociates(first, mid, Scan(b, mid.state));
      assert Scan(a + b, st) == After(first, Scan(a[1..] + b, rest));
    } else {
      FrameSplit(a, b, st);
    }
  }

  lemma {:induction false} FrameSplit(a: seq<u8>, b: seq<u8>, st: State)
    requires a != [] && st.remaining == 0 && Scan(a, st).Some?
    ensures Scan(a + b, st) == After(Scan(a, st).value, Scan(b, Scan(a, st).value.state))
    decreases |a|, 0
  {
    ParseMore(a, b, st.fragmented);
    var f := ParseFrame(a, st.fragmented).item;
    assert (a + b)[f.size..] == a[f.size..] + b;
    match f
    case Data(fin, len, size) =>
      ScanSplit(a[size..], b, State(len, !fin));
    case Control(ping, payload, size) =>
      ScanSplit(a[size..], b, st);
      ThenAssociates(Outcome(st, [], if ping then [payload] else []), Scan(a[size..], st).value,
                     Scan(b, Scan(a, st).value.state));
  }

  /** What delivers anything has a payload byte to offer. */
  lemma {:induction false} DeliversPayload(b: seq<u8>, st: State)
    requires Scan(b, st).Some? && Scan(b, st).value.delivered != []
    ensures HasPayload(b, st)
    decreases |b|
  {
    if st.remaining == 0 {
      match ParseFrame(b, st.fragmented).item
      case Data(fin, len, size) => DeliversPayload(b[size..], State(len, !fin));
      case Control(_, _, size) => DeliversPayload(b[size..], st);
    }
  }

  /** One more item taken whole off the stream. */
  lemma FrameScans(a: seq<u8>, frame: seq<u8>, done: Outcome)
    requires Scan(a, State(0, false)) == Some(done) && done.state.remaining == 0
    requires ParseFrame(frame, done.state.fragmented).Complete?
          && ParseFrame(frame, done.state.fragmented).item.size == |frame|
    ensures Scan(a + frame, State(0, false)) == Some(
              match ParseFrame(frame, done.state.fragmented).item
              case Data(fin, len, _) => done.(state := State(len, !fin))
              case Control(ping, payload, _) => done.(pongs := done.pongs + if ping then [payload] else []))
  {
    ScanSplit(a, frame, State(0, false));
    assert frame[|frame|..] == [] && done.delivered + [] == done.delivered && done.pongs + [] == done.pongs;
    match ParseFrame(frame, done.state.fragmented).item
    case Data(fin, len, _) =>
      assert Scan(frame, done.state) == Some(Idle(State(len, !fin)));
    case Control(ping, payload, _) =>
      var first := Outcome(done.state, [], if ping then [payload] else []);
      assert first.Then(Idle(done.state)) == first;
      assert Scan(frame, done.state) == Some(first);
  }

  lemma PayloadChunkScans(a: seq<u8>, chunk: seq<u8>, done: Outcome)
    requires Scan(a, State(0, false)) == Some(done) && |chunk| <= done.state.remaining
    ensures Scan(a + chunk, State(0, false)) ==
            Some(Outcome(State(done.state.remaining - |chunk|, done.state.fragmented),
                          done.delivered + chunk, done.pongs))
  {
    hide Scan;
    ScanSplit(a, chunk, State(0, false));
    PayloadScans(chunk, done.state);
    assert done.pongs + [] == done.pongs;
  }

  /** Skipping an item does not change whether payload is still to come. */
  lemma FrameSkipped(frame: seq<u8>, rest: seq<u8>, st: State)
    requires st.remaining == 0 && ParseFrame(frame, st.fragmented).Complete?
    requires ParseFrame(frame, st.fragmented).item.size == |frame|
    ensures HasPayload(frame + rest, st) == HasPayload(rest,
              match ParseFrame(frame, st.fragmented).item
              case Data(fin, len, _) => State(len, !fin)
              case Control(_, _, _) => st)
  {
    ParseMore(frame, rest, st.fragmented);
    assert (frame + rest)[|frame|..] == rest;
  }

  // ---------- Headers in numbers ----------

  /** One more byte makes what came before worth 256 times as much. */
  lemma NextDigit(b: seq<u8>, x: u8)
    ensures FromBe(b + [x]) == 0x100 * FromBe(b) + x
  {
    ReverseAppend(b, x);
    assert ([x] + Reverse(b))[1..] == Reverse(b);
  }

  function Digits(b: seq<u8>, from: nat, to: nat): nat
    requires from <= to <= |b|
  {
    if from == to then 0 else 0x100 * Digits(b, from, to - 1) + b[to - 1]
  }

  /** Length bytes are worth what they say with the first byte highest. */
  lemma {:induction false} DigitsOf(b: seq<u8>, from: nat, to: nat)
    requires from <= to <= |b|
    ensures FromBe(b[from..to]) == Digits(b, from, to)
  {
    if from == to {
      assert Reverse(b[from..to]) == [];
    } else {
      DigitsOf(b, from, to - 1);
      NextDigit(b[from..to - 1], b[to - 1]);
      assert b[from..to] == b[from..to - 1] + [b[to - 1]];
    }
  }

  lemma TwoDigits(b: seq<u8>)
    requires |b| >= 4
    ensures FromBe(b[2..4]) == var (high: int, low: int) := (b[2], b[3]); 0x100 * high + low
  {
    DigitsOf(b, 2, 4);
    assert Digits(b, 2, 3) == b[2];
  }

  /** The length of a frame as its bytes 2 to 9 say it. */
  function LongLength(b: seq<u8>): int
    requires |b| >= 10
  {
    var (c: int, d: int, e: int, f: int) := (b[2], b[3], b[4], b[5]);
    var (g: int, h: int, i: int, j: int) := (b[6], b[7], b[8], b[9]);
    0x1_0000_0000 * (0x100_0000 * c + 0x1_0000 * d + 0x100 * e + f) + 0x100_0000 * g + 0x1_0000 * h + 0x100 * i + j
  }

  lemma EightDigits(b: seq<u8>)
    requires |b| >= 10
    ensures FromBe(b[2..10]) == LongLength(b)
  {
    DigitsOf(b, 2, 10);
    assert Digits(b, 2, 3) == b[2];
    assert Digits(b, 2, 4) == 0x100 * Digits(b, 2, 3) + b[3] && Digits(b, 2, 5) == 0x100 * Digits(b, 2, 4) + b[4];
    assert Digits(b, 2, 6) == 0x100 * Digits(b, 2, 5) + b[5] && Digits(b, 2, 7) == 0x100 * Digits(b, 2, 6) + b[6];
    assert Digits(b, 2, 8) == 0x100 * Digits(b, 2, 7) + b[7] && Digits(b, 2, 9) == 0x100 * Digits(b, 2, 8) + b[8];
  }

  /** What is refused of a header: reserved bits, a mask, and a length in a longer form than it needs or with
      its top bit set. */
  predicate BadHeader(b: seq<u8>) {
    |b| >= 2 &&
    (|| 0x10 <= b[0] % 0x80 || 0x80 <= b[1]
     || (b[1] == 126 && |b| >= 4 && b[2] == 0 && b[3] < 126)
     || (b[1] == 127 && |b| >= 10 && (b[2] >= 0x80 || LongLength(b) < 0x1_0000)))
  }

  /** A header is refused exactly for these reasons; otherwise it is read once it is all there: two bytes, or
      four or ten as the seventh length value tells, with the final bit on top of a four-bit opcode. */
  lemma HeaderExactly(b: seq<u8>)
    ensures ParseHeader(b) == Malformed <==> BadHeader(b)
    ensures ParseHeader(b).Complete? <==>
              !BadHeader(b) && |b| >= 2 && |b| >= (if b[1] == 126 then 4 else if b[1] == 127 then 10 else 2)
    ensures ParseHeader(b).Complete? ==>
              ParseHeader(b).item == Header(b[0] >= 0x80, b[0] % 0x10,
                (if b[1] == 126 then ShortLength(b) else if b[1] == 127 then LongLength(b) else b[1]),
                if b[1] == 126 then 4 else if b[1] == 127 then 10 else 2)
  {
    hide FromBe, LongLength;
    if |b| >= 2 && b[1] == 126 && |b| >= 4 {
      TwoDigits(b);
    } else if |b| >= 2 && b[1] == 127 && |b| >= 10 {
      EightDigits(b);
      TopBit(b);
    }
  }

  function ShortLength(b: seq<u8>): int
    requires |b| >= 4
  {
    var (high: int, low: int) := (b[2], b[3]);
    0x100 * high + low
  }

  lemma TopBit(b: seq<u8>)
    requires |b| >= 10
    ensures b[2] >= 0x80 <==> LongLength(b) >= 0x8000_0000_0000_0000
  {
  }

  /** What is refused of a frame: its header; an opcode other than continuation, binary, ping and pong; a
      continuation outside a message or a new one inside; a control frame in fragments or with more than 125
      bytes. */
  predicate BadFrame(b: seq<u8>, fragmented: bool) {
    BadHeader(b) ||
    (ParseHeader(b).Complete? &&
     match b[0] % 0x10
     case 0 => !fragmented
     case 2 => fragmented
     case 9 => b[0] < 0x80 || b[1] > 125
     case 10 => b[0] < 0x80 || b[1] > 125
     case _ => true)
  }

  lemma FrameExactly(b: seq<u8>, fragmented: bool)
    ensures ParseFrame(b, fragmented) == Malformed <==> BadFrame(b, fragmented)
    ensures ParseFrame(b, fragmented).Complete? ==>
              var (frame, h) := (ParseFrame(b, fragmented).item, ParseHeader(b).item);
              if b[0] % 0x10 == 0 || b[0] % 0x10 == 2 then frame == Data(b[0] >= 0x80, h.len, h.size)
              else 2 + b[1] <= |b| && frame == Control(b[0] % 0x10 == 9, b[2..2 + b[1]], 2 + b[1])
  {
    hide BadHeader, ParseHeader;
    HeaderExactly(b);
    if ParseHeader(b).Complete? {
      LongForms(b);
    }
  }

  lemma LongForms(b: seq<u8>)
    requires ParseHeader(b).Complete?
    ensures b[1] <= 127 && (b[1] > 125 ==> ParseHeader(b).item.len > 125)
  {
  }
}
