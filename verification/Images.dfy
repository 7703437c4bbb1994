/** Firmware images as they are built: which byte strings the image check accepts. */
module Images {
  import opened Bytes
  import opened Wrappers
  import opened Flash
  import opened Ota

  /** A piece of the program and where it is loaded. */
  datatype Segment = Segment(address: u32, payload: seq<u8>)

  /** Load address and length, both little-endian, and then the payload. */
  function Packed(s: Segment): seq<u8> {
    ToLe(s.address, 4) + ToLe(|s.payload|, 4) + s.payload
  }

  function AllPacked(segments: seq<Segment>): seq<u8> {
    if segments == [] then [] else Packed(segments[0]) + AllPacked(segments[1..])
  }

  function Payloads(segments: seq<Segment>): seq<u8> {
    if segments == [] then [] else segments[0].payload + Payloads(segments[1..])
  }

  /** All bytes and the constant 0xEF, combined bit by bit. */
  function Combined(bytes: seq<u8>): u8 {
    if bytes == [] then 0xEF else Xor(bytes[0], Combined(bytes[1..]))
  }

  /** An image: 22 header bytes that are not looked at, the segments, the padding in front of the checksum,
      and whatever follows it. */
  datatype Image = Image(rest: seq<u8>, segments: seq<Segment>, padding: seq<u8>, tail: seq<u8>) {

    /** One to sixteen segments whose lengths fit four bytes, and padding that puts the checksum into the
        last byte of a line of sixteen. */
    predicate WellFormed() {
      && |rest| == 22 && 1 <= |segments| <= 16
      && (forall i :: 0 <= i < |segments| ==> |segments[i].payload| < 0x1_0000_0000)
      && |padding| < 16 && (24 + |AllPacked(segments)| + |padding|) % 16 == 15
    }

    function Built(): seq<u8>
      requires WellFormed()
    {
      [0xE9, |segments|] + rest + AllPacked(segments) + padding + [Combined(Payloads(segments))] + tail
    }
  }

  /** Bytes 32 to 35 are the magic number of the application description. */
  predicate Described(u: seq<u8>) {
    |u| >= 36 && u[32..36] == [0x32, 0x54, 0xCD, 0xAB]
  }

  // ---------- Segments laid out one after the other ----------

  lemma HeaderOf(u: seq<u8>, at: nat, s: Segment, rest: seq<u8>)
    requires at <= |u| && u[at..] == Packed(s) + rest && |s.payload| < 0x1_0000_0000
    ensures SegmentFits(u, at) && SegmentEnd(u, at) == at + 8 + |s.payload| == at + |Packed(s)|
    ensures u[at + 8..at + 8 + |s.payload|] == s.payload && u[at + 8 + |s.payload|..] == rest
  {
    assert Pow256(4) == 0x1_0000_0000;
    FromToLe(|s.payload|, 4);
    PackedParts(s, rest);
    TailSlice(u, at, 4, 8);
    TailSlice(u, at, 8, 8 + |s.payload|);
    TailSlice(u, at, 8 + |s.payload|, 8 + |s.payload|);
  }

  lemma PackedParts(s: Segment, rest: seq<u8>)
    ensures var v := Packed(s) + rest;
            && |Packed(s)| == 8 + |s.payload| && v[4..8] == ToLe(|s.payload|, 4)
            && v[8..8 + |s.payload|] == s.payload && v[8 + |s.payload|..] == rest
  {
    hide ToLe;
  }

  /** Segments written one after the other are read back as they are. */
  lemma {:induction false} SegmentsOf(u: seq<u8>, at: nat, segments: seq<Segment>, rest: seq<u8>)
    requires at <= |u| && u[at..] == AllPacked(segments) + rest
    requires forall i :: 0 <= i < |segments| ==> |segments[i].payload| < 0x1_0000_0000
    ensures Segments(u, at, |segments|) == Some(Layout(at + |AllPacked(segments)|, Payloads(segments)))
    decreases |segments|
  {
    hide SegmentFits, SegmentEnd, Packed;
    if segments == [] {
    } else {
      var s, more := segments[0], AllPacked(segments[1..]) + rest;
      assert AllPacked(segments) + rest == Packed(s) + more;
      HeaderOf(u, at, s, more);
      SegmentsOf(u, at + |Packed(s)|, segments[1..], rest);
    }
  }

  /** What is read as segments was written as segments. */
  lemma {:induction false} WrittenAs(u: seq<u8>, at: nat, count: nat) returns (segments: seq<Segment>)
    requires at <= |u| && Segments(u, at, count).Some?
    ensures |segments| == count && Segments(u, at, count).value.end <= |u|
    ensures AllPacked(segments) == u[at..Segments(u, at, count).value.end]
    ensures Payloads(segments) == Segments(u, at, count).value.payload
    ensures forall i :: 0 <= i < |segments| ==> |segments[i].payload| < 0x1_0000_0000
    decreases count
  {
    hide Packed;
    if count == 0 {
      segments := [];
    } else {
      var end, last := SegmentEnd(u, at), Segments(u, at, count).value.end;
      var more := WrittenAs(u, end, count - 1);
      var s := OneWritten(u, at);
      segments := [s] + more;
      assert segments[1..] == more;
      assert u[at..end] + u[end..last] == u[at..last];
    }
  }

  lemma OneWritten(u: seq<u8>, at: nat) returns (s: Segment)
    requires SegmentFits(u, at)
    ensures Packed(s) == u[at..SegmentEnd(u, at)] && s.payload == u[at + 8..SegmentEnd(u, at)]
    ensures |s.payload| < 0x1_0000_0000
  {
    var (address, length, payload) := (u[at..at + 4], u[at + 4..at + 8], u[at + 8..SegmentEnd(u, at)]);
    assert Pow256(4) == 0x1_0000_0000;
    ToFromLe(address);
    ToFromLe(length);
    s := Segment(FromLe(address), payload);
    assert address + length + payload == u[at..SegmentEnd(u, at)];
  }

  // ---------- The checksum ----------

  lemma XorFirst(seed: u8, x: u8, y: u8)
    ensures Xor(seed, x) == Xor(x, seed) && Xor(Xor(x, seed), y) == Xor(x, Xor(seed, y))
  {
    XorBitsCommute(seed, x, 8);
    XorBitsAssociate(x, seed, y, 8);
  }

  lemma {:induction false} SeedFirst(seed: u8, x: u8, bytes: seq<u8>)
    ensures XorAll(Xor(seed, x), bytes) == Xor(x, XorAll(seed, bytes))
  {
    if bytes == [] {
      XorFirst(seed, x, 0);
    } else {
      var front, last := bytes[..|bytes| - 1], bytes[|bytes| - 1];
      SeedFirst(seed, x, front);
      XorFirst(XorAll(seed, front), x, last);
    }
  }

  /** The running checksum comes to the combination of all bytes with its seed. */
  lemma {:induction false} RunningIsCombined(bytes: seq<u8>)
    ensures XorAll(CHECKSUM_SEED, bytes) == Combined(bytes)
  {
    if bytes == [] {
    } else {
      var seed, one := CHECKSUM_SEED, [bytes[0]];
      assert bytes == one + bytes[1..];
      assert one[..0] == [] && XorAll(seed, []) == seed;
      XorSplit(seed, one, bytes[1..]);
      SeedFirst(seed, bytes[0], bytes[1..]);
      RunningIsCombined(bytes[1..]);
    }
  }

  // ---------- Exactly the built images are accepted ----------

  lemma OneSlot(end: nat, padding: nat)
    requires padding < 16 && (end + padding) % 16 == 15
    ensures ChecksumSlot(end) == end + padding
  {
    SlotIsLate(end);
  }

  lemma DescribedIs(u: seq<u8>)
    requires |u| >= 36
    ensures BytesAt(u, APP_DESC_OFFSET, 4) == ToLe(APP_DESC_MAGIC, 4) <==> Described(u)
  {
    MagicBytes();
    assert BytesAt(u, APP_DESC_OFFSET, 4) == u[32..36];
  }

  /** Every image that is built this way, and described as an application, is accepted. */
  lemma BuiltIsAccepted(image: Image)
    requires image.WellFormed() && Described(image.Built())
    ensures ImageValid(image.Built())
  {
    hide Segments, Xor, AllPacked, Payloads, Combined, XorAll;
    var u, packed := image.Built(), AllPacked(image.segments);
    var closing := image.padding + [Combined(Payloads(image.segments))] + image.tail;
    assert u == [0xE9, |image.segments|] + image.rest + (packed + closing);
    assert u[24..] == packed + closing;
    SegmentsOf(u, 24, image.segments, closing);
    OneSlot(24 + |packed|, |image.padding|);
    RunningIsCombined(Payloads(image.segments));
    assert u[24 + |packed| + |image.padding|] == u[24..][|packed| + |image.padding|];
    DescribedIs(u);
  }

  /** Every accepted upload is such an image. */
  lemma AcceptedIsBuilt(u: seq<u8>) returns (image: Image)
    requires ImageValid(u)
    ensures image.WellFormed() && image.Built() == u && Described(u)
  {
    hide Segments, Xor, AllPacked, Payloads, Combined, XorAll;
    ValidIsLong(u);
    DescribedIs(u);
    var segments := WrittenAs(u, 24, u[1]);
    var end := 24 + |AllPacked(segments)|;
    SegmentsEnd(u, segments);
    SlotIsLate(end);
    var slot := ChecksumSlot(end);
    image := Image(u[2..24], segments, u[end..slot], u[slot + 1..]);
    RunningIsCombined(Payloads(segments));
    assert u == u[..2] + u[2..24] + u[24..end] + u[end..slot] + [u[slot]] + u[slot + 1..];
    assert u[..2] == [0xE9, |segments|];
  }

  lemma SegmentsEnd(u: seq<u8>, segments: seq<Segment>)
    requires ImageValid(u) && |u| >= 48 && |segments| == u[1]
    requires AllPacked(segments) == u[24..Segments(u, 24, u[1]).value.end]
    requires Segments(u, 24, u[1]).value.end <= |u|
    ensures Segments(u, 24, u[1]).value.end == 24 + |AllPacked(segments)|
  {
  }

  /** An upload is accepted if and only if it is an image: magic and count, a header that is otherwise not
      looked at, one to sixteen segments with little-endian address and length, padding up to the last byte
      of a line, there the combination of all payload bytes with 0xEF, and any tail; with the magic number
      of the application description at byte 32. */
  lemma AcceptedExactly(u: seq<u8>)
    ensures ImageValid(u) <==> Described(u) && exists image: Image :: image.WellFormed() && image.Built() == u
  {
    if ImageValid(u) {
      var image := AcceptedIsBuilt(u);
      assert image.WellFormed() && image.Built() == u;
    }
    if Described(u) && exists image: Image :: image.WellFormed() && image.Built() == u {
      var image: Image :| image.WellFormed() && image.Built() == u;
      BuiltIsAccepted(image);
    }
  }

  lemma Starts(u: seq<u8>, before: seq<u8>, payload: seq<u8>, after: seq<u8>)
    requires u == before + (payload + after) && |before| == 32 && [0x32, 0x54, 0xCD, 0xAB] <= payload
    ensures Described(u)
  {
    assert u[32..36] == payload[..4];
  }

  lemma Regrouped(head: seq<u8>, header: seq<u8>, payload: seq<u8>, more: seq<u8>, padding: seq<u8>, sum: seq<u8>,
      tail: seq<u8>)
    ensures head + (header + payload + more) + padding + sum + tail
            == (head + header) + (payload + (more + padding + sum + tail))
  {
  }

  /** In particular a first payload that begins with the application description makes the image one. */
  lemma FirstPayloadDescribes(image: Image)
    requires image.WellFormed() && [0x32, 0x54, 0xCD, 0xAB] <= image.segments[0].payload
    ensures Described(image.Built()) && ImageValid(image.Built())
  {
    hide Xor, Combined, Payloads;
    var (s, more) := (image.segments[0], AllPacked(image.segments[1..]));
    var (head, header, sum) := ([0xE9, |image.segments|] + image.rest, ToLe(s.address, 4) + ToLe(|s.payload|, 4),
                                [Combined(Payloads(image.segments))]);
    Regrouped(head, header, s.payload, more, image.padding, sum, image.tail);
    Starts(image.Built(), head + header, s.payload, more + image.padding + sum + image.tail);
    BuiltIsAccepted(image);
  }
}
