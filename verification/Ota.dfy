/** Streaming a firmware image into a flash slot, and checking it there before it is activated. */
module Ota {
  import opened Bytes
  import opened Wrappers
  import opened Flash

  const IMAGE_MAGIC: u8 := 0xE9
  const IMAGE_HEADER_LEN: nat := 24
  const SEGMENT_HEADER_LEN: nat := 8
  const CHECKSUM_SEED: u8 := 0xEF
  const APP_DESC_OFFSET: nat := 0x20
  const APP_DESC_MAGIC: u32 := 0xABCD_5432
  const READ_BUFFER: nat := 1024

  datatype OtaError = InvalidImage | TooLarge | Storage

  // ---------- What is a valid image ----------

  /** Byte `i` of the upload; past its end the flash is still erased. */
  function ByteAt(u: seq<u8>, i: nat): u8 {
    if i < |u| then u[i] else 0xFF
  }

  function BytesAt(u: seq<u8>, at: nat, len: nat): (b: seq<u8>)
    ensures |b| == len && forall i :: 0 <= i < len ==> b[i] == ByteAt(u, at + i)
  {
    seq<u8>(len, i requires 0 <= i < len => ByteAt(u, at + i))
  }

  datatype Layout = Layout(end: nat, payload: seq<u8>)

  predicate SegmentFits(u: seq<u8>, at: nat) {
    at + SEGMENT_HEADER_LEN <= |u| && SegmentEnd(u, at) <= |u|
  }

  /** The last four bytes of a segment header are the payload's length. */
  function SegmentEnd(u: seq<u8>, at: nat): (end: nat)
    requires at + SEGMENT_HEADER_LEN <= |u|
    ensures at + SEGMENT_HEADER_LEN <= end
  {
    at + SEGMENT_HEADER_LEN + FromLe(u[at + 4..at + SEGMENT_HEADER_LEN])
  }

  /** The payloads of `count` segments from `at` on, if all of them lie inside the upload. */
  function Segments(u: seq<u8>, at: nat, count: nat): (r: Option<Layout>)
    ensures r.Some? ==> at + SEGMENT_HEADER_LEN * count + |r.value.payload| == r.value.end
    ensures r.Some? && count > 0 ==> r.value.end <= |u|
    decreases count
  {
    if count == 0 then Some(Layout(at, []))
    else if !SegmentFits(u, at) then None
    else
      match Segments(u, SegmentEnd(u, at), count - 1)
      case None => None
      case Some(rest) => Some(Layout(rest.end, u[at + SEGMENT_HEADER_LEN..SegmentEnd(u, at)] + rest.payload))
  }

  function XorAll(seed: u8, bytes: seq<u8>): u8 {
    if bytes == [] then seed else Xor(XorAll(seed, bytes[..|bytes| - 1]), bytes[|bytes| - 1])
  }

  /** The segments end where a matching checksum closes the image. */
  predicate Sealed(u: seq<u8>, at: nat, seed: u8, count: nat) {
    match Segments(u, at, count)
    case None => false
    case Some(layout) => Closes(u, layout.end, XorAll(seed, layout.payload))
  }

  predicate Closes(u: seq<u8>, end: nat, checksum: u8) {
    var slot := ChecksumSlot(end);
    slot < |u| && u[slot] == checksum
  }

  function ChecksumSlot(end: nat): (slot: nat)
    ensures end <= slot
  {
    AlignUpIsLeast(end + 1, 16);
    AlignUp(end + 1, 16) - 1
  }

  predicate ImageValid(u: seq<u8>) {
    && ByteAt(u, 0) == IMAGE_MAGIC && 1 <= ByteAt(u, 1) <= 16
    && BytesAt(u, APP_DESC_OFFSET, 4) == ToLe(APP_DESC_MAGIC, 4)
    && Sealed(u, IMAGE_HEADER_LEN, CHECKSUM_SEED, ByteAt(u, 1))
  }

  lemma MagicBytes()
    ensures ToLe(APP_DESC_MAGIC, 4) == [0x32, 0x54, 0xCD, 0xAB]
  {
    assert ToLe(0xAB, 1) == [0xAB];
    assert ToLe(0xABCD, 2) == [0xCD, 0xAB];
    assert ToLe(0xABCD54, 3) == [0x54, 0xCD, 0xAB];
  }

  /** The slot of the checksum is the last byte of its 16-byte line, at or after the end. */
  lemma SlotIsLate(end: nat)
    ensures var slot := ChecksumSlot(end);
            end <= slot < end + 16 && slot % 16 == 15 && (end >= 32 ==> slot >= 47)
  {
    AlignUpIsLeast(end + 1, 16);
  }

  /** Nothing shorter than 48 bytes is ever accepted, although the reads go past a short upload. */
  lemma ValidIsLong(u: seq<u8>)
    requires ImageValid(u)
    ensures |u| >= 48 && u[0] == IMAGE_MAGIC && u[APP_DESC_OFFSET..APP_DESC_OFFSET + 4] == [0x32, 0x54, 0xCD, 0xAB]
  {
    SlotIsLate(Segments(u, IMAGE_HEADER_LEN, ByteAt(u, 1)).value.end);
    assert BytesAt(u, APP_DESC_OFFSET, 4) == u[APP_DESC_OFFSET..APP_DESC_OFFSET + 4];
    MagicBytes();
  }

  lemma {:induction false} XorSplit(seed: u8, a: seq<u8>, b: seq<u8>)
    ensures XorAll(seed, a + b) == XorAll(XorAll(seed, a), b)
  {
    if b == [] {
      assert a + b == a;
    } else {
      assert (a + b)[..|a + b| - 1] == a + b[..|b| - 1];
      XorSplit(seed, a, b[..|b| - 1]);
    }
  }

  /** Checking segment by segment with a running checksum is checking all of them at once. */
  lemma SealedStep(u: seq<u8>, at: nat, seed: u8, count: nat)
    requires count > 0
    ensures !SegmentFits(u, at) ==> !Sealed(u, at, seed, count)
    ensures SegmentFits(u, at) ==>
              var (start, end) := (at + SEGMENT_HEADER_LEN, SegmentEnd(u, at));
              Sealed(u, at, seed, count) <==> Sealed(u, end, XorAll(seed, u[start..end]), count - 1)
  {
    hide Closes, XorAll;
    if SegmentFits(u, at) {
      var rest := Segments(u, SegmentEnd(u, at), count - 1);
      if rest.Some? {
        XorSplit(seed, u[at + SEGMENT_HEADER_LEN..SegmentEnd(u, at)], rest.value.payload);
      }
    }
  }

  // ---------- What the checksum catches ----------

  /** Byte `i` lies in the payload of one of the segments. */
  predicate InPayload(u: seq<u8>, at: nat, count: nat, i: nat)
    decreases count
  {
    && count > 0 && SegmentFits(u, at)
    && (at + SEGMENT_HEADER_LEN <= i < SegmentEnd(u, at) || InPayload(u, SegmentEnd(u, at), count - 1, i))
  }

  lemma SegmentKept(u: seq<u8>, at: nat, i: nat, b: u8)
    requires SegmentFits(u, at) && i < |u| && !(at <= i < at + SEGMENT_HEADER_LEN)
    ensures SegmentFits(u[i := b], at) && SegmentEnd(u[i := b], at) == SegmentEnd(u, at)
  {
    assert u[i := b][at + 4..at + SEGMENT_HEADER_LEN] == u[at + 4..at + SEGMENT_HEADER_LEN];
  }

  lemma {:induction false} SegmentsBefore(u: seq<u8>, at: nat, count: nat, i: nat, b: u8)
    requires i < at && i < |u| && Segments(u, at, count).Some?
    ensures Segments(u[i := b], at, count) == Segments(u, at, count)
    decreases count
  {
    if count == 0 {
    } else {
      SegmentKept(u, at, i, b);
      var end := SegmentEnd(u, at);
      SegmentsBefore(u, end, count - 1, i, b);
      assert u[i := b][at + SEGMENT_HEADER_LEN..end] == u[at + SEGMENT_HEADER_LEN..end];
    }
  }

  lemma {:induction false} PayloadAfter(u: seq<u8>, at: nat, count: nat, i: nat)
    requires InPayload(u, at, count, i)
    ensures at + SEGMENT_HEADER_LEN <= i < |u|
    decreases count
  {
    if !(at + SEGMENT_HEADER_LEN <= i < SegmentEnd(u, at)) {
      PayloadAfter(u, SegmentEnd(u, at), count - 1, i);
    }
  }

  lemma ReplaceIn(front: seq<u8>, rest: seq<u8>, k: nat, b: u8)
    requires k < |front| + |rest|
    ensures (front + rest)[k := b] == if k < |front| then front[k := b] + rest else front + rest[k - |front| := b]
  {
  }

  /** Changing a payload byte changes exactly that byte of what is summed. */
  lemma {:induction false} PayloadChanged(u: seq<u8>, at: nat, count: nat, i: nat, b: u8) returns (k: nat)
    requires InPayload(u, at, count, i) && Segments(u, at, count).Some?
    ensures i < Segments(u, at, count).value.end
    ensures i < |u| && k < |Segments(u, at, count).value.payload| && Segments(u, at, count).value.payload[k] == u[i]
    ensures Segments(u[i := b], at, count) ==
            Some(Segments(u, at, count).value.(payload := Segments(u, at, count).value.payload[k := b]))
    decreases count
  {
    hide FromLe;
    var start, end := at + SEGMENT_HEADER_LEN, SegmentEnd(u, at);
    PayloadAfter(u, at, count, i);
    SegmentKept(u, at, i, b);
    var v, rest := u[i := b], Segments(u, end, count - 1).value.payload;
    if i < end {
      SegmentsBefore(u, end, count - 1, i, b);
      k := i - start;
      assert v[start..end] == u[start..end][k := b];
      ReplaceIn(u[start..end], rest, k, b);
    } else {
      var j := PayloadChanged(u, end, count - 1, i, b);
      k := end - start + j;
      assert v[start..end] == u[start..end];
      ReplaceIn(u[start..end], rest, k, b);
    }
  }

  lemma {:induction false} XorChanged(seed: u8, bytes: seq<u8>, k: nat, b: u8)
    requires k < |bytes| && bytes[k] != b
    ensures XorAll(seed, bytes[k := b]) != XorAll(seed, bytes)
  {
    var n := |bytes| - 1;
    if k == n {
      assert bytes[k := b][..n] == bytes[..n];
      XorInjective(bytes[k], b, XorAll(seed, bytes[..n]));
    } else {
      assert bytes[k := b][..n] == bytes[..n][k := b];
      XorChanged(seed, bytes[..n], k, b);
      XorInjective(XorAll(seed, bytes[..n][k := b]), XorAll(seed, bytes[..n]), bytes[n]);
    }
  }

  /** A valid image with one payload byte, or the checksum byte, changed is rejected. */
  lemma CorruptionRejected(u: seq<u8>, i: nat, b: u8)
    requires ImageValid(u) && i < |u| && u[i] != b
    requires var layout := Segments(u, IMAGE_HEADER_LEN, u[1]).value;
             InPayload(u, IMAGE_HEADER_LEN, u[1], i) || i == ChecksumSlot(layout.end)
    ensures !ImageValid(u[i := b])
  {
    ValidIsLong(u);
    var layout := Segments(u, IMAGE_HEADER_LEN, u[1]).value;
    if InPayload(u, IMAGE_HEADER_LEN, u[1], i) {
      PayloadAfter(u, IMAGE_HEADER_LEN, u[1], i);
      var k := PayloadChanged(u, IMAGE_HEADER_LEN, u[1], i, b);
      XorChanged(CHECKSUM_SEED, layout.payload, k, b);
    } else {
      SegmentsUnder(u, IMAGE_HEADER_LEN, u[1], i, b);
    }
  }

  lemma {:induction false} SegmentsUnder(u: seq<u8>, at: nat, count: nat, i: nat, b: u8)
    requires Segments(u, at, count).Some? && Segments(u, at, count).value.end <= i < |u|
    ensures Segments(u[i := b], at, count) == Segments(u, at, count)
    decreases count
  {
    if count == 0 {
    } else {
      var end := SegmentEnd(u, at);
      SegmentKept(u, at, i, b);
      SegmentsUnder(u, end, count - 1, i, b);
      assert u[i := b][at + SEGMENT_HEADER_LEN..end] == u[at + SEGMENT_HEADER_LEN..end];
    }
  }

  // ---------- What the slot holds ----------

  /** The chip after erasing the first `erased` bytes of the slot and writing `content` there. */
  function SlotHolding(before: seq<u8>, offset: nat, content: seq<u8>, erased: nat): (r: seq<u8>)
    ensures |r| == |before|
  {
    seq<u8>(|before|, i requires 0 <= i < |before| => SlotByte(before, offset, content, erased, i))
  }

  function SlotByte(before: seq<u8>, offset: nat, content: seq<u8>, erased: nat, i: nat): u8
    requires i < |before|
  {
    if offset <= i < offset + erased then ByteAt(content, i - offset) else before[i]
  }

  lemma EraseNext(before: seq<u8>, offset: nat, content: seq<u8>, erased: nat)
    requires |content| <= erased && offset + erased + SECTOR <= |before|
    ensures EraseAt(SlotHolding(before, offset, content, erased), offset + erased)
            == SlotHolding(before, offset, content, erased + SECTOR)
  {
  }

  lemma ProgramNext(before: seq<u8>, offset: nat, content: seq<u8>, more: seq<u8>, erased: nat)
    requires |content| + |more| <= erased && offset + erased <= |before|
    ensures ProgramAt(SlotHolding(before, offset, content, erased), offset + |content|, more)
            == SlotHolding(before, offset, content + more, erased)
  {
    forall i | 0 <= i < |more|
      ensures And(0xFF, more[i]) == more[i]
    {
      AndErased(more[i]);
    }
    var a := ProgramAt(SlotHolding(before, offset, content, erased), offset + |content|, more);
    var b := SlotHolding(before, offset, content + more, erased);
    forall i | 0 <= i < |before|
      ensures a[i] == b[i]
    {
      if offset + |content| <= i < offset + |content| + |more| {
        assert And(0xFF, more[i - offset - |content|]) == more[i - offset - |content|];
      }
    }
  }

  /** Bytes erased and bytes programmed by a list of accesses. */
  function ErasedBy(ops: seq<FlashOp>): nat {
    if ops == [] then 0
    else ErasedBy(ops[..|ops| - 1]) + if ops[|ops| - 1].Erase? then SECTOR else 0
  }

  function ProgrammedBy(ops: seq<FlashOp>): nat {
    if ops == [] then 0
    else ProgrammedBy(ops[..|ops| - 1]) + if ops[|ops| - 1].Program? then ops[|ops| - 1].len else 0
  }

  /** Accesses in order: sectors of the slot are erased one after the other from the front, and words
      are written one after the other from the front into what is already erased. */
  ghost predicate Disciplined(ops: seq<FlashOp>, offset: nat) {
    ops == [] || (Disciplined(ops[..|ops| - 1], offset) && InTurn(ops[..|ops| - 1], ops[|ops| - 1], offset))
  }

  ghost predicate InTurn(past: seq<FlashOp>, op: FlashOp, offset: nat) {
    match op
    case Erase(at) => at == offset + ErasedBy(past)
    case Program(at, len) =>
      at == offset + ProgrammedBy(past) && 0 < len && len % 4 == 0 && ProgrammedBy(past) + len <= ErasedBy(past)
  }

  lemma DisciplinedNext(ops: seq<FlashOp>, op: FlashOp, offset: nat)
    requires Disciplined(ops, offset) && InTurn(ops, op, offset)
    ensures var next := ops + [op];
            && Disciplined(next, offset)
            && ErasedBy(next) == ErasedBy(ops) + (if op.Erase? then SECTOR else 0)
            && ProgrammedBy(next) == ProgrammedBy(ops) + (if op.Program? then op.len else 0)
  {
    assert (ops + [op])[..|ops + [op]| - 1] == ops;
  }

  lemma {:induction false} DisciplinedBlocks(ops: seq<FlashOp>, offset: nat, at: nat, len: nat)
    requires Disciplined(ops, offset) && at == offset + ProgrammedBy(ops)
    requires ProgrammedBy(ops) + len <= ErasedBy(ops) && len % 4 == 0
    ensures var next := ops + Blocks(at, len);
            Disciplined(next, offset) && ErasedBy(next) == ErasedBy(ops)
            && ProgrammedBy(next) == ProgrammedBy(ops) + len
    decreases len
  {
    if len == 0 {
      assert ops + [] == ops;
    } else {
      var n := BlockLen(len);
      DisciplinedNext(ops, Program(at, n), offset);
      DisciplinedBlocks(ops + [Program(at, n)], offset, at + n, len - n);
      BlocksSplit(ops, at, len, n);
    }
  }

  function BlockLen(len: nat): (n: nat)
    requires len > 0 && len % 4 == 0
    ensures 0 < n <= len && n % 4 == 0 && n == Min(len, 4 * BLOCK_WORDS)
  {
    Min(len, 4 * BLOCK_WORDS)
  }

  lemma BlocksSplit(ops: seq<FlashOp>, at: nat, len: nat, n: nat)
    requires len > 0 && n == Min(len, 4 * BLOCK_WORDS)
    ensures ops + Blocks(at, len) == ops + [Program(at, n)] + Blocks(at + n, len - n)
  {
  }

  /** Every prefix is disciplined too, and no later access falls behind an earlier one. */
  lemma {:induction false} PrefixDisciplined(ops: seq<FlashOp>, offset: nat, k: nat)
    requires Disciplined(ops, offset) && k < |ops|
    ensures Disciplined(ops[..k], offset) && InTurn(ops[..k], ops[k], offset)
    ensures ErasedBy(ops) >= ErasedBy(ops[..k]) + (if ops[k].Erase? then SECTOR else 0)
    ensures ProgrammedBy(ops) >= ProgrammedBy(ops[..k]) + (if ops[k].Program? then ops[k].len else 0)
  {
    if k < |ops| - 1 {
      var rest := ops[..|ops| - 1];
      PrefixDisciplined(rest, offset, k);
      assert rest[..k] == ops[..k];
    }
  }

  /** Whatever has been asked for so far is in order if all of it is. */
  lemma PartDisciplined(ops: seq<FlashOp>, part: seq<FlashOp>, offset: nat)
    requires Disciplined(ops, offset) && part <= ops
    ensures Disciplined(part, offset) && ErasedBy(part) <= ErasedBy(ops)
  {
    if part != ops {
      PrefixDisciplined(ops, offset, |part|);
      assert ops[..|part|] == part;
    }
  }

  predicate Covers(op: FlashOp, at: nat) {
    match op
    case Erase(start) => start <= at < start + SECTOR
    case Program(start, len) => start <= at < start + len
  }

  lemma {:induction false} WholeUnits(ops: seq<FlashOp>, offset: nat)
    requires Disciplined(ops, offset)
    ensures ErasedBy(ops) % 4096 == 0 && ProgrammedBy(ops) % 4 == 0 && ProgrammedBy(ops) <= ErasedBy(ops)
  {
    if ops == [] {
    } else {
      var rest, op := ops[..|ops| - 1], ops[|ops| - 1];
      WholeUnits(rest, offset);
      OneUnitMore(ErasedBy(rest), ProgrammedBy(rest), if op.Program? then op.len else 0);
    }
  }

  lemma OneUnitMore(erased: nat, programmed: nat, len: nat)
    requires erased % 4096 == 0 && programmed % 4 == 0 && len % 4 == 0
    ensures (erased + SECTOR) % 4096 == 0 && (programmed + len) % 4 == 0
  {
    var a, b, c := erased / 4096, programmed / 4, len / 4;
    assert erased + SECTOR == 4096 * (a + 1) && programmed + len == 4 * (b + c);
    WholeTimes(a + 1, b + c);
  }

  lemma WholeTimes(sectors: nat, words: nat)
    ensures 4096 * sectors % 4096 == 0 && 4 * words % 4 == 0
  {
  }

  /** Every access is aligned and stays inside the part of the slot that the update uses. */
  lemma AccessInSlot(ops: seq<FlashOp>, offset: nat, k: nat)
    requires Disciplined(ops, offset) && offset % 4096 == 0 && k < |ops|
    ensures offset <= ops[k].at
    ensures ops[k].Erase? ==> ops[k].at % 4096 == 0 && ops[k].at + SECTOR <= offset + ErasedBy(ops)
    ensures ops[k].Program? ==> ops[k].at % 4 == 0 && ops[k].len % 4 == 0
                                && ops[k].at + ops[k].len <= offset + ProgrammedBy(ops)
  {
    PrefixDisciplined(ops, offset, k);
    WholeUnits(ops[..k], offset);
    SumAligned(offset, ErasedBy(ops[..k]), ProgrammedBy(ops[..k]));
  }

  lemma SumAligned(offset: nat, sectors: nat, words: nat)
    requires offset % 4096 == 0 && sectors % 4096 == 0 && words % 4 == 0
    ensures (offset + sectors) % 4096 == 0 && (offset + words) % 4 == 0
  {
    var a, b, c := offset / 4096, sectors / 4096, words / 4;
    assert offset + sectors == 4096 * (a + b) && offset + words == 4 * (1024 * a + c);
    WholeTimes(a + b, 1024 * a + c);
  }

  /** No sector is erased twice and no byte is programmed twice. */
  lemma TouchedOnce(ops: seq<FlashOp>, offset: nat, j: nat, k: nat, at: nat)
    requires Disciplined(ops, offset) && j < k < |ops| && (ops[j].Erase? <==> ops[k].Erase?)
    ensures !(Covers(ops[j], at) && Covers(ops[k], at))
  {
    PrefixDisciplined(ops, offset, k);
    PrefixDisciplined(ops[..k], offset, j);
    assert ops[..k][..j] == ops[..j];
  }

  lemma {:induction false} ErasedSomewhere(ops: seq<FlashOp>, offset: nat, at: nat) returns (j: nat)
    requires Disciplined(ops, offset) && offset <= at < offset + ErasedBy(ops)
    ensures j < |ops| && ops[j].Erase? && Covers(ops[j], at)
  {
    var rest := ops[..|ops| - 1];
    if at < offset + ErasedBy(rest) {
      j := ErasedSomewhere(rest, offset, at);
    } else {
      j := |ops| - 1;
    }
  }

  /** Every byte's sector is erased before the byte is programmed, and never after. */
  lemma ErasedBeforeProgrammed(ops: seq<FlashOp>, offset: nat, k: nat, at: nat)
    requires Disciplined(ops, offset) && k < |ops| && ops[k].Program? && Covers(ops[k], at)
    ensures exists j :: 0 <= j < k && ops[j].Erase? && Covers(ops[j], at)
    ensures forall i :: k < i < |ops| && ops[i].Erase? ==> !Covers(ops[i], at)
  {
    PrefixDisciplined(ops, offset, k);
    var j := ErasedSomewhere(ops[..k], offset, at);
    assert ops[j].Erase? && Covers(ops[j], at);
    forall i | k < i < |ops| && ops[i].Erase?
      ensures !Covers(ops[i], at)
    {
      TouchedOnce(ops, offset, j, i, at);
    }
  }
}
