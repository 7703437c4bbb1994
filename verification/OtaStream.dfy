/** The update object that takes an upload in pieces of any size, and the loop that feeds it. */
module OtaStream {
  import opened Bytes
  import opened Wrappers
  import opened Flash
  import opened Ota

  /** The slot lies on sector boundaries inside the chip. */
  ghost predicate SlotFits(before: seq<u8>, offset: nat, capacity: nat) {
    offset % 4096 == 0 && capacity % 4096 == 0 && offset + capacity <= |before| <= 0x8000_0000
  }

  /** The chip holds `content` at the front of the slot, in as few erased sectors as that takes, and got
      there by disciplined accesses. */
  ghost predicate Holds(mem: seq<u8>, log: seq<FlashOp>, before: seq<u8>, offset: nat, capacity: nat,
      content: seq<u8>, erased: nat) {
    && mem == SlotHolding(before, offset, content, erased)
    && Disciplined(log, offset) && ErasedBy(log) == erased && ProgrammedBy(log) == |content|
    && |content| <= erased <= capacity && erased % 4096 == 0
  }

  lemma EraseStep(mem: seq<u8>, log: seq<FlashOp>, before: seq<u8>, offset: nat, capacity: nat, content: seq<u8>,
      erased: nat)
    requires SlotFits(before, offset, capacity) && Holds(mem, log, before, offset, capacity, content, erased)
    requires erased < capacity
    ensures offset + erased + SECTOR <= |mem| && (offset + erased) % 4096 == 0
    ensures Holds(EraseAt(mem, offset + erased), log + [Erase(offset + erased)],
                  before, offset, capacity, content, erased + SECTOR)
  {
    WholeSectors(offset, erased, capacity);
    EraseNext(before, offset, content, erased);
    DisciplinedNext(log, Erase(offset + erased), offset);
  }

  lemma WholeSectors(offset: nat, erased: nat, capacity: nat)
    requires offset % 4096 == 0 && erased % 4096 == 0 && capacity % 4096 == 0 && erased < capacity
    ensures erased + 4096 <= capacity && (offset + erased) % 4096 == 0 && (erased + 4096) % 4096 == 0
  {
  }

  lemma ProgramStep(mem: seq<u8>, log: seq<FlashOp>, before: seq<u8>, offset: nat, capacity: nat, content: seq<u8>,
      erased: nat, bytes: seq<u8>)
    requires SlotFits(before, offset, capacity) && Holds(mem, log, before, offset, capacity, content, erased)
    requires |content| + |bytes| <= erased && |bytes| % 4 == 0
    ensures Holds(ProgramAt(mem, offset + |content|, bytes), log + Blocks(offset + |content|, |bytes|),
                  before, offset, capacity, content + bytes, erased)
  {
    ProgramNext(before, offset, content, bytes, erased);
    DisciplinedBlocks(log, offset, offset + |content|, |bytes|);
  }

  lemma OutsideChain(a: seq<u8>, b: seq<u8>, c: seq<u8>, offset: nat, capacity: nat, at: nat, len: nat)
    requires SameOutside(a, b, offset, capacity) && SameOutside(b, c, at, len)
    requires offset <= at && at + len <= offset + capacity
    ensures SameOutside(a, c, offset, capacity)
  {
  }

  /** The slot read back is the content, padded with the erased value. */
  lemma SlotSlice(before: seq<u8>, offset: nat, content: seq<u8>, erased: nat, at: nat, len: nat)
    requires at + len <= erased && offset + erased <= |before|
    ensures SlotHolding(before, offset, content, erased)[offset + at..offset + at + len] == BytesAt(content, at, len)
  {
  }

  lemma PaddingInvisible(before: seq<u8>, offset: nat, u: seq<u8>, flushed: nat, erased: nat)
    requires flushed <= |u| <= flushed + 4
    ensures SlotHolding(before, offset, u[..flushed] + BytesAt(u, flushed, 4), erased)
            == SlotHolding(before, offset, u, erased)
  {
  }

  lemma TailPush(u: seq<u8>, flushed: nat, tail: seq<u8>, tailLen: nat, b: u8)
    requires |u| == flushed + tailLen && tailLen < 4 && tail == BytesAt(u, flushed, 4)
    ensures tail[tailLen := b] == BytesAt(u + [b], flushed, 4)
    ensures (u + [b])[..flushed] == u[..flushed]
  {
  }

  lemma FullTail(u: seq<u8>, flushed: nat)
    requires |u| == flushed + 4
    ensures u[..flushed] + BytesAt(u, flushed, 4) == u
  {
  }

  lemma EmptyTail(u: seq<u8>)
    ensures BytesAt(u, |u|, 4) == [0xFF, 0xFF, 0xFF, 0xFF] && u[..|u|] == u
  {
  }

  lemma SumNone(u: seq<u8>, from: nat, seed: u8)
    requires from <= |u|
    ensures XorAll(seed, u[from..from]) == seed
  {
  }

  lemma SumBlock(u: seq<u8>, from: nat, position: nat, count: nat, seed: u8)
    requires from <= position && position + count <= |u|
    ensures XorAll(XorAll(seed, u[from..position]), BytesAt(u, position, count))
            == XorAll(seed, u[from..position + count])
  {
    var block := BytesAt(u, position, count);
    assert block == u[position..position + count];
    XorSplit(seed, u[from..position], block);
    assert u[from..position] + block == u[from..position + count];
  }

  lemma SealedAtEnd(u: seq<u8>, at: nat, seed: u8)
    ensures Sealed(u, at, seed, 0) <==> Closes(u, at, seed)
  {
  }

  lemma EmptyInvalid()
    ensures !ImageValid([])
  {
  }

  /** The last word of a partly filled tail still has room, and rounds the length up. */
  lemma LastWord(flushed: nat, tailLen: nat, capacity: nat)
    requires flushed % 4 == 0 && capacity % 4096 == 0 && flushed + tailLen <= capacity && tailLen < 4
    ensures tailLen > 0 ==> flushed + 4 <= capacity && AlignUp(flushed + tailLen, 4) == flushed + 4
    ensures tailLen == 0 ==> AlignUp(flushed, 4) == flushed
  {
    var q, c := flushed / 4, capacity / 4096;
    assert flushed == 4 * q && capacity == 4 * (1024 * c);
    if tailLen > 0 {
      assert q < 1024 * c;
      assert (4 * q + tailLen) / 4 == q && (4 * q + tailLen) % 4 == tailLen;
    }
  }

  lemma LastSector(flushed: nat, tailLen: nat, erased: nat)
    requires flushed % 4 == 0 && erased % 4096 == 0 && tailLen > 0 && erased < flushed + 4 + 4096
    ensures erased < flushed + tailLen + 4096
  {
  }

  lemma WordsAdd(a: nat, b: nat)
    requires a % 4 == 0 && b % 4 == 0
    ensures (a + b) % 4 == 0
  {
  }

  /** An upload that has begun has begun with the image magic. */
  predicate Headed(u: seq<u8>) {
    u != [] ==> u[0] == IMAGE_MAGIC
  }

  function CheckedAdd(a: nat, b: nat): Option<u32> {
    if a + b > U32_MAX then None else Some(a + b)
  }

  function SatAdd32(a: nat, b: nat): u32 {
    Min(a + b, U32_MAX)
  }

  class OtaUpdate {
    const flash: Chip
    const offset: u32
    const capacity: u32
    var written: u32
    var flushed: u32
    var erased: u32
    var tail: seq<u8>
    var tailLen: nat
    var sawHeader: bool
    ghost var uploaded: seq<u8>
    ghost const before: seq<u8>

    ghost predicate HoldsContent(content: seq<u8>)
      reads this, flash
    {
      && SlotFits(before, offset, capacity) && Holds(flash.mem, flash.log, before, offset, capacity, content, erased)
      && erased < |content| + 4096
    }

    /** The counters and the tail account for every byte taken. */
    ghost predicate Accounted()
      reads this
    {
      && written == |uploaded| <= capacity && tailLen <= 4 && flushed + tailLen == written && flushed % 4 == 0
      && tail == BytesAt(uploaded, flushed, 4)
      && (uploaded != [] ==> sawHeader) && Headed(uploaded)
    }

    /** Everything asked of the chip was in order and within the slot. */
    ghost predicate Orderly()
      reads this, flash
    {
      Disciplined(flash.log, offset) && ErasedBy(flash.log) <= capacity
    }

    /** Whole words of the upload are in flash, the rest of it is in the tail. */
    ghost predicate Buffered()
      reads this, flash
    {
      Accounted() && HoldsContent(uploaded[..flushed])
    }

    lemma HoldsOrderly(content: seq<u8>)
      requires HoldsContent(content)
      ensures Orderly()
    {
    }

    ghost predicate Valid()
      reads this, flash
    {
      Buffered() && tailLen < 4
    }

    constructor (flash: Chip, offset: u32, capacity: u32)
      requires SlotFits(flash.mem, offset, capacity)
      modifies flash
      ensures this.flash == flash && this.offset == offset && this.capacity == capacity && before == old(flash.mem)
      ensures Valid() && uploaded == [] && flash.mem == old(flash.mem) && flash.log == []
    {
      this.flash, this.offset, this.capacity := flash, offset, capacity;
      written, flushed, erased := 0, 0, 0;
      tail, tailLen, sawHeader := [0xFF, 0xFF, 0xFF, 0xFF], 0, false;
      uploaded, before := [], flash.mem;
      new;
      flash.log := [];
      assert flash.mem == SlotHolding(before, offset, [], 0);
      assert uploaded[..flushed] == [];
    }

    method EnsureErased(end: nat, ghost content: seq<u8>) returns (r: Result<(), OtaError>)
      requires HoldsContent(content) && |content| <= end <= capacity
      modifies this`erased, flash
      ensures SameOutside(old(flash.mem), flash.mem, offset, capacity)
      ensures r.Ok? ==> Holds(flash.mem, flash.log, before, offset, capacity, content, erased)
                        && end <= erased < end + 4096
      ensures r.Err? ==> r == Err(Storage) && Orderly()
    {
      hide Disciplined, ErasedBy, ProgrammedBy, SlotHolding, SameOutside, EraseAt;
      SameAsBefore(flash.mem, offset, capacity);
      while erased < end
        invariant Holds(flash.mem, flash.log, before, offset, capacity, content, erased) && erased < end + 4096
        invariant SameOutside(old(flash.mem), flash.mem, offset, capacity)
        decreases capacity - erased
      {
        EraseStep(flash.mem, flash.log, before, offset, capacity, content, erased);
        ghost var mem := flash.mem;
        var done := flash.EraseSector(offset + erased);
        OutsideChain(old(flash.mem), mem, flash.mem, offset, capacity, offset + erased, SECTOR);
        if done.Err? {
          return Err(Storage);
        }
        erased := erased + SECTOR;
      }
      return Ok(());
    }

    /** Erases what the next words need and writes them behind what is already there. */
    method WriteNext(bytes: seq<u8>, ghost content: seq<u8>) returns (r: Result<(), OtaError>)
      requires HoldsContent(content) && flushed == |content| && flushed + |bytes| <= capacity && |bytes| % 4 == 0
      modifies this`erased, flash
      ensures SameOutside(old(flash.mem), flash.mem, offset, capacity)
      ensures r.Ok? ==> HoldsContent(content + bytes)
      ensures r.Err? ==> r == Err(Storage) && Orderly()
    {
      hide Disciplined, SlotHolding;
      r := EnsureErased(flushed + |bytes|, content);
      if r.Err? {
        return;
      }
      ProgramStep(flash.mem, flash.log, before, offset, capacity, content, erased, bytes);
      ghost var mem, whole := flash.mem, flash.log + Blocks(offset + flushed, |bytes|);
      var done := flash.WriteAligned(offset + flushed, bytes);
      OutsideChain(old(flash.mem), mem, flash.mem, offset, capacity, offset + flushed, |bytes|);
      if done.Err? {
        PartDisciplined(whole, flash.log, offset);
        return Err(Storage);
      }
      assert Holds(flash.mem, flash.log, before, offset, capacity, content + bytes, erased);
      return Ok(());
    }

    method WriteAlignedTail() returns (r: Result<(), OtaError>)
      requires Buffered() && flushed + 4 <= capacity
      modifies this`erased, flash
      ensures SameOutside(old(flash.mem), flash.mem, offset, capacity)
      ensures r.Ok? ==> HoldsContent(uploaded[..flushed] + tail)
      ensures r.Err? ==> r == Err(Storage) && Orderly()
    {
      r := WriteNext(tail, uploaded[..flushed]);
    }

    method KeepByte(b: u8)
      requires Valid() && written < capacity && sawHeader && Headed(uploaded + [b])
      modifies this`tail, this`tailLen, this`written, this`uploaded
      ensures Buffered() && uploaded == old(uploaded) + [b] && tailLen == old(tailLen) + 1
    {
      TailPush(uploaded, flushed, tail, tailLen, b);
      tail := tail[tailLen := b];
      tailLen := tailLen + 1;
      written := written + 1;
      uploaded := uploaded + [b];
    }

    /** A full tail goes to flash. */
    method FlushTail() returns (r: Result<(), OtaError>)
      requires Buffered() && tailLen == 4
      modifies this`erased, this`flushed, this`tail, this`tailLen, flash
      ensures SameOutside(old(flash.mem), flash.mem, offset, capacity)
      ensures r.Ok? ==> Valid() && tailLen == 0
      ensures r.Err? ==> r == Err(Storage) && Accounted() && Orderly()
    {
      hide Holds, SlotFits;
      r := WriteAlignedTail();
      if r.Err? {
        return;
      }
      FullTail(uploaded, flushed);
      EmptyTail(uploaded);
      flushed := flushed + 4;
      tail := [0xFF, 0xFF, 0xFF, 0xFF];
      tailLen := 0;
    }

    method FillTail(data: seq<u8>) returns (r: Result<seq<u8>, OtaError>)
      requires Valid() && written + |data| <= capacity && sawHeader && Headed(uploaded + data)
      modifies this, flash
      ensures SameOutside(old(flash.mem), flash.mem, offset, capacity)
      ensures r.Ok? ==> Valid() && sawHeader && uploaded + r.value == old(uploaded) + data
      ensures r.Ok? ==> r.value == [] || tailLen == 0
      ensures r.Ok? && old(tailLen) == 0 ==> r.value == data
      ensures old(uploaded) <= uploaded <= old(uploaded) + data
      ensures r.Err? ==> r == Err(Storage) && Accounted() && Orderly()
    {
      var rest := data;
      while tailLen > 0 && rest != []
        invariant Valid() && sawHeader && uploaded + rest == old(uploaded) + data && old(uploaded) <= uploaded
        invariant SameOutside(old(flash.mem), flash.mem, offset, capacity)
        invariant old(tailLen) == 0 ==> rest == data && tailLen == 0
        decreases |rest|
      {
        assert uploaded + [rest[0]] + rest[1..] == uploaded + rest;
        assert |uploaded + rest| <= capacity && Headed(uploaded + [rest[0]]) by {
          assert uploaded + [rest[0]] == (uploaded + rest)[..|uploaded| + 1];
        }
        KeepByte(rest[0]);
        rest := rest[1..];
        if tailLen == 4 {
          ghost var mem := flash.mem;
          var done := FlushTail();
          OutsideChain(old(flash.mem), mem, flash.mem, offset, capacity, offset, capacity);
          if done.Err? {
            return Err(done.error);
          }
        }
      }
      return Ok(rest);
    }

    /** The whole words of the rest go to flash directly. */
    method WriteWhole(data: seq<u8>) returns (r: Result<seq<u8>, OtaError>)
      requires Valid() && written + |data| <= capacity && sawHeader && (data == [] || tailLen == 0)
      requires Headed(uploaded + data)
      modifies this, flash
      ensures SameOutside(old(flash.mem), flash.mem, offset, capacity)
      ensures r.Ok? ==> Valid() && sawHeader && uploaded + r.value == old(uploaded) + data && |r.value| < 4
      ensures r.Ok? && r.value != [] ==> tailLen == 0
      ensures r.Err? ==> r == Err(Storage) && Accounted() && Orderly() && uploaded == old(uploaded)
    {
      hide SlotFits;
      var alignedLen := |data| - |data| % 4;
      if alignedLen == 0 {
        return Ok(data);
      }
      var whole := data[..alignedLen];
      assert uploaded[..flushed] == uploaded;
      r := WholeWords(whole);
      if r.Err? {
        return;
      }
      assert old(uploaded) + whole + data[alignedLen..] == old(uploaded) + data by {
        assert data == whole + data[alignedLen..];
      }
      return Ok(data[alignedLen..]);
    }

    method WholeWords(whole: seq<u8>) returns (r: Result<seq<u8>, OtaError>)
      requires Valid() && tailLen == 0 && written + |whole| <= capacity && sawHeader && |whole| % 4 == 0 && whole != []
      requires Headed(uploaded + whole)
      modifies this, flash
      ensures SameOutside(old(flash.mem), flash.mem, offset, capacity)
      ensures r.Ok? ==> Valid() && sawHeader && uploaded == old(uploaded) + whole && tailLen == 0 && r.value == []
      ensures r.Err? ==> r == Err(Storage) && Accounted() && Orderly() && uploaded == old(uploaded)
    {
      hide Holds, SlotFits;
      EmptyTail(uploaded);
      WordsAdd(flushed, |whole|);
      var done := WriteNext(whole, uploaded);
      if done.Err? {
        return Err(done.error);
      }
      flushed := flushed + |whole|;
      written := written + |whole|;
      uploaded := uploaded + whole;
      EmptyTail(uploaded);
      assert HoldsContent(uploaded[..flushed]);
      return Ok([]);
    }

    method KeepTail(data: seq<u8>)
      requires Valid() && sawHeader && |data| < 4 && (data == [] || tailLen == 0) && written + |data| <= capacity
      requires Headed(uploaded + data)
      modifies this`tail, this`tailLen, this`written, this`uploaded
      ensures Valid() && uploaded == old(uploaded) + data
    {
      hide Holds, SlotFits;
      var i := 0;
      assert uploaded + data[..0] == uploaded;
      while i < |data|
        invariant 0 <= i <= |data| && Valid() && uploaded == old(uploaded) + data[..i] && (data == [] || tailLen == i)
      {
        assert data[..i + 1] == data[..i] + [data[i]];
        assert uploaded + [data[i]] == (old(uploaded) + data)[..|uploaded| + 1];
        KeepByte(data[i]);
        i := i + 1;
      }
      assert data[..i] == data;
    }

    /** Takes the next piece of the upload. */
    method Write(data: seq<u8>) returns (r: Result<(), OtaError>)
      requires Valid()
      modifies this, flash
      ensures SameOutside(old(flash.mem), flash.mem, offset, capacity)
      ensures r.Ok? ==> Valid() && uploaded == old(uploaded) + data
      ensures data == [] ==> r.Ok?
      ensures r == Err(InvalidImage) <==> data != [] && old(uploaded) == [] && data[0] != IMAGE_MAGIC
      ensures r == Err(TooLarge) <==> data != [] && !(old(uploaded) == [] && data[0] != IMAGE_MAGIC)
                                      && |old(uploaded)| + |data| > capacity
      ensures r.Err? && r.error != Storage ==>
                flash.mem == old(flash.mem) && flash.log == old(flash.log) && Valid() && uploaded == old(uploaded)
      ensures r == Err(Storage) ==> Accounted() && old(uploaded) <= uploaded <= old(uploaded) + data
      ensures Orderly()
    {
      hide Holds;
      HoldsOrderly(uploaded[..flushed]);
      if data == [] {
        assert uploaded + data == uploaded;
        return Ok(());
      }
      if written == 0 {
        if data[0] != IMAGE_MAGIC {
          return Err(InvalidImage);
        }
        sawHeader := true;
      }
      assert Headed(uploaded + data);
      if SatAdd32(written, |data|) > capacity {
        return Err(TooLarge);
      }
      var rest := FillTail(data);
      if rest.Err? {
        return Err(rest.error);
      }
      ghost var mem := flash.mem;
      assert |uploaded| + |rest.value| == |old(uploaded)| + |data|;
      var last := WriteWhole(rest.value);
      OutsideChain(old(flash.mem), mem, flash.mem, offset, capacity, offset, capacity);
      if last.Err? {
        return Err(last.error);
      }
      assert |uploaded| + |last.value| == |old(uploaded)| + |data|;
      KeepTail(last.value);
      HoldsOrderly(uploaded[..flushed]);
      return Ok(());
    }

    /** The slot holds the whole upload, and the rest of its erased sectors is blank. */
    ghost predicate Stored()
      reads this, flash
    {
      && SlotFits(before, offset, capacity) && written == |uploaded| <= erased <= capacity && uploaded != []
      && erased < |uploaded| + 4096
      && erased % 4096 == 0 && flash.mem == SlotHolding(before, offset, uploaded, erased)
    }

    /** Reads back part of the slot. */
    method ReadBack(at: nat, len: nat) returns (r: Result<seq<u8>, OtaError>)
      requires Stored() && at + len <= erased
      ensures r.Ok? ==> r.value == BytesAt(uploaded, at, len)
      ensures r.Err? ==> r == Err(Storage)
    {
      SlotSlice(before, offset, uploaded, erased, at, len);
      var bytes := flash.Read(offset + at, len);
      return if bytes.Ok? then Ok(bytes.value) else Err(Storage);
    }

    /** Runs the checksum over `[from, to)` in blocks of the read buffer. */
    method SumSegment(from: nat, to: nat, seed: u8) returns (r: Result<u8, OtaError>)
      requires Stored() && from <= to <= written
      ensures r.Ok? ==> r.value == XorAll(seed, uploaded[from..to])
      ensures r.Err? ==> r == Err(Storage)
    {
      hide SlotHolding, SlotFits, BytesAt, XorAll;
      SumNone(uploaded, from, seed);
      var position, checksum := from, seed;
      while position < to
        invariant from <= position <= to && checksum == XorAll(seed, uploaded[from..position])
      {
        var count := Min(to - position, READ_BUFFER);
        var buffer := ReadBack(position, count);
        if buffer.Err? {
          return Err(buffer.error);
        }
        SumBlock(uploaded, from, position, count, seed);
        checksum := XorInto(checksum, buffer.value);
        position := position + count;
      }
      return Ok(checksum);
    }

    /** Checks that the segment at `position` fits, and sums its payload. */
    method CheckSegment(position: nat, checksum: u8) returns (r: Result<(nat, u8), OtaError>)
      requires Stored()
      ensures r.Ok? ==> SegmentFits(uploaded, position) && r.value.0 == SegmentEnd(uploaded, position)
      ensures r.Ok? ==> r.value.1 == XorAll(checksum, uploaded[position + SEGMENT_HEADER_LEN..r.value.0])
      ensures r.Err? ==> r == Err(Storage) || (r == Err(InvalidImage) && !SegmentFits(uploaded, position))
    {
      var headerEnd := CheckedAdd(position, SEGMENT_HEADER_LEN);
      if headerEnd.None? || headerEnd.value > written {
        return Err(InvalidImage);
      }
      var header := ReadBack(position, SEGMENT_HEADER_LEN);
      if header.Err? {
        return Err(header.error);
      }
      assert header.value[4..8] == uploaded[position + 4..position + SEGMENT_HEADER_LEN];
      var segmentEnd := CheckedAdd(headerEnd.value, FromLe(header.value[4..8]));
      if segmentEnd.None? || segmentEnd.value > written {
        return Err(InvalidImage);
      }
      var sum := SumSegment(headerEnd.value, segmentEnd.value, checksum);
      return if sum.Ok? then Ok((segmentEnd.value, sum.value)) else Err(sum.error);
    }

    /** Walks the segments, then compares the closing checksum. */
    method CheckSegments(segmentCount: nat) returns (r: Result<(), OtaError>)
      requires Stored()
      ensures r != Err(Storage) ==> (r.Ok? <==> Sealed(uploaded, IMAGE_HEADER_LEN, CHECKSUM_SEED, segmentCount))
      ensures r.Err? ==> r == Err(Storage) || r == Err(InvalidImage)
    {
      hide Segments;
      var position: nat, checksum := IMAGE_HEADER_LEN, CHECKSUM_SEED;
      ghost var sealed := Sealed(uploaded, IMAGE_HEADER_LEN, CHECKSUM_SEED, segmentCount);
      for k := 0 to segmentCount
        invariant sealed <==> Sealed(uploaded, position, checksum, segmentCount - k)
      {
        SealedStep(uploaded, position, checksum, segmentCount - k);
        var next := CheckSegment(position, checksum);
        if next.Err? {
          return Err(next.error);
        }
        position, checksum := next.value.0, next.value.1;
      }
      SealedAtEnd(uploaded, position, checksum);
      r := CheckClosing(position, checksum);
    }

    method CheckClosing(position: nat, checksum: u8) returns (r: Result<(), OtaError>)
      requires Stored()
      ensures r != Err(Storage) ==> (r.Ok? <==> Closes(uploaded, position, checksum))
      ensures r.Err? ==> r == Err(Storage) || r == Err(InvalidImage)
    {
      var next := CheckedAdd(position, 1);
      if next.None? {
        return Err(InvalidImage);
      }
      AlignUpIsLeast(next.value, 16);
      var checksumOffset := AlignUp(next.value, 16) - 1;
      if checksumOffset >= written {
        return Err(InvalidImage);
      }
      var stored := ReadBack(checksumOffset, 1);
      if stored.Err? {
        return Err(stored.error);
      }
      return if stored.value[0] == checksum then Ok(()) else Err(InvalidImage);
    }

    method VerifyImage() returns (r: Result<(), OtaError>)
      requires Stored()
      ensures r != Err(Storage) ==> (r.Ok? <==> ImageValid(uploaded))
      ensures r.Err? ==> r == Err(Storage) || r == Err(InvalidImage)
    {
      var header := ReadBack(0, IMAGE_HEADER_LEN);
      if header.Err? {
        return Err(header.error);
      }
      var segmentCount := header.value[1];
      if header.value[0] != IMAGE_MAGIC || segmentCount == 0 || segmentCount > 16 {
        return Err(InvalidImage);
      }
      var appDesc := ReadBack(APP_DESC_OFFSET, 4);
      if appDesc.Err? {
        return Err(appDesc.error);
      }
      WordMatches(appDesc.value, APP_DESC_MAGIC);
      if FromLe(appDesc.value) != APP_DESC_MAGIC {
        return Err(InvalidImage);
      }
      r := CheckSegments(segmentCount);
    }

    /** A partly filled tail goes to flash with its padding. */
    method FlushRest() returns (r: Result<(), OtaError>)
      requires Valid() && 0 < tailLen && flushed + 4 <= capacity
      modifies this`erased, this`flushed, this`tail, this`tailLen, flash
      ensures SameOutside(old(flash.mem), flash.mem, offset, capacity)
      ensures r.Ok? ==> Stored() && Disciplined(flash.log, offset) && ErasedBy(flash.log) == erased
                        && ProgrammedBy(flash.log) == AlignUp(|uploaded|, 4)
      ensures r.Err? ==> r == Err(Storage)
      ensures Orderly()
    {
      hide Disciplined, SlotHolding, AlignUp;
      LastWord(flushed, tailLen, capacity);
      r := WriteAlignedTail();
      if r.Err? {
        return;
      }
      PaddingInvisible(before, offset, uploaded, flushed, erased);
      LastSector(flushed, tailLen, erased);
      flushed := flushed + 4;
      tail, tailLen := [0xFF, 0xFF, 0xFF, 0xFF], 0;
    }

    /** Flushes the tail and checks the stored image. */
    method Finish() returns (r: Result<(), OtaError>)
      requires Valid()
      modifies this, flash
      ensures SameOutside(old(flash.mem), flash.mem, offset, capacity)
      ensures uploaded == old(uploaded)
      ensures r != Err(Storage) ==> (r.Ok? <==> ImageValid(uploaded)) && (r.Err? ==> r == Err(InvalidImage))
      ensures r != Err(Storage) ==> erased <= capacity && flash.mem == SlotHolding(before, offset, uploaded, erased)
      ensures r != Err(Storage) ==> ErasedBy(flash.log) == erased < |uploaded| + 4096
      ensures Orderly()
      ensures r.Ok? ==> ProgrammedBy(flash.log) == AlignUp(|uploaded|, 4)
    {
      hide Disciplined, ImageValid, SlotHolding, AlignUp;
      LastWord(flushed, tailLen, capacity);
      if !sawHeader || written == 0 {
        EmptyTail(uploaded);
        EmptyInvalid();
        return Err(InvalidImage);
      }
      if tailLen > 0 {
        if SatAdd32(flushed, 4) > capacity {
          return Err(TooLarge);
        }
        var done := FlushRest();
        if done.Err? {
          return Err(done.error);
        }
      } else {
        EmptyTail(uploaded);
      }
      r := VerifyImage();
    }
  }

  lemma WordMatches(b: seq<u8>, word: u32)
    requires |b| == 4
    ensures FromLe(b) == word <==> b == ToLe(word, 4)
  {
    ToFromLe(b);
    assert Pow256(4) == 0x1_0000_0000;
    FromToLe(word, 4);
  }

  method XorInto(seed: u8, bytes: seq<u8>) returns (checksum: u8)
    ensures checksum == XorAll(seed, bytes)
  {
    checksum := seed;
    for i := 0 to |bytes|
      invariant checksum == XorAll(seed, bytes[..i])
    {
      assert bytes[..i + 1][..i] == bytes[..i];
      checksum := Xor(checksum, bytes[i]);
    }
    assert bytes[..|bytes|] == bytes;
  }

  function Joined(chunks: seq<seq<u8>>): (all: seq<u8>) {
    if chunks == [] then [] else Joined(chunks[..|chunks| - 1]) + chunks[|chunks| - 1]
  }

  /** The upload loop: pieces as they come from the network, then `Finish`. */
  method ReceiveUpdate(flash: Chip, offset: u32, capacity: u32, chunks: seq<seq<u8>>)
    returns (r: Result<(), OtaError>, ghost erased: nat)
    requires SlotFits(flash.mem, offset, capacity)
    modifies flash
    ensures SameOutside(old(flash.mem), flash.mem, offset, capacity)
    ensures r.Ok? ==> ImageValid(Joined(chunks)) && |Joined(chunks)| <= capacity
    ensures r.Ok? ==> flash.mem == SlotHolding(old(flash.mem), offset, Joined(chunks), erased)
    ensures Disciplined(flash.log, offset) && ErasedBy(flash.log) <= capacity
    ensures r.Ok? ==> ErasedBy(flash.log) == erased < |Joined(chunks)| + 4096
                      && ProgrammedBy(flash.log) == AlignUp(|Joined(chunks)|, 4)
    ensures |Joined(chunks)| <= capacity && ImageValid(Joined(chunks)) ==> r.Ok? || r == Err(Storage)
  {
    var update := new OtaUpdate(flash, offset, capacity);
    erased := 0;
    assert chunks[..0] == [];
    for i := 0 to |chunks|
      invariant update.flash == flash && update.offset == offset && update.capacity == capacity
      invariant update.Valid() && update.before == old(flash.mem) && update.uploaded == Joined(chunks[..i])
      invariant SameOutside(old(flash.mem), flash.mem, offset, capacity)
    {
      ghost var mem := flash.mem;
      assert chunks[..i + 1][..i] == chunks[..i];
      var done := update.Write(chunks[i]);
      OutsideChain(old(flash.mem), mem, flash.mem, offset, capacity, offset, capacity);
      if done.Err? {
        r := Err(done.error);
        JoinedPrefix(chunks, i + 1);
        return;
      }
    }
    assert chunks[..|chunks|] == chunks;
    ghost var mem := flash.mem;
    r := update.Finish();
    OutsideChain(old(flash.mem), mem, flash.mem, offset, capacity, offset, capacity);
    erased := update.erased;
  }

  lemma {:induction false} JoinedPrefix(chunks: seq<seq<u8>>, n: nat)
    requires n <= |chunks|
    ensures Joined(chunks[..n]) <= Joined(chunks)
  {
    if n < |chunks| {
      assert chunks[..|chunks| - 1][..n] == chunks[..n];
      JoinedPrefix(chunks[..|chunks| - 1], n);
    } else {
      assert chunks[..n] == chunks;
    }
  }
}
