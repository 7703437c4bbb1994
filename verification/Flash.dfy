/** NOR flash as the ROM driver exposes it: erasing sets a sector to 0xFF, programming can only clear
    bits, and any access the chip does not complete reports an error. */
module Flash {
  import opened Bytes
  import opened Wrappers

  const SECTOR: nat := 4096
  const BLOCK_WORDS: nat := 256

  datatype FlashError = Io | BufferTooSmall

  /** Accesses the chip has been asked for, whether or not it completed them. */
  datatype FlashOp = Erase(at: nat) | Program(at: nat, len: nat)

  function AlignUp(value: nat, alignment: nat): (r: nat)
    requires alignment > 0
  {
    (value / alignment + if value % alignment == 0 then 0 else 1) * alignment
  }

  /** The least multiple of the alignment that is not below the value. */
  lemma AlignUpIsLeast(value: nat, alignment: nat)
    requires alignment > 0
    ensures value <= AlignUp(value, alignment) < value + alignment
    ensures AlignUp(value, alignment) % alignment == 0
  {
    var q, r := value / alignment, value % alignment;
    assert value == q * alignment + r;
    assert (q + 1) * alignment == q * alignment + alignment;
    Multiple(if r == 0 then q else q + 1, alignment);
  }

  lemma {:induction false} Multiple(k: nat, m: nat)
    requires m > 0
    ensures k * m % m == 0
  {
    if k == 0 {
    } else {
      Multiple(k - 1, m);
      assert k * m == (k - 1) * m + m;
      assert ((k - 1) * m + m) % m == 0 by {
        NextMultiple((k - 1) * m, m);
      }
    }
  }

  lemma NextMultiple(x: nat, m: nat)
    requires m > 0 && x % m == 0
    ensures (x + m) % m == 0
  {
    var q := x / m;
    assert x + m == (q + 1) * m + 0;
    DivisionIsUnique(x + m, m, q + 1);
  }

  lemma DivisionIsUnique(x: nat, m: nat, q: nat)
    requires m > 0 && x == q * m
    ensures x % m == 0
  {
    var q', r := x / m, x % m;
    assert x == q' * m + r;
    if q' < q {
      Gap(q', q, m);
    } else if q' > q {
      Gap(q, q', m);
    }
  }

  lemma Gap(a: nat, b: nat, m: nat)
    requires a < b
    ensures a * m + m <= b * m
  {
    var d := b - a - 1;
    assert b * m == a * m + m + d * m;
  }

  function EraseAt(mem: seq<u8>, at: nat): (r: seq<u8>)
    requires at + SECTOR <= |mem|
  {
    seq(|mem|, i requires 0 <= i < |mem| => if at <= i < at + SECTOR then 0xFF else mem[i])
  }

  function ProgramAt(mem: seq<u8>, at: nat, bytes: seq<u8>): (r: seq<u8>) {
    seq(|mem|, i requires 0 <= i < |mem| => if at <= i < at + |bytes| then And(mem[i], bytes[i - at]) else mem[i])
  }

  /** Nothing outside the range differs. */
  ghost predicate SameOutside(a: seq<u8>, b: seq<u8>, at: nat, len: nat) {
    |a| == |b| && forall i :: 0 <= i < |a| && !(at <= i < at + len) ==> a[i] == b[i]
  }

  function WordsAsBytes(words: seq<u32>): (b: seq<u8>)
    ensures |b| == 4 * |words|
  {
    if words == [] then [] else ToLe(words[0], 4) + WordsAsBytes(words[1..])
  }

  function BytesAsWords(b: seq<u8>): (words: seq<u32>)
    requires |b| % 4 == 0
    ensures 4 * |words| == |b|
  {
    if b == [] then [] else [WordOf(b[..4])] + BytesAsWords(b[4..])
  }

  function WordOf(b: seq<u8>): (w: u32)
    requires |b| == 4
  {
    WordFits(b);
    FromLe(b)
  }

  lemma WordFits(b: seq<u8>)
    requires |b| == 4
    ensures FromLe(b) < 0x1_0000_0000
  {
    ToFromLe(b);
    assert Pow256(4) == 0x1_0000_0000;
  }

  /** Packing bytes into words and storing the words little-endian stores the bytes. */
  lemma {:induction false} PackedBytes(b: seq<u8>)
    requires |b| % 4 == 0
    ensures WordsAsBytes(BytesAsWords(b)) == b
  {
    if b == [] {
    } else {
      var words := BytesAsWords(b);
      PackedBytes(b[4..]);
      ToFromLe(b[..4]);
      assert words[1..] == BytesAsWords(b[4..]);
      assert b == b[..4] + b[4..];
    }
  }

  lemma ProgramTwice(mem: seq<u8>, at: nat, a: seq<u8>, b: seq<u8>)
    ensures ProgramAt(ProgramAt(mem, at, a), at + |a|, b) == ProgramAt(mem, at, a + b)
  {
  }

  lemma NothingProgrammed(mem: seq<u8>, at: nat)
    ensures ProgramAt(mem, at, []) == mem
  {
  }

  lemma ProgramOutside(mem: seq<u8>, at: nat, bytes: seq<u8>)
    ensures SameOutside(mem, ProgramAt(mem, at, bytes), at, |bytes|)
  {
  }

  /** The blocks in which a range is written. */
  function Blocks(at: nat, len: nat): seq<FlashOp>
    decreases len
  {
    if len == 0 then []
    else if len <= 4 * BLOCK_WORDS then [Program(at, len)]
    else [Program(at, 4 * BLOCK_WORDS)] + Blocks(at + 4 * BLOCK_WORDS, len - 4 * BLOCK_WORDS)
  }

  /** The first `done` bytes are written, and the blocks still to come complete the list. */
  ghost predicate Written(mem: seq<u8>, log: seq<FlashOp>, before: seq<u8>, past: seq<FlashOp>, at: nat,
      bytes: seq<u8>, done: nat) {
    && done <= |bytes| && mem == ProgramAt(before, at, bytes[..done])
    && (done > 0 ==> at % 4 == 0 && at + done <= |before|)
    && log + Blocks(at + done, |bytes| - done) == past + Blocks(at, |bytes|)
  }

  lemma WrittenNone(mem: seq<u8>, log: seq<FlashOp>, at: nat, bytes: seq<u8>)
    ensures Written(mem, log, mem, log, at, bytes, 0)
  {
    NothingProgrammed(mem, at);
  }

  lemma WrittenAll(mem: seq<u8>, log: seq<FlashOp>, before: seq<u8>, past: seq<FlashOp>, at: nat, bytes: seq<u8>)
    requires Written(mem, log, before, past, at, bytes, |bytes|)
    ensures mem == ProgramAt(before, at, bytes) && log == past + Blocks(at, |bytes|)
    ensures bytes != [] ==> at % 4 == 0 && at + |bytes| <= |mem|
  {
    assert bytes[..|bytes|] == bytes && log + [] == log;
  }

  lemma WrittenOutside(mem: seq<u8>, log: seq<FlashOp>, before: seq<u8>, past: seq<FlashOp>, at: nat, bytes: seq<u8>,
      done: nat, after: seq<u8>)
    requires Written(mem, log, before, past, at, bytes, done) && SameOutside(mem, after, at + done, |bytes| - done)
    ensures SameOutside(before, after, at, |bytes|)
  {
  }

  lemma SameAsBefore(mem: seq<u8>, at: nat, len: nat)
    ensures SameOutside(mem, mem, at, len)
  {
  }

  /** A failed block leaves everything outside the range alone; a saturated offset is refused unaligned. */
  lemma BlockFailed(mem: seq<u8>, log: seq<FlashOp>, before: seq<u8>, past: seq<FlashOp>, at: nat, bytes: seq<u8>,
      done: nat, after: seq<u8>, offset: u32)
    requires Written(mem, log, before, past, at, bytes, done) && offset == Min(at + done, U32_MAX)
    requires SameOutside(mem, after, offset, |bytes| - done) && (offset % 4 != 0 ==> after == mem)
    ensures SameOutside(before, after, at, |bytes|)
  {
    if offset == at + done {
      WrittenOutside(mem, log, before, past, at, bytes, done, after);
    } else {
      assert U32_MAX % 4 == 3;
      SameAsBefore(mem, at + done, |bytes| - done);
      WrittenOutside(mem, log, before, past, at, bytes, done, after);
    }
  }

  /** A range is written 1024 bytes at a time, and what is left at last. */
  lemma {:induction false} BlocksExactly(at: nat, len: nat, k: nat)
    ensures |Blocks(at, len)| == (len + 1023) / 1024
    ensures k < |Blocks(at, len)| ==>
              Blocks(at, len)[k] == Program(at + 1024 * k, if len - 1024 * k < 1024 then len - 1024 * k else 1024)
    decreases len
  {
    if len <= 1024 {
    } else {
      BlocksExactly(at + 1024, len - 1024, if k == 0 then 0 else k - 1);
    }
  }

  /** What was logged since `past` are the first of the blocks of a write. */
  ghost predicate FirstBlocks(log: seq<FlashOp>, past: seq<FlashOp>, at: nat, len: nat) {
    past <= log <= past + Blocks(at, len)
  }

  lemma NoBlocksYet(log: seq<FlashOp>, at: nat, len: nat)
    ensures FirstBlocks(log, log, at, len)
  {
  }

  lemma LogWithin(mem: seq<u8>, log: seq<FlashOp>, before: seq<u8>, past: seq<FlashOp>, at: nat, bytes: seq<u8>,
      done: nat, after: seq<FlashOp>, offset: u32)
    requires Written(mem, log, before, past, at, bytes, done) && FirstBlocks(log, past, at, |bytes|)
    requires done < |bytes| && |bytes| % 4 == 0
    requires offset == Min(at + done, U32_MAX)
    requires after == log + if offset % 4 == 0 then [Program(offset, Min(|bytes| - done, 4 * BLOCK_WORDS))] else []
    ensures FirstBlocks(after, past, at, |bytes|)
  {
    hide ProgramAt;
    var rest := Blocks(at + done, |bytes| - done);
    assert rest != [] && rest[0] == Program(at + done, Min(|bytes| - done, 4 * BLOCK_WORDS));
    if offset % 4 == 0 {
      NotSaturated(at + done, offset);
    }
    OneMore(log, past, rest, Blocks(at, |bytes|), after);
  }

  lemma NotSaturated(end: nat, offset: u32)
    requires offset == Min(end, U32_MAX) && offset % 4 == 0
    ensures offset == end
  {
    assert U32_MAX % 4 == 3;
  }

  /** After a whole block the offset has moved on by as much, short of the end of the address space. */
  lemma NextBlock(at: nat, done: nat, offset: u32, count: nat, total: nat)
    requires offset == Min(at + done, U32_MAX) && offset % 4 == 0 && done % 4 == 0 && total % 4 == 0 && done < total
    requires count == Min(total - done, 4 * BLOCK_WORDS)
    ensures offset == at + done && 0 < count && done + count <= total && (done + count) % 4 == 0
    ensures Min(offset + count, U32_MAX) == Min(at + (done + count), U32_MAX) <= U32_MAX
  {
    NotSaturated(at + done, offset);
  }

  lemma NextSlice(bytes: seq<u8>, done: nat, count: nat)
    requires done + count <= |bytes|
    ensures bytes[done..][..count] == bytes[done..done + count]
    ensures bytes[done..][count..] == bytes[done + count..]
  {
  }

  lemma OneMore(log: seq<FlashOp>, past: seq<FlashOp>, rest: seq<FlashOp>, all: seq<FlashOp>, after: seq<FlashOp>)
    requires past <= log && log + rest == past + all && rest != [] && (after == log || after == log + [rest[0]])
    ensures past <= after <= past + all
  {
    assert log + [rest[0]] + rest[1..] == log + rest;
  }

  lemma WrittenMore(mem: seq<u8>, log: seq<FlashOp>, before: seq<u8>, past: seq<FlashOp>, at: nat, bytes: seq<u8>,
      done: nat, len: nat)
    requires Written(mem, log, before, past, at, bytes, done) && (at + done) % 4 == 0 && done % 4 == 0
    requires 0 < len && len == Min(|bytes| - done, 4 * BLOCK_WORDS) && at + done + len <= |mem|
    ensures Written(ProgramAt(mem, at + done, bytes[done..done + len]), log + [Program(at + done, len)],
                    before, past, at, bytes, done + len)
  {
    ProgramTwice(before, at, bytes[..done], bytes[done..done + len]);
    assert bytes[..done] + bytes[done..done + len] == bytes[..done + len];
    var rest := Blocks(at + done + len, |bytes| - done - len);
    assert Blocks(at + done, |bytes| - done) == [Program(at + done, len)] + rest;
    assert log + [Program(at + done, len)] + rest == log + Blocks(at + done, |bytes| - done);
  }

  lemma SliceOfSlice(mem: seq<u8>, at: nat, n: nat, prefix: nat, len: nat)
    requires at + n <= |mem| && prefix + len <= n
    ensures mem[at..at + n][prefix..prefix + len] == mem[at + prefix..at + prefix + len]
  {
    var words := mem[at..at + n];
    var a, b := words[prefix..prefix + len], mem[at + prefix..at + prefix + len];
    forall i | 0 <= i < len
      ensures a[i] == b[i]
    {
      assert a[i] == words[prefix + i] == mem[at + (prefix + i)];
    }
  }

  class Chip {
    var mem: seq<u8>
    ghost var log: seq<FlashOp>

    /** The chip carries the access out or reports that it did not. */
    method RomErase(at: u32) returns (ok: bool)
      modifies this
      ensures SameOutside(old(mem), mem, at, SECTOR)
      ensures ok ==> at % SECTOR == 0 && at + SECTOR <= |mem| && mem == EraseAt(old(mem), at)
      ensures log == old(log) + [Erase(at)]
    {
      ok := *;
      log := log + [Erase(at)];
      if at % SECTOR != 0 || at + SECTOR > |mem| {
        return false;
      }
      var left: seq<u8> := *;
      if ok {
        mem := EraseAt(mem, at);
      } else if |left| == SECTOR {
        mem := mem[..at] + left + mem[at + SECTOR..];
      }
    }

    method RomProgram(at: u32, words: seq<u32>) returns (ok: bool)
      modifies this
      ensures SameOutside(old(mem), mem, at, 4 * |words|)
      ensures ok ==> at + 4 * |words| <= |mem| && mem == ProgramAt(old(mem), at, WordsAsBytes(words))
      ensures log == old(log) + [Program(at, 4 * |words|)]
    {
      ok := *;
      log := log + [Program(at, 4 * |words|)];
      if at + 4 * |words| > |mem| {
        return false;
      }
      var left: seq<u8> := *;
      if ok {
        mem := ProgramAt(mem, at, WordsAsBytes(words));
      } else if |left| == 4 * |words| {
        mem := mem[..at] + left + mem[at + 4 * |words|..];
      }
    }

    method RomRead(at: u32, len: nat) returns (ok: bool, bytes: seq<u8>)
      ensures ok ==> at + len <= |mem| && bytes == mem[at..at + len]
    {
      ok := *;
      if at + len > |mem| {
        return false, [];
      }
      bytes := mem[at..at + len];
    }

    method EraseSector(at: u32) returns (r: Result<(), FlashError>)
      modifies this
      ensures SameOutside(old(mem), mem, at, SECTOR)
      ensures at % SECTOR != 0 ==> r == Err(Io) && mem == old(mem) && log == old(log)
      ensures at % SECTOR == 0 ==> log == old(log) + [Erase(at)]
      ensures r.Ok? ==> at % SECTOR == 0 && at + SECTOR <= |mem| && mem == EraseAt(old(mem), at)
      ensures r.Err? ==> r == Err(Io)
    {
      if at % SECTOR != 0 {
        return Err(Io);
      }
      var ok := RomErase(at);
      return if ok then Ok(()) else Err(Io);
    }

    method WriteWords(at: u32, words: seq<u32>) returns (r: Result<(), FlashError>)
      modifies this
      ensures SameOutside(old(mem), mem, at, 4 * |words|)
      ensures at % 4 != 0 ==> r == Err(Io) && mem == old(mem) && log == old(log)
      ensures at % 4 == 0 ==> log == old(log) + [Program(at, 4 * |words|)]
      ensures r.Ok? ==> at % 4 == 0 && at + 4 * |words| <= |mem| && mem == ProgramAt(old(mem), at, WordsAsBytes(words))
      ensures r.Err? ==> r == Err(Io)
    {
      if at % 4 != 0 {
        return Err(Io);
      }
      var ok := RomProgram(at, words);
      return if ok then Ok(()) else Err(Io);
    }

    /** Reads from any offset by reading the aligned words around it. */
    method Read(at: u32, len: nat) returns (r: Result<seq<u8>, FlashError>)
      ensures r.Ok? ==> at + len <= |mem| && r.value == mem[at..at + len]
      ensures r.Err? ==> r == Err(Io)
    {
      var alignedAt := at - at % 4;
      var prefix := at - alignedAt;
      AlignUpIsLeast(prefix + len, 4);
      var ok, bytes := RomRead(alignedAt, AlignUp(prefix + len, 4));
      if !ok {
        return Err(Io);
      }
      SliceOfSlice(mem, alignedAt, AlignUp(prefix + len, 4), prefix, len);
      return Ok(bytes[prefix..prefix + len]);
    }

    /** Writes the next block of at most 256 words and says how many bytes that was. */
    method WriteBlock(at: u32, rest: seq<u8>) returns (r: Result<nat, FlashError>)
      requires |rest| % 4 == 0 && rest != []
      modifies this
      ensures |mem| == |old(mem)|
      ensures r.Ok? ==> at % 4 == 0 && r.value == Min(|rest|, 4 * BLOCK_WORDS) && at + r.value <= |mem|
      ensures r.Ok? ==> mem == ProgramAt(old(mem), at, rest[..r.value])
      ensures log == old(log) + if at % 4 == 0 then [Program(at, Min(|rest|, 4 * BLOCK_WORDS))] else []
      ensures r.Err? ==> SameOutside(old(mem), mem, at, |rest|) && r == Err(Io) && (at % 4 != 0 ==> mem == old(mem))
    {
      var count := Min(|rest| / 4, BLOCK_WORDS);
      PackedBytes(rest[..4 * count]);
      var written := WriteWords(at, BytesAsWords(rest[..4 * count]));
      return if written.Ok? then Ok(4 * count) else Err(written.error);
    }

    /** Writes whole words, block by block; whatever happens, the accesses asked for are the first of its
        blocks. */
    method WriteAligned(at: u32, bytes: seq<u8>) returns (r: Result<(), FlashError>)
      modifies this
      ensures SameOutside(old(mem), mem, at, |bytes|)
      ensures |bytes| % 4 != 0 ==> r == Err(BufferTooSmall) && mem == old(mem) && log == old(log)
      ensures r.Ok? ==> |bytes| % 4 == 0 && (bytes != [] ==> at % 4 == 0 && at + |bytes| <= |mem|)
      ensures r.Ok? ==> mem == ProgramAt(old(mem), at, bytes) && log == old(log) + Blocks(at, |bytes|)
      ensures FirstBlocks(log, old(log), at, |bytes|)
      ensures bytes == [] ==> r.Ok?
    {
      hide Written, ProgramAt, Blocks, SameOutside, FirstBlocks;
      NoBlocksYet(log, at, |bytes|);
      if |bytes| % 4 != 0 {
        SameAsBefore(mem, at, |bytes|);
        return Err(BufferTooSmall);
      }
      var offset: u32, rest := at, bytes;
      ghost var done: nat := 0;
      assert offset == Min(at + done, U32_MAX);
      hide Min;
      WrittenNone(mem, log, at, bytes);
      while rest != []
        invariant done <= |bytes| && done % 4 == 0 && rest == bytes[done..] && offset == Min(at + done, U32_MAX)
        invariant Written(mem, log, old(mem), old(log), at, bytes, done) && FirstBlocks(log, old(log), at, |bytes|)
        decreases |rest|
      {
        ghost var mem', log' := mem, log;
        var written := WriteBlock(offset, rest);
        LogWithin(mem', log', old(mem), old(log), at, bytes, done, log, offset);
        if written.Err? {
          BlockFailed(mem', log', old(mem), old(log), at, bytes, done, mem, offset);
          return Err(written.error);
        }
        var count := written.value;
        NextBlock(at, done, offset, count, |bytes|);
        NextSlice(bytes, done, count);
        WrittenMore(mem', log', old(mem), old(log), at, bytes, done, count);
        offset := Min(offset + count, U32_MAX);
        rest := rest[count..];
        done := done + count;
      }
      WrittenAll(mem, log, old(mem), old(log), at, bytes);
      ProgramOutside(old(mem), at, bytes);
      return Ok(());
    }
  }
}
