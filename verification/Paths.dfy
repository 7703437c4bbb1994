/** Source routes: a list of node-hash prefixes, all of one size, packed into at most 64 bytes. */
module Paths {
  import opened Bytes
  import opened Wrappers

  const MAX_PATH_SIZE: nat := 64
  const MAX_HOPS: nat := 63

  datatype Error =
    | EmptyPacket
    | InvalidHeaderSentinel
    | UnsupportedPayloadVersion(version: nat)
    | PacketTooLong(len: nat)
    | PayloadTooLong(len: nat)
    | PathTooLong(len: nat)
    | InvalidHashSizeCode(code: nat)
    | InvalidPathLength
    | InvalidTracePathLength(length: nat)
    | InvalidTraceFlags(flags: nat)
    | Truncated
    | InvalidLength
    | InvalidUtf8
    | MissingTransportCodes
    | UnexpectedTransportCodes
    | InvalidZeroHopControlRoute
    | PathKindMismatch

  datatype HashSize = One | Two | Three {
    function Size(): (n: nat)
      ensures 1 <= n <= 3
    {
      match this
      case One => 1
      case Two => 2
      case Three => 3
    }

    function Code(): u8 {
      Size() - 1
    }
  }

  function HashSizeFromCode(code: u8): Result<HashSize, Error> {
    if code == 0 then Ok(One) else if code == 1 then Ok(Two) else if code == 2 then Ok(Three)
    else Err(InvalidHashSizeCode(code))
  }

  /** Cuts the first `n` bytes off an input, the way every wire reader advances its offset. */
  function Cut(input: seq<u8>, n: nat): (r: Result<(seq<u8>, seq<u8>), Error>)
    ensures r.Ok? <==> n <= |input|
    ensures r.Ok? ==> input == r.value.0 + r.value.1 && |r.value.0| == n
  {
    if n <= |input| then Ok((input[..n], input[n..])) else Err(Truncated)
  }

  /** Hash sizes are 1, 2 or 3 bytes, which makes division by one a matter of three cases. */
  lemma DivStep(n: int, size: nat)
    requires 1 <= size <= 3
    ensures (n + size) / size == n / size + 1 && (n + size) % size == n % size
  {
    if size == 1 {} else if size == 2 {} else {}
  }

  function Chunks(bytes: seq<u8>, size: nat): (r: seq<seq<u8>>)
    requires 1 <= size <= 3
    ensures |r| == |bytes| / size
    decreases |bytes|
  {
    if |bytes| < size then []
    else
      DivStep(|bytes| - size, size);
      [bytes[..size]] + Chunks(bytes[size..], size)
  }

  function Flat(hashes: seq<seq<u8>>): seq<u8> {
    if hashes == [] then [] else hashes[0] + Flat(hashes[1..])
  }

  function HashMatches(pathHash: seq<u8>, nodeHash: seq<u8>): bool {
    |pathHash| <= |nodeHash| && nodeHash[..|pathHash|] == pathHash
  }

  datatype Path = Path(hashSize: HashSize, bytes: seq<u8>) {

    function HopCount(): nat {
      |bytes| / hashSize.Size()
    }

    function Hashes(): (r: seq<seq<u8>>)
      ensures |r| == HopCount()
    {
      Chunks(bytes, hashSize.Size())
    }

    function Validate(): Result<(), Error> {
      if |bytes| > MAX_PATH_SIZE then Err(PathTooLong(|bytes|))
      else if |bytes| % hashSize.Size() != 0 then Err(InvalidPathLength)
      else if HopCount() > MAX_HOPS then Err(InvalidPathLength)
      else Ok(())
    }

    predicate Valid() {
      Validate().Ok?
    }

    function FirstHashMatches(nodeHash: seq<u8>): bool {
      Hashes() != [] && HashMatches(Hashes()[0], nodeHash)
    }

    function AppendHash(nodeHash: seq<u8>): Result<Path, Error> {
      var size := hashSize.Size();
      if |nodeHash| < size then Err(InvalidLength)
      else if |bytes| + size > MAX_PATH_SIZE then Err(PathTooLong(|bytes| + size))
      else if HopCount() >= MAX_HOPS then Err(InvalidPathLength)
      else Ok(Path(hashSize, bytes + nodeHash[..size]))
    }

    /** The path without its first hash; unchanged when there is none. */
    function RemoveFirstHash(): Path {
      if |bytes| < hashSize.Size() then this else Path(hashSize, bytes[hashSize.Size()..])
    }

    function Reversed(): Path {
      Path(hashSize, Flat(Reverse(Hashes())))
    }

    function EncodedLengthByte(): (r: Result<u8, Error>) {
      var _ :- Validate();
      Ok(hashSize.Code() * 64 + HopCount())
    }
  }

  const EmptyPath: Path := Path(One, [])

  function DecodeWire(pathLength: u8, input: seq<u8>): Result<(Path, seq<u8>), Error> {
    var hashSize :- HashSizeFromCode(pathLength / 64);
    var len := pathLength % 64 * hashSize.Size();
    if len > MAX_PATH_SIZE then Err(PathTooLong(len))
    else
      var (bytes, rest) :- Cut(input, len);
      var path := Path(hashSize, bytes);
      var _ :- path.Validate();
      Ok((path, rest))
  }

  // ---------- Hash lists and bytes are two views of one path ----------

  predicate Sized(hashes: seq<seq<u8>>, size: nat) {
    forall i :: 0 <= i < |hashes| ==> |hashes[i]| == size
  }

  lemma {:induction false} FlatLength(hashes: seq<seq<u8>>, size: nat)
    requires Sized(hashes, size)
    ensures |Flat(hashes)| == size * |hashes|
  {
    if hashes == [] {
    } else {
      FlatLength(hashes[1..], size);
      assert size * |hashes| == size + size * (|hashes| - 1);
    }
  }

  lemma {:induction false} FlatAppend(a: seq<seq<u8>>, b: seq<seq<u8>>)
    ensures Flat(a + b) == Flat(a) + Flat(b)
  {
    if a == [] {
      assert a + b == b;
    } else {
      assert (a + b)[1..] == a[1..] + b;
      FlatAppend(a[1..], b);
    }
  }

  lemma {:induction false} ChunksOfFlat(hashes: seq<seq<u8>>, size: nat)
    requires 1 <= size <= 3 && Sized(hashes, size)
    ensures Chunks(Flat(hashes), size) == hashes
  {
    if hashes == [] {
    } else {
      ChunksOfFlat(hashes[1..], size);
      assert Flat(hashes)[..size] == hashes[0] && Flat(hashes)[size..] == Flat(hashes[1..]);
    }
  }

  lemma {:induction false} FlatOfChunks(bytes: seq<u8>, size: nat)
    requires 1 <= size <= 3 && |bytes| % size == 0
    ensures Flat(Chunks(bytes, size)) == bytes && Sized(Chunks(bytes, size), size)
    decreases |bytes|
  {
    if |bytes| < size {
      assert |bytes| == 0;
    } else {
      DivStep(|bytes| - size, size);
      FlatOfChunks(bytes[size..], size);
      assert bytes == bytes[..size] + bytes[size..];
    }
  }

  lemma MultipleIsWhole(q: nat, size: nat)
    requires 1 <= size <= 3
    ensures q * size % size == 0 && q * size / size == q
  {
    if size == 1 {} else if size == 2 {} else {}
  }

  /** A valid path and its hash list determine each other. */
  lemma PathOfHashes(size: HashSize, hashes: seq<seq<u8>>)
    requires Sized(hashes, size.Size())
    ensures var path := Path(size, Flat(hashes));
            && path.Hashes() == hashes && path.HopCount() == |hashes| && |path.bytes| % size.Size() == 0
  {
    FlatLength(hashes, size.Size());
    ChunksOfFlat(hashes, size.Size());
    MultipleIsWhole(|hashes|, size.Size());
    assert size.Size() * |hashes| == |hashes| * size.Size();
  }

  lemma {:induction false} ReverseSized(hashes: seq<seq<u8>>, size: nat)
    requires Sized(hashes, size)
    ensures Sized(Reverse(hashes), size)
  {
    if hashes == [] {
    } else {
      ReverseSized(hashes[1..], size);
    }
  }

  /** Appending a hop adds exactly this node's prefix at the end. */
  lemma AppendHashes(path: Path, nodeHash: seq<u8>)
    requires path.Valid() && path.AppendHash(nodeHash).Ok?
    ensures var r := path.AppendHash(nodeHash).value;
            && r.Valid() && r.hashSize == path.hashSize && r.HopCount() == path.HopCount() + 1
            && r.Hashes() == path.Hashes() + [nodeHash[..path.hashSize.Size()]]
  {
    var size := path.hashSize.Size();
    var hashes := path.Hashes() + [nodeHash[..size]];
    FlatOfChunks(path.bytes, size);
    FlatAppend(path.Hashes(), [nodeHash[..size]]);
    assert Flat([nodeHash[..size]]) == nodeHash[..size];
    PathOfHashes(path.hashSize, hashes);
  }

  /** Removing the first hop drops exactly the first hash. */
  lemma RemoveHashes(path: Path)
    requires path.Valid() && path.HopCount() > 0
    ensures var r := path.RemoveFirstHash();
            && r.Valid() && r.hashSize == path.hashSize && r.HopCount() == path.HopCount() - 1
            && r.Hashes() == path.Hashes()[1..]
  {
    var size := path.hashSize.Size();
    FlatOfChunks(path.bytes, size);
    var hashes := path.Hashes();
    assert path.bytes == hashes[0] + Flat(hashes[1..]);
    PathOfHashes(path.hashSize, hashes[1..]);
  }

  /** Reversal reverses whole hashes. */
  lemma ReversedHashes(path: Path)
    requires path.Valid()
    ensures path.Reversed().Valid() && path.Reversed().Hashes() == Reverse(path.Hashes())
    ensures path.Reversed().HopCount() == path.HopCount()
    ensures path.Reversed().Reversed() == path
  {
    var size := path.hashSize.Size();
    FlatOfChunks(path.bytes, size);
    ReverseSized(path.Hashes(), size);
    PathOfHashes(path.hashSize, Reverse(path.Hashes()));
    FlatLength(Reverse(path.Hashes()), size);
    FlatLength(path.Hashes(), size);
    ReverseTwice(path.Hashes());
  }

  /** The wire form of a path is canonical. */
  lemma PathCodec(path: Path, lengthByte: u8, input: seq<u8>, rest: seq<u8>)
    ensures DecodeWire(lengthByte, input) == Ok((path, rest)) <==>
            path.EncodedLengthByte() == Ok(lengthByte) && input == path.bytes + rest
  {
    var size := path.hashSize.Size();
    if path.EncodedLengthByte() == Ok(lengthByte) && input == path.bytes + rest {
      assert lengthByte / 64 == path.hashSize.Code() && lengthByte % 64 == path.HopCount();
      assert |path.bytes| == path.HopCount() * size;
      assert input[..|path.bytes|] == path.bytes && input[|path.bytes|..] == rest;
    }
    if DecodeWire(lengthByte, input) == Ok((path, rest)) {
      MultipleIsWhole(lengthByte % 64, size);
    }
  }

  /** `reversed` as the loop over the hashes, last one first. */
  method ReversePath(path: Path) returns (r: Path)
    ensures r == path.Reversed()
  {
    var hashes := path.Hashes();
    var bytes: seq<u8> := [];
    var i := |hashes|;
    assert hashes[..i] == hashes;
    while i > 0
      invariant 0 <= i <= |hashes|
      invariant Flat(Reverse(hashes)) == bytes + Flat(Reverse(hashes[..i]))
    {
      i := i - 1;
      assert hashes[..i + 1] == hashes[..i] + [hashes[i]];
      ReverseAppend(hashes[..i], hashes[i]);
      assert ([hashes[i]] + Reverse(hashes[..i]))[1..] == Reverse(hashes[..i]);
      bytes := bytes + hashes[i];
    }
    r := Path(path.hashSize, bytes);
  }
}
