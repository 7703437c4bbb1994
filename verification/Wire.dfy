/** The wire readers and writers step by step: a cursor over the input, paths changed in place, and
    buffers filled one field at a time. */
module Wire {
  import opened Bytes
  import opened Wrappers
  import opened Paths
  import opened Payloads

  /** An input and the offset that every reader moves on. */
  class Cursor {
    const input: seq<u8>
    var offset: nat

    ghost predicate Valid()
      reads this
    {
      offset <= |input|
    }

    function Rest(): seq<u8>
      requires offset <= |input|
      reads this
    {
      input[offset..]
    }

    constructor (input: seq<u8>)
      ensures Valid() && this.input == input && Rest() == input
    {
      this.input, offset := input, 0;
    }

    /** The next `n` bytes; too few leave the offset where it is. */
    method ReadBytes(n: nat) returns (r: Result<seq<u8>, Error>)
      requires Valid()
      modifies this
      ensures Valid()
      ensures match Cut(old(Rest()), n)
              case Err(e) => r == Err(e) && offset == old(offset)
              case Ok((bytes, rest)) => r == Ok(bytes) && Rest() == rest
    {
      if offset + n > |input| {
        return Err(Truncated);
      }
      var bytes := input[offset..offset + n];
      offset := offset + n;
      assert bytes == old(Rest())[..n];
      return Ok(bytes);
    }

    method ReadU8() returns (r: Result<u8, Error>)
      requires Valid()
      modifies this
      ensures Valid()
      ensures match Cut(old(Rest()), 1)
              case Err(e) => r == Err(e) && offset == old(offset)
              case Ok((bytes, rest)) => r == Ok(bytes[0]) && Rest() == rest
    {
      var bytes :- ReadBytes(1);
      return Ok(bytes[0]);
    }

    method ReadU16() returns (r: Result<u16, Error>)
      requires Valid()
      modifies this
      ensures Valid()
      ensures match DecodeFeature(true, old(Rest()))
              case Err(e) => r == Err(e) && offset == old(offset)
              case Ok((value, rest)) => r.Ok? && value == Some(r.value) && Rest() == rest
    {
      var bytes :- ReadBytes(2);
      ShortCodec(0, bytes);
      return Ok(FromLe(bytes));
    }

    method ReadU32() returns (r: Result<u32, Error>)
      requires Valid()
      modifies this
      ensures Valid()
      ensures match Cut(old(Rest()), 4)
              case Err(e) => r == Err(e) && offset == old(offset)
              case Ok((bytes, rest)) => r == Ok(FromLe(bytes)) && Rest() == rest
    {
      var bytes :- ReadBytes(4);
      FourBytes(bytes);
      return Ok(FromLe(bytes));
    }

    method ReadI32() returns (r: Result<i32, Error>)
      requires Valid()
      modifies this
      ensures Valid()
      ensures match Cut(old(Rest()), 4)
              case Err(e) => r == Err(e) && offset == old(offset)
              case Ok((bytes, rest)) => r == Ok(FromLe32(bytes)) && Rest() == rest
    {
      var bytes :- ReadBytes(4);
      return Ok(FromLe32(bytes));
    }
  }

  // ---------- Advert application data ----------

  method ReadLocation(cursor: Cursor, present: bool) returns (r: Result<Option<(i32, i32)>, Error>)
    requires cursor.Valid()
    modifies cursor
    ensures cursor.Valid()
    ensures match DecodeLocation(present, old(cursor.Rest()))
            case Err(e) => r == Err(e)
            case Ok((location, rest)) => r == Ok(location) && cursor.Rest() == rest
  {
    if !present {
      return Ok(None);
    }
    var latitude :- cursor.ReadI32();
    var longitude :- cursor.ReadI32();
    return Ok(Some((latitude, longitude)));
  }

  method ReadFeature(cursor: Cursor, present: bool) returns (r: Result<Option<u16>, Error>)
    requires cursor.Valid()
    modifies cursor
    ensures cursor.Valid()
    ensures match DecodeFeature(present, old(cursor.Rest()))
            case Err(e) => r == Err(e)
            case Ok((feature, rest)) => r == Ok(feature) && cursor.Rest() == rest
  {
    if !present {
      return Ok(None);
    }
    var feature :- cursor.ReadU16();
    return Ok(Some(feature));
  }

  method ReadAppData(input: seq<u8>) returns (r: Result<AdvertAppData, Error>)
    ensures r == DecodeAppData(input)
  {
    if |input| > MAX_ADVERT_DATA_SIZE {
      return Err(InvalidLength);
    }
    var cursor := new Cursor(input);
    var flags :- cursor.ReadU8();
    var location :- ReadLocation(cursor, flags / 0x10 % 2 == 1);
    var feature1 :- ReadFeature(cursor, flags / 0x20 % 2 == 1);
    var feature2 :- ReadFeature(cursor, flags / 0x40 % 2 == 1);
    var name: Option<seq<u8>> := None;
    if flags / 0x80 % 2 == 1 {
      if !ValidUtf8(cursor.Rest()) {
        return Err(InvalidUtf8);
      }
      name := Some(cursor.Rest());
    } else if cursor.offset != |input| {
      return Err(InvalidLength);
    }
    return Ok(AdvertAppData(NodeTypeFromNibble(flags), location, feature1, feature2, name));
  }

  /** Gathers the flags, then appends the fields they announce. */
  method WriteAppData(d: AdvertAppData) returns (r: Result<seq<u8>, Error>)
    ensures r == d.Encode()
  {
    var flags: nat := d.nodeType.Nibble();
    if d.location.Some? {
      flags := flags + 0x10;
    }
    if d.feature1.Some? {
      flags := flags + 0x20;
    }
    if d.feature2.Some? {
      flags := flags + 0x40;
    }
    if d.name.Some? {
      flags := flags + 0x80;
    }
    var out: seq<u8> := [flags];
    if d.location.Some? {
      out := out + Le32(d.location.value.0);
      out := out + Le32(d.location.value.1);
    }
    if d.feature1.Some? {
      out := out + ToLe(d.feature1.value, 2);
    }
    if d.feature2.Some? {
      out := out + ToLe(d.feature2.value, 2);
    }
    if d.name.Some? {
      out := out + d.name.value;
    }
    assert out == [d.Flags()] + LocationBytes(d.location) + FeatureBytes(d.feature1) + FeatureBytes(d.feature2)
                  + NameBytes(d.name);
    return if |out| > MAX_ADVERT_DATA_SIZE then Err(InvalidLength) else Ok(out);
  }

  // ---------- Trace payload ----------

  method ReadTrace(input: seq<u8>) returns (r: Result<Payload, Error>)
    ensures r == if |input| > MAX_PACKET_PAYLOAD then Err(PayloadTooLong(|input|)) else DecodeTrace(input)
  {
    hide FromLe;
    if |input| > MAX_PACKET_PAYLOAD {
      return Err(PayloadTooLong(|input|));
    }
    var cursor := new Cursor(input);
    var tag :- cursor.ReadU32();
    var authCode :- cursor.ReadU32();
    var flags :- cursor.ReadU8();
    if flags >= 3 {
      return Err(InvalidTraceFlags(flags));
    }
    var size := if flags == 0 then TraceOne else if flags == 1 then TraceTwo else TraceFour;
    if |cursor.Rest()| % size.Size() != 0 {
      return Err(InvalidLength);
    }
    return Ok(TracePayload(tag, authCode, size, cursor.Rest()));
  }

  // ---------- Paths in place ----------

  class PathBuffer {
    var hashSize: HashSize
    var bytes: seq<u8>

    function View(): Path
      reads this
    {
      Path(hashSize, bytes)
    }

    constructor (path: Path)
      ensures View() == path
    {
      hashSize, bytes := path.hashSize, path.bytes;
    }

    method AppendHash(nodeHash: seq<u8>) returns (r: Result<(), Error>)
      modifies this
      ensures match old(View()).AppendHash(nodeHash)
              case Err(e) => r == Err(e) && View() == old(View())
              case Ok(path) => r == Ok(()) && View() == path
    {
      var size := hashSize.Size();
      if |nodeHash| < size {
        return Err(InvalidLength);
      }
      if |bytes| + size > MAX_PATH_SIZE {
        return Err(PathTooLong(|bytes| + size));
      }
      if |bytes| / size >= MAX_HOPS {
        return Err(InvalidPathLength);
      }
      bytes := bytes + nodeHash[..size];
      return Ok(());
    }

    method RemoveFirstHash() returns (removed: Option<seq<u8>>)
      modifies this
      ensures View() == old(View()).RemoveFirstHash()
      ensures old(View()).HopCount() > 0 ==> removed == Some(old(View()).Hashes()[0])
      ensures old(View()).HopCount() == 0 ==> removed == None
    {
      var size := hashSize.Size();
      if |bytes| < size {
        return None;
      }
      DivStep(|bytes| - size, size);
      removed := Some(bytes[..size]);
      bytes := bytes[size..];
    }
  }

  /** Packs a list of hashes into a path, refusing what does not fit or is not of the size. */
  method PathFromHashes(hashSize: HashSize, hashes: seq<seq<u8>>) returns (r: Result<Path, Error>)
    ensures r.Ok? <==> |hashes| <= MAX_HOPS && hashSize.Size() * |hashes| <= MAX_PATH_SIZE
                       && Sized(hashes, hashSize.Size())
    ensures r.Ok? ==> r.value.Valid() && r.value.hashSize == hashSize && r.value.Hashes() == hashes
    ensures r.Err? ==> r.error == (if |hashes| > MAX_HOPS then InvalidPathLength
                                   else if hashSize.Size() * |hashes| > MAX_PATH_SIZE then
                                     PathTooLong(hashSize.Size() * |hashes|)
                                   else InvalidLength)
  {
    var size := hashSize.Size();
    if |hashes| > MAX_HOPS {
      return Err(InvalidPathLength);
    }
    if size * |hashes| > MAX_PATH_SIZE {
      return Err(PathTooLong(size * |hashes|));
    }
    var bytes: seq<u8> := [];
    for i := 0 to |hashes|
      invariant Sized(hashes[..i], size) && bytes == Flat(hashes[..i])
    {
      if |hashes[i]| != size {
        return Err(InvalidLength);
      }
      assert hashes[..i + 1] == hashes[..i] + [hashes[i]];
      FlatAppend(hashes[..i], [hashes[i]]);
      bytes := bytes + hashes[i];
    }
    assert hashes[..|hashes|] == hashes;
    PathOfHashes(hashSize, hashes);
    FlatLength(hashes, size);
    return Ok(Path(hashSize, bytes));
  }
}
