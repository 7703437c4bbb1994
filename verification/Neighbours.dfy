/** The table of repeaters heard directly, how it is sorted for a listing, and how a listing is paged. */
module Neighbours {
  import opened Bytes
  import opened Keys
  import opened Wrappers

  const MAX_RESULTS_BYTES: nat := 130
  const HASH_LEN: nat := 4

  datatype Neighbour = Neighbour(key: PublicKey, lastSeen: u64, rssi: i16, snr: i16, packets: u32)

  predicate IsSelf(key: PublicKey, hash: seq<u8>) {
    |hash| >= HASH_LEN && hash[..HASH_LEN] == key[..HASH_LEN]
  }

  // ---------- Observing ----------

  function Find(entries: seq<Neighbour>, key: PublicKey): (i: nat)
    ensures i <= |entries| && (i < |entries| ==> entries[i].key == key)
    ensures forall k :: 0 <= k < i ==> entries[k].key != key
  {
    if entries == [] || entries[0].key == key then 0 else 1 + Find(entries[1..], key)
  }

  /** The first of the neighbours not heard for longest. */
  function Oldest(entries: seq<Neighbour>): (i: nat)
    requires entries != []
    ensures i < |entries|
    ensures forall k :: 0 <= k < |entries| ==> entries[i].lastSeen <= entries[k].lastSeen
    ensures forall k :: 0 <= k < i ==> entries[i].lastSeen < entries[k].lastSeen
  {
    var n := |entries| - 1;
    if n == 0 then 0
    else
      var before := Oldest(entries[..n]);
      if entries[n].lastSeen < entries[before].lastSeen then n else before
  }

  function HeardAgain(n: Neighbour, rssi: i16, snr: i16, now: u64): Neighbour {
    Neighbour(n.key, now, rssi, snr, if n.packets == U32_MAX then U32_MAX else n.packets + 1)
  }

  function Observed(entries: seq<Neighbour>, capacity: nat, key: PublicKey, rssi: i16, snr: i16, now: u64,
      own: seq<u8>): seq<Neighbour> {
    if IsSelf(key, own) then entries
    else
      var i := Find(entries, key);
      var newcomer := Neighbour(key, now, rssi, snr, 1);
      if i < |entries| then entries[i := HeardAgain(entries[i], rssi, snr, now)]
      else if capacity == 0 then entries
      else if |entries| < capacity then entries + [newcomer]
      else entries[Oldest(entries) := newcomer]
  }

  predicate UniqueKeys(entries: seq<Neighbour>) {
    forall i, j :: 0 <= i < j < |entries| ==> entries[i].key != entries[j].key
  }

  datatype Observation = Observation(key: PublicKey, rssi: i16, snr: i16, now: u64)

  function ObservedAll(capacity: nat, own: seq<u8>, os: seq<Observation>): seq<Neighbour> {
    if os == [] then []
    else
      var o := os[|os| - 1];
      Observed(ObservedAll(capacity, own, os[..|os| - 1]), capacity, o.key, o.rssi, o.snr, o.now, own)
  }

  /** Under every sequence of observations keys stay unique and within capacity, and the node never
      lists itself. */
  lemma {:induction false} TableStaysSound(capacity: nat, own: seq<u8>, os: seq<Observation>)
    ensures var entries := ObservedAll(capacity, own, os);
            && UniqueKeys(entries) && |entries| <= capacity
            && forall i :: 0 <= i < |entries| ==> !(|own| >= 4 && own[..4] == entries[i].key[..4])
  {
    if os == [] {
    } else {
      TableStaysSound(capacity, own, os[..|os| - 1]);
      var o, before := os[|os| - 1], ObservedAll(capacity, own, os[..|os| - 1]);
      ObservedSound(before, capacity, o, own);
    }
  }

  predicate Sound(entries: seq<Neighbour>, capacity: nat, own: seq<u8>) {
    UniqueKeys(entries) && |entries| <= capacity && forall i :: 0 <= i < |entries| ==> !IsSelf(entries[i].key, own)
  }

  lemma ReplacedSound(entries: seq<Neighbour>, capacity: nat, own: seq<u8>, at: nat, n: Neighbour)
    requires Sound(entries, capacity, own) && at < |entries| && !IsSelf(n.key, own)
    requires forall i :: 0 <= i < |entries| && i != at ==> entries[i].key != n.key
    ensures Sound(entries[at := n], capacity, own)
  {
    hide IsSelf;
  }

  lemma AppendedSound(entries: seq<Neighbour>, capacity: nat, own: seq<u8>, n: Neighbour)
    requires Sound(entries, capacity, own) && |entries| < capacity && !IsSelf(n.key, own)
    requires forall i :: 0 <= i < |entries| ==> entries[i].key != n.key
    ensures Sound(entries + [n], capacity, own)
  {
    hide IsSelf;
  }

  lemma ObservedSound(entries: seq<Neighbour>, capacity: nat, o: Observation, own: seq<u8>)
    requires Sound(entries, capacity, own)
    ensures Sound(Observed(entries, capacity, o.key, o.rssi, o.snr, o.now, own), capacity, own)
  {
    hide IsSelf, Find, Oldest;
    var i, newcomer := Find(entries, o.key), Neighbour(o.key, o.now, o.rssi, o.snr, 1);
    if !IsSelf(o.key, own) {
      if i < |entries| {
        ReplacedSound(entries, capacity, own, i, HeardAgain(entries[i], o.rssi, o.snr, o.now));
      } else if |entries| < capacity {
        AppendedSound(entries, capacity, own, newcomer);
      } else if capacity > 0 {
        ReplacedSound(entries, capacity, own, Oldest(entries), newcomer);
      }
    }
  }

  /** What an observation does: the neighbour is listed with these readings and one packet more, and no
      one else changes except, for a new neighbour in a full table, the one not heard for longest. */
  lemma ObservedEffect(entries: seq<Neighbour>, capacity: nat, o: Observation, own: seq<u8>)
    requires UniqueKeys(entries) && |entries| <= capacity && capacity > 0
    requires !(|own| >= 4 && own[..4] == o.key[..4])
    ensures var r := Observed(entries, capacity, o.key, o.rssi, o.snr, o.now, own);
            var i := Find(r, o.key);
            && i < |r| && r[i].lastSeen == o.now && r[i].rssi == o.rssi && r[i].snr == o.snr
            && (var was := Find(entries, o.key);
                r[i].packets == if was < |entries| then Min(entries[was].packets + 1, U32_MAX) else 1)
            && forall k :: 0 <= k < |entries| && entries[k].key != o.key ==>
                 r[k] == entries[k] ||
                 (&& r[k].key == o.key && |entries| == capacity
                  && forall j :: 0 <= j < |entries| ==>
                      entries[k].lastSeen <= entries[j].lastSeen && entries[j].key != o.key)
  {
    var r := Observed(entries, capacity, o.key, o.rssi, o.snr, o.now, own);
    var i := Find(entries, o.key);
    var at := if i < |entries| then i else if |entries| < capacity then |entries| else Oldest(entries);
    assert r[at].key == o.key;
    assert forall k :: 0 <= k < |r| && k != at ==> r[k].key != o.key;
    assert Find(r, o.key) == at;
  }

  /** A packet of the node's own, by the first four bytes of its key, is no observation. */
  lemma OwnUnobserved(entries: seq<Neighbour>, capacity: nat, o: Observation, own: seq<u8>)
    requires |own| >= 4 && own[..4] == o.key[..4]
    ensures Observed(entries, capacity, o.key, o.rssi, o.snr, o.now, own) == entries
  {
  }

  class NeighbourTable {
    var entries: seq<Neighbour>
    const capacity: nat

    constructor (capacity: nat)
      ensures entries == [] && this.capacity == capacity
    {
      entries, this.capacity := [], capacity;
    }

    method FindIndex(key: PublicKey) returns (i: nat)
      ensures i == Find(entries, key)
    {
      i := 0;
      while i < |entries| && entries[i].key != key
        invariant i <= |entries| && Find(entries, key) == i + Find(entries[i..], key)
      {
        i := i + 1;
      }
    }

    method OldestIndex() returns (i: nat)
      requires entries != []
      ensures i == Oldest(entries)
    {
      i := 0;
      var oldestSeen := U64_MAX;
      for k := 0 to |entries|
        invariant k > 0 ==> i == Oldest(entries[..k]) && oldestSeen == entries[i].lastSeen
        invariant k == 0 ==> i == 0 && oldestSeen == U64_MAX
      {
        assert entries[..k + 1][..k] == entries[..k];
        if entries[k].lastSeen < oldestSeen {
          i := k;
          oldestSeen := entries[k].lastSeen;
        }
      }
      assert entries[..|entries|] == entries;
    }

    method ObservePublicKey(key: PublicKey, rssi: i16, snr: i16, now: u64, own: seq<u8>)
      modifies this
      ensures entries == Observed(old(entries), capacity, key, rssi, snr, now, own)
    {
      if IsSelf(key, own) {
        return;
      }
      var i := FindIndex(key);
      if i < |entries| {
        entries := entries[i := HeardAgain(entries[i], rssi, snr, now)];
      } else if capacity == 0 {
        return;
      } else {
        var neighbour := Neighbour(key, now, rssi, snr, 1);
        if |entries| < capacity {
          entries := entries + [neighbour];
        } else {
          var oldest := OldestIndex();
          entries := entries[oldest := neighbour];
        }
      }
    }

    /** Answers a listing request with one page, behind what is already in `out`. */
    method EncodeBinaryResponse(request: seq<u8>, now: u64, out: seq<u8>) returns (ok: bool, response: seq<u8>)
      ensures ok <==> |request| >= 7 && request[0] == 6 && request[1] == 0
      ensures response == if ok then out + Response(entries, RequestOf(request), now) else out
    {
      hide EntryBytes, SortedBy, PageLength, FromLe, ToLe;
      if |request| < 7 || request[0] != 6 || request[1] != 0 {
        return false, out;
      }
      var count, offset, orderBy := request[2], FromLe(request[3..5]), request[5];
      var prefixLen := Min(request[6], PUB_KEY_SIZE);
      var neighbours := new Neighbour[|entries|](i requires 0 <= i < |entries| reads this => entries[i]);
      assert neighbours[..] == entries;
      SortNeighbours(neighbours, orderBy);
      ghost var listing := SortedBy(entries, orderBy);

      var start, total := |out|, Min(neighbours.Length, 0xFFFF);
      response := out + ToLe(total, 2) + ToLe(0, 2);
      var resultsCount;
      resultsCount, response := EncodeEntries(neighbours, offset, count, prefixLen, now, response);
      PatchCount(out, ToLe(total, 2), ToLe(0, 2), ToLe(resultsCount, 2),
                 EntryBytes(Slice(listing, offset, resultsCount), prefixLen, now));
      response := response[..start + 2] + ToLe(resultsCount, 2) + response[start + 4..];
      PageIs(entries, RequestOf(request));
      ok := true;
    }
  }

  lemma PatchCount(out: seq<u8>, total: seq<u8>, zero: seq<u8>, count: seq<u8>, body: seq<u8>)
    requires |total| == |zero| == |count| == 2
    ensures var r := out + total + zero + body;
            r[..|out| + 2] + count + r[|out| + 4..] == out + (total + count + body)
  {
  }

  /** Appends entries until the count, the listing or the room in the response runs out. */
  method EncodeEntries(neighbours: array<Neighbour>, offset: nat, count: nat, prefixLen: nat, now: u64, out: seq<u8>)
    returns (resultsCount: nat, response: seq<u8>)
    requires prefixLen <= PUB_KEY_SIZE
    ensures resultsCount == PageLength(neighbours.Length, offset, count, prefixLen + 5)
    ensures response == out + EntryBytes(Slice(neighbours[..], offset, resultsCount), prefixLen, now)
  {
    hide EntryBytes, EncodeEntry, Slice, PageLength;
    var entryLen, resultsBytes, i := prefixLen + 5, 0, offset;
    resultsCount, response := 0, out;
    EmptyPage(neighbours[..], offset, prefixLen, now);
    assert out + [] == out;
    while i < neighbours.Length && resultsCount < count && resultsBytes + entryLen <= MAX_RESULTS_BYTES
      invariant resultsCount <= count && resultsBytes == resultsCount * entryLen <= MAX_RESULTS_BYTES
      invariant i == offset + resultsCount && (i <= neighbours.Length || resultsCount == 0)
      invariant response == out + EntryBytes(Slice(neighbours[..], offset, resultsCount), prefixLen, now)
    {
      ExtendPage(neighbours[..], offset, resultsCount, prefixLen, now);
      OneMore(resultsCount, entryLen);
      response := response + EncodeEntry(neighbours[i], prefixLen, now);
      resultsCount := resultsCount + 1;
      resultsBytes := resultsBytes + entryLen;
      i := i + 1;
    }
    PageLengthIs(neighbours.Length, offset, count, entryLen, resultsCount);
  }

  lemma EmptyPage(listing: seq<Neighbour>, offset: nat, prefixLen: nat, now: u64)
    requires prefixLen <= PUB_KEY_SIZE
    ensures EntryBytes(Slice(listing, offset, 0), prefixLen, now) == []
  {
  }

  lemma OneMore(n: nat, m: nat)
    ensures (n + 1) * m == n * m + m
  {
  }

  // ---------- Sorting ----------

  function Rank(n: Neighbour, orderBy: u8): int {
    var (seen: int, snr: int) := (n.lastSeen, n.snr);
    match orderBy
    case 1 => seen
    case 2 => -snr
    case 3 => snr
    case _ => -seen
  }

  predicate Precedes(left: Neighbour, right: Neighbour, orderBy: u8) {
    match orderBy
    case 1 => left.lastSeen < right.lastSeen
    case 2 => left.snr > right.snr
    case 3 => left.snr < right.snr
    case _ => left.lastSeen > right.lastSeen
  }

  /** The first of the entries from `i` on that nothing from `i` to `n` precedes. */
  function Selected(s: seq<Neighbour>, orderBy: u8, i: nat, n: nat): (k: nat)
    requires i < n <= |s|
    ensures i <= k < n
    ensures forall j :: i <= j < n ==> Rank(s[k], orderBy) <= Rank(s[j], orderBy)
  {
    if n == i + 1 then i
    else
      var k := Selected(s, orderBy, i, n - 1);
      if Precedes(s[n - 1], s[k], orderBy) then n - 1 else k
  }

  /** Selection sort of everything from `i` on. */
  function SortedFrom(s: seq<Neighbour>, orderBy: u8, i: nat): (r: seq<Neighbour>)
    requires i <= |s|
    ensures |r| == |s|
    decreases |s| - i
  {
    if i == |s| then s
    else
      var k := Selected(s, orderBy, i, |s|);
      SortedFrom(s[i := s[k]][k := s[i]], orderBy, i + 1)
  }

  function SortedBy(s: seq<Neighbour>, orderBy: u8): (r: seq<Neighbour>)
    ensures |r| == |s|
  {
    SortedFrom(s, orderBy, 0)
  }

  ghost predicate InOrder(s: seq<Neighbour>, orderBy: u8, n: nat)
    requires n <= |s|
  {
    forall j, k :: 0 <= j < n && j < k < |s| ==> Rank(s[j], orderBy) <= Rank(s[k], orderBy)
  }

  /** The listing is the table, each entry as often as it occurs there, in the chosen order. */
  lemma {:induction false} SortIsSort(s: seq<Neighbour>, orderBy: u8, i: nat)
    requires i <= |s| && InOrder(s, orderBy, i)
    ensures InOrder(SortedFrom(s, orderBy, i), orderBy, |s|)
    ensures multiset(SortedFrom(s, orderBy, i)) == multiset(s)
    decreases |s| - i
  {
    hide Rank, Selected;
    if i == |s| {
    } else {
      var k := Selected(s, orderBy, i, |s|);
      var t := s[i := s[k]][k := s[i]];
      SwapKeeps(s, i, k);
      SelectedNext(s, orderBy, i, k);
      SortIsSort(t, orderBy, i + 1);
    }
  }

  lemma SelectedNext(s: seq<Neighbour>, orderBy: u8, i: nat, k: nat)
    requires i <= k < |s| && InOrder(s, orderBy, i)
    requires forall j :: i <= j < |s| ==> Rank(s[k], orderBy) <= Rank(s[j], orderBy)
    ensures InOrder(s[i := s[k]][k := s[i]], orderBy, i + 1)
  {
    hide Rank;
    var t := s[i := s[k]][k := s[i]];
    forall a, b | 0 <= a < i + 1 && a < b < |s|
      ensures Rank(t[a], orderBy) <= Rank(t[b], orderBy)
    {
      var c := if b == i then k else if b == k then i else b;
      assert t[b] == s[c] && t[a] == if a == i then s[k] else s[a];
    }
  }

  lemma SwapKeeps(s: seq<Neighbour>, i: nat, k: nat)
    requires i <= k < |s|
    ensures multiset(s[i := s[k]][k := s[i]]) == multiset(s)
  {
  }

  method SelectFrom(a: array<Neighbour>, orderBy: u8, i: nat) returns (selected: nat)
    requires i < a.Length
    ensures selected == Selected(a[..], orderBy, i, a.Length)
  {
    hide Precedes, Rank;
    selected := i;
    for j := i + 1 to a.Length
      invariant selected == Selected(a[..], orderBy, i, j)
    {
      if Precedes(a[j], a[selected], orderBy) {
        selected := j;
      }
    }
  }

  method SortNeighbours(a: array<Neighbour>, orderBy: u8)
    modifies a
    ensures a[..] == SortedBy(old(a[..]), orderBy)
  {
    hide Selected;
    for i := 0 to a.Length
      invariant SortedFrom(a[..], orderBy, i) == SortedBy(old(a[..]), orderBy)
    {
      var selected := SelectFrom(a, orderBy, i);
      ghost var s := a[..];
      a[i], a[selected] := a[selected], a[i];
      assert a[..] == s[i := s[selected]][selected := s[i]];
    }
  }

  // ---------- Paging ----------

  datatype Request = Request(count: nat, offset: nat, orderBy: u8, prefixLen: nat)

  function RequestOf(request: seq<u8>): (r: Request)
    requires |request| >= 7
    ensures r.prefixLen <= PUB_KEY_SIZE
  {
    Request(request[2], FromLe(request[3..5]), request[5], Min(request[6], PUB_KEY_SIZE))
  }

  function PageLength(total: nat, offset: nat, count: nat, entryLen: nat): (n: nat)
    requires entryLen > 0
  {
    Min(Min(count, MAX_RESULTS_BYTES / entryLen), if offset < total then total - offset else 0)
  }

  /** Stopping at the first of the three limits is taking the least of them. */
  lemma PageLengthIs(total: nat, offset: nat, count: nat, entryLen: nat, n: nat)
    requires entryLen > 0 && n <= count && n * entryLen <= MAX_RESULTS_BYTES
    requires offset + n <= total || n == 0
    requires offset + n >= total || n >= count || n * entryLen + entryLen > MAX_RESULTS_BYTES
    ensures n == PageLength(total, offset, count, entryLen)
  {
    Quotient(n, entryLen);
  }

  lemma Quotient(n: nat, entryLen: nat)
    requires entryLen > 0 && n * entryLen <= MAX_RESULTS_BYTES
    ensures n <= MAX_RESULTS_BYTES / entryLen
    ensures n * entryLen + entryLen > MAX_RESULTS_BYTES ==> n == MAX_RESULTS_BYTES / entryLen
  {
    var most := MAX_RESULTS_BYTES / entryLen;
    assert most * entryLen <= MAX_RESULTS_BYTES < (most + 1) * entryLen;
    if n > most {
      Grows(most + 1, n, entryLen);
    } else if n < most {
      Grows(n + 1, most, entryLen);
    }
  }

  lemma Grows(a: nat, b: nat, m: nat)
    requires a <= b
    ensures a * m <= b * m
  {
  }

  function Slice(listing: seq<Neighbour>, offset: nat, n: nat): seq<Neighbour> {
    if offset + n <= |listing| then listing[offset..offset + n] else []
  }

  function EncodeEntry(n: Neighbour, prefixLen: nat, now: u64): (b: seq<u8>)
    requires prefixLen <= PUB_KEY_SIZE
    ensures |b| == prefixLen + 5
  {
    var seconds := Min(SatSub(now, n.lastSeen) / 1000, U32_MAX);
    n.key[..prefixLen] + ToLe(seconds, 4) + [ByteOfSnr(n.snr)]
  }

  /** Clamped to a signed byte, in two's complement. */
  function ByteOfSnr(snr: i16): u8 {
    if snr < -0x80 then 0x80 else if snr > 0x7F then 0x7F else if snr < 0 then snr + 0x100 else snr
  }

  function EntryBytes(page: seq<Neighbour>, prefixLen: nat, now: u64): (b: seq<u8>)
    requires prefixLen <= PUB_KEY_SIZE
  {
    if page == [] then []
    else EntryBytes(page[..|page| - 1], prefixLen, now) + EncodeEntry(page[|page| - 1], prefixLen, now)
  }

  lemma ExtendPage(listing: seq<Neighbour>, offset: nat, n: nat, prefixLen: nat, now: u64)
    requires offset + n < |listing| && prefixLen <= PUB_KEY_SIZE
    ensures EntryBytes(Slice(listing, offset, n + 1), prefixLen, now)
            == EntryBytes(Slice(listing, offset, n), prefixLen, now) + EncodeEntry(listing[offset + n], prefixLen, now)
  {
    var page := Slice(listing, offset, n + 1);
    assert page[..|page| - 1] == Slice(listing, offset, n);
  }

  /** The entries a request is answered with. */
  function Page(entries: seq<Neighbour>, r: Request): (page: seq<Neighbour>) {
    Slice(SortedBy(entries, r.orderBy), r.offset, PageLength(|entries|, r.offset, r.count, r.prefixLen + 5))
  }

  function Response(entries: seq<Neighbour>, r: Request, now: u64): seq<u8>
    requires r.prefixLen <= PUB_KEY_SIZE
  {
    ToLe(Min(|entries|, 0xFFFF), 2) + ToLe(|Page(entries, r)|, 2) + EntryBytes(Page(entries, r), r.prefixLen, now)
  }

  lemma PageIs(entries: seq<Neighbour>, r: Request)
    ensures |Page(entries, r)| == PageLength(|entries|, r.offset, r.count, r.prefixLen + 5)
    ensures r.offset <= |entries| ==>
              Page(entries, r) == SortedBy(entries, r.orderBy)[r.offset..r.offset + |Page(entries, r)|]
  {
    hide SortedFrom;
  }

  /** A page never takes more than 130 bytes, and is never empty while entries remain. */
  lemma PageBounds(entries: seq<Neighbour>, r: Request, now: u64)
    requires r.prefixLen <= PUB_KEY_SIZE && r.count >= 1
    ensures |EntryBytes(Page(entries, r), r.prefixLen, now)| == |Page(entries, r)| * (r.prefixLen + 5)
            <= MAX_RESULTS_BYTES
    ensures r.offset < |entries| ==> |Page(entries, r)| >= 1
  {
    hide Page;
    PageIs(entries, r);
    EntryBytesLength(Page(entries, r), r.prefixLen, now);
    Room(r.prefixLen + 5);
    Grows(|Page(entries, r)|, MAX_RESULTS_BYTES / (r.prefixLen + 5), r.prefixLen + 5);
  }

  lemma Room(entryLen: nat)
    requires 5 <= entryLen <= 37
    ensures 1 <= MAX_RESULTS_BYTES / entryLen <= MAX_RESULTS_BYTES
    ensures MAX_RESULTS_BYTES / entryLen * entryLen <= MAX_RESULTS_BYTES
  {
  }

  lemma {:induction false} EntryBytesLength(page: seq<Neighbour>, prefixLen: nat, now: u64)
    requires prefixLen <= PUB_KEY_SIZE
    ensures |EntryBytes(page, prefixLen, now)| == |page| * (prefixLen + 5)
  {
    if page == [] {
    } else {
      EntryBytesLength(page[..|page| - 1], prefixLen, now);
      assert |page| * (prefixLen + 5) == (|page| - 1) * (prefixLen + 5) + (prefixLen + 5);
    }
  }

  /** The client asks from `offset` on, advancing by what it got, as long as the offset fits its two
      bytes and the page was not empty. */
  function Listed(entries: seq<Neighbour>, r: Request): (all: seq<Neighbour>)
    decreases 0x1_0000 - r.offset
  {
    if r.offset > 0xFFFF then []
    else
      var page := Page(entries, r);
      if page == [] then [] else page + Listed(entries, r.(offset := r.offset + |page|))
  }

  /** Where the last askable page ends when every page is full. */
  function Reach(offset: nat, step: nat): (reach: nat)
    requires step > 0
    ensures offset <= reach && 0xFFFF < reach && (offset <= 0xFFFF ==> reach <= 0xFFFF + step)
    decreases 0x1_0000 - offset
  {
    if offset > 0xFFFF then offset else Reach(offset + step, step)
  }

  function Step(r: Request): (n: nat)
    requires r.prefixLen <= PUB_KEY_SIZE && r.count >= 1
    ensures 1 <= n <= MAX_RESULTS_BYTES
  {
    Room(r.prefixLen + 5);
    Min(r.count, MAX_RESULTS_BYTES / (r.prefixLen + 5))
  }

  /** A page that is not full ends the listing. */
  lemma ReachStep(total: nat, offset: nat, step: nat, n: nat)
    requires step > 0 && offset <= 0xFFFF && offset < total && n == Min(step, total - offset)
    ensures Min(total, Reach(offset + n, step)) == Min(total, Reach(offset, step))
  {
  }

  lemma {:induction false} ListedIs(entries: seq<Neighbour>, r: Request, step: nat)
    requires r.prefixLen <= PUB_KEY_SIZE && r.count >= 1 && r.offset <= |entries| && step == Step(r)
    ensures Listed(entries, r) == SortedBy(entries, r.orderBy)[r.offset..Min(|entries|, Reach(r.offset, step))]
    decreases 0x1_0000 - r.offset
  {
    hide Page, SortedBy, Reach;
    PageIs(entries, r);
    if r.offset <= 0xFFFF && r.offset < |entries| {
      var listing, page := SortedBy(entries, r.orderBy), Page(entries, r);
      var next := r.(offset := r.offset + |page|);
      ListedIs(entries, next, step);
      ReachStep(|entries|, r.offset, step, |page|);
      var end := Min(|entries|, Reach(r.offset, step));
      assert listing[r.offset..next.offset] + listing[next.offset..end] == listing[r.offset..end];
    } else {
      ReachBeyond(r.offset, step);
    }
  }

  lemma ReachBeyond(offset: nat, step: nat)
    requires step > 0
    ensures offset > 0xFFFF ==> Reach(offset, step) == offset
  {
  }

  /** Paging through an unchanged table ends and lists every neighbour exactly once, in the chosen order,
      if and only if the table is no longer than two-byte offsets reach; a table of up to 65535 always is,
      and otherwise exactly the tail beyond that reach is missing. */
  lemma ListingIsComplete(entries: seq<Neighbour>, r: Request)
    requires r.prefixLen <= PUB_KEY_SIZE && r.count >= 1 && r.offset == 0
    ensures Listed(entries, r) <= SortedBy(entries, r.orderBy)
    ensures Listed(entries, r) == SortedBy(entries, r.orderBy) <==> |entries| <= Reach(0, Step(r))
    ensures |entries| <= 0xFFFF ==> |entries| <= Reach(0, Step(r))
    ensures |entries| <= Reach(0, Step(r)) ==> multiset(Listed(entries, r)) == multiset(entries)
    ensures forall j, k :: 0 <= j < k < |Listed(entries, r)| ==>
              Rank(Listed(entries, r)[j], r.orderBy) <= Rank(Listed(entries, r)[k], r.orderBy)
  {
    ListedIs(entries, r, Step(r));
    SortIsSort(entries, r.orderBy, 0);
  }

  // ---------- A table beyond the reach ----------

  /** `n` neighbours with different keys. */
  function Crowd(n: nat): (entries: seq<Neighbour>)
    requires n <= 0x2_0000
    ensures |entries| == n
  {
    if n == 0 then [] else Crowd(n - 1) + [Neighbour(ToLe(n - 1, PUB_KEY_SIZE), 0, 0, 0, 1)]
  }

  lemma {:induction false} CrowdAt(n: nat, i: nat)
    requires i < n <= 0x2_0000
    ensures Crowd(n)[i].key == ToLe(i, PUB_KEY_SIZE)
  {
    if i == n - 1 {
    } else {
      CrowdAt(n - 1, i);
    }
  }

  lemma SmallFits(i: nat)
    requires i < 0x2_0000
    ensures FromLe(ToLe(i, PUB_KEY_SIZE)) == i
  {
    assert Pow256(3) == 0x100_0000;
    PowGrows(3, PUB_KEY_SIZE);
    FromToLe(i, PUB_KEY_SIZE);
  }

  lemma {:induction false} PowGrows(a: nat, b: nat)
    requires a <= b
    ensures Pow256(a) <= Pow256(b)
  {
    if a == b {
    } else {
      PowGrows(a, b - 1);
    }
  }

  /** For every way of paging there is a table one longer than its reach, with unique keys, whose last
      neighbour that paging never lists. */
  lemma LongTableIsCutShort(r: Request) returns (entries: seq<Neighbour>)
    requires r.prefixLen <= PUB_KEY_SIZE && r.count >= 1 && r.offset == 0
    ensures UniqueKeys(entries) && |entries| == Reach(0, Step(r)) + 1
    ensures Listed(entries, r) == SortedBy(entries, r.orderBy)[..|entries| - 1]
    ensures Listed(entries, r) != SortedBy(entries, r.orderBy)
  {
    hide SortedBy, Listed, Crowd, Reach;
    Room(r.prefixLen + 5);
    var n := Reach(0, Step(r)) + 1;
    entries := Crowd(n);
    forall i, j | 0 <= i < j < n
      ensures entries[i].key != entries[j].key
    {
      CrowdAt(n, i);
      CrowdAt(n, j);
      SmallFits(i);
      SmallFits(j);
    }
    ListedIs(entries, r, Step(r));
    ListingIsComplete(entries, r);
  }

  // ---------- What the client reads ----------

  /** One line of a listing: how the client sees a neighbour. */
  datatype Line = Line(prefix: seq<u8>, secondsAgo: u32, snr: i8)

  function Shown(n: Neighbour, prefixLen: nat, now: u64): Line
    requires prefixLen <= PUB_KEY_SIZE
  {
    Line(n.key[..prefixLen], Min(SatSub(now, n.lastSeen) / 1000, U32_MAX),
         if n.snr < -0x80 then -0x80 else if n.snr > 0x7F then 0x7F else n.snr)
  }

  function ShownAll(page: seq<Neighbour>, prefixLen: nat, now: u64): (lines: seq<Line>)
    requires prefixLen <= PUB_KEY_SIZE
    ensures |lines| == |page|
  {
    if page == [] then []
    else ShownAll(page[..|page| - 1], prefixLen, now) + [Shown(page[|page| - 1], prefixLen, now)]
  }

  function ReadLine(b: seq<u8>, prefixLen: nat): Line
    requires |b| == prefixLen + 5
  {
    FourByteWord(b[prefixLen..prefixLen + 4]);
    var last: int := b[prefixLen + 4];
    Line(b[..prefixLen], FromLe(b[prefixLen..prefixLen + 4]), if last >= 0x80 then last - 0x100 else last)
  }

  lemma FourByteWord(b: seq<u8>)
    requires |b| == 4
    ensures FromLe(b) <= U32_MAX
  {
    ToFromLe(b);
    assert Pow256(4) == 0x1_0000_0000;
  }

  function ReadLines(b: seq<u8>, prefixLen: nat, count: nat): Option<seq<Line>> {
    if count == 0 then (if b == [] then Some([]) else None)
    else if |b| < prefixLen + 5 then None
    else
      var at := |b| - (prefixLen + 5);
      match ReadLines(b[..at], prefixLen, count - 1)
      case None => None
      case Some(lines) => Some(lines + [ReadLine(b[at..], prefixLen)])
  }

  lemma LineReadsBack(n: Neighbour, prefixLen: nat, now: u64)
    requires prefixLen <= PUB_KEY_SIZE
    ensures ReadLine(EncodeEntry(n, prefixLen, now), prefixLen) == Shown(n, prefixLen, now)
  {
    var prefix, seconds := n.key[..prefixLen], Min(SatSub(now, n.lastSeen) / 1000, U32_MAX);
    var b := prefix + ToLe(seconds, 4) + [ByteOfSnr(n.snr)];
    assert Pow256(4) == 0x1_0000_0000;
    FromToLe(seconds, 4);
    assert b[..prefixLen] == prefix && b[prefixLen..prefixLen + 4] == ToLe(seconds, 4);
  }

  lemma {:induction false} PageReadsBack(page: seq<Neighbour>, prefixLen: nat, now: u64)
    requires prefixLen <= PUB_KEY_SIZE
    ensures ReadLines(EntryBytes(page, prefixLen, now), prefixLen, |page|) == Some(ShownAll(page, prefixLen, now))
  {
    if page == [] {
    } else {
      var front, last := page[..|page| - 1], page[|page| - 1];
      PageReadsBack(front, prefixLen, now);
      LineReadsBack(last, prefixLen, now);
      var b, at := EntryBytes(page, prefixLen, now), |EntryBytes(front, prefixLen, now)|;
      assert b[..at] == EntryBytes(front, prefixLen, now) && b[at..] == EncodeEntry(last, prefixLen, now);
    }
  }

  /** The client reads back the length of the table as far as two bytes tell it, how many lines follow,
      and exactly the lines of the page. */
  lemma ResponseReadsBack(entries: seq<Neighbour>, r: Request, now: u64)
    requires r.prefixLen <= PUB_KEY_SIZE && r.count >= 1
    ensures var b, page := Response(entries, r, now), Page(entries, r);
            && FromLe(b[..2]) == Min(|entries|, 0xFFFF) && FromLe(b[2..4]) == |page|
            && ReadLines(b[4..], r.prefixLen, |page|) == Some(ShownAll(page, r.prefixLen, now))
  {
    hide Page, ReadLines, EntryBytes;
    var page := Page(entries, r);
    var total, count, body := ToLe(Min(|entries|, 0xFFFF), 2), ToLe(|page|, 2), EntryBytes(page, r.prefixLen, now);
    PageBounds(entries, r, now);
    PageReadsBack(page, r.prefixLen, now);
    assert Pow256(2) == 0x1_0000;
    FromToLe(Min(|entries|, 0xFFFF), 2);
    PageIsShort(|page|, r.prefixLen + 5);
    FromToLe(|page|, 2);
    var b := total + count + body;
    assert b[..2] == total && b[2..4] == count && b[4..] == body;
  }

  lemma PageIsShort(n: nat, entryLen: nat)
    requires entryLen >= 5 && n * entryLen <= MAX_RESULTS_BYTES
    ensures n < 0x1_0000
  {
    if n >= 0x1_0000 {
      Grows(0x1_0000, n, entryLen);
    }
  }

  // ---------- Request and answer in numbers ----------

  /** A listing request as a client sends it: command 6, version 0, how many entries at most, from where in
      two bytes, in which order, and how many bytes of each key; the rest is not looked at. */
  function Ask(count: u8, offset: u16, orderBy: u8, prefixLen: u8, rest: seq<u8>): seq<u8> {
    [6, 0, count, offset % 0x100, offset / 0x100, orderBy, prefixLen] + rest
  }

  lemma AskedFor(count: u8, offset: u16, orderBy: u8, prefixLen: u8, rest: seq<u8>)
    ensures RequestOf(Ask(count, offset, orderBy, prefixLen, rest))
            == Request(count, offset, orderBy, if prefixLen > 32 then 32 else prefixLen)
  {
    var b := Ask(count, offset, orderBy, prefixLen, rest);
    assert b[3..5] == [offset % 0x100, offset / 0x100];
    TwoBytesWorth(b[3..5]);
  }

  lemma TwoBytesWorth(b: seq<u8>)
    requires |b| == 2
    ensures FromLe(b) == var (low: int, high: int) := (b[0], b[1]); low + 0x100 * high
  {
    var tail := b[1..];
    assert tail[1..] == [] && FromLe(tail) == tail[0] + 0x100 * FromLe(tail[1..]);
  }

  /** The orders a client can ask for: 1 is longest unheard first, 2 strongest first, 3 weakest first, and
      anything else most recently heard first. */
  predicate ComesBefore(left: Neighbour, right: Neighbour, orderBy: u8) {
    match orderBy
    case 1 => left.lastSeen <= right.lastSeen
    case 2 => left.snr >= right.snr
    case 3 => left.snr <= right.snr
    case _ => left.lastSeen >= right.lastSeen
  }

  lemma RankIsOrder(left: Neighbour, right: Neighbour, orderBy: u8)
    ensures Rank(left, orderBy) <= Rank(right, orderBy) <==> ComesBefore(left, right, orderBy)
  {
  }

  /** What the listing is cut from: the whole table, each entry as often as it is there, in the order asked
      for. */
  ghost predicate ListingOf(listing: seq<Neighbour>, entries: seq<Neighbour>, orderBy: u8) {
    && multiset(listing) == multiset(entries)
    && forall j, k :: 0 <= j < k < |listing| ==> ComesBefore(listing[j], listing[k], orderBy)
  }

  /** How many entries a page holds: at most as many as asked for, as fit 130 bytes, and as are left. */
  function Fitting(total: nat, offset: nat, count: nat, entryLen: nat): nat
    requires entryLen > 0
  {
    var (room, left) := (130 / entryLen, if offset < total then total - offset else 0);
    if count <= room && count <= left then count else if room <= left then room else left
  }

  /** A client that sends a request gets back the length of the table as far as two bytes tell it, the number
      of lines, and the lines of exactly that stretch of the listing in the order it asked for. */
  lemma ClientGetsPage(entries: seq<Neighbour>, count: u8, offset: u16, orderBy: u8, prefixLen: u8, rest: seq<u8>,
      now: u64) returns (listing: seq<Neighbour>)
    requires count >= 1
    ensures ListingOf(listing, entries, orderBy) && |listing| == |entries|
    ensures var answer := Response(entries, RequestOf(Ask(count, offset, orderBy, prefixLen, rest)), now);
            var shown := if prefixLen > 32 then 32 else prefixLen;
            var n := Fitting(|entries|, offset, count, shown + 5);
            && |answer| >= 4 && FromLe(answer[..2]) == (if |entries| > 0xFFFF then 0xFFFF else |entries|)
            && FromLe(answer[2..4]) == n && (n > 0 ==> offset + n <= |entries|)
            && ReadLines(answer[4..], shown, n)
               == Some(ShownAll(if n > 0 then listing[offset..offset + n] else [], shown, now))
  {
    hide Response, ReadLines, ShownAll, SortedFrom, Rank, ComesBefore;
    AskedFor(count, offset, orderBy, prefixLen, rest);
    var r := RequestOf(Ask(count, offset, orderBy, prefixLen, rest));
    listing := SortedBy(entries, orderBy);
    SortIsSort(entries, orderBy, 0);
    forall j, k | 0 <= j < k < |listing|
      ensures ComesBefore(listing[j], listing[k], orderBy)
    {
      RankIsOrder(listing[j], listing[k], orderBy);
    }
    ResponseReadsBack(entries, r, now);
    PageIs(entries, r);
    assert |Response(entries, r, now)| >= 4 by {
      ResponseIsLong(entries, r, now);
    }
  }

  lemma ResponseIsLong(entries: seq<Neighbour>, r: Request, now: u64)
    requires r.prefixLen <= PUB_KEY_SIZE
    ensures |Response(entries, r, now)| >= 4
  {
    hide EntryBytes, Page;
  }
}
