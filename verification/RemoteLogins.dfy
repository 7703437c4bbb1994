/** Remote login sessions: one small table of admins, one of guests, and what each operation makes of
    them. */
module RemoteLogins {
  import opened Bytes
  import opened Wrappers
  import opened Keys
  import opened Paths

  const MAX_LOGINS: nat := 4
  const LOGIN_TTL_MS: u64 := 600_000

  datatype Privilege = Guest | Admin

  datatype Login = Login(key: PublicKey, secret: seq<u8>, lastSeen: u64, lastTimestamp: u32, replyPath: Path)

  datatype Session = Session(key: PublicKey, secret: seq<u8>, privilege: Privilege, replyPath: Path)

  type Entries = seq<Option<Login>>

  datatype Table = Table(admins: Entries, guests: Entries) {
    function Of(privilege: Privilege): Entries {
      if privilege == Admin then admins else guests
    }

    function With(privilege: Privilege, entries: Entries): Table {
      if privilege == Admin then Table(entries, guests) else Table(admins, entries)
    }
  }

  predicate HasKey(entry: Option<Login>, key: PublicKey) {
    entry.Some? && entry.value.key == key
  }

  predicate Stale(entry: Option<Login>, now: u64) {
    entry.Some? && SatSub(now, entry.value.lastSeen) > LOGIN_TTL_MS
  }

  function PrunedEntries(entries: Entries, now: u64): (r: Entries)
    ensures |r| == |entries|
    ensures forall i :: 0 <= i < |r| ==> r[i] == if Stale(entries[i], now) then None else entries[i]
  {
    seq(|entries|, i requires 0 <= i < |entries| => if Stale(entries[i], now) then None else entries[i])
  }

  function Pruned(t: Table, now: u64): Table {
    Table(PrunedEntries(t.admins, now), PrunedEntries(t.guests, now))
  }

  /** The first slot with the key, or the end. */
  function Position(entries: Entries, key: PublicKey): (i: nat)
    ensures i <= |entries| && (i < |entries| ==> HasKey(entries[i], key))
    ensures forall k :: 0 <= k < i ==> !HasKey(entries[k], key)
  {
    if entries == [] || HasKey(entries[0], key) then 0 else 1 + Position(entries[1..], key)
  }

  function FirstEmpty(entries: Entries): (i: nat)
    ensures i <= |entries| && (i < |entries| ==> entries[i].None?)
    ensures forall k :: 0 <= k < i ==> entries[k].Some?
  {
    if entries == [] || entries[0].None? then 0 else 1 + FirstEmpty(entries[1..])
  }

  /** The first of the sessions idle for longest. */
  function Oldest(entries: Entries): (i: nat)
    requires entries != [] && forall k :: 0 <= k < |entries| ==> entries[k].Some?
    ensures i < |entries|
    ensures forall k :: 0 <= k < |entries| ==> entries[i].value.lastSeen <= entries[k].value.lastSeen
    ensures forall k :: 0 <= k < i ==> entries[i].value.lastSeen < entries[k].value.lastSeen
  {
    var n := |entries| - 1;
    if n == 0 then 0
    else
      var before := Oldest(entries[..n]);
      if entries[n].value.lastSeen < entries[before].value.lastSeen then n else before
  }

  /** The slot a new session takes. */
  function Slot(entries: Entries): (i: nat)
    requires entries != []
    ensures i < |entries|
  {
    if FirstEmpty(entries) < |entries| then FirstEmpty(entries) else Oldest(entries)
  }

  function RemovedKey(entries: Entries, key: PublicKey): (r: Entries)
    ensures |r| == |entries|
  {
    var i := Position(entries, key);
    if i < |entries| then entries[i := None] else entries
  }

  function Removed(t: Table, key: PublicKey): Table {
    Table(RemovedKey(t.admins, key), RemovedKey(t.guests, key))
  }

  function Authenticated(t: Table, login: Login, privilege: Privilege): Table
    requires |t.admins| == |t.guests| == MAX_LOGINS
  {
    var cleared := Removed(Pruned(t, login.lastSeen), login.key);
    var entries := cleared.Of(privilege);
    cleared.With(privilege, entries[Slot(entries) := Some(login)])
  }

  function Touch(entries: Entries, key: PublicKey, now: u64): (r: Entries)
    ensures |r| == |entries|
  {
    var i := Position(entries, key);
    if i < |entries| then entries[i := Some(entries[i].value.(lastSeen := now))] else entries
  }

  function PrivilegeOf(t: Table, key: PublicKey): Option<Privilege> {
    if Position(t.admins, key) < |t.admins| then Some(Admin)
    else if Position(t.guests, key) < |t.guests| then Some(Guest)
    else None
  }

  function Touched(t: Table, key: PublicKey, now: u64): Table {
    match PrivilegeOf(t, key)
    case None => t
    case Some(privilege) => t.With(privilege, Touch(t.Of(privilege), key, now))
  }

  function Accepts(entries: Entries, key: PublicKey, timestamp: u32): bool {
    var i := Position(entries, key);
    i < |entries| && entries[i].value.lastTimestamp < timestamp
  }

  function Accepted(t: Table, key: PublicKey, privilege: Privilege, timestamp: u32, now: u64): Table {
    var entries := t.Of(privilege);
    if Accepts(entries, key, timestamp) then
      var i := Position(entries, key);
      t.With(privilege, entries[i := Some(entries[i].value.(lastTimestamp := timestamp, lastSeen := now))])
    else t
  }

  function SessionsIn(entries: Entries, hash: u8, privilege: Privilege): (r: seq<Session>)
    ensures |r| <= |entries|
  {
    if entries == [] then []
    else
      var n := |entries| - 1;
      SessionsIn(entries[..n], hash, privilege)
      + if entries[n].Some? && entries[n].value.key[0] == hash then
          [Session(entries[n].value.key, entries[n].value.secret, privilege, entries[n].value.replyPath)]
        else []
  }

  function Matching(t: Table, hash: u8): (r: seq<Session>)
    ensures |r| <= |t.admins| + |t.guests|
  {
    SessionsIn(t.admins, hash, Admin) + SessionsIn(t.guests, hash, Guest)
  }

  /** The eight slots, admins first. */
  function SlotAt(t: Table, i: nat): Option<Login> {
    if i < |t.admins| then t.admins[i]
    else if i < |t.admins| + |t.guests| then t.guests[i - |t.admins|]
    else None
  }

  /** The slot holds a login used in the last ten minutes whose key begins with this byte. */
  predicate Answers(t: Table, hash: u8, now: u64, i: nat) {
    && SlotAt(t, i).Some? && now <= SlotAt(t, i).value.lastSeen + 600_000
    && SlotAt(t, i).value.key[0] == hash
  }

  /** The session of a slot: key, secret and reply path of its login, and the privilege of its table. */
  function SessionAt(t: Table, i: nat): Session
    requires SlotAt(t, i).Some?
  {
    var login := SlotAt(t, i).value;
    Session(login.key, login.secret, if i < |t.admins| then Admin else Guest, login.replyPath)
  }

  /** The list holds the session of every slot that answers, once each and in the order of the slots, and is
      empty behind them. */
  ghost predicate Lists(t: Table, hash: u8, now: u64, out: seq<Option<Session>>) {
    exists slots: seq<nat> :: ListsSlots(t, hash, now, out, slots)
  }

  ghost predicate ListsSlots(t: Table, hash: u8, now: u64, out: seq<Option<Session>>, slots: seq<nat>) {
    && |slots| <= |out| && (forall j, k :: 0 <= j < k < |slots| ==> slots[j] < slots[k])
    && (forall i: nat :: i in slots <==> Answers(t, hash, now, i))
    && (forall k :: 0 <= k < |slots| ==> SlotAt(t, slots[k]).Some? && out[k] == Some(SessionAt(t, slots[k])))
    && (forall k :: |slots| <= k < |out| ==> out[k] == None)
  }

  predicate Listed(entry: Option<Login>, hash: u8) {
    entry.Some? && entry.value.key[0] == hash
  }

  /** The places of a list whose logins are listed for this byte. */
  function PlacesIn(entries: Entries, hash: u8): (r: seq<nat>)
    ensures forall k :: 0 <= k < |r| ==> r[k] < |entries|
    ensures forall j, k :: 0 <= j < k < |r| ==> r[j] < r[k]
  {
    if entries == [] then []
    else
      var n := |entries| - 1;
      PlacesIn(entries[..n], hash) + if Listed(entries[n], hash) then [n] else []
  }

  lemma {:induction false} PlaceIsListed(entries: Entries, hash: u8, i: nat)
    ensures i in PlacesIn(entries, hash) <==> i < |entries| && Listed(entries[i], hash)
  {
    hide Listed;
    if entries == [] {
    } else {
      var n := |entries| - 1;
      PlaceIsListed(entries[..n], hash, i);
      assert i in PlacesIn(entries, hash) <==>
             i in PlacesIn(entries[..n], hash) || (i == n && Listed(entries[n], hash));
    }
  }

  function SessionOf(login: Login, privilege: Privilege): Session {
    Session(login.key, login.secret, privilege, login.replyPath)
  }

  lemma {:induction false} PlaceShows(entries: Entries, hash: u8, privilege: Privilege, k: nat)
    ensures |PlacesIn(entries, hash)| == |SessionsIn(entries, hash, privilege)|
    ensures k < |PlacesIn(entries, hash)| ==>
              var at := PlacesIn(entries, hash)[k];
              entries[at].Some? && SessionsIn(entries, hash, privilege)[k] == SessionOf(entries[at].value, privilege)
  {
    if entries == [] {
    } else {
      var n := |entries| - 1;
      PlaceShows(entries[..n], hash, privilege, k);
      assert SessionsIn(entries, hash, privilege) == SessionsIn(entries[..n], hash, privilege)
             + if Listed(entries[n], hash) then [SessionOf(entries[n].value, privilege)] else [];
    }
  }

  function Shifted(places: seq<nat>, n: nat): (r: seq<nat>)
    ensures |r| == |places| && forall k :: 0 <= k < |r| ==> r[k] == places[k] + n
  {
    seq<nat>(|places|, k requires 0 <= k < |places| => places[k] + n)
  }

  lemma KeptAnswers(t: Table, hash: u8, now: u64, i: nat)
    requires i < |t.admins| + |t.guests|
    ensures var kept := SlotAt(Pruned(t, now), i);
            && (Answers(t, hash, now, i) <==> Listed(kept, hash))
            && (kept.Some? ==> kept == SlotAt(t, i))
  {
  }

  /** The slots whose sessions are collected from the pruned tables. */
  function SlotsIn(r: Table, hash: u8): seq<nat> {
    PlacesIn(r.admins, hash) + Shifted(PlacesIn(r.guests, hash), |r.admins|)
  }

  lemma SlotsAnswer(t: Table, hash: u8, now: u64, i: nat)
    ensures i in SlotsIn(Pruned(t, now), hash) <==> Answers(t, hash, now, i)
  {
    hide PlacesIn, Listed;
    var r, n := Pruned(t, now), |t.admins|;
    var (first, second) := (PlacesIn(r.admins, hash), PlacesIn(r.guests, hash));
    PlaceIsListed(r.admins, hash, i);
    InShifted(second, n, i);
    if i >= n {
      PlaceIsListed(r.guests, hash, i - n);
    }
    assert i in SlotsIn(r, hash) <==> i in first || i in Shifted(second, n);
    if i < n + |t.guests| {
      KeptAnswers(t, hash, now, i);
    }
  }

  /** The sessions collected are those of these slots, in order. */
  lemma SlotsShow(t: Table, hash: u8, now: u64, k: nat)
    requires k < |SlotsIn(Pruned(t, now), hash)|
    ensures var (r, slots) := (Pruned(t, now), SlotsIn(Pruned(t, now), hash));
            && |slots| == |Matching(r, hash)| && SlotAt(t, slots[k]).Some?
            && Matching(r, hash)[k] == SessionAt(t, slots[k])
            && forall j :: 0 <= j < k ==> slots[j] < slots[k]
  {
    hide PlacesIn, Listed, SessionsIn;
    var r, n := Pruned(t, now), |t.admins|;
    var (first, second) := (PlacesIn(r.admins, hash), PlacesIn(r.guests, hash));
    PlaceShows(r.admins, hash, Admin, k);
    PlaceShows(r.guests, hash, Guest, if k < |first| then 0 else k - |first|);
    var i := SlotsIn(r, hash)[k];
    assert i == if k < |first| then first[k] else second[k - |first|] + n;
    KeptAnswers(t, hash, now, i);
  }

  lemma AsMany(t: Table, hash: u8)
    ensures |SlotsIn(t, hash)| == |Matching(t, hash)|
  {
    hide PlacesIn, SessionsIn;
    PlaceShows(t.admins, hash, Admin, 0);
    PlaceShows(t.guests, hash, Guest, 0);
  }

  /** What is collected from the pruned tables is that list. */
  lemma MatchingLists(t: Table, hash: u8, now: u64, out: seq<Option<Session>>)
    requires Holding(out, Matching(Pruned(t, now), hash))
    ensures Lists(t, hash, now, out)
  {
    hide Matching, SlotsIn, Answers, SessionAt, Pruned, SlotAt;
    var slots := SlotsIn(Pruned(t, now), hash);
    AsMany(Pruned(t, now), hash);
    forall i: nat
      ensures i in slots <==> Answers(t, hash, now, i)
    {
      SlotsAnswer(t, hash, now, i);
    }
    forall k | 0 <= k < |slots|
      ensures SlotAt(t, slots[k]).Some? && out[k] == Some(SessionAt(t, slots[k]))
      ensures forall j :: 0 <= j < k ==> slots[j] < slots[k]
    {
      SlotsShow(t, hash, now, k);
    }
    assert ListsSlots(t, hash, now, out, slots);
  }

  /** The array holds exactly these sessions at its front. */
  ghost predicate Holding(out: seq<Option<Session>>, found: seq<Session>) {
    && |found| <= |out| && (forall k :: 0 <= k < |found| ==> out[k] == Some(found[k]))
    && (forall k :: |found| <= k < |out| ==> out[k] == None)
  }

  lemma InShifted(places: seq<nat>, n: nat, i: nat)
    ensures i in Shifted(places, n) <==> i >= n && (i - n) in places
  {
    if i >= n && (i - n) in places {
      var k :| 0 <= k < |places| && places[k] == i - n;
      assert Shifted(places, n)[k] == i;
    }
  }

  // ---------- The table in place ----------

  method PruneEntries(entries: array<Option<Login>>, now: u64)
    modifies entries
    ensures entries[..] == PrunedEntries(old(entries[..]), now)
  {
    for i := 0 to entries.Length
      invariant forall k :: 0 <= k < i ==> entries[k] == if Stale(old(entries[k]), now) then None else old(entries[k])
      invariant forall k :: i <= k < entries.Length ==> entries[k] == old(entries[k])
    {
      if entries[i].Some? && SatSub(now, entries[i].value.lastSeen) > LOGIN_TTL_MS {
        entries[i] := None;
      }
    }
    assert entries[..] == PrunedEntries(old(entries[..]), now);
  }

  lemma PositionIs(entries: Entries, key: PublicKey, i: nat)
    requires i <= |entries| && (i < |entries| ==> HasKey(entries[i], key))
    requires forall k :: 0 <= k < i ==> !HasKey(entries[k], key)
    ensures Position(entries, key) == i
  {
  }

  method Find(entries: array<Option<Login>>, key: PublicKey) returns (i: nat)
    ensures i == Position(entries[..], key)
  {
    i := 0;
    while i < entries.Length && !(entries[i].Some? && entries[i].value.key == key)
      invariant i <= entries.Length && forall k :: 0 <= k < i ==> !HasKey(entries[k], key)
    {
      i := i + 1;
    }
    PositionIs(entries[..], key, i);
  }

  method RemoveLogin(entries: array<Option<Login>>, key: PublicKey)
    modifies entries
    ensures entries[..] == RemovedKey(old(entries[..]), key)
  {
    var i := Find(entries, key);
    if i < entries.Length {
      entries[i] := None;
    }
  }

  lemma FirstEmptyIs(entries: Entries, i: nat)
    requires i <= |entries| && (i < |entries| ==> entries[i].None?)
    requires forall k :: 0 <= k < i ==> entries[k].Some?
    ensures FirstEmpty(entries) == i
  {
  }

  method FirstEmptyIndex(entries: array<Option<Login>>) returns (i: nat)
    ensures i == FirstEmpty(entries[..])
  {
    i := 0;
    while i < entries.Length && entries[i].Some?
      invariant i <= entries.Length && forall k :: 0 <= k < i ==> entries[k].Some?
    {
      i := i + 1;
    }
    FirstEmptyIs(entries[..], i);
  }

  method OldestIndex(entries: array<Option<Login>>) returns (i: nat)
    requires 0 < entries.Length
    ensures i == Slot(entries[..])
  {
    i := 0;
    var oldestSeen := U64_MAX;
    for k := 0 to entries.Length
      invariant forall j :: 0 <= j < k ==> entries[j].Some?
      invariant k > 0 ==> i == Oldest(entries[..k]) && oldestSeen == entries[i].value.lastSeen
      invariant k == 0 ==> i == 0 && oldestSeen == U64_MAX
    {
      if entries[k].None? {
        FirstEmptyIs(entries[..], k);
        return k;
      }
      assert entries[..k + 1][..k] == entries[..k];
      if entries[k].value.lastSeen < oldestSeen {
        i := k;
        oldestSeen := entries[k].value.lastSeen;
      }
    }
    FirstEmptyIs(entries[..], entries.Length);
    assert entries[..entries.Length] == entries[..];
  }

  /** Adds the sessions with this first key byte behind those already found. */
  method AppendMatching(out: array<Option<Session>>, index: nat, entries: array<Option<Login>>, hash: u8,
      privilege: Privilege)
    returns (next: nat)
    requires index + entries.Length <= out.Length
    modifies out
    ensures var found := SessionsIn(entries[..], hash, privilege);
            && next == index + |found|
            && (forall k :: 0 <= k < index || next <= k < out.Length ==> out[k] == old(out[k]))
            && (forall k :: 0 <= k < |found| ==> out[index + k] == Some(found[k]))
  {
    next := index;
    for i := 0 to entries.Length
      invariant index <= next <= index + i && next == index + |SessionsIn(entries[..i], hash, privilege)|
      invariant forall k :: 0 <= k < index || next <= k < out.Length ==> out[k] == old(out[k])
      invariant forall k :: 0 <= k < next - index ==>
            out[index + k] == Some(SessionsIn(entries[..i], hash, privilege)[k])
    {
      assert entries[..i + 1][..i] == entries[..i];
      if entries[i].Some? && entries[i].value.key[0] == hash {
        var login := entries[i].value;
        out[next] := Some(Session(login.key, login.secret, privilege, login.replyPath));
        next := next + 1;
      }
    }
    assert entries[..entries.Length] == entries[..];
  }

  class RemoteLoginTable {
    const admins: array<Option<Login>>
    const guests: array<Option<Login>>

    ghost predicate Valid() {
      admins != guests && admins.Length == guests.Length == MAX_LOGINS
    }

    ghost function View(): Table
      reads admins, guests
    {
      Table(admins[..], guests[..])
    }

    constructor ()
      ensures Valid() && fresh(admins) && fresh(guests)
            && View() == Table([None, None, None, None], [None, None, None, None])
    {
      admins := new Option<Login>[4](_ => None);
      guests := new Option<Login>[4](_ => None);
    }

    method Prune(now: u64)
      requires Valid()
      modifies admins, guests
      ensures View() == Pruned(old(View()), now)
    {
      PruneEntries(admins, now);
      PruneEntries(guests, now);
    }

    method Remove(key: PublicKey)
      requires Valid()
      modifies admins, guests
      ensures View() == Removed(old(View()), key)
    {
      RemoveLogin(admins, key);
      RemoveLogin(guests, key);
    }

    method EntriesOf(privilege: Privilege) returns (entries: array<Option<Login>>)
      ensures entries == if privilege == Admin then admins else guests
    {
      entries := if privilege == Admin then admins else guests;
    }

    method Authenticate(key: PublicKey, secret: seq<u8>, privilege: Privilege, lastTimestamp: u32, now: u64,
        replyPath: Path)
      requires Valid()
      modifies admins, guests
      ensures View() == Authenticated(old(View()), Login(key, secret, now, lastTimestamp, replyPath), privilege)
    {
      Prune(now);
      RemoveLogin(admins, key);
      RemoveLogin(guests, key);
      var entries := EntriesOf(privilege);
      var index := FirstEmptyIndex(entries);
      if index == entries.Length {
        index := OldestIndex(entries);
      }
      entries[index] := Some(Login(key, secret, now, lastTimestamp, replyPath));
    }

    method PrivilegeFor(key: PublicKey, now: u64) returns (r: Option<Privilege>)
      requires Valid()
      modifies admins, guests
      ensures r == PrivilegeOf(Pruned(old(View()), now), key)
      ensures View() == Touched(Pruned(old(View()), now), key, now)
    {
      Prune(now);
      var i := Find(admins, key);
      if i < admins.Length {
        admins[i] := Some(admins[i].value.(lastSeen := now));
        return Some(Admin);
      }
      i := Find(guests, key);
      if i < guests.Length {
        guests[i] := Some(guests[i].value.(lastSeen := now));
        return Some(Guest);
      }
      return None;
    }

    /** Collects the sessions with this first key byte; eight slots are always enough. */
    method SessionsMatching(hash: u8, now: u64) returns (out: array<Option<Session>>)
      requires Valid()
      modifies admins, guests
      ensures View() == Pruned(old(View()), now) && fresh(out) && out.Length == 8
      ensures Holding(out[..], Matching(View(), hash))
      ensures Lists(old(View()), hash, now, out[..])
    {
      hide SessionsIn, Pruned, Lists;
      ghost var t := View();
      Prune(now);
      out := new Option<Session>[2 * MAX_LOGINS](_ => None);
      var index := AppendMatching(out, 0, admins, hash, Admin);
      index := AppendMatching(out, index, guests, hash, Guest);
      MatchingLists(t, hash, now, out[..]);
    }

    method AcceptNewerTimestamp(key: PublicKey, privilege: Privilege, timestamp: u32, now: u64) returns (ok: bool)
      requires Valid()
      modifies admins, guests
      ensures ok == Accepts(Pruned(old(View()), now).Of(privilege), key, timestamp)
      ensures View() == Accepted(Pruned(old(View()), now), key, privilege, timestamp, now)
    {
      Prune(now);
      var entries := EntriesOf(privilege);
      var i := Find(entries, key);
      if i == entries.Length || timestamp <= entries[i].value.lastTimestamp {
        return false;
      }
      entries[i] := Some(entries[i].value.(lastTimestamp := timestamp, lastSeen := now));
      return true;
    }
  }
}
