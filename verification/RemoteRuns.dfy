/** What the login table guarantees over every run of its operations. */
module RemoteRuns {
  import opened Bytes
  import opened Wrappers
  import opened Keys
  import opened RemoteLogins

  datatype Op =
    | Authenticate(login: Login, privilege: Privilege)
    | AskPrivilege(key: PublicKey, now: u64)
    | Collect(hash: u8, now: u64)
    | AcceptNewer(key: PublicKey, privilege: Privilege, timestamp: u32, now: u64)
    | Revoke(key: PublicKey)

  predicate Sized(t: Table) {
    |t.admins| == |t.guests| == MAX_LOGINS
  }

  function Step(t: Table, op: Op): (r: Table)
    requires Sized(t)
    ensures Sized(r)
  {
    match op
    case Authenticate(login, privilege) => Authenticated(t, login, privilege)
    case AskPrivilege(key, now) => Touched(Pruned(t, now), key, now)
    case Collect(_, now) => Pruned(t, now)
    case AcceptNewer(key, privilege, timestamp, now) => Accepted(Pruned(t, now), key, privilege, timestamp, now)
    case Revoke(key) => Removed(t, key)
  }

  function Run(t: Table, ops: seq<Op>): (r: Table)
    requires Sized(t)
    ensures Sized(r)
  {
    if ops == [] then t else Step(Run(t, ops[..|ops| - 1]), ops[|ops| - 1])
  }

  /** The operation is a timestamp of this key, and it is accepted. */
  predicate AcceptedFor(t: Table, op: Op, key: PublicKey) {
    op.AcceptNewer? && op.key == key && Accepts(Pruned(t, op.now).Of(op.privilege), key, op.timestamp)
  }

  predicate LoginOf(op: Op, key: PublicKey) {
    op.Authenticate? && op.login.key == key
  }

  // ---------- One entry per key ----------

  /** At most one slot holds the key. */
  ghost predicate Once(entries: Entries, key: PublicKey) {
    forall i, j :: 0 <= i < j < |entries| ==> !(HasKey(entries[i], key) && HasKey(entries[j], key))
  }

  ghost predicate Absent(entries: Entries, key: PublicKey) {
    forall i :: 0 <= i < |entries| ==> !HasKey(entries[i], key)
  }

  /** At most one slot of both tables together holds the key. */
  ghost predicate OneEntry(t: Table, key: PublicKey) {
    Once(t.admins, key) && Once(t.guests, key) && (Absent(t.admins, key) || Absent(t.guests, key))
  }

  /** Every slot taken afterwards was taken by the same key before, with no later timestamp. */
  ghost predicate Kept(before: Entries, after: Entries) {
    |after| == |before| && forall i :: 0 <= i < |after| && after[i].Some? ==>
      before[i].Some? && before[i].value.key == after[i].value.key
      && before[i].value.lastTimestamp <= after[i].value.lastTimestamp
  }

  ghost predicate TableKept(t: Table, r: Table) {
    Kept(t.admins, r.admins) && Kept(t.guests, r.guests)
  }

  lemma KeptOne(t: Table, r: Table, key: PublicKey)
    requires OneEntry(t, key) && TableKept(t, r)
    ensures OneEntry(r, key)
  {
  }

  lemma PrunedKept(t: Table, now: u64)
    ensures TableKept(t, Pruned(t, now))
  {
  }

  lemma RemovedKept(t: Table, key: PublicKey)
    ensures TableKept(t, Removed(t, key))
  {
  }

  lemma TouchedKept(t: Table, key: PublicKey, now: u64)
    ensures TableKept(t, Touched(t, key, now))
  {
  }

  lemma AcceptedKept(t: Table, key: PublicKey, privilege: Privilege, timestamp: u32, now: u64)
    ensures TableKept(t, Accepted(t, key, privilege, timestamp, now))
  {
  }

  lemma KeptTwice(t: Table, mid: Table, r: Table)
    requires TableKept(t, mid) && TableKept(mid, r)
    ensures TableKept(t, r)
  {
  }

  lemma StepKept(t: Table, op: Op)
    requires Sized(t) && !op.Authenticate?
    ensures TableKept(t, Step(t, op))
  {
    hide TableKept, Pruned, Touched, Accepted, Removed;
    match op
    case AskPrivilege(key, now) =>
      PrunedKept(t, now);
      TouchedKept(Pruned(t, now), key, now);
      KeptTwice(t, Pruned(t, now), Step(t, op));
    case Collect(_, now) => PrunedKept(t, now);
    case AcceptNewer(key, privilege, timestamp, now) =>
      PrunedKept(t, now);
      AcceptedKept(Pruned(t, now), key, privilege, timestamp, now);
      KeptTwice(t, Pruned(t, now), Step(t, op));
    case Revoke(key) => RemovedKept(t, key);
  }

  /** The table with stale sessions and the key's own gone. */
  function Cleared(t: Table, now: u64, key: PublicKey): Table {
    Removed(Pruned(t, now), key)
  }

  lemma ClearedKept(t: Table, now: u64, key: PublicKey)
    requires OneEntry(t, key)
    ensures TableKept(t, Cleared(t, now, key))
    ensures Absent(Cleared(t, now, key).admins, key) && Absent(Cleared(t, now, key).guests, key)
  {
    PrunedKept(t, now);
    RemovedKept(Pruned(t, now), key);
    KeptTwice(t, Pruned(t, now), Cleared(t, now, key));
    KeptOne(t, Pruned(t, now), key);
    RemovedIsAbsent(Pruned(t, now).admins, key);
    RemovedIsAbsent(Pruned(t, now).guests, key);
  }

  lemma RemovedIsAbsent(entries: Entries, key: PublicKey)
    requires Once(entries, key)
    ensures Absent(RemovedKey(entries, key), key)
  {
  }

  lemma PlacedOnce(entries: Entries, login: Login, key: PublicKey)
    requires entries != [] && Once(entries, key) && (login.key == key ==> Absent(entries, key))
    ensures var placed := entries[Slot(entries) := Some(login)];
            Once(placed, key) && (Absent(entries, key) && login.key != key ==> Absent(placed, key))
  {
  }

  lemma AuthenticatedOne(t: Table, login: Login, privilege: Privilege, key: PublicKey)
    requires Sized(t) && OneEntry(t, key) && OneEntry(t, login.key)
    ensures OneEntry(Authenticated(t, login, privilege), key)
  {
    var cleared := Cleared(t, login.lastSeen, login.key);
    ClearedKept(t, login.lastSeen, login.key);
    KeptOne(t, cleared, key);
    PlacedOnce(cleared.Of(privilege), login, key);
  }

  lemma StepKeepsOne(t: Table, op: Op, key: PublicKey)
    requires Sized(t) && forall k: PublicKey :: OneEntry(t, k)
    ensures OneEntry(Step(t, op), key)
  {
    if op.Authenticate? {
      AuthenticatedOne(t, op.login, op.privilege, key);
    } else {
      StepKept(t, op);
      KeptOne(t, Step(t, op), key);
    }
  }

  ghost predicate Unique(t: Table) {
    Sized(t) && forall k: PublicKey :: OneEntry(t, k)
  }

  lemma StepKeepsUnique(t: Table, op: Op)
    requires Unique(t)
    ensures Unique(Step(t, op))
  {
    forall k: PublicKey
      ensures OneEntry(Step(t, op), k)
    {
      StepKeepsOne(t, op, k);
    }
  }

  const EMPTY: Table := Table([None, None, None, None], [None, None, None, None])

  /** Over every run a public key has at most one entry across both tables. */
  lemma {:induction false} OneEntryPerKey(ops: seq<Op>)
    ensures Unique(Run(EMPTY, ops))
  {
    if ops == [] {
    } else {
      OneEntryPerKey(ops[..|ops| - 1]);
      StepKeepsUnique(Run(EMPTY, ops[..|ops| - 1]), ops[|ops| - 1]);
    }
  }

  // ---------- Timestamps ----------

  /** The last timestamp on record for the key. */
  function Floor(t: Table, key: PublicKey): Option<u32> {
    if Position(t.admins, key) < |t.admins| then Some(t.admins[Position(t.admins, key)].value.lastTimestamp)
    else if Position(t.guests, key) < |t.guests| then Some(t.guests[Position(t.guests, key)].value.lastTimestamp)
    else None
  }

  /** The floor is the timestamp of whichever slot holds the key. */
  lemma FloorAt(t: Table, key: PublicKey, privilege: Privilege, i: nat)
    requires OneEntry(t, key) && i < |t.Of(privilege)| && HasKey(t.Of(privilege)[i], key)
    ensures Floor(t, key) == Some(t.Of(privilege)[i].value.lastTimestamp)
  {
  }

  lemma FloorNone(t: Table, key: PublicKey)
    requires Absent(t.admins, key) && Absent(t.guests, key)
    ensures Floor(t, key) == None
  {
  }

  /** Nothing but a login puts a key into the table or takes its floor down. */
  ghost predicate FloorKept(t: Table, r: Table, key: PublicKey) {
    Floor(r, key).Some? ==> Floor(t, key).Some? && Floor(r, key).value >= Floor(t, key).value
  }

  /** Every slot that holds the key held it before, with no later timestamp. */
  ghost predicate SlotsKept(before: Entries, after: Entries, key: PublicKey) {
    |after| == |before| && forall i :: 0 <= i < |after| && HasKey(after[i], key) ==>
      HasKey(before[i], key) && before[i].value.lastTimestamp <= after[i].value.lastTimestamp
  }

  lemma KeptFloor(t: Table, r: Table, key: PublicKey)
    requires OneEntry(t, key) && SlotsKept(t.admins, r.admins, key) && SlotsKept(t.guests, r.guests, key)
    ensures FloorKept(t, r, key)
  {
    var i, j := Position(r.admins, key), Position(r.guests, key);
    if i < |r.admins| {
      FloorAt(t, key, Admin, i);
    } else if j < |r.guests| {
      FloorAt(t, key, Guest, j);
    }
  }

  lemma StepFloor(t: Table, op: Op, key: PublicKey)
    requires Unique(t) && !LoginOf(op, key)
    ensures FloorKept(t, Step(t, op), key)
  {
    if op.Authenticate? {
      ClearedKept(t, op.login.lastSeen, op.login.key);
      OthersKept(t, Cleared(t, op.login.lastSeen, op.login.key), op.login, op.privilege, key);
    } else {
      StepKept(t, op);
    }
    KeptFloor(t, Step(t, op), key);
  }

  lemma OthersKept(t: Table, cleared: Table, login: Login, privilege: Privilege, key: PublicKey)
    requires TableKept(t, cleared) && cleared.Of(privilege) != [] && login.key != key
    ensures var entries := cleared.Of(privilege);
            var r := cleared.With(privilege, entries[Slot(entries) := Some(login)]);
            SlotsKept(t.admins, r.admins, key) && SlotsKept(t.guests, r.guests, key)
  {
  }

  /** An accepted timestamp beats the floor and becomes it. */
  lemma AcceptRaises(t: Table, op: Op, key: PublicKey)
    requires Unique(t) && AcceptedFor(t, op, key)
    ensures Floor(t, key).Some? && Floor(t, key).value < op.timestamp
    ensures Floor(Step(t, op), key) == Some(op.timestamp)
  {
    var entries := Pruned(t, op.now).Of(op.privilege);
    var i := Position(entries, key);
    FloorAt(t, key, op.privilege, i);
    StepKeepsUnique(t, op);
    FloorAt(Step(t, op), key, op.privilege, i);
  }

  lemma LoginSets(t: Table, op: Op, key: PublicKey)
    requires Unique(t) && LoginOf(op, key)
    ensures Floor(Step(t, op), key) == Some(op.login.lastTimestamp)
  {
    StepKeepsUnique(t, op);
    FloorAt(Step(t, op), key, op.privilege, Slot(Cleared(t, op.login.lastSeen, key).Of(op.privilege)));
  }

  /** A login or an accepted timestamp leaves its timestamp on record. */
  lemma Recorded(t: Table, op: Op, key: PublicKey)
    requires Unique(t) && (LoginOf(op, key) || AcceptedFor(t, op, key))
    ensures Floor(Step(t, op), key) == Some(TimestampOf(op))
  {
    if LoginOf(op, key) {
      LoginSets(t, op, key);
    } else {
      AcceptRaises(t, op, key);
    }
  }

  /** Without a login of the key, its floor only rises, and a key not in the table stays out. */
  lemma {:induction false} FloorOverRun(t: Table, ops: seq<Op>, key: PublicKey)
    requires Unique(t) && forall k :: 0 <= k < |ops| ==> !LoginOf(ops[k], key)
    ensures FloorKept(t, Run(t, ops), key) && Unique(Run(t, ops))
  {
    hide OneEntry, Step, Floor;
    if ops == [] {
    } else {
      var mid, op := Run(t, ops[..|ops| - 1]), ops[|ops| - 1];
      FloorOverRun(t, ops[..|ops| - 1], key);
      StepFloor(mid, op, key);
      StepKeepsUnique(mid, op);
    }
  }

  lemma {:induction false} RunSplit(t: Table, a: seq<Op>, b: seq<Op>)
    requires Sized(t)
    ensures Run(t, a + b) == Run(Run(t, a), b)
  {
    if b == [] {
      assert a + b == a;
    } else {
      assert (a + b)[..|a + b| - 1] == a + b[..|b| - 1];
      RunSplit(t, a, b[..|b| - 1]);
    }
  }

  function TimestampOf(op: Op): u32
    requires op.Authenticate? || op.AcceptNewer?
  {
    if op.Authenticate? then op.login.lastTimestamp else op.timestamp
  }

  /** Over every run, a timestamp accepted for a key is later than the one its last login brought and
      than every one accepted since. */
  lemma AcceptedIncrease(ops: seq<Op>, i: nat, j: nat, key: PublicKey)
    requires i < j < |ops| && AcceptedFor(Run(EMPTY, ops[..j]), ops[j], key)
    requires LoginOf(ops[i], key) || AcceptedFor(Run(EMPTY, ops[..i]), ops[i], key)
    requires forall k :: i < k < j ==> !LoginOf(ops[k], key)
    ensures TimestampOf(ops[i]) < ops[j].timestamp
  {
    hide Unique, Step, Floor, AcceptedFor;
    OneEntryPerKey(ops[..i]);
    OneEntryPerKey(ops[..j]);
    var before, mid := Run(EMPTY, ops[..i]), ops[i + 1..j];
    var after := Step(before, ops[i]);
    assert after == Run(EMPTY, ops[..i + 1]) by {
      assert ops[..i + 1][..i] == ops[..i];
    }
    Recorded(before, ops[i], key);
    StepKeepsUnique(before, ops[i]);
    FloorOverRun(after, mid, key);
    RunSplit(EMPTY, ops[..i + 1], mid);
    assert ops[..i + 1] + mid == ops[..j];
    AcceptRaises(Run(EMPTY, ops[..j]), ops[j], key);
  }

  lemma RevokedIsGone(t: Table, key: PublicKey)
    requires Unique(t)
    ensures Unique(Step(t, Revoke(key))) && Floor(Step(t, Revoke(key)), key) == None
  {
    assert OneEntry(t, key);
    RemovedIsAbsent(t.admins, key);
    RemovedIsAbsent(t.guests, key);
    FloorNone(Step(t, Revoke(key)), key);
    StepKeepsUnique(t, Revoke(key));
  }

  lemma NothingWithoutFloor(t: Table, key: PublicKey)
    requires Unique(t) && Floor(t, key) == None
    ensures PrivilegeOf(t, key) == None
    ensures forall op :: !AcceptedFor(t, op, key)
    ensures forall s :: s in Matching(t, key[0]) ==> s.key != key
  {
    forall op | AcceptedFor(t, op, key)
      ensures false
    {
      AcceptRaises(t, op, key);
    }
    AbsentHasNoSession(t.admins, key[0], Admin, key);
    AbsentHasNoSession(t.guests, key[0], Guest, key);
  }

  /** A revoked key has no privilege, no session and no accepted timestamp until it logs in again. */
  lemma RevokedUntilLogin(t: Table, ops: seq<Op>, key: PublicKey)
    requires Unique(t) && forall k :: 0 <= k < |ops| ==> !LoginOf(ops[k], key)
    ensures var r := Run(Step(t, Revoke(key)), ops);
            && PrivilegeOf(r, key) == None
            && (forall op :: !AcceptedFor(r, op, key))
            && (forall s :: s in Matching(r, key[0]) ==> s.key != key)
  {
    hide OneEntry, Floor, Step;
    RevokedIsGone(t, key);
    FloorOverRun(Step(t, Revoke(key)), ops, key);
    NothingWithoutFloor(Run(Step(t, Revoke(key)), ops), key);
  }

  lemma {:induction false} AbsentHasNoSession(entries: Entries, hash: u8, privilege: Privilege, key: PublicKey)
    requires Position(entries, key) == |entries|
    ensures forall s :: s in SessionsIn(entries, hash, privilege) ==> s.key != key
  {
    if entries == [] {
    } else {
      var front := entries[..|entries| - 1];
      PositionIs(front, key, |front|);
      AbsentHasNoSession(front, hash, privilege, key);
      assert !HasKey(entries[|entries| - 1], key);
    }
  }

  /** The slot of this privilege holds the key, and was used in the last ten minutes. */
  ghost predicate LiveAt(t: Table, privilege: Privilege, i: nat, key: PublicKey, now: u64) {
    i < |t.Of(privilege)| && HasKey(t.Of(privilege)[i], key) && now <= t.Of(privilege)[i].value.lastSeen + 600_000
  }

  /** A key has a privilege exactly when a session of that privilege was used in the last ten minutes. */
  lemma PrivilegeExactly(t: Table, key: PublicKey, now: u64, privilege: Privilege)
    requires OneEntry(t, key)
    ensures PrivilegeOf(Pruned(t, now), key) == Some(privilege) <==> exists i: nat :: LiveAt(t, privilege, i, key, now)
  {
    var r := Pruned(t, now);
    forall i: nat | i < |t.Of(privilege)|
      ensures HasKey(r.Of(privilege)[i], key) <==> LiveAt(t, privilege, i, key, now)
    {
      assert r.Of(privilege)[i] == if Stale(t.Of(privilege)[i], now) then None else t.Of(privilege)[i];
    }
    PrunedKept(t, now);
    KeptOne(t, r, key);
    var k := Position(r.Of(privilege), key);
    if k < |r.Of(privilege)| {
      assert LiveAt(t, privilege, k, key, now);
    }
  }

  /** A timestamp is accepted exactly when it is newer than the one on record in a session of that privilege
      used in the last ten minutes. */
  lemma AcceptExactly(t: Table, key: PublicKey, privilege: Privilege, timestamp: u32, now: u64)
    requires OneEntry(t, key)
    ensures Accepts(Pruned(t, now).Of(privilege), key, timestamp) <==>
            exists i: nat :: LiveAt(t, privilege, i, key, now) && t.Of(privilege)[i].value.lastTimestamp < timestamp
  {
    var r := Pruned(t, now);
    forall i: nat | i < |t.Of(privilege)|
      ensures HasKey(r.Of(privilege)[i], key) <==> LiveAt(t, privilege, i, key, now)
    {
      assert r.Of(privilege)[i] == if Stale(t.Of(privilege)[i], now) then None else t.Of(privilege)[i];
    }
    var k := Position(r.Of(privilege), key);
    if k < |r.Of(privilege)| {
      assert LiveAt(t, privilege, k, key, now);
      assert r.Of(privilege)[k] == t.Of(privilege)[k];
    }
  }

  function TimeOf(op: Op): u64
    requires !op.Revoke?
  {
    match op
    case Authenticate(login, _) => login.lastSeen
    case AskPrivilege(_, now) => now
    case Collect(_, now) => now
    case AcceptNewer(_, _, _, now) => now
  }

  /** Removing a key, asking for a privilege, collecting sessions and accepting a timestamp leave the
      sessions of other keys as they are, short of those idle for too long. */
  lemma OthersStay(t: Table, op: Op, privilege: Privilege, i: nat)
    requires i < |t.Of(privilege)| && t.Of(privilege)[i].Some? && !op.Authenticate?
    requires op.Collect? || op.key != t.Of(privilege)[i].value.key
    requires op.Revoke? || TimeOf(op) <= t.Of(privilege)[i].value.lastSeen + 600_000
    requires Sized(t)
    ensures Step(t, op).Of(privilege)[i] == t.Of(privilege)[i]
  {
    hide Pruned, Touched, Accepted, Removed;
    match op
    case AskPrivilege(key, now) =>
      FreshStays(t, privilege, i, now);
      TouchedStays(Pruned(t, now), privilege, i, key, now);
    case Collect(_, now) => FreshStays(t, privilege, i, now);
    case AcceptNewer(key, given, timestamp, now) =>
      FreshStays(t, privilege, i, now);
      AcceptedStays(Pruned(t, now), privilege, i, key, given, timestamp, now);
    case Revoke(key) => RemovedStays(t, privilege, i, key);
  }

  lemma FreshStays(t: Table, privilege: Privilege, i: nat, now: u64)
    requires i < |t.Of(privilege)| && t.Of(privilege)[i].Some?
    requires now <= t.Of(privilege)[i].value.lastSeen + 600_000
    ensures i < |Pruned(t, now).Of(privilege)| && Pruned(t, now).Of(privilege)[i] == t.Of(privilege)[i]
  {
  }

  lemma TouchedStays(t: Table, privilege: Privilege, i: nat, key: PublicKey, now: u64)
    requires i < |t.Of(privilege)| && !HasKey(t.Of(privilege)[i], key)
    ensures i < |Touched(t, key, now).Of(privilege)| && Touched(t, key, now).Of(privilege)[i] == t.Of(privilege)[i]
  {
  }

  lemma AcceptedStays(t: Table, privilege: Privilege, i: nat, key: PublicKey, given: Privilege, timestamp: u32,
      now: u64)
    requires i < |t.Of(privilege)| && !HasKey(t.Of(privilege)[i], key)
    ensures var r := Accepted(t, key, given, timestamp, now);
            i < |r.Of(privilege)| && r.Of(privilege)[i] == t.Of(privilege)[i]
  {
  }

  lemma RemovedStays(t: Table, privilege: Privilege, i: nat, key: PublicKey)
    requires i < |t.Of(privilege)| && !HasKey(t.Of(privilege)[i], key)
    ensures i < |Removed(t, key).Of(privilege)| && Removed(t, key).Of(privilege)[i] == t.Of(privilege)[i]
  {
  }

  /** The operation uses the key's session with this privilege: a login, a question for the privilege, or an
      accepted timestamp. */
  ghost predicate Uses(t: Table, op: Op, key: PublicKey, privilege: Privilege) {
    match op
    case Authenticate(login, granted) => login.key == key && granted == privilege
    case AskPrivilege(asked, now) => asked == key && PrivilegeOf(Pruned(t, now), key) == Some(privilege)
    case AcceptNewer(_, given, _, _) => AcceptedFor(t, op, key) && given == privilege
    case _ => false
  }

  /** Every use gives the session another ten minutes, and no more. */
  lemma UseExtends(t: Table, op: Op, key: PublicKey, privilege: Privilege, later: u64)
    requires Unique(t) && Uses(t, op, key, privilege)
    ensures PrivilegeOf(Pruned(Step(t, op), later), key) == Some(privilege) <==> later <= TimeOf(op) + 600_000
  {
    hide PrivilegeOf, OneEntry, Step, Pruned, AcceptedFor;
    var r := Step(t, op);
    StepKeepsUnique(t, op);
    var i := UsedSlot(t, op, key, privilege);
    PrivilegeExactly(r, key, later, privilege);
    assert later <= TimeOf(op) + 600_000 ==> LiveAt(r, privilege, i, key, later);
    forall j: nat | LiveAt(r, privilege, j, key, later)
      ensures later <= TimeOf(op) + 600_000
    {
      SameSlot(r, privilege, i, j, key, later);
    }
  }

  lemma SameSlot(t: Table, privilege: Privilege, i: nat, j: nat, key: PublicKey, now: u64)
    requires OneEntry(t, key) && LiveAt(t, privilege, j, key, now)
    requires i < |t.Of(privilege)| && HasKey(t.Of(privilege)[i], key)
    ensures i == j
  {
  }

  /** The slot a use leaves behind; for a login it holds exactly that login. */
  lemma UsedSlot(t: Table, op: Op, key: PublicKey, privilege: Privilege) returns (i: nat)
    requires Unique(t) && Uses(t, op, key, privilege)
    ensures var entries := Step(t, op).Of(privilege);
            && i < |entries| && HasKey(entries[i], key) && entries[i].value.lastSeen == TimeOf(op)
            && (op.Authenticate? ==> entries[i] == Some(op.login))
            && (op.AcceptNewer? ==> entries[i].value.lastTimestamp == op.timestamp)
  {
    hide Unique, Cleared, Slot, Position, Accepts, Pruned;
    match op
    case Authenticate(login, _) =>
      i := PlacedAt(t, login, privilege);
    case AskPrivilege(_, now) =>
      i := TouchedAt(Pruned(t, now), key, now, privilege);
    case AcceptNewer(_, _, timestamp, now) =>
      i := AcceptedAt(Pruned(t, now), key, privilege, timestamp, now);
  }

  lemma PlacedAt(t: Table, login: Login, privilege: Privilege) returns (i: nat)
    requires Unique(t)
    ensures var entries := Authenticated(t, login, privilege).Of(privilege);
            i < |entries| && entries[i] == Some(login)
  {
    hide Slot;
    i := Slot(Cleared(t, login.lastSeen, login.key).Of(privilege));
  }

  lemma TouchedAt(t: Table, key: PublicKey, now: u64, privilege: Privilege) returns (i: nat)
    requires PrivilegeOf(t, key) == Some(privilege)
    ensures var entries := Touched(t, key, now).Of(privilege);
            i < |entries| && HasKey(entries[i], key) && entries[i].value.lastSeen == now
  {
    i := Position(t.Of(privilege), key);
  }

  lemma AcceptedAt(t: Table, key: PublicKey, privilege: Privilege, timestamp: u32, now: u64) returns (i: nat)
    requires Accepts(t.Of(privilege), key, timestamp)
    ensures var entries := Accepted(t, key, privilege, timestamp, now).Of(privilege);
            && i < |entries| && HasKey(entries[i], key)
            && entries[i].value.lastSeen == now && entries[i].value.lastTimestamp == timestamp
  {
    i := Position(t.Of(privilege), key);
  }

  // ---------- Who makes room ----------

  /** A login only ever displaces a session of its own kind, and only the one idle for longest when all
      slots of that kind hold fresh sessions; every other fresh session of another key stays as it is. */
  lemma LoginDisplacesOldest(t: Table, login: Login, privilege: Privilege, other: Privilege, i: nat)
    requires Sized(t) && i < MAX_LOGINS && t.Of(other)[i].Some? && t.Of(other)[i].value.key != login.key
    requires !Stale(t.Of(other)[i], login.lastSeen)
    ensures var r := Authenticated(t, login, privilege);
            r.Of(other)[i] == t.Of(other)[i] ||
            (&& other == privilege && r.Of(other)[i] == Some(login)
             && forall k :: 0 <= k < MAX_LOGINS ==>
                  && t.Of(other)[k].Some? && !Stale(t.Of(other)[k], login.lastSeen)
                  && t.Of(other)[i].value.lastSeen <= t.Of(other)[k].value.lastSeen)
  {
    var entries := RemovedKey(PrunedEntries(t.Of(other), login.lastSeen), login.key);
    assert entries == Cleared(t, login.lastSeen, login.key).Of(other);
    ClearedSlot(t.Of(other), login.lastSeen, login.key, i);
    if other == privilege && i == Slot(entries) {
      forall k | 0 <= k < MAX_LOGINS
        ensures t.Of(other)[k].Some? && !Stale(t.Of(other)[k], login.lastSeen)
                && t.Of(other)[i].value.lastSeen <= t.Of(other)[k].value.lastSeen
      {
        ClearedSlot(t.Of(other), login.lastSeen, login.key, k);
      }
    }
  }

  lemma ClearedSlot(entries: Entries, now: u64, key: PublicKey, k: nat)
    requires k < |entries|
    ensures var cleared := RemovedKey(PrunedEntries(entries, now), key);
            && (cleared[k].Some? ==> cleared[k] == entries[k] && !Stale(entries[k], now))
            && (entries[k].Some? && !Stale(entries[k], now) && entries[k].value.key != key ==> cleared[k] == entries[k])
  {
  }

  /** In particular a guest login leaves every fresh admin session of another key alone. */
  lemma GuestsNeverEvictAdmins(t: Table, login: Login, i: nat)
    requires Sized(t) && i < MAX_LOGINS && t.admins[i].Some? && t.admins[i].value.key != login.key
    requires !Stale(t.admins[i], login.lastSeen)
    ensures Authenticated(t, login, Guest).admins[i] == t.admins[i]
  {
    LoginDisplacesOldest(t, login, Guest, Admin, i);
  }
}
