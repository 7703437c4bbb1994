/** The bounded, expiring memory of forwarded packet signatures, and its meaning: a question about
    the history of touches. */
module SeenPackets {
  import opened Bytes
  import opened Wrappers

  /** The eight digest bytes of a signature, read as one number. */
  type Signature = u64

  /** One cache entry, and also one record of a touch in a history. */
  datatype Seen = Seen(signature: Signature, at: u64)

  // ---------- Histories, read from their newest end ----------

  function Signatures(history: seq<Seen>): (r: set<Signature>) {
    if history == [] then {} else Signatures(Front(history)) + {Last(history).signature}
  }

  function Front<T>(s: seq<T>): (r: seq<T>)
    requires s != []
    ensures |r| == |s| - 1
  {
    s[..|s| - 1]
  }

  function Last<T>(s: seq<T>): T
    requires s != []
  {
    s[|s| - 1]
  }

  /** Time of the newest touch of `s`. */
  function LastTouch(history: seq<Seen>, s: Signature): (at: Option<u64>) {
    if history == [] then None
    else if Last(history).signature == s then Some(Last(history).at)
    else LastTouch(Front(history), s)
  }

  /** The distinct signatures touched after the newest touch of `s`. */
  function TouchedSince(history: seq<Seen>, s: Signature): (r: set<Signature>) {
    if history == [] || Last(history).signature == s then {}
    else TouchedSince(Front(history), s) + {Last(history).signature}
  }

  /** The history model: remembered means touched at most `ttl` ago, with fewer than `maxEntries`
      distinct signatures touched since. */
  predicate Remembers(history: seq<Seen>, ttl: u64, maxEntries: nat, s: Signature, now: u64) {
    match LastTouch(history, s)
    case None => false
    case Some(at) => now - at <= ttl && |TouchedSince(history, s)| < maxEntries
  }

  // ---------- What the cache operations compute ----------

  function Without(entries: seq<Seen>, s: Signature): (r: seq<Seen>) {
    if entries == [] then []
    else if entries[0].signature == s then entries[1..]
    else [entries[0]] + Without(entries[1..], s)
  }

  /** The newest `n` entries. */
  function Newest(entries: seq<Seen>, n: nat): seq<Seen> {
    if |entries| <= n then entries else entries[|entries| - n..]
  }

  function Touched(entries: seq<Seen>, maxEntries: nat, s: Signature, now: u64): seq<Seen> {
    var kept := Without(entries, s);
    if maxEntries == 0 then kept else Newest(kept, maxEntries - 1) + [Seen(s, now)]
  }

  function Pruned(entries: seq<Seen>, ttl: u64, now: u64): (r: seq<Seen>) {
    if entries == [] || SatSub(now, entries[0].at) <= ttl then entries else Pruned(entries[1..], ttl, now)
  }

  // ---------- The cache itself ----------

  class SeenPacketCache {
    const ttl: u64
    const maxEntries: nat
    var entries: seq<Seen>

    constructor (ttl: u64, maxEntries: nat)
      ensures this.ttl == ttl && this.maxEntries == maxEntries && entries == []
    {
      this.ttl := ttl;
      this.maxEntries := maxEntries;
      entries := [];
    }

    method CheckAndInsert(signature: Signature, now: u64) returns (inserted: bool)
      modifies this
      ensures inserted <==> signature !in Signatures(Pruned(old(entries), ttl, now))
      ensures entries == var p := Pruned(old(entries), ttl, now);
                         if inserted then Touched(p, maxEntries, signature, now) else p
    {
      var seen := Contains(signature, now);
      if seen {
        return false;
      }
      Touch(signature, now);
      return true;
    }

    method Contains(signature: Signature, now: u64) returns (found: bool)
      modifies this
      ensures entries == Pruned(old(entries), ttl, now)
      ensures found <==> signature in Signatures(entries)
    {
      Prune(now);
      var i := 0;
      while i < |entries| && entries[i].signature != signature
        invariant i <= |entries|
        invariant signature !in Signatures(entries[..i])
      {
        i := i + 1;
        assert Front(entries[..i]) == entries[..i - 1];
      }
      found := i < |entries|;
      if found {
        assert Front(entries[..i + 1]) == entries[..i];
        SplitAt(entries[..i + 1], entries[i + 1..], signature);
      }
      assert entries[..|entries|] == entries;
      assert found ==> entries == entries[..i + 1] + entries[i + 1..];
    }

    method Touch(signature: Signature, now: u64)
      modifies this
      ensures entries == Touched(old(entries), maxEntries, signature, now)
    {
      RemoveFirst(signature);
      if maxEntries == 0 {
        return;
      }
      MakeRoom();
      entries := entries + [Seen(signature, now)];
    }

    /** Takes out the entry of the signature, if there is one. */
    method RemoveFirst(signature: Signature)
      modifies this
      ensures entries == Without(old(entries), signature)
    {
      var i := 0;
      while i < |entries| && entries[i].signature != signature
        invariant i <= |entries|
        invariant forall j :: 0 <= j < i ==> entries[j].signature != signature
      {
        i := i + 1;
      }
      WithoutFirst(entries, i, signature);
      if i < |entries| {
        entries := entries[..i] + entries[i + 1..];
      }
    }

    /** Drops the oldest entries until one more fits. */
    method MakeRoom()
      requires maxEntries > 0
      modifies this
      ensures entries == Newest(old(entries), maxEntries - 1)
    {
      while |entries| >= maxEntries
        invariant Newest(entries, maxEntries - 1) == Newest(old(entries), maxEntries - 1)
        decreases |entries|
      {
        entries := entries[1..];
      }
    }

    method Prune(now: u64)
      modifies this
      ensures entries == Pruned(old(entries), ttl, now)
    {
      while entries != []
        invariant Pruned(entries, ttl, now) == Pruned(old(entries), ttl, now)
        decreases |entries|
      {
        if SatSub(now, entries[0].at) <= ttl {
          break;
        }
        entries := entries[1..];
      }
    }
  }

  // ---------- What the cache means ----------

  lemma {:induction false} WithoutFirst(entries: seq<Seen>, i: nat, s: Signature)
    requires i <= |entries| && (i < |entries| ==> entries[i].signature == s)
    requires forall j :: 0 <= j < i ==> entries[j].signature != s
    ensures Without(entries, s) == if i < |entries| then entries[..i] + entries[i + 1..] else entries
  {
    if i == 0 {
    } else {
      WithoutFirst(entries[1..], i - 1, s);
      assert entries == [entries[0]] + entries[1..];
    }
  }

  lemma {:induction false} SplitAt(a: seq<Seen>, b: seq<Seen>, s: Signature)
    ensures Signatures(a + b) == Signatures(a) + Signatures(b)
    ensures s in Signatures(b) ==>
              LastTouch(a + b, s) == LastTouch(b, s) && TouchedSince(a + b, s) == TouchedSince(b, s)
    ensures s !in Signatures(b) ==>
              LastTouch(a + b, s) == LastTouch(a, s) && TouchedSince(a + b, s) == TouchedSince(a, s) + Signatures(b)
  {
    if b == [] {
      assert a + b == a;
    } else {
      assert Front(a + b) == a + Front(b) && Last(a + b) == Last(b);
      SplitAt(a, Front(b), s);
    }
  }

  lemma {:induction false} LastTouchKnown(history: seq<Seen>, s: Signature)
    ensures LastTouch(history, s).Some? <==> s in Signatures(history)
  {
    if history == [] {
    } else {
      LastTouchKnown(Front(history), s);
    }
  }

  lemma {:induction false} AtMostOneEach(entries: seq<Seen>)
    ensures |Signatures(entries)| <= |entries|
  {
    if entries == [] {
    } else {
      AtMostOneEach(Front(entries));
    }
  }

  /** Oldest first, and nothing from after `clock`. */
  ghost predicate Sorted(entries: seq<Seen>, clock: u64) {
    && (forall i, j :: 0 <= i < j < |entries| ==> entries[i].at <= entries[j].at)
    && (forall k :: 0 <= k < |entries| ==> entries[k].at <= clock)
  }

  ghost predicate Distinct(entries: seq<Seen>) {
    |Signatures(entries)| == |entries|
  }

  /** The cache and the history say the same about `s`. */
  ghost predicate Agree(entries: seq<Seen>, history: seq<Seen>, s: Signature) {
    LastTouch(entries, s) == LastTouch(history, s) && TouchedSince(entries, s) == TouchedSince(history, s)
  }

  /** A cache represents a history when they agree on everything cached and everything else is
      already forgotten. */
  ghost predicate Represents(entries: seq<Seen>, history: seq<Seen>, ttl: u64, maxEntries: nat, clock: u64) {
    && Sorted(entries, clock) && Distinct(entries) && |entries| <= maxEntries
    && (forall s: Signature :: s in Signatures(entries) ==> Agree(entries, history, s))
    && (forall s: Signature :: s !in Signatures(entries) ==> !Remembers(history, ttl, maxEntries, s, clock))
  }

  lemma SubsetCount<T>(a: set<T>, b: set<T>)
    requires a <= b
    ensures |a| <= |b|
  {
    if a != {} {
      var x :| x in a;
      SubsetCount(a - {x}, b - {x});
    }
  }

  lemma {:induction false} SinceSubset(history: seq<Seen>, s: Signature)
    ensures TouchedSince(history, s) <= Signatures(history)
    ensures s !in TouchedSince(history, s)
  {
    if history == [] {
    } else {
      SinceSubset(Front(history), s);
    }
  }

  lemma TouchExtends(history: seq<Seen>, touch: Seen, s: Signature)
    ensures touch.signature == s ==> LastTouch(history + [touch], s) == Some(touch.at)
                                     && TouchedSince(history + [touch], s) == {}
    ensures touch.signature != s ==>
              LastTouch(history + [touch], s) == LastTouch(history, s)
              && TouchedSince(history + [touch], s) == TouchedSince(history, s) + {touch.signature}
  {
    assert Front(history + [touch]) == history;
  }

  /** Later touches of other signatures, and the passing of time, never bring a signature back. */
  lemma Forgotten(history: seq<Seen>, ttl: u64, maxEntries: nat, s: Signature, clock: u64, touch: Seen, now: u64)
    requires !Remembers(history, ttl, maxEntries, s, clock) && clock <= now && touch.signature != s
    ensures !Remembers(history, ttl, maxEntries, s, now)
    ensures !Remembers(history + [touch], ttl, maxEntries, s, now)
  {
    TouchExtends(history, touch, s);
    SubsetCount(TouchedSince(history, s), TouchedSince(history + [touch], s));
  }

  /** Dropping the oldest `d` entries keeps agreement on the rest. */
  lemma SuffixAgrees(entries: seq<Seen>, d: nat, s: Signature)
    requires Distinct(entries) && d <= |entries|
    ensures Distinct(entries[d..])
    ensures s in Signatures(entries[d..]) ==> Agree(entries[d..], entries, s)
    ensures s in Signatures(entries) && s !in Signatures(entries[d..]) ==>
              |TouchedSince(entries, s)| >= |entries| - d
              && exists k :: 0 <= k < d && LastTouch(entries, s) == Some(entries[k].at)
  {
    var a, b := entries[..d], entries[d..];
    assert entries == a + b;
    SplitAt(a, b, s);
    AtMostOneEach(a);
    AtMostOneEach(b);
    assert |Signatures(a) + Signatures(b)| <= |Signatures(a)| + |Signatures(b)|;
    if s in Signatures(entries) && s !in Signatures(b) {
      SubsetCount(Signatures(b), TouchedSince(entries, s));
      LastTouchKnown(a, s);
      LastTouchIsEntry(a, s);
    }
  }

  lemma {:induction false} LastTouchIsEntry(entries: seq<Seen>, s: Signature)
    requires LastTouch(entries, s).Some?
    ensures exists k :: 0 <= k < |entries| && entries[k] == Seen(s, LastTouch(entries, s).value)
  {
    if Last(entries).signature != s {
      LastTouchIsEntry(Front(entries), s);
      var k :| 0 <= k < |Front(entries)| && Front(entries)[k] == Seen(s, LastTouch(entries, s).value);
      assert entries[k] == Front(entries)[k];
    }
  }

  /** Pruning looks only at the front, and still drops exactly the expired entries. */
  lemma {:induction false} PrunedIsExact(entries: seq<Seen>, ttl: u64, now: u64) returns (d: nat)
    requires Sorted(entries, now)
    ensures d <= |entries| && Pruned(entries, ttl, now) == entries[d..]
    ensures forall k :: 0 <= k < |entries| ==> (k < d <==> now - entries[k].at > ttl)
  {
    d := 0;
    if entries != [] && SatSub(now, entries[0].at) > ttl {
      var d' := PrunedIsExact(entries[1..], ttl, now);
      d := d' + 1;
      assert forall k :: 1 <= k < |entries| ==> entries[k] == entries[1..][k - 1];
    }
  }

  lemma PrunedOne(entries: seq<Seen>, history: seq<Seen>, ttl: u64, maxEntries: nat, clock: u64, now: u64, d: nat,
      s: Signature)
    requires Represents(entries, history, ttl, maxEntries, clock) && clock <= now && d <= |entries|
    requires forall k :: 0 <= k < d ==> now - entries[k].at > ttl
    ensures s in Signatures(entries[d..]) ==> Agree(entries[d..], history, s)
    ensures s !in Signatures(entries[d..]) ==> !Remembers(history, ttl, maxEntries, s, now)
  {
    SuffixAgrees(entries, d, s);
    SplitAt(entries[..d], entries[d..], s);
    assert entries == entries[..d] + entries[d..];
    assert s in Signatures(entries) ==> Agree(entries, history, s);
  }

  lemma PruneRepresents(entries: seq<Seen>, history: seq<Seen>, ttl: u64, maxEntries: nat, clock: u64, now: u64)
    requires Represents(entries, history, ttl, maxEntries, clock) && clock <= now
    ensures Represents(Pruned(entries, ttl, now), history, ttl, maxEntries, now)
  {
    var d := PrunedIsExact(entries, ttl, now);
    var p := Pruned(entries, ttl, now);
    SuffixAgrees(entries, d, 0);
    assert Sorted(p, now);
    forall s: Signature
      ensures s in Signatures(p) ==> Agree(p, history, s)
      ensures s !in Signatures(p) ==> !Remembers(history, ttl, maxEntries, s, now)
    {
      PrunedOne(entries, history, ttl, maxEntries, clock, now, d, s);
    }
  }

  /** The answer of `Contains` is the history model's answer. */
  lemma ContainsIsRemembers(entries: seq<Seen>, history: seq<Seen>, ttl: u64, maxEntries: nat, clock: u64, now: u64,
                            s: Signature)
    requires Represents(entries, history, ttl, maxEntries, clock) && clock <= now
    ensures s in Signatures(Pruned(entries, ttl, now)) <==> Remembers(history, ttl, maxEntries, s, now)
  {
    var d := PrunedIsExact(entries, ttl, now);
    var p := Pruned(entries, ttl, now);
    PruneRepresents(entries, history, ttl, maxEntries, clock, now);
    if s in Signatures(p) {
      assert Agree(p, history, s);
      LastTouchKnown(p, s);
      LastTouchIsEntry(p, s);
      SinceSubset(p, s);
      AtMostOneEach(p);
      SubsetCount(TouchedSince(p, s) + {s}, Signatures(p));
    }
  }

  function FirstMention(entries: seq<Seen>, s: Signature): (i: nat)
    ensures i <= |entries| && (i < |entries| ==> entries[i].signature == s)
    ensures forall j :: 0 <= j < i ==> entries[j].signature != s
  {
    if entries == [] || entries[0].signature == s then 0 else 1 + FirstMention(entries[1..], s)
  }

  lemma {:induction false} NotMentioned(entries: seq<Seen>, s: Signature)
    requires forall j :: 0 <= j < |entries| ==> entries[j].signature != s
    ensures s !in Signatures(entries)
  {
    if entries == [] {
    } else {
      NotMentioned(Front(entries), s);
    }
  }

  lemma WithoutSplits(entries: seq<Seen>, s: Signature) returns (a: seq<Seen>, m: seq<Seen>, b: seq<Seen>)
    ensures entries == a + m + b && Without(entries, s) == a + b
    ensures s !in Signatures(a)
    ensures if m == [] then b == [] else |m| == 1 && Signatures(m) == {s}
  {
    var i := FirstMention(entries, s);
    WithoutFirst(entries, i, s);
    NotMentioned(entries[..i], s);
    if i == |entries| {
      a, m, b := entries, [], [];
    } else {
      a, m, b := entries[..i], entries[i..i + 1], entries[i + 1..];
      assert Front(m) == [] && Last(m) == entries[i];
    }
  }

  lemma MovedOne(a: seq<Seen>, m: seq<Seen>, b: seq<Seen>, touch: Seen, s: Signature)
    requires Signatures(m) <= {touch.signature}
    requires touch.signature !in Signatures(a) && touch.signature !in Signatures(b)
    ensures Agree(a + b + [touch], a + m + b + [touch], s)
  {
    TouchExtends(a + b, touch, s);
    TouchExtends(a + m + b, touch, s);
    SplitAt(a, b, s);
    SplitAt(a, m, s);
    SplitAt(a + m, b, s);
  }

  lemma CountUnion<T>(a: set<T>, b: set<T>)
    ensures |a + b| <= |a| + |b|
  {
    assert a + b == a + (b - a);
  }

  lemma DisjointParts<T>(a: set<T>, b: set<T>, s: T, na: nat, nb: nat)
    requires |a| <= na && |b| <= nb && |a + b + {s}| == na + nb + 1
    ensures s !in a && s !in b && |a + b| == na + nb
  {
    CountUnion(a, b);
    CountUnion(a + b, {s});
    assert s in a + b ==> a + b + {s} == a + b;
  }

  /** In a list without repeats, the entry for `s` splits off two parts that do not mention `s`. */
  lemma DistinctParts(a: seq<Seen>, m: seq<Seen>, b: seq<Seen>, s: Signature)
    requires Distinct(a + m + b) && |m| == 1 && Signatures(m) == {s}
    ensures s !in Signatures(a) && s !in Signatures(b) && Distinct(a + b)
    ensures Signatures(a + b) + {s} == Signatures(a + m + b)
  {
    SplitAt(a, m, s);
    SplitAt(a + m, b, s);
    SplitAt(a, b, s);
    AtMostOneEach(a);
    AtMostOneEach(b);
    var sa, sb := Signatures(a), Signatures(b);
    assert sa + {s} + sb == sa + sb + {s};
    DisjointParts(sa, sb, s, |a|, |b|);
  }

  lemma WithoutDistinct(entries: seq<Seen>, x: Signature)
    requires Distinct(entries)
    ensures var w := Without(entries, x);
            Distinct(w) && x !in Signatures(w) && Signatures(w) + {x} == Signatures(entries) + {x}
  {
    var a, m, b := WithoutSplits(entries, x);
    SplitAt(a, b, x);
    if m == [] {
      assert entries == a + b;
    } else {
      DistinctParts(a, m, b, x);
    }
  }

  lemma MovedSame(entries: seq<Seen>, touch: Seen, s: Signature)
    requires Distinct(entries)
    ensures Agree(Without(entries, touch.signature) + [touch], entries + [touch], s)
  {
    var a, m, b := WithoutSplits(entries, touch.signature);
    if m == [] {
      assert entries == a + b;
    } else {
      DistinctParts(a, m, b, touch.signature);
      MovedOne(a, m, b, touch, s);
    }
  }

  /** Moving `touch.signature` to the newest place keeps agreement with the extended history. */
  lemma MoveToNewest(entries: seq<Seen>, touch: Seen, s: Signature)
    requires Distinct(entries)
    ensures var kept := Without(entries, touch.signature) + [touch];
            && Distinct(kept) && Signatures(kept) == Signatures(entries) + {touch.signature}
            && Agree(kept, entries + [touch], s)
  {
    WithoutDistinct(entries, touch.signature);
    MovedSame(entries, touch, s);
    assert Front(Without(entries, touch.signature) + [touch]) == Without(entries, touch.signature);
  }

  lemma WithoutKeeps(entries: seq<Seen>, s: Signature, clock: u64)
    requires Sorted(entries, clock)
    ensures Sorted(Without(entries, s), clock) && |Without(entries, s)| <= |entries|
  {
    var a, m, b := WithoutSplits(entries, s);
    SortedParts(a, m, b, clock);
  }

  lemma SortedParts(a: seq<Seen>, m: seq<Seen>, b: seq<Seen>, clock: u64)
    requires Sorted(a + m + b, clock)
    ensures Sorted(a + b, clock)
  {
    var e := a + m + b;
    assert forall i :: 0 <= i < |a + b| ==> (a + b)[i] == e[if i < |a| then i else i + |m|];
  }

  lemma SortedSuffix(kept: seq<Seen>, d: nat, touch: Seen, clock: u64)
    requires Sorted(kept, clock) && clock <= touch.at && d <= |kept| + 1
    ensures Sorted((kept + [touch])[d..], touch.at)
  {
  }

  lemma KeptAgrees(entries: seq<Seen>, history: seq<Seen>, touch: Seen, s: Signature)
    requires Distinct(entries)
    requires s != touch.signature ==> Agree(entries, history, s)
    ensures Agree(Without(entries, touch.signature) + [touch], history + [touch], s)
  {
    MovedSame(entries, touch, s);
    TouchExtends(history, touch, s);
    TouchExtends(entries, touch, s);
  }

  lemma TouchedOne(entries: seq<Seen>, history: seq<Seen>, ttl: u64, maxEntries: nat, clock: u64, touch: Seen,
      d: nat, s: Signature)
    requires Represents(entries, history, ttl, maxEntries, clock) && clock <= touch.at
    requires var kept := Without(entries, touch.signature) + [touch];
             d <= |kept| && (d > 0 ==> |kept| - d >= maxEntries)
    ensures var entries' := (Without(entries, touch.signature) + [touch])[d..];
            && (s in Signatures(entries') ==> Agree(entries', history + [touch], s))
            && (s !in Signatures(entries') ==> !Remembers(history + [touch], ttl, maxEntries, s, touch.at))
  {
    var kept := Without(entries, touch.signature) + [touch];
    MoveToNewest(entries, touch, s);
    if s in Signatures(kept) {
      KeptAgrees(entries, history, touch, s);
      SuffixAgrees(kept, d, s);
    } else {
      Forgotten(history, ttl, maxEntries, s, clock, touch, touch.at);
    }
    assert s in Signatures(kept[d..]) ==> s in Signatures(kept) by {
      SplitAt(kept[..d], kept[d..], s);
      assert kept == kept[..d] + kept[d..];
    }
  }

  /** What a touch leaves is the newest part of the list with the touched signature moved to its end. */
  lemma TouchedIsSuffix(entries: seq<Seen>, maxEntries: nat, touch: Seen) returns (d: nat)
    requires |Without(entries, touch.signature)| <= maxEntries
    ensures var kept := Without(entries, touch.signature) + [touch];
            && d <= |kept| && Touched(entries, maxEntries, touch.signature, touch.at) == kept[d..]
            && |kept| - d <= maxEntries && (d > 0 ==> |kept| - d >= maxEntries)
  {
    var w := Without(entries, touch.signature);
    d := if |w| < maxEntries then 0 else 1;
    if maxEntries > 0 && |w| == maxEntries {
      assert (w + [touch])[1..] == w[1..] + [touch];
    }
  }

  lemma TouchRepresents(entries: seq<Seen>, history: seq<Seen>, ttl: u64, maxEntries: nat, clock: u64, touch: Seen)
    requires Represents(entries, history, ttl, maxEntries, clock) && clock <= touch.at
    ensures Represents(Touched(entries, maxEntries, touch.signature, touch.at), history + [touch],
                       ttl, maxEntries, touch.at)
  {
    WithoutKeeps(entries, touch.signature, clock);
    var d := TouchedIsSuffix(entries, maxEntries, touch);
    MoveToNewest(entries, touch, touch.signature);
    SuffixAgrees(Without(entries, touch.signature) + [touch], d, touch.signature);
    SortedSuffix(Without(entries, touch.signature), d, touch, clock);
    forall s: Signature {
      TouchedOne(entries, history, ttl, maxEntries, clock, touch, d, s);
    }
  }

  // ---------- Whole runs ----------

  datatype Op = Touch(signature: Signature, at: u64) | Contains(signature: Signature, at: u64) | Prune(at: u64)
              | CheckAndInsert(signature: Signature, at: u64)

  /** Cache contents and the touches that really happened, after a run of operations. */
  function RunOps(ops: seq<Op>, ttl: u64, maxEntries: nat): (seq<Seen>, seq<Seen>) {
    if ops == [] then ([], [])
    else
      var (entries, history) := RunOps(Front(ops), ttl, maxEntries);
      match Last(ops)
      case Touch(s, at) => (Touched(entries, maxEntries, s, at), history + [Seen(s, at)])
      case Contains(_, at) => (Pruned(entries, ttl, at), history)
      case Prune(at) => (Pruned(entries, ttl, at), history)
      case CheckAndInsert(s, at) =>
        var p := Pruned(entries, ttl, at);
        if s in Signatures(p) then (p, history)
        else (Touched(p, maxEntries, s, at), history + [Seen(s, at)])
  }

  ghost predicate Monotone(ops: seq<Op>) {
    forall i, j :: 0 <= i < j < |ops| ==> ops[i].at <= ops[j].at
  }

  function ClockOf(ops: seq<Op>): u64 {
    if ops == [] then 0 else Last(ops).at
  }

  lemma {:induction false} RunRepresents(ops: seq<Op>, ttl: u64, maxEntries: nat)
    requires Monotone(ops)
    ensures var (entries, history) := RunOps(ops, ttl, maxEntries);
            Represents(entries, history, ttl, maxEntries, ClockOf(ops))
  {
    if ops == [] {
    } else {
      var front, at := Front(ops), Last(ops).at;
      RunRepresents(front, ttl, maxEntries);
      var (e, h) := RunOps(front, ttl, maxEntries);
      PruneRepresents(e, h, ttl, maxEntries, ClockOf(front), at);
      match Last(ops)
      case Touch(s, _) => TouchRepresents(e, h, ttl, maxEntries, ClockOf(front), Seen(s, at));
      case CheckAndInsert(s, _) => TouchRepresents(Pruned(e, ttl, at), h, ttl, maxEntries, at, Seen(s, at));
      case _ =>
    }
  }

  /** Over every run with a clock that does not go back, the cache answers as the history does. */
  lemma CacheRefinesHistory(ops: seq<Op>, ttl: u64, maxEntries: nat, s: Signature, now: u64)
    requires Monotone(ops) && ClockOf(ops) <= now
    ensures var (entries, history) := RunOps(ops, ttl, maxEntries);
            s in Signatures(Pruned(entries, ttl, now)) <==> Remembers(history, ttl, maxEntries, s, now)
  {
    RunRepresents(ops, ttl, maxEntries);
    var (entries, history) := RunOps(ops, ttl, maxEntries);
    ContainsIsRemembers(entries, history, ttl, maxEntries, ClockOf(ops), now, s);
  }
}
