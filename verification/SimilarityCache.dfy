/**
 The similarity cache of skill searches: a map of entries, a list of their keys from least to most recently used,
 and hits on equal or similar queries.
 Query normalisation is given; times are milliseconds.
 */
module SimilarityCache {
  import opened Basics
  import opened Trigrams

  /** A normalised query, as bytes. */
  type Key = seq<byte>

  datatype Entry = Entry(query: Key, trigrams: seq<int>, results: seq<string>, createdAt: int)

  datatype Cache = Cache(entries: map<Key, Entry>, order: seq<Key>)

  /** What has been done with a cache so far. */
  datatype Use = Stored(key: Key, results: seq<string>, at: int) | Hit(key: Key)

  const THRESHOLD := 0.7

  // ----- uses

  function LastUse(uses: seq<Use>, key: Key): (i: int)
    ensures -1 <= i < |uses|
  {
    if uses == [] then -1
    else if uses[|uses| - 1].key == key then |uses| - 1
    else LastUse(uses[..|uses| - 1], key)
  }

  function LastStored(uses: seq<Use>, key: Key): Option<Use> {
    if uses == [] then None
    else if uses[|uses| - 1].Stored? && uses[|uses| - 1].key == key then Some(uses[|uses| - 1])
    else LastStored(uses[..|uses| - 1], key)
  }

  lemma UsesGrow(uses: seq<Use>, use: Use, key: Key)
    ensures LastUse(uses + [use], key) == if use.key == key then |uses| else LastUse(uses, key)
    ensures LastStored(uses + [use], key) == if use.Stored? && use.key == key then Some(use) else LastStored(uses, key)
  {
    assert (uses + [use])[..|uses|] == uses;
  }

  // ----- the list of keys

  function Removed(order: seq<Key>, key: Key): seq<Key> {
    if order == [] then [] else if order[0] == key then order[1..] else [order[0]] + Removed(order[1..], key)
  }

  lemma RemovedLater(order: seq<Key>, key: Key)
    requires order != [] && order[0] != key
    ensures Removed(order, key) == [order[0]] + Removed(order[1..], key)
  {
  }

  lemma {:induction false} RemovedAt(order: seq<Key>, key: Key, i: nat)
    requires i <= |order| && forall k :: 0 <= k < i ==> order[k] != key
    requires i < |order| ==> order[i] == key
    ensures Removed(order, key) == if i < |order| then order[..i] + order[i + 1..] else order
  {
    if i == 0 {
    } else {
      var rest := order[1..];
      RemovedAt(rest, key, i - 1);
      hide Removed;
      if i < |order| {
        assert rest[i - 1] == order[i];
        assert order[..i] + order[i + 1..] == [order[0]] + (rest[..i - 1] + rest[i..]);
      }
      assert Removed(order, key) == [order[0]] + Removed(rest, key) by { RemovedLater(order, key); }
    }
  }

  predicate Live(entry: Entry, now: int, ttl: int) { now - entry.createdAt < ttl }

  function LiveOrder(c: Cache, order: seq<Key>, now: int, ttl: int): seq<Key> {
    if order == [] then []
    else
      var last := order[|order| - 1];
      LiveOrder(c, order[..|order| - 1], now, ttl) + if last in c.entries && Live(c.entries[last], now, ttl) then [last] else []
  }

  // ----- what every reachable cache satisfies

  ghost predicate ByUse(order: seq<Key>, uses: seq<Use>) {
    forall i, j :: 0 <= i < j < |order| ==> LastUse(uses, order[i]) < LastUse(uses, order[j])
  }

  ghost predicate Listed(c: Cache) { forall key :: key in c.order <==> key in c.entries }

  ghost predicate IsEntryOf(entry: Entry, key: Key, uses: seq<Use>) {
    && key != [] && entry.query == key
    && Increasing(entry.trigrams) && Elements(entry.trigrams) == Windows(key)
    && LastStored(uses, key) == Some(Stored(key, entry.results, entry.createdAt))
  }

  ghost predicate Recorded(c: Cache, uses: seq<Use>) {
    forall key :: key in c.entries ==> IsEntryOf(c.entries[key], key, uses)
  }

  /** The list holds exactly the keys of the entries, least recently used first, and entries are what was last stored. */
  ghost predicate WellKept(c: Cache, uses: seq<Use>) {
    Listed(c) && ByUse(c.order, uses) && Recorded(c, uses)
  }

  /** So no key is listed twice, and the list is as long as the map. */
  lemma ListedOnce(c: Cache, uses: seq<Use>)
    requires WellKept(c, uses)
    ensures forall i, j :: 0 <= i < j < |c.order| ==> c.order[i] != c.order[j]
    ensures |c.order| == |c.entries|
  {
    DistinctSize(c.order);
    assert (set key | key in c.order) == c.entries.Keys;
  }

  lemma {:induction false} DistinctSize(order: seq<Key>)
    requires forall i, j :: 0 <= i < j < |order| ==> order[i] != order[j]
    ensures |set key | key in order| == |order|
  {
    if order == [] {
    } else {
      var most, last := order[..|order| - 1], order[|order| - 1];
      DistinctSize(most);
      assert order == most + [last];
      assert (set key | key in order) == (set key | key in most) + {last};
    }
  }

  // ----- the steps of a put

  function MovedToEnd(c: Cache, key: Key): Cache { c.(order := Removed(c.order, key) + [key]) }

  function Evicted(c: Cache, now: int, ttl: int): Cache {
    Cache(map key | key in c.entries && Live(c.entries[key], now, ttl) :: c.entries[key], LiveOrder(c, c.order, now, ttl))
  }

  /** The least recently used entries make room for one more. */
  function WithRoom(c: Cache, maxEntries: nat): Cache
    decreases |c.order|
  {
    if |c.entries| >= maxEntries && c.order != [] then
      WithRoom(Cache(c.entries - {c.order[0]}, c.order[1..]), maxEntries)
    else c
  }

  function AfterPut(c: Cache, entry: Entry, now: int, ttl: int, maxEntries: nat): Cache {
    var live := Evicted(c, now, ttl);
    if entry.query in live.entries then MovedToEnd(live.(entries := live.entries[entry.query := entry]), entry.query)
    else
      var room := WithRoom(live, maxEntries);
      Cache(room.entries[entry.query := entry], room.order + [entry.query])
  }

  lemma {:induction false} RemovedSpec(order: seq<Key>, key: Key, uses: seq<Use>)
    requires ByUse(order, uses)
    ensures ByUse(Removed(order, key), uses) && |Removed(order, key)| <= |order|
    ensures forall k :: k in Removed(order, key) <==> k in order && k != key
  {
    hide LastUse;
    if order == [] {
    } else {
      RemovedSpec(order[1..], key, uses);
      var rest := Removed(order[1..], key);
      assert order == [order[0]] + order[1..];
      forall k | 0 <= k < |rest| ensures LastUse(uses, order[0]) < LastUse(uses, rest[k]) {
        assert rest[k] in order[1..];
      }
    }
  }

  /** Using a key that is not listed puts it last. */
  lemma UsedLast(order: seq<Key>, uses: seq<Use>, use: Use)
    requires ByUse(order, uses) && use.key !in order
    ensures ByUse(order + [use.key], uses + [use])
  {
    hide LastUse;
    var longer := order + [use.key];
    forall i | 0 <= i < |longer| ensures LastUse(uses + [use], longer[i]) == if i < |order| then LastUse(uses, order[i]) else |uses| {
      UsesGrow(uses, use, longer[i]);
    }
  }

  lemma RecordedAfter(c: Cache, uses: seq<Use>, use: Use)
    requires Recorded(c, uses)
    requires use.Stored? ==> use.key !in c.entries
    ensures Recorded(c, uses + [use])
  {
    hide LastStored, LastUse;
    forall key | key in c.entries ensures IsEntryOf(c.entries[key], key, uses + [use]) {
      UsesGrow(uses, use, key);
    }
  }

  lemma HitKeeps(c: Cache, uses: seq<Use>, key: Key)
    requires WellKept(c, uses) && key in c.entries
    ensures WellKept(MovedToEnd(c, key), uses + [Hit(key)])
  {
    hide IsEntryOf, ByUse;
    RemovedSpec(c.order, key, uses);
    UsedLast(Removed(c.order, key), uses, Hit(key));
    RecordedAfter(c, uses, Hit(key));
  }

  lemma {:induction false} LiveOrderSpec(c: Cache, order: seq<Key>, now: int, ttl: int, uses: seq<Use>)
    requires ByUse(order, uses)
    ensures ByUse(LiveOrder(c, order, now, ttl), uses)
    ensures forall key :: key in LiveOrder(c, order, now, ttl) <==>
      key in order && key in c.entries && Live(c.entries[key], now, ttl)
    decreases |order|
  {
    if order == [] {
    } else {
      hide LastUse;
      var most, last := order[..|order| - 1], order[|order| - 1];
      LiveOrderSpec(c, most, now, ttl, uses);
      var kept := LiveOrder(c, most, now, ttl);
      assert order == most + [last];
      forall k | 0 <= k < |kept| ensures LastUse(uses, kept[k]) < LastUse(uses, last) {
        assert kept[k] in most;
      }
    }
  }

  lemma EvictKeeps(c: Cache, uses: seq<Use>, now: int, ttl: int)
    requires WellKept(c, uses)
    ensures WellKept(Evicted(c, now, ttl), uses)
  {
    hide IsEntryOf, ByUse, LiveOrder;
    LiveOrderSpec(c, c.order, now, ttl, uses);
  }

  lemma DropKeeps(c: Cache, uses: seq<Use>, key: Key)
    requires WellKept(c, uses)
    ensures WellKept(Cache(c.entries - {key}, Removed(c.order, key)), uses)
  {
    hide IsEntryOf, ByUse, Removed;
    RemovedSpec(c.order, key, uses);
  }

  lemma AddKeeps(c: Cache, uses: seq<Use>, entry: Entry)
    requires WellKept(c, uses) && entry.query !in c.entries && entry.query != []
    requires Increasing(entry.trigrams) && Elements(entry.trigrams) == Windows(entry.query)
    ensures WellKept(Cache(c.entries[entry.query := entry], c.order + [entry.query]),
                     uses + [Stored(entry.query, entry.results, entry.createdAt)])
  {
    hide ByUse, Increasing, Elements, Windows, LastUse, LastStored;
    var use := Stored(entry.query, entry.results, entry.createdAt);
    UsedLast(c.order, uses, use);
    RecordedAfter(c, uses, use);
    UsesGrow(uses, use, entry.query);
  }

  lemma UpdateKeeps(c: Cache, uses: seq<Use>, entry: Entry)
    requires WellKept(c, uses) && entry.query != []
    requires Increasing(entry.trigrams) && Elements(entry.trigrams) == Windows(entry.query)
    ensures WellKept(MovedToEnd(c.(entries := c.entries[entry.query := entry]), entry.query),
                     uses + [Stored(entry.query, entry.results, entry.createdAt)])
  {
    hide WellKept, Increasing, Elements, Windows, Removed;
    DropKeeps(c, uses, entry.query);
    AddKeeps(Cache(c.entries - {entry.query}, Removed(c.order, entry.query)), uses, entry);
    assert (c.entries - {entry.query})[entry.query := entry] == c.entries[entry.query := entry];
  }

  lemma {:induction false} RoomKeeps(c: Cache, uses: seq<Use>, maxEntries: nat)
    requires WellKept(c, uses)
    ensures WellKept(WithRoom(c, maxEntries), uses)
    ensures WithRoom(c, maxEntries).entries.Keys <= c.entries.Keys
    ensures maxEntries > 0 ==> |WithRoom(c, maxEntries).entries| < maxEntries
    decreases |c.order|
  {
    ListedOnce(c, uses);
    hide WellKept;
    if |c.entries| < maxEntries || c.order == [] {
    } else {
      DropKeeps(c, uses, c.order[0]);
      RoomKeeps(Cache(c.entries - {c.order[0]}, c.order[1..]), uses, maxEntries);
    }
  }

  /** A put keeps the cache well kept and within its size. */
  lemma PutKeeps(c: Cache, uses: seq<Use>, entry: Entry, now: int, ttl: int, maxEntries: nat)
    requires WellKept(c, uses) && |c.entries| <= maxEntries && maxEntries > 0
    requires entry.query != [] && entry.createdAt == now
    requires Increasing(entry.trigrams) && Elements(entry.trigrams) == Windows(entry.query)
    ensures WellKept(AfterPut(c, entry, now, ttl, maxEntries), uses + [Stored(entry.query, entry.results, now)])
    ensures |AfterPut(c, entry, now, ttl, maxEntries).entries| <= maxEntries
  {
    hide WellKept, Increasing, Elements, Windows, WithRoom, Evicted, MovedToEnd;
    var live := Evicted(c, now, ttl);
    EvictKeeps(c, uses, now, ttl);
    EvictShrinks(c, now, ttl);
    if entry.query in live.entries {
      UpdateKeeps(live, uses, entry);
      MovingKeepsEntries(live.(entries := live.entries[entry.query := entry]), entry.query);
      assert live.entries[entry.query := entry].Keys == live.entries.Keys;
    } else {
      RoomKeeps(live, uses, maxEntries);
      AddKeeps(WithRoom(live, maxEntries), uses, entry);
    }
  }

  lemma MovingKeepsEntries(c: Cache, key: Key)
    ensures MovedToEnd(c, key).entries == c.entries
  {
  }

  lemma EvictShrinks(c: Cache, now: int, ttl: int)
    ensures |Evicted(c, now, ttl).entries| <= |c.entries|
  {
    hide LiveOrder;
    SubsetSize(Evicted(c, now, ttl).entries.Keys, c.entries.Keys);
  }

  lemma SubsetSize(part: set<Key>, whole: set<Key>)
    requires part <= whole
    ensures |part| <= |whole|
  {
    assert whole == part + (whole - part);
  }

  // ----- what a put removes

  /** `key` was used before every other key of the cache. */
  ghost predicate LeastRecent(c: Cache, uses: seq<Use>, key: Key) {
    key in c.entries && forall other :: other in c.entries && other != key ==> LastUse(uses, key) < LastUse(uses, other)
  }

  lemma FirstIsLeastRecent(c: Cache, uses: seq<Use>, key: Key)
    requires WellKept(c, uses) && c.order != []
    ensures LeastRecent(c, uses, key) <==> key == c.order[0]
  {
    hide LastUse;
    forall other | other in c.entries && other != c.order[0] ensures LastUse(uses, c.order[0]) < LastUse(uses, other) {
      var k :| 0 <= k < |c.order| && c.order[k] == other;
    }
    assert c.order[0] in c.order;
  }

  /**
   After a put the cache holds the new key and exactly the old keys that are not expired, except that a full cache
   loses the least recently used of them when the key is new.
   */
  lemma PutRemovesExactly(c: Cache, uses: seq<Use>, entry: Entry, now: int, ttl: int, maxEntries: nat, key: Key)
    requires WellKept(c, uses) && |c.entries| <= maxEntries && maxEntries > 0
    ensures var live := Evicted(c, now, ttl); var after := AfterPut(c, entry, now, ttl, maxEntries);
      key in after.entries <==>
        || key == entry.query
        || (key in c.entries && now - c.entries[key].createdAt < ttl
            && !(entry.query !in live.entries && |live.entries| == maxEntries && LeastRecent(live, uses, key)))
    ensures key in AfterPut(c, entry, now, ttl, maxEntries).entries && key != entry.query ==>
      AfterPut(c, entry, now, ttl, maxEntries).entries[key] == c.entries[key]
  {
    hide WellKept, LeastRecent, Removed, LiveOrder;
    var live := Evicted(c, now, ttl);
    EvictKeeps(c, uses, now, ttl);
    EvictShrinks(c, now, ttl);
    ListedOnce(live, uses);
    if live.order != [] {
      FirstIsLeastRecent(live, uses, key);
      if |live.entries| == maxEntries {
        assert live.order[0] in live.entries by { ListedIsEntry(live, uses, 0); }
        var less := Cache(live.entries - {live.order[0]}, live.order[1..]);
        assert less.entries.Keys == live.entries.Keys - {live.order[0]};
        assert WithRoom(less, maxEntries) == less;
      }
    }
  }

  // ----- lookups

  /** How similar two normalised queries are. */
  function Score(a: Key, b: Key): real { Jaccard(Windows(a), Windows(b)) }

  predicate Current(c: Cache, key: Key, now: int, ttl: int) { key in c.entries && Live(c.entries[key], now, ttl) }

  /** The entry of `key` is the one to answer `query`: its own if it is current, otherwise a most similar one that is similar enough. */
  ghost predicate Answers(c: Cache, query: Key, now: int, ttl: int, key: Key) {
    && query != [] && Current(c, key, now, ttl)
    && if Current(c, query, now, ttl) then key == query
       else
         && Score(query, key) >= THRESHOLD
         && forall other :: Current(c, other, now, ttl) ==> Score(query, other) <= Score(query, key)
  }

  /**
   Queries shorter than three bytes have no windows, so any two of them count as equal:
   one is answered with the results of another even when they have no byte in common.
   */
  lemma ShortQueriesAnswerEachOther(c: Cache, query: Key, now: int, ttl: int, key: Key)
    requires 0 < |query| < 3 && |key| < 3
    requires Current(c, key, now, ttl) && !Current(c, query, now, ttl)
    ensures Answers(c, query, now, ttl, key)
  {
    assert Windows(query) == {} && Windows(key) == {};
    forall other | Current(c, other, now, ttl) ensures Score(query, other) <= 1.0 {
      JaccardLaws(Windows(query), Windows(other));
    }
  }

  /** A similar answer is a perfect match exactly when the queries have the same windows. */
  lemma PerfectScore(query: Key, key: Key)
    ensures Score(query, key) == Score(key, query)
    ensures Score(query, key) == 1.0 <==> Windows(query) == Windows(key)
    ensures 0.0 <= Score(query, key) <= 1.0
  {
    JaccardLaws(Windows(query), Windows(key));
  }

  /** At least 70% of the windows are common to both queries. */
  predicate Alike(query: Key, key: Key) {
    10 * |Windows(query) * Windows(key)| >= 7 * |Windows(query) + Windows(key)|
  }

  lemma ScoreIsAlike(query: Key, key: Key)
    ensures Score(query, key) >= THRESHOLD <==> Alike(query, key)
  {
    hide Windows;
    var common, all := |Windows(query) * Windows(key)|, |Windows(query) + Windows(key)|;
    JaccardCounts(Windows(query), Windows(key));
    JaccardLaws(Windows(query), Windows(key));
    assert common <= all by { SubsetOfAll(Windows(query), Windows(key)); }
    hide Jaccard;
    Threshold(Score(query, key), common, all);
  }

  lemma SubsetOfAll(a: set<int>, b: set<int>)
    ensures |a * b| <= |a + b|
  {
    assert a + b == a * b + (a + b - a * b);
  }

  lemma Threshold(score: real, common: nat, all: nat)
    requires score * all as real == common as real && common <= all && (all == 0 ==> score == 1.0)
    ensures score >= 0.7 <==> 10 * common >= 7 * all
  {
    if all > 0 {
      Sign(score - 0.7, all as real);
      Tenths(score, common, all);
    }
  }

  lemma Sign(x: real, d: real)
    requires d > 0.0
    ensures x >= 0.0 <==> x * d >= 0.0
  {
    if x < 0.0 {
      assert x * d < 0.0;
    }
  }

  lemma Tenths(score: real, common: nat, all: nat)
    requires score * all as real == common as real
    ensures (score - 0.7) * all as real >= 0.0 <==> 10 * common >= 7 * all
  {
    assert (score - 0.7) * all as real == common as real - 0.7 * all as real;
    assert (10 * common) as real == 10.0 * common as real && (7 * all) as real == 7.0 * all as real;
  }

  /** A query is answered if and only if some entry younger than the time to live has an alike query. */
  lemma AnsweredExactly(c: Cache, query: Key, now: int, ttl: int)
    ensures (forall key :: Current(c, key, now, ttl) ==> Score(query, key) < THRESHOLD) <==>
      forall key :: key in c.entries && now - c.entries[key].createdAt < ttl ==> !Alike(query, key)
  {
    hide Score, Alike;
    forall key ensures Score(query, key) >= THRESHOLD <==> Alike(query, key) {
      ScoreIsAlike(query, key);
    }
  }

  /** What has been put is what its query is answered with, for less than the time to live and no longer. */
  lemma PutThenAnswers(c: Cache, entry: Entry, now: int, ttl: int, maxEntries: nat, later: int, key: Key)
    requires entry.query != []
    ensures var after := AfterPut(c, entry, now, ttl, maxEntries);
      && after.entries[entry.query] == entry
      && (Current(after, entry.query, later, ttl) <==> later - entry.createdAt < ttl)
      && (later - entry.createdAt < ttl ==> (Answers(after, entry.query, later, ttl, key) <==> key == entry.query))
  {
    hide Removed, Evicted, WithRoom, Score;
  }

  /** Of the current keys in `seen`, `best` is one with the highest positive score. */
  ghost predicate BestAmong(c: Cache, query: Key, now: int, ttl: int, seen: set<Key>, best: Option<Key>, score: real) {
    && (best.None? ==> score == 0.0)
    && (best.Some? ==> Current(c, best.value, now, ttl) && Score(query, best.value) == score)
    && forall other :: other in seen && Current(c, other, now, ttl) ==> Score(query, other) <= score
  }

  lemma BestOfNone(c: Cache, query: Key, now: int, ttl: int)
    ensures BestAmong(c, query, now, ttl, c.entries.Keys - c.entries.Keys, None, 0.0)
  {
  }

  lemma BestStep(c: Cache, query: Key, now: int, ttl: int, seen: set<Key>, best: Option<Key>, score: real, key: Key)
    requires BestAmong(c, query, now, ttl, seen, best, score)
    ensures !Current(c, key, now, ttl) || Score(query, key) <= score ==>
      BestAmong(c, query, now, ttl, seen + {key}, best, score)
    ensures Current(c, key, now, ttl) && Score(query, key) > score ==>
      BestAmong(c, query, now, ttl, seen + {key}, Some(key), Score(query, key))
  {
  }

  /** The most similar current key answers, if it is similar enough; otherwise none is. */
  lemma BestAnswers(c: Cache, query: Key, now: int, ttl: int, best: Option<Key>, score: real)
    requires BestAmong(c, query, now, ttl, c.entries.Keys, best, score)
    requires query != [] && !Current(c, query, now, ttl)
    ensures score >= THRESHOLD ==> best.Some? && Answers(c, query, now, ttl, best.value)
    ensures score < THRESHOLD ==> forall other :: Current(c, other, now, ttl) ==> Score(query, other) < THRESHOLD
    ensures score >= THRESHOLD ==> exists other :: Current(c, other, now, ttl) && Score(query, other) >= THRESHOLD
  {
    hide Score;
  }

  // ----- the cache as it runs

  class SearchCache {
    const normalize: string -> Key
    const maxEntries: nat
    const ttl: int
    var entries: map<Key, Entry>
    var order: seq<Key>
    ghost var uses: seq<Use>

    function State(): Cache
      reads this
    {
      Cache(entries, order)
    }

    ghost predicate Valid()
      reads this
    {
      maxEntries > 0 && |entries| <= maxEntries && WellKept(State(), uses)
    }

    constructor (normalize: string -> Key, maxEntries: int, ttl: int)
      ensures Valid() && entries == map[] && uses == [] && this.normalize == normalize
      ensures this.maxEntries == if maxEntries <= 0 then 50 else maxEntries
      ensures this.ttl == if ttl <= 0 then 5 * 60_000 else ttl
    {
      this.normalize := normalize;
      this.maxEntries := if maxEntries <= 0 then 50 else maxEntries;
      this.ttl := if ttl <= 0 then 5 * 60_000 else ttl;
      entries, order, uses := map[], [], [];
    }

    method MoveToEnd(key: Key)
      modifies this`order
      ensures State() == MovedToEnd(old(State()), key)
    {
      var i := 0;
      while i < |order| && order[i] != key
        invariant i <= |order| && forall k :: 0 <= k < i ==> order[k] != key
      {
        i := i + 1;
      }
      RemovedAt(order, key, i);
      if i < |order| {
        order := order[..i] + order[i + 1..];
      }
      order := order + [key];
    }

    /** A lookup hits exactly when some current key is similar enough. A hit is the last results stored under the key that answers. */
    method Get(query: string, now: int) returns (found: Option<seq<string>>, ghost key: Key)
      requires Valid()
      modifies this`order, this`uses
      ensures Valid()
      ensures found.None? <==>
        normalize(query) == []
        || forall other :: Current(old(State()), other, now, ttl) ==> Score(normalize(query), other) < THRESHOLD
      ensures found.None? <==>
        normalize(query) == []
        || forall other :: other in entries && now - entries[other].createdAt < ttl ==> !Alike(normalize(query), other)
      ensures found.None? ==> order == old(order) && uses == old(uses)
      ensures found.Some? ==>
        && Answers(old(State()), normalize(query), now, ttl, key)
        && LastStored(old(uses), key) == Some(Stored(key, found.value, entries[key].createdAt))
        && now - entries[key].createdAt < ttl
        && State() == MovedToEnd(old(State()), key)
        && uses == old(uses) + [Hit(key)]
    {
      found, key := None, [];
      var normalized := normalize(query);
      AnsweredExactly(State(), normalized, now, ttl);
      if normalized == [] {
        return;
      }
      if normalized in entries && now - entries[normalized].createdAt < ttl {
        PerfectScore(normalized, normalized);
        key := normalized;
        found := Touch(normalized);
        return;
      }
      var best, similarity := MostSimilar(normalized, now);
      BestAnswers(State(), normalized, now, ttl, best, similarity);
      if similarity >= THRESHOLD && best.Some? {
        key := best.value;
        found := Touch(best.value);
      }
    }

    method MostSimilar(normalized: Key, now: int) returns (best: Option<Key>, bestSimilarity: real)
      requires Valid()
      ensures BestAmong(State(), normalized, now, ttl, entries.Keys, best, bestSimilarity)
    {
      var queryTrigrams := BuildTrigrams(normalized);
      best, bestSimilarity := None, 0.0;
      var rest := entries.Keys;
      BestOfNone(State(), normalized, now, ttl);
      while rest != {}
        invariant rest <= entries.Keys
        invariant BestAmong(State(), normalized, now, ttl, entries.Keys - rest, best, bestSimilarity)
        decreases rest
      {
        hide BestAmong, ByUse, Listed;
        var k :| k in rest;
        BestStep(State(), normalized, now, ttl, entries.Keys - rest, best, bestSimilarity, k);
        rest := rest - {k};
        assert entries.Keys - rest == entries.Keys - (rest + {k}) + {k};
        var entry := entries[k];
        if now - entry.createdAt >= ttl {
          continue;
        }
        assert IsEntryOf(entry, k, uses);
        var similarity := JaccardSimilarity(queryTrigrams, entry.trigrams);
        if similarity > bestSimilarity {
          best, bestSimilarity := Some(k), similarity;
        }
      }
      assert entries.Keys - {} == entries.Keys;
    }

    /** The results of a key that is being used. */
    method Touch(key: Key) returns (found: Option<seq<string>>)
      requires Valid() && key in entries
      modifies this`order, this`uses
      ensures Valid() && found == Some(entries[key].results)
      ensures LastStored(old(uses), key) == Some(Stored(key, entries[key].results, entries[key].createdAt))
      ensures State() == MovedToEnd(old(State()), key) && uses == old(uses) + [Hit(key)]
    {
      HitKeeps(State(), uses, key);
      assert IsEntryOf(entries[key], key, uses);
      MoveToEnd(key);
      uses := uses + [Hit(key)];
      found := Some(entries[key].results);
    }

    method EvictExpired(now: int)
      requires Valid()
      modifies this`entries, this`order
      ensures Valid() && State() == Evicted(old(State()), now, ttl)
    {
      hide WellKept, LiveOrder, Evicted, EvictedBefore;
      ghost var was := State();
      EvictKeeps(was, uses, now, ttl);
      EvictShrinks(was, now, ttl);
      var newOrder: seq<Key> := [];
      EvictNone(was, now, ttl);
      for i := 0 to |order|
        invariant order == was.order
        invariant newOrder == LiveOrder(was, order[..i], now, ttl)
        invariant entries == EvictedBefore(was, i, now, ttl)
      {
        EvictStep(was, uses, i, now, ttl);
        LiveOrderStep(was, i, now, ttl);
        var key := order[i];
        if key !in entries || now - entries[key].createdAt >= ttl {
          entries := entries - {key};
          continue;
        }
        newOrder := newOrder + [key];
      }
      EvictedAll(was, uses, now, ttl);
      order := newOrder;
    }

    method MakeRoom()
      modifies this`entries, this`order
      ensures State() == WithRoom(old(State()), maxEntries)
    {
      hide WithRoom;
      RoomStep(State(), maxEntries);
      while |entries| >= maxEntries && |order| > 0
        invariant WithRoom(State(), maxEntries) == WithRoom(old(State()), maxEntries)
        decreases |order|
      {
        RoomStep(State(), maxEntries);
        var oldest := order[0];
        order := order[1..];
        entries := entries - {oldest};
      }
      RoomStep(State(), maxEntries);
    }

    /** Stores the results under the normalised query. */
    method Put(query: string, results: seq<string>, now: int)
      requires Valid()
      modifies this
      ensures Valid()
      ensures normalize(query) == [] ==> State() == old(State()) && uses == old(uses)
      ensures normalize(query) != [] ==>
        && uses == old(uses) + [Stored(normalize(query), results, now)]
        && normalize(query) in entries
        && entries[normalize(query)] == Entry(normalize(query), entries[normalize(query)].trigrams, results, now)
        && State() == AfterPut(old(State()), entries[normalize(query)], now, ttl, maxEntries)
    {
      hide WellKept, WithRoom, Evicted, Increasing, Elements, Windows, Removed;
      var normalized := normalize(query);
      if normalized == [] {
        return;
      }
      ghost var was, before := State(), uses;
      EvictExpired(now);
      ghost var live := State();
      uses := uses + [Stored(normalized, results, now)];
      var trigrams := BuildTrigrams(normalized);
      var entry := Entry(normalized, trigrams, results, now);
      PutKeeps(was, before, entry, now, ttl, maxEntries);
      if normalized in entries {
        entries := entries[normalized := entry];
        MoveToEnd(normalized);
        return;
      }
      MakeRoom();
      entries := entries[normalized := entry];
      order := order + [normalized];
    }
  }

  /** The entries after an eviction has gone through the first `i` keys. */
  function EvictedBefore(c: Cache, i: nat, now: int, ttl: int): map<Key, Entry>
    requires i <= |c.order|
  {
    map key | key in c.entries && (key in c.order[..i] ==> Live(c.entries[key], now, ttl)) :: c.entries[key]
  }

  lemma EvictNone(c: Cache, now: int, ttl: int)
    ensures EvictedBefore(c, 0, now, ttl) == c.entries && LiveOrder(c, c.order[..0], now, ttl) == []
  {
  }

  lemma EvictStep(c: Cache, uses: seq<Use>, i: nat, now: int, ttl: int)
    requires WellKept(c, uses) && i < |c.order|
    ensures var key, before := c.order[i], EvictedBefore(c, i, now, ttl);
      && key in before && key in c.entries && before[key] == c.entries[key]
      && EvictedBefore(c, i + 1, now, ttl) == if Live(c.entries[key], now, ttl) then before else before - {key}
  {
    hide WellKept, LiveOrder, Live;
    var key, before := c.order[i], EvictedBefore(c, i, now, ttl);
    ListedIsEntry(c, uses, i);
    NotBefore(c, uses, i);
    assert forall k :: k in c.order[..i + 1] <==> k in c.order[..i] || k == key by {
      assert c.order[..i + 1] == c.order[..i] + [key];
    }
  }

  lemma NotBefore(c: Cache, uses: seq<Use>, i: nat)
    requires WellKept(c, uses) && i < |c.order|
    ensures c.order[i] !in c.order[..i]
  {
    ListedOnce(c, uses);
  }

  lemma ListedIsEntry(c: Cache, uses: seq<Use>, i: nat)
    requires WellKept(c, uses) && i < |c.order|
    ensures c.order[i] in c.entries
  {
    assert c.order[i] in c.order;
  }

  lemma LiveOrderStep(c: Cache, i: nat, now: int, ttl: int)
    requires i < |c.order| && c.order[i] in c.entries
    ensures LiveOrder(c, c.order[..i + 1], now, ttl) ==
      LiveOrder(c, c.order[..i], now, ttl) + if Live(c.entries[c.order[i]], now, ttl) then [c.order[i]] else []
  {
    assert c.order[..i + 1][..i] == c.order[..i];
  }

  lemma EvictedAll(c: Cache, uses: seq<Use>, now: int, ttl: int)
    requires WellKept(c, uses)
    ensures EvictedBefore(c, |c.order|, now, ttl) == Evicted(c, now, ttl).entries
    ensures LiveOrder(c, c.order[..|c.order|], now, ttl) == Evicted(c, now, ttl).order
  {
    hide LiveOrder, ByUse, Recorded;
    assert c.order[..|c.order|] == c.order;
  }

  lemma RoomStep(c: Cache, maxEntries: nat)
    ensures WithRoom(c, maxEntries) ==
      if |c.entries| >= maxEntries && c.order != [] then
        WithRoom(Cache(c.entries - {c.order[0]}, c.order[1..]), maxEntries)
      else c
  {
  }
}
