/**
  The cache of torrent descriptions: bounded in number and in age.  What it answers is proved to be
  a function of the history of Sets alone.
 */
module InfoCache {
  import opened Types
  import opened Wrappers

  datatype Cached = Cached(info: TorrentInfo, time: int)

  type Store = map<Key, Cached>

  /** What happens to the cache over time: Sets by callers and sweeps by the background routine. */
  datatype Event = Set(key: Key, info: TorrentInfo, time: int) | Sweep(time: int)

  // ---- the history ---------------------------------------------------------------------------

  function Init(h: seq<Event>): seq<Event>
    requires h != []
  {
    h[..|h| - 1]
  }

  function Last(h: seq<Event>): Event
    requires h != []
  {
    h[|h| - 1]
  }

  /** What the most recent Set of a key stored, and when. */
  function Latest(h: seq<Event>, k: Key): Option<Cached> {
    if h == [] then None
    else if Last(h).Set? && Last(h).key == k then Some(Cached(Last(h).info, Last(h).time))
    else Latest(Init(h), k)
  }

  /** The keys that have been Set since the most recent Set of k. */
  function Since(h: seq<Event>, k: Key): set<Key> {
    if h == [] then {}
    else if Last(h).Sweep? then Since(Init(h), k)
    else if Last(h).key == k then {}
    else Since(Init(h), k) + {Last(h).key}
  }

  /** The description of the cache that its callers can rely on: a lookup at time t succeeds when the
      key's latest Set is younger than ttl and fewer than maxSize other keys have been Set since. */
  function Answer(h: seq<Event>, k: Key, t: int, maxSize: nat, ttl: int): Option<TorrentInfo> {
    match Latest(h, k)
    case None => None
    case Some(c) => if t - c.time < ttl && |Since(h, k)| < maxSize then Some(c.info) else None
  }

  /** Events in order of time; Sets at distinct, non-zero times. */
  ghost predicate InOrder(h: seq<Event>) {
    && (forall i | 0 <= i < |h| :: h[i].time > 0)
    && (forall i, j | 0 <= i < j < |h| :: h[i].time <= h[j].time)
    && (forall i, j | 0 <= i < j < |h| && h[i].Set? && h[j].Set? :: h[i].time < h[j].time)
  }

  ghost predicate NotBefore(h: seq<Event>, t: int) {
    forall i | 0 <= i < |h| :: h[i].time <= t
  }

  lemma {:induction false} LatestTime(h: seq<Event>, k: Key)
    requires InOrder(h) && Latest(h, k).Some?
    ensures 0 < Latest(h, k).value.time <= Last(h).time
    ensures Last(h).Set? && Last(h).key != k ==> Latest(h, k).value.time < Last(h).time
    decreases |h|
  {
    if !(Last(h).Set? && Last(h).key == k) {
      LatestTime(Init(h), k);
      assert Last(Init(h)) == h[|h| - 2];
      LatestIsEvent(Init(h), k);
    }
  }

  lemma {:induction false} LatestIsEvent(h: seq<Event>, k: Key)
    requires Latest(h, k).Some?
    ensures exists i :: 0 <= i < |h| && h[i] == Set(k, Latest(h, k).value.info, Latest(h, k).value.time)
    decreases |h|
  {
    if Last(h).Set? && Last(h).key == k {
      assert h[|h| - 1] == Set(k, Latest(h, k).value.info, Latest(h, k).value.time);
    } else {
      LatestIsEvent(Init(h), k);
      var i :| 0 <= i < |Init(h)| && Init(h)[i] == Set(k, Latest(h, k).value.info, Latest(h, k).value.time);
      assert h[i] == Init(h)[i];
    }
  }

  /** A key has been Set since k exactly when its latest Set is the later one. */
  lemma {:induction false} SinceIsLater(h: seq<Event>, j: Key, k: Key)
    requires InOrder(h) && Latest(h, k).Some?
    ensures j in Since(h, k) <==> Latest(h, j).Some? && Latest(h, j).value.time > Latest(h, k).value.time
    decreases |h|
  {
    var init := Init(h);
    assert InOrder(init);
    if Last(h).Sweep? {
      SinceIsLater(init, j, k);
    } else if Last(h).key == k {
      if j != k && Latest(h, j).Some? {
        LatestTime(h, j);
      }
    } else {
      SinceIsLater(init, j, k);
      LatestTime(h, k);
    }
  }

  // ---- the store -----------------------------------------------------------------------------

  /** Some of the entries of m, and with each of them all newer ones. */
  ghost predicate Newest(m: Store, r: Store) {
    && r.Keys <= m.Keys
    && (forall k | k in r :: r[k] == m[k])
    && (forall k, j | k in r && j in m && m[j].time > m[k].time :: j in r)
  }

  /** The newest entries of m, as many as the bound allows. */
  ghost predicate Bounded(m: Store, r: Store, maxSize: nat) {
    && Newest(m, r)
    && |r| == if |m| <= maxSize then |m| else maxSize
  }

  ghost predicate DistinctTimes(m: Store) {
    forall j, k | j in m && k in m && j != k :: m[j].time != m[k].time
  }

  /** Eviction has one possible outcome, whatever order the entries are visited in. */
  lemma BoundedIsUnique(m: Store, r1: Store, r2: Store, maxSize: nat)
    requires DistinctTimes(m) && Bounded(m, r1, maxSize) && Bounded(m, r2, maxSize)
    ensures r1 == r2
  {
    if r1.Keys != r2.Keys {
      SubsetSize(r1.Keys, m.Keys);
      SubsetSize(r2.Keys, m.Keys);
      if k :| k in r1.Keys && k !in r2.Keys {
        MissingIsOlder(m, r1, r2, k);
      } else {
        var j :| j in r2.Keys && j !in r1.Keys;
        MissingIsOlder(m, r2, r1, j);
      }
    }
  }

  /** Of two newest parts the one that misses an entry of the other is the smaller one. */
  lemma MissingIsOlder(m: Store, r1: Store, r2: Store, k: Key)
    requires DistinctTimes(m) && Newest(m, r1) && Newest(m, r2) && k in r1 && k !in r2
    ensures |r2| < |r1|
  {
    forall x | x in r2 ensures x in r1.Keys - {k} {
      assert m[x].time != m[k].time;
    }
    SubsetSize(r2.Keys, r1.Keys - {k});
  }

  lemma {:induction false} SubsetSize<T>(a: set<T>, b: set<T>)
    requires a <= b
    ensures |a| <= |b|
    ensures |a| == |b| ==> a == b
  {
    if a != {} {
      var x :| x in a;
      SubsetSize(a - {x}, b - {x});
    }
  }

  function Swept(m: Store, now: int, ttl: int): Store {
    map k | k in m && now - m[k].time <= ttl :: m[k]
  }

  function Lookup(m: Store, k: Key, now: int, ttl: int): Option<TorrentInfo> {
    if k in m && now - m[k].time < ttl then Some(m[k].info) else None
  }

  /** The states the cache can be in after a history. */
  ghost predicate Reaches(h: seq<Event>, m: Store, maxSize: nat, ttl: int) {
    if h == [] then m == map[]
    else exists m0 :: Reaches(Init(h), m0, maxSize, ttl) && Takes(m0, Last(h), m, maxSize, ttl)
  }

  ghost predicate Takes(m0: Store, e: Event, m: Store, maxSize: nat, ttl: int) {
    match e
    case Set(k, info, t) => Bounded(m0[k := Cached(info, t)], m, maxSize)
    case Sweep(t) => m == Swept(m0, t, ttl)
  }

  // ---- the invariant -------------------------------------------------------------------------

  /** Some sweep has come more than ttl after the latest Set of k. */
  ghost predicate SweptOut(h: seq<Event>, k: Key, ttl: int) {
    && Latest(h, k).Some?
    && exists i :: 0 <= i < |h| && h[i].time - Latest(h, k).value.time > ttl
  }

  ghost predicate Inv(h: seq<Event>, m: Store, maxSize: nat, ttl: int) {
    && |m| <= maxSize
    && (forall k | k in m :: Latest(h, k) == Some(m[k]))
    && (forall k | k in m :: Since(h, k) <= m.Keys)
    && (forall k | k !in m && Latest(h, k).Some? :: |Since(h, k)| >= maxSize || SweptOut(h, k, ttl))
  }

  lemma SetKeepsInv(h: seq<Event>, m: Store, e: Event, m': Store, maxSize: nat, ttl: int)
    requires InOrder(h + [e]) && Inv(h, m, maxSize, ttl) && e.Set?
    requires Bounded(m[e.key := Cached(e.info, e.time)], m', maxSize)
    ensures Inv(h + [e], m', maxSize, ttl)
  {
    var h' := h + [e];
    var m1 := m[e.key := Cached(e.info, e.time)];
    assert Init(h') == h && InOrder(h);
    forall k | k in m1 ensures Latest(h', k) == Some(m1[k]) && Since(h', k) <= m1.Keys {}
    forall k | k in m' ensures Since(h', k) <= m'.Keys {
      forall j | j in Since(h', k) ensures j in m' {
        SinceIsLater(h', j, k);
      }
    }
    forall k | k !in m' && Latest(h', k).Some?
      ensures |Since(h', k)| >= maxSize || SweptOut(h', k, ttl)
    {
      if k in m1 {
        EvictedHasNewer(h', m1, m', k, maxSize);
      } else if SweptOut(h, k, ttl) {
        var i :| 0 <= i < |h| && h[i].time - Latest(h, k).value.time > ttl;
        assert h'[i] == h[i];
      } else {
        SubsetSize(Since(h, k), Since(h', k));
      }
    }
  }

  /** An entry that did not fit is followed by as many newer keys as the cache can hold. */
  lemma {:induction false} EvictedHasNewer(h: seq<Event>, m: Store, r: Store, k: Key, maxSize: nat)
    requires InOrder(h) && Bounded(m, r, maxSize) && k in m && k !in r
    requires forall j | j in m :: Latest(h, j) == Some(m[j])
    ensures |Since(h, k)| >= maxSize
  {
    SubsetSize(r.Keys, m.Keys);
    assert |r| == maxSize;
    forall j | j in r ensures j in Since(h, k) {
      SinceIsLater(h, j, k);
      if m[j].time == m[k].time {
        SameTimeSameKey(h, j, k);
      }
    }
    SubsetSize(r.Keys, Since(h, k));
  }

  lemma {:induction false} SameTimeSameKey(h: seq<Event>, j: Key, k: Key)
    requires InOrder(h) && Latest(h, j).Some? && Latest(h, k).Some?
    requires Latest(h, j).value.time == Latest(h, k).value.time
    ensures j == k
  {
    LatestIsEvent(h, j);
    LatestIsEvent(h, k);
  }

  lemma {:induction false} SweepAddsNothing(h: seq<Event>, e: Event, k: Key)
    requires e.Sweep?
    ensures Latest(h + [e], k) == Latest(h, k) && Since(h + [e], k) == Since(h, k)
  {
    assert Init(h + [e]) == h;
  }

  lemma SweepKeepsInv(h: seq<Event>, m: Store, e: Event, maxSize: nat, ttl: int)
    requires InOrder(h + [e]) && Inv(h, m, maxSize, ttl) && e.Sweep?
    ensures Inv(h + [e], Swept(m, e.time, ttl), maxSize, ttl)
  {
    var h' := h + [e];
    var m' := Swept(m, e.time, ttl);
    assert Init(h') == h && InOrder(h);
    SubsetSize(m'.Keys, m.Keys);
    forall k ensures Latest(h', k) == Latest(h, k) && Since(h', k) == Since(h, k) {
      SweepAddsNothing(h, e, k);
    }
    hide Latest, Since;
    forall k | k in m' ensures Since(h', k) <= m'.Keys {
      forall j | j in Since(h', k) ensures j in m' {
        SinceIsLater(h', j, k);
      }
    }
    forall k | k !in m' && Latest(h', k).Some?
      ensures |Since(h', k)| >= maxSize || SweptOut(h', k, ttl)
    {
      if k in m {
        assert h'[|h|].time - Latest(h', k).value.time > ttl;
      } else if SweptOut(h, k, ttl) {
        var i :| 0 <= i < |h| && h[i].time - Latest(h, k).value.time > ttl;
        assert h'[i] == h[i];
      }
    }
  }

  /** What the invariant is for: the answer of the store is the answer of the history. */
  lemma LookupIsAnswer(h: seq<Event>, m: Store, k: Key, t: int, maxSize: nat, ttl: int)
    requires Inv(h, m, maxSize, ttl) && InOrder(h) && NotBefore(h, t)
    ensures Lookup(m, k, t, ttl) == Answer(h, k, t, maxSize, ttl)
  {
    if k in m {
      SinceIsLater(h, k, k);
      SubsetSize(Since(h, k), m.Keys - {k});
    }
  }

  lemma {:induction false} ReachableInv(h: seq<Event>, m: Store, maxSize: nat, ttl: int)
    requires InOrder(h) && Reaches(h, m, maxSize, ttl)
    ensures Inv(h, m, maxSize, ttl)
    decreases |h|
  {
    if h != [] {
      var m0 :| Reaches(Init(h), m0, maxSize, ttl) && Takes(m0, Last(h), m, maxSize, ttl);
      ReachableInv(Init(h), m0, maxSize, ttl);
      assert Init(h) + [Last(h)] == h;
      if Last(h).Set? {
        SetKeepsInv(Init(h), m0, Last(h), m, maxSize, ttl);
      } else {
        SweepKeepsInv(Init(h), m0, Last(h), maxSize, ttl);
      }
    }
  }

  /** For every run: a lookup hits with v exactly when the last Set of its key stored v less than ttl
      ago and fewer than maxSize distinct other keys have been Set since. */
  lemma {:induction false} HistoryDecides(h: seq<Event>, m: Store, k: Key, t: int, maxSize: nat, ttl: int)
    requires InOrder(h) && NotBefore(h, t) && Reaches(h, m, maxSize, ttl)
    ensures Lookup(m, k, t, ttl) == Answer(h, k, t, maxSize, ttl)
  {
    ReachableInv(h, m, maxSize, ttl);
    LookupIsAnswer(h, m, k, t, maxSize, ttl);
  }

  /** Some sweep since the latest Set of k has found it older than ttl. */
  predicate SweptSince(h: seq<Event>, k: Key, ttl: int) {
    if h == [] || (Last(h).Set? && Last(h).key == k) then false
    else
      || (Last(h).Sweep? && Latest(h, k).Some? && Last(h).time - Latest(h, k).value.time > ttl)
      || SweptSince(Init(h), k, ttl)
  }

  ghost predicate Exact(h: seq<Event>, m: Store, maxSize: nat, ttl: int) {
    && (forall k | k in m :: !SweptSince(h, k, ttl))
    && (forall k | k !in m && Latest(h, k).Some? :: |Since(h, k)| >= maxSize || SweptSince(h, k, ttl))
  }

  lemma SetKeepsExact(h: seq<Event>, m: Store, e: Event, m': Store, maxSize: nat, ttl: int)
    requires InOrder(h + [e]) && Inv(h, m, maxSize, ttl) && Exact(h, m, maxSize, ttl) && e.Set?
    requires Bounded(m[e.key := Cached(e.info, e.time)], m', maxSize)
    ensures Exact(h + [e], m', maxSize, ttl)
  {
    var h', m1 := h + [e], m[e.key := Cached(e.info, e.time)];
    assert Init(h') == h && Last(h') == e && InOrder(h);
    forall k | k in m1 ensures Latest(h', k) == Some(m1[k]) {}
    forall k | k !in m' && Latest(h', k).Some? ensures |Since(h', k)| >= maxSize || SweptSince(h', k, ttl) {
      if k in m1 {
        EvictedHasNewer(h', m1, m', k, maxSize);
      } else {
        SubsetSize(Since(h, k), Since(h', k));
      }
    }
  }

  lemma SweepKeepsExact(h: seq<Event>, m: Store, e: Event, maxSize: nat, ttl: int)
    requires InOrder(h + [e]) && Inv(h, m, maxSize, ttl) && Exact(h, m, maxSize, ttl) && e.Sweep?
    ensures Exact(h + [e], Swept(m, e.time, ttl), maxSize, ttl)
  {
    var h' := h + [e];
    assert Init(h') == h && Last(h') == e;
    forall k ensures Latest(h', k) == Latest(h, k) && Since(h', k) == Since(h, k) {
      SweepAddsNothing(h, e, k);
    }
    hide Latest, Since;
  }

  lemma {:induction false} ReachableExact(h: seq<Event>, m: Store, maxSize: nat, ttl: int)
    requires InOrder(h) && Reaches(h, m, maxSize, ttl)
    ensures Exact(h, m, maxSize, ttl)
    decreases |h|
  {
    if h != [] {
      var m0 :| Reaches(Init(h), m0, maxSize, ttl) && Takes(m0, Last(h), m, maxSize, ttl);
      ReachableInv(Init(h), m0, maxSize, ttl);
      ReachableExact(Init(h), m0, maxSize, ttl);
      assert Init(h) + [Last(h)] == h;
      hide Exact, Inv, Reaches;
      if Last(h).Set? {
        SetKeepsExact(Init(h), m0, Last(h), m, maxSize, ttl);
      } else {
        SweepKeepsExact(Init(h), m0, Last(h), maxSize, ttl);
      }
    }
  }

  /** What the cache stores, beyond what it answers, after every run: exactly the keys that have been Set
      with fewer than maxSize others Set since, and that no sweep since has found older than ttl. */
  lemma {:induction false} StoredLaw(h: seq<Event>, m: Store, k: Key, maxSize: nat, ttl: int)
    requires InOrder(h) && Reaches(h, m, maxSize, ttl)
    ensures k in m <==> Latest(h, k).Some? && |Since(h, k)| < maxSize && !SweptSince(h, k, ttl)
    ensures k in m ==> Latest(h, k) == Some(m[k])
    ensures |m| <= maxSize
  {
    ReachableInv(h, m, maxSize, ttl);
    ReachableExact(h, m, maxSize, ttl);
    hide SweptSince, Reaches;
    if k in m {
      SinceIsLater(h, k, k);
      SubsetSize(Since(h, k), m.Keys - {k});
    }
  }

  /** Right after a sweep only what is at most ttl old is stored, and all of that which also fits. */
  lemma {:induction false} AfterSweep(h: seq<Event>, m: Store, k: Key, maxSize: nat, ttl: int)
    requires InOrder(h) && Reaches(h, m, maxSize, ttl) && h != [] && Last(h).Sweep?
    ensures k in m <==>
            Latest(h, k).Some? && |Since(h, k)| < maxSize && Last(h).time - Latest(h, k).value.time <= ttl
  {
    StoredLaw(h, m, k, maxSize, ttl);
    if Latest(h, k).Some? && Last(h).time - Latest(h, k).value.time <= ttl {
      NotSweptBefore(h, k, Last(h).time, ttl);
    }
  }

  lemma {:induction false} NotSweptBefore(h: seq<Event>, k: Key, now: int, ttl: int)
    requires InOrder(h) && NotBefore(h, now) && Latest(h, k).Some? && now - Latest(h, k).value.time <= ttl
    ensures !SweptSince(h, k, ttl)
    decreases |h|
  {
    if !(Last(h).Set? && Last(h).key == k) {
      assert Last(h) == h[|h| - 1] && h[|h| - 1].time <= now;
      NotSweptBefore(Init(h), k, now, ttl);
    }
  }

  /** The age at which an entry is no longer answered is the last at which it is not yet swept. */
  lemma OnTheBoundary(k: Key, info: TorrentInfo, maxSize: nat, ttl: int)
    requires maxSize > 0 && ttl > 0
    ensures var m := map[k := Cached(info, 1)];
            && Lookup(m, k, ttl, ttl) == Some(info) && Lookup(m, k, ttl + 1, ttl) == None
            && Swept(m, ttl + 1, ttl) == m && Swept(m, ttl + 2, ttl) == map[]
    ensures Answer([Event.Set(k, info, 1)], k, ttl, maxSize, ttl) == Some(info)
    ensures Answer([Event.Set(k, info, 1)], k, ttl + 1, maxSize, ttl) == None
  {
  }

  function Sets(h: seq<Event>): seq<Event> {
    if h == [] then [] else Sets(Init(h)) + if Last(h).Set? then [Last(h)] else []
  }

  lemma {:induction false} SweepsDoNotCount(h: seq<Event>, k: Key)
    ensures Latest(Sets(h), k) == Latest(h, k)
    ensures Since(Sets(h), k) == Since(h, k)
    decreases |h|
  {
    if h != [] {
      SweepsDoNotCount(Init(h), k);
      if Last(h).Set? {
        assert Init(Sets(h)) == Sets(Init(h)) && Last(Sets(h)) == Last(h);
      } else {
        assert Sets(h) == Sets(Init(h));
      }
    }
  }

  /** Background cleanup cannot be observed: two runs with the same Sets, whatever sweeps come
      between them, answer every lookup alike. */
  lemma {:induction false} SweepsAreUnobservable(h1: seq<Event>, m1: Store, h2: seq<Event>, m2: Store,
      k: Key, t: int, maxSize: nat, ttl: int)
    requires InOrder(h1) && NotBefore(h1, t) && Reaches(h1, m1, maxSize, ttl)
    requires InOrder(h2) && NotBefore(h2, t) && Reaches(h2, m2, maxSize, ttl)
    requires Sets(h1) == Sets(h2)
    ensures Lookup(m1, k, t, ttl) == Lookup(m2, k, t, ttl)
  {
    HistoryDecides(h1, m1, k, t, maxSize, ttl);
    HistoryDecides(h2, m2, k, t, maxSize, ttl);
    SweepsDoNotCount(h1, k);
    SweepsDoNotCount(h2, k);
  }

  // ---- the cache -----------------------------------------------------------------------------

  class TorrentInfoCache {
    var cache: Store
    const ttl: int
    const maxSize: nat

    ghost var history: seq<Event>

    ghost predicate Valid()
      reads this
    {
      InOrder(history) && Reaches(history, cache, maxSize, ttl)
    }

    constructor (ttl: int, maxSize: nat)
      ensures Valid() && history == [] && this.ttl == ttl && this.maxSize == maxSize
    {
      cache, history := map[], [];
      this.ttl, this.maxSize := ttl, maxSize;
    }

    method Get(k: Key, now: int) returns (r: Option<TorrentInfo>)
      requires Valid() && NotBefore(history, now)
      ensures r == Answer(history, k, now, maxSize, ttl)
    {
      HistoryDecides(history, cache, k, now, maxSize, ttl);
      if k in cache {
        var cachedInfo := cache[k];
        if now - cachedInfo.time < ttl {
          return Some(cachedInfo.info);
        }
      }
      return None;
    }

    method Set(k: Key, info: TorrentInfo, now: int)
      requires Valid() && now > 0 && InOrder(history + [Event.Set(k, info, now)])
      modifies this
      ensures Valid() && history == old(history) + [Event.Set(k, info, now)]
    {
      ghost var before := cache;
      ReachableInv(history, cache, maxSize, ttl);
      cache := cache[k := Cached(info, now)];
      SetTimesAreDistinct(history, before, k, info, now, maxSize, ttl);
      EvictIfNeeded();
      history := history + [Event.Set(k, info, now)];
      assert Init(history) == old(history);
      assert Takes(before, Last(history), cache, maxSize, ttl);
    }

    /** Removes the oldest entry until the rest fit. */
    method EvictIfNeeded()
      requires DistinctTimes(cache) && forall k | k in cache :: cache[k].time > 0
      modifies `cache
      ensures Bounded(old(cache), cache, maxSize)
    {
      while true
        invariant Newest(old(cache), cache)
        invariant |cache| >= if |old(cache)| <= maxSize then |old(cache)| else maxSize
        decreases |cache|
      {
        var count := Count();
        if count <= maxSize {
          SubsetSize(cache.Keys, old(cache).Keys);
          return;
        }
        var oldestKey := Oldest();
        if oldestKey.Some? {
          cache := cache - {oldestKey.value};
        }
      }
    }

    method Count() returns (count: nat)
      ensures count == |cache|
    {
      count := 0;
      var pending := cache.Keys;
      while pending != {}
        invariant count + |pending| == |cache.Keys|
      {
        var k :| k in pending;
        pending := pending - {k};
        count := count + 1;
      }
    }

    /** Visits the entries in any order, remembering the oldest; time zero means none yet. */
    method Oldest() returns (oldestKey: Option<Key>)
      requires forall k | k in cache :: cache[k].time > 0
      ensures oldestKey.None? <==> cache == map[]
      ensures oldestKey.Some? ==> oldestKey.value in cache
      ensures oldestKey.Some? ==> forall k | k in cache :: cache[oldestKey.value].time <= cache[k].time
    {
      oldestKey := None;
      var oldestTime := 0;
      var pending := cache.Keys;
      while pending != {}
        invariant pending <= cache.Keys
        invariant oldestKey.None? ==> pending == cache.Keys && oldestTime == 0
        invariant oldestKey.Some? ==> oldestKey.value in cache && oldestTime == cache[oldestKey.value].time
        invariant oldestKey.Some? ==> forall k | k in cache && k !in pending :: oldestTime <= cache[k].time
      {
        var key :| key in pending;
        pending := pending - {key};
        if oldestTime == 0 || cache[key].time < oldestTime {
          oldestKey := Some(key);
          oldestTime := cache[key].time;
        }
      }
    }

    /** One tick of the background routine. */
    method Cleanup(now: int)
      requires Valid() && now > 0 && NotBefore(history, now)
      modifies this
      ensures Valid() && history == old(history) + [Event.Sweep(now)]
    {
      ghost var before := cache;
      var pending := cache.Keys;
      while pending != {}
        invariant pending <= cache.Keys <= before.Keys
        invariant forall k | k in cache :: cache[k] == before[k]
        invariant forall k | k in before && k !in pending :: k in cache <==> now - before[k].time <= ttl
        invariant forall k | k in pending :: k in cache
        invariant history == old(history)
      {
        var key :| key in pending;
        pending := pending - {key};
        if now - cache[key].time > ttl {
          cache := cache - {key};
        }
      }
      assert cache == Swept(before, now, ttl);
      history := history + [Event.Sweep(now)];
      assert Init(history) == old(history);
      assert Takes(before, Last(history), cache, maxSize, ttl);
    }
  }

  lemma SetTimesAreDistinct(h: seq<Event>, m: Store, k: Key, info: TorrentInfo, now: int,
      maxSize: nat, ttl: int)
    requires Inv(h, m, maxSize, ttl) && InOrder(h + [Event.Set(k, info, now)]) && now > 0
    ensures var m1 := m[k := Cached(info, now)];
            DistinctTimes(m1) && forall j | j in m1 :: m1[j].time > 0
  {
    var h' := h + [Event.Set(k, info, now)];
    assert Init(h') == h;
    var m1 := m[k := Cached(info, now)];
    forall j | j in m1 ensures Latest(h', j) == Some(m1[j]) && m1[j].time > 0 {
      LatestTime(h', j);
    }
    forall i, j | i in m1 && j in m1 && i != j ensures m1[i].time != m1[j].time {
      if m1[i].time == m1[j].time {
        SameTimeSameKey(h', i, j);
      }
    }
  }
}
