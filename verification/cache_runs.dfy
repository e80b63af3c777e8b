/**
  Whole runs of the torrent cache: what it holds, and what its counters count.  What it answers is in
  `CacheAnswers`, and how caches of different sizes compare in `CacheInclusion`.
 */
module CacheRuns {
  import opened Types
  import opened Wrappers
  import opened CacheSpec

  datatype Event = Event(op: Op, now: int)

  /** Operations a caller may issue, at times that never go back. */
  predicate InOrder(evs: seq<Event>, clock: int) {
    evs != [] ==> clock <= evs[0].now && evs[0].op.Valid() && InOrder(evs[1..], evs[0].now)
  }

  function Run(cfg: Config, st: State, evs: seq<Event>): (r: State)
    requires cfg.Valid() && |st.shards| == cfg.shardCount
    ensures |r.shards| == cfg.shardCount
    decreases |evs|
  {
    if evs == [] then st else Run(cfg, Step(cfg, st, evs[0].op, evs[0].now), evs[1..])
  }

  function Responses(cfg: Config, st: State, evs: seq<Event>): (r: seq<Response>)
    requires cfg.Valid() && |st.shards| == cfg.shardCount
    ensures |r| == |evs|
    decreases |evs|
  {
    if evs == [] then []
    else [Respond(cfg, st, evs[0].op)] + Responses(cfg, Step(cfg, st, evs[0].op, evs[0].now), evs[1..])
  }

  function Empty(cfg: Config): State
    requires cfg.Valid()
  {
    State(seq(cfg.shardCount, _ => []), ZERO_STATS)
  }

  lemma {:induction false} RunAppend(cfg: Config, st: State, a: seq<Event>, b: seq<Event>)
    requires cfg.Valid() && |st.shards| == cfg.shardCount
    ensures Run(cfg, st, a + b) == Run(cfg, Run(cfg, st, a), b)
    decreases |a|
  {
    if a == [] {
      assert a + b == b;
    } else {
      assert (a + b)[1..] == a[1..] + b;
      RunAppend(cfg, Step(cfg, st, a[0].op, a[0].now), a[1..], b);
    }
  }

  lemma {:induction false} ResponseAt(cfg: Config, st: State, evs: seq<Event>, j: nat)
    requires cfg.Valid() && |st.shards| == cfg.shardCount && j < |evs|
    ensures Responses(cfg, st, evs)[j] == Respond(cfg, Run(cfg, st, evs[..j]), evs[j].op)
    decreases j
  {
    if j > 0 {
      assert evs[..j][1..] == evs[1..][..j - 1];
      ResponseAt(cfg, Step(cfg, st, evs[0].op, evs[0].now), evs[1..], j - 1);
    }
  }

  /** The run of one shard: operations on keys of other shards pass it by. */
  function ShardRun(cfg: Config, s: seq<Item>, evs: seq<Event>, i: nat): seq<Item>
    requires cfg.Valid()
    decreases |evs|
  {
    if evs == [] then s
    else
      var e := evs[0];
      ShardRun(cfg, if e.op.HasKey() && cfg.Home(e.op.key) != i then s else ShardStep(cfg, s, e.op, e.now), evs[1..], i)
  }

  /** A shard of a cache goes its own way. */
  lemma {:induction false} ShardsAreIndependent(cfg: Config, st: State, evs: seq<Event>, i: nat)
    requires cfg.Valid() && |st.shards| == cfg.shardCount && i < cfg.shardCount
    ensures Run(cfg, st, evs).shards[i] == ShardRun(cfg, st.shards[i], evs, i)
    decreases |evs|
  {
    if evs != [] {
      ShardsAreIndependent(cfg, Step(cfg, st, evs[0].op, evs[0].now), evs[1..], i);
    }
  }

  lemma {:induction false} ShardRunAppend(cfg: Config, s: seq<Item>, a: seq<Event>, b: seq<Event>, i: nat)
    requires cfg.Valid()
    ensures ShardRun(cfg, s, a + b, i) == ShardRun(cfg, ShardRun(cfg, s, a, i), b, i)
    decreases |a|
  {
    if a == [] {
      assert a + b == b;
    } else {
      assert (a + b)[1..] == a[1..] + b;
      var e := a[0];
      var next := if e.op.HasKey() && cfg.Home(e.op.key) != i then s else ShardStep(cfg, s, e.op, e.now);
      ShardRunAppend(cfg, next, a[1..], b, i);
    }
  }

  /** Infos that may be Set. */
  type Infos = iset<TorrentInfo>

  ghost predicate Permits(infos: Infos, op: Op) { op.Set? ==> op.info in infos }

  ghost predicate AllPermitted(infos: Infos, evs: seq<Event>) { forall i | 0 <= i < |evs| :: Permits(infos, evs[i].op) }

  // ---- shards --------------------------------------------------------------------------------

  /** The entry that a Set leaves in front of its shard. */
  function Fresh(cfg: Config, t: Torrent, info: TorrentInfo, now: int, stale: Option<Blob>): Item {
    Item(t, info, now, if cfg.Compress(info).Some? then cfg.Compress(info) else stale)
  }

  /** The blob that a Set of a key finds. */
  function Stale(s: seq<Item>, k: Key): Option<Blob> { if Has(s, k) then Find(s, k).blob else None }

  lemma {:induction false} SetIsFresh(cfg: Config, s: seq<Item>, k: Key, t: Torrent, info: TorrentInfo, now: int)
    requires cfg.Valid()
    ensures ShardSet(cfg, s, k, t, info, now)
         == [Fresh(cfg, t, info, now, Stale(s, k))] + if Has(s, k) then Without(s, k) else Room(cfg, s)
  {
  }

  /** Making room is dropping the last entry of a full shard. */
  lemma RoomByCapacity(cfg: Config, s: seq<Item>)
    requires cfg.Valid() && |s| <= cfg.Capacity()
    ensures Room(cfg, s) == if |s| == cfg.Capacity() then DropLast(s) else s
  {
  }

  lemma HeadIsAlone(s: seq<Item>)
    requires Distinct(s) && s != []
    ensures !Has(s[1..], s[0].Key())
  {
    forall j | 0 <= j < |s| - 1 ensures s[1..][j].Key() != s[0].Key() {
      assert s[1..][j] == s[1 + j];
    }
  }

  lemma {:induction false} Simultaneous(evs: seq<Event>, now: int)
    requires forall i | 0 <= i < |evs| :: evs[i].now == now && evs[i].op.Valid()
    ensures InOrder(evs, now)
  {
    if evs != [] {
      Simultaneous(evs[1..], now);
    }
  }

  // ---- what is in the cache ------------------------------------------------------------------

  /** An event that takes a key out of a shard: a Delete, a cleanup after its time, or the Set of a new
      key while it is the last of a full shard. */
  ghost predicate Removes(cfg: Config, s: seq<Item>, e: Event, k: Key)
    requires cfg.Valid()
  {
    Has(s, k) &&
    match e.op
    case Delete(j) => j == k
    case Cleanup => e.now - Find(s, k).last > cfg.expiration
    case Set(j, _, _) =>
      cfg.Home(j) == cfg.Home(k) && !Has(s, j) && |s| == cfg.Capacity() && s[|s| - 1].Key() == k
    case _ => false
  }

  lemma {:induction false} UnexpiredHas(s: seq<Item>, now: int, expiration: int, k: Key)
    requires Distinct(s)
    ensures Has(Unexpired(s, now, expiration), k) <==> Has(s, k) && now - Find(s, k).last <= expiration
  {
    if s != [] {
      UnexpiredHas(s[1..], now, expiration, k);
      HeadIsAlone(s);
    }
  }

  /** One operation on the shard of a key: the key is there afterwards if it was Set, or was there and
      not removed. */
  lemma {:induction false} StepPresence(cfg: Config, s: seq<Item>, e: Event, k: Key)
    requires cfg.Valid() && Distinct(s) && |s| <= cfg.Capacity()
    requires e.op.HasKey() ==> cfg.Home(e.op.key) == cfg.Home(k)
    requires e.op.Valid()
    ensures Has(ShardStep(cfg, s, e.op, e.now), k) <==>
            (e.op.Set? && e.op.key == k) || (Has(s, k) && !Removes(cfg, s, e, k))
  {
    match e.op
    case Get(j) =>
      if Has(s, j) {
        FrontHas(Touched(cfg, Find(s, j), e.now), Without(s, j), k);
        WithoutHas(s, j, k);
      }
    case Set(j, t, info) =>
      SetIsFresh(cfg, s, j, t, info, e.now);
      FrontHas(Fresh(cfg, t, info, e.now, Stale(s, j)), if Has(s, j) then Without(s, j) else Room(cfg, s), k);
      WithoutHas(s, j, k);
      RoomByCapacity(cfg, s);
      if s != [] {
        RoomHas(s, k);
      }
    case Delete(j) =>
      WithoutHas(s, j, k);
    case Cleanup =>
      UnexpiredHas(s, e.now, cfg.expiration, k);
    case ClearStats =>
  }

  lemma FrontHas(x: Item, s: seq<Item>, k: Key)
    ensures Has([x] + s, k) <==> x.Key() == k || Has(s, k)
  {
    assert ([x] + s)[1..] == s;
  }

  lemma {:induction false} WithoutHas(s: seq<Item>, j: Key, k: Key)
    requires Distinct(s)
    ensures Has(Without(s, j), k) <==> Has(s, k) && k != j
  {
    if s != [] {
      HeadIsAlone(s);
      if s[0].Key() != j {
        WithoutHas(s[1..], j, k);
        FrontHas(s[0], Without(s[1..], j), k);
      }
    }
  }

  lemma RoomHas(s: seq<Item>, k: Key)
    requires Distinct(s) && s != []
    ensures Has(DropLast(s), k) <==> Has(s, k) && s[|s| - 1].Key() != k
  {
    var d := DropLast(s);
    assert forall j | 0 <= j < |d| :: d[j] == s[j];
    if Has(d, k) {
      assert s[IndexOf(d, k)].Key() == k;
    }
  }

  /** What the cache holds after a run from new: a lookup finds a key exactly when it has been Set and
      nothing has removed it since. */
  lemma {:induction false} PresenceLaw(cfg: Config, evs: seq<Event>, k: Key)
    requires cfg.Valid() && InOrder(evs, 0)
    ensures Present(cfg, Run(cfg, Empty(cfg), evs).shards, k) <==>
            exists j | 0 <= j < |evs| :: Stands(cfg, evs, j, k)
    decreases |evs|
  {
    if evs != [] {
      var init, e := evs[..|evs| - 1], evs[|evs| - 1];
      assert evs == init + [e] && evs[..|init|] == init;
      RunInv(cfg, init, [e]);
      PresenceLaw(cfg, init, k);
      LastPresence(cfg, init, e, k);
      hide RemovedAt, Stands, Run, Present, InOrder, Inv;
      forall j: nat | j < |evs|
        ensures Stands(cfg, evs, j, k) <==>
                if j == |init| then e.op.Set? && e.op.key == k
                else Stands(cfg, init, j, k) && !RemovedAt(cfg, evs, |init|, k)
      {
        StandsLonger(cfg, init, e, k, j);
      }
      if e.op.Set? && e.op.key == k {
        assert Stands(cfg, evs, |init|, k);
      }
      if j :| 0 <= j < |init| && Stands(cfg, init, j, k) && !RemovedAt(cfg, evs, |init|, k) {
        assert Stands(cfg, evs, j, k);
      }
      if j :| 0 <= j < |evs| && Stands(cfg, evs, j, k) {
        assert j < |init| ==> Stands(cfg, init, j, k);
      }
    }
  }

  lemma {:induction false} LastPresence(cfg: Config, init: seq<Event>, e: Event, k: Key)
    requires cfg.Valid() && InOrder(init + [e], 0)
    ensures var evs := init + [e];
            Present(cfg, Run(cfg, Empty(cfg), evs).shards, k) <==>
            (e.op.Set? && e.op.key == k)
            || (Present(cfg, Run(cfg, Empty(cfg), init).shards, k) && !RemovedAt(cfg, evs, |init|, k))
  {
    var evs, i := init + [e], cfg.Home(k);
    RunInv(cfg, init, [e]);
    RunAppend(cfg, Empty(cfg), init, [e]);
    var before := Run(cfg, Empty(cfg), init);
    assert [e][1..] == [] && evs[..|init|] == init;
    assert Run(cfg, before, [e]) == Step(cfg, before, e.op, e.now);
    assert ShardInv(cfg, before.shards[i], i, ClockAfter(init));
    hide Run, Inv, InOrder, Has;
    if !e.op.HasKey() || cfg.Home(e.op.key) == i {
      StepPresence(cfg, before.shards[i], e, k);
    }
  }

  /** The j-th event Sets the key, and none after it removes it. */
  ghost predicate Stands(cfg: Config, evs: seq<Event>, j: nat, k: Key)
    requires cfg.Valid() && j < |evs|
  {
    && evs[j].op.Set? && evs[j].op.key == k
    && forall m | j < m < |evs| :: !RemovedAt(cfg, evs, m, k)
  }

  ghost predicate RemovedAt(cfg: Config, evs: seq<Event>, m: nat, k: Key)
    requires cfg.Valid() && m < |evs|
  {
    Removes(cfg, Run(cfg, Empty(cfg), evs[..m]).shards[cfg.Home(k)], evs[m], k)
  }

  function ClockAfter(evs: seq<Event>): int { if evs == [] then 0 else evs[|evs| - 1].now }

  lemma StandsLonger(cfg: Config, init: seq<Event>, e: Event, k: Key, j: nat)
    requires cfg.Valid() && j <= |init|
    ensures var evs := init + [e];
            Stands(cfg, evs, j, k) <==>
            if j == |init| then e.op.Set? && e.op.key == k
            else Stands(cfg, init, j, k) && !RemovedAt(cfg, evs, |init|, k)
  {
    var evs := init + [e];
    forall m | 0 <= m < |init| ensures RemovedAt(cfg, evs, m, k) <==> RemovedAt(cfg, init, m, k) {
      assert evs[m] == init[m] && evs[..m] == init[..m];
    }
    hide RemovedAt;
    assert j < |init| ==> evs[j] == init[j];
  }

  /** A run in order keeps the invariant, and its parts are in order. */
  lemma {:induction false} RunKeepsInv(cfg: Config, st: State, evs: seq<Event>, clock: int)
    requires Inv(cfg, st.shards, clock) && InOrder(evs, clock)
    ensures Inv(cfg, Run(cfg, st, evs).shards, if evs == [] then clock else evs[|evs| - 1].now)
    decreases |evs|
  {
    if evs != [] {
      StepKeepsInv(cfg, st, evs[0].op, clock, evs[0].now);
      RunKeepsInv(cfg, Step(cfg, st, evs[0].op, evs[0].now), evs[1..], evs[0].now);
    }
  }

  lemma {:induction false} OrderSplits(a: seq<Event>, b: seq<Event>, clock: int)
    requires InOrder(a + b, clock)
    ensures InOrder(a, clock) && InOrder(b, if a == [] then clock else a[|a| - 1].now)
    decreases |a|
  {
    if a == [] {
      assert a + b == b;
    } else {
      assert (a + b)[1..] == a[1..] + b;
      OrderSplits(a[1..], b, a[0].now);
    }
  }

  lemma {:induction false} RunInv(cfg: Config, a: seq<Event>, b: seq<Event>)
    requires cfg.Valid() && InOrder(a + b, 0)
    ensures InOrder(a, 0) && InOrder(b, ClockAfter(a))
    ensures Inv(cfg, Run(cfg, Empty(cfg), a).shards, ClockAfter(a))
  {
    OrderSplits(a, b, 0);
    RunKeepsInv(cfg, Empty(cfg), a, 0);
  }

  // ---- conservation --------------------------------------------------------------------------

  /** How many operations of a run put in a new key, took one out on request, or looked one up. */
  function Insertions(cfg: Config, st: State, evs: seq<Event>): nat
    requires cfg.Valid() && |st.shards| == cfg.shardCount
    decreases |evs|
  {
    if evs == [] then 0 else
      (if evs[0].op.Set? && !Present(cfg, st.shards, evs[0].op.key) then 1 else 0)
      + Insertions(cfg, Step(cfg, st, evs[0].op, evs[0].now), evs[1..])
  }

  function Deletions(cfg: Config, st: State, evs: seq<Event>): nat
    requires cfg.Valid() && |st.shards| == cfg.shardCount
    decreases |evs|
  {
    if evs == [] then 0 else
      (if evs[0].op.Delete? && Present(cfg, st.shards, evs[0].op.key) then 1 else 0)
      + Deletions(cfg, Step(cfg, st, evs[0].op, evs[0].now), evs[1..])
  }

  function Lookups(evs: seq<Event>): nat {
    if evs == [] then 0 else (if evs[0].op.Get? then 1 else 0) + Lookups(evs[1..])
  }

  /** How many lookups of a run came when their key was there, and how many when it was not. */
  function Found(cfg: Config, st: State, evs: seq<Event>): nat
    requires cfg.Valid() && |st.shards| == cfg.shardCount
    decreases |evs|
  {
    if evs == [] then 0 else
      (if evs[0].op.Get? && Present(cfg, st.shards, evs[0].op.key) then 1 else 0)
      + Found(cfg, Step(cfg, st, evs[0].op, evs[0].now), evs[1..])
  }

  function Absent(cfg: Config, st: State, evs: seq<Event>): nat
    requires cfg.Valid() && |st.shards| == cfg.shardCount
    decreases |evs|
  {
    if evs == [] then 0 else
      (if evs[0].op.Get? && !Present(cfg, st.shards, evs[0].op.key) then 1 else 0)
      + Absent(cfg, Step(cfg, st, evs[0].op, evs[0].now), evs[1..])
  }

  /** How many Sets of a run were encoded. */
  function Encodings(cfg: Config, evs: seq<Event>): nat {
    if evs == [] then 0 else
      (if evs[0].op.Set? && cfg.compression && cfg.codec.encode(evs[0].op.info).Some? then 1 else 0)
      + Encodings(cfg, evs[1..])
  }

  /** Between two resets each counter counts what its name says: hits the lookups that found their key,
      misses the others, compressions the Sets that were encoded. */
  lemma {:induction false} CountersCount(cfg: Config, st: State, evs: seq<Event>)
    requires cfg.Valid() && |st.shards| == cfg.shardCount
    requires forall i | 0 <= i < |evs| :: !evs[i].op.ClearStats?
    ensures var end := Run(cfg, st, evs);
            && end.stats.hits == st.stats.hits + Found(cfg, st, evs)
            && end.stats.misses == st.stats.misses + Absent(cfg, st, evs)
            && end.stats.compressions == st.stats.compressions + Encodings(cfg, evs)
    decreases |evs|
  {
    if evs != [] {
      var next := Step(cfg, st, evs[0].op, evs[0].now);
      CountOne(cfg, st, evs[0]);
      hide Step;
      CountersCount(cfg, next, evs[1..]);
    }
  }

  lemma CountOne(cfg: Config, st: State, e: Event)
    requires cfg.Valid() && |st.shards| == cfg.shardCount && !e.op.ClearStats?
    ensures var was, now := st.stats, Step(cfg, st, e.op, e.now).stats;
            && now.hits == was.hits + (if e.op.Get? && Present(cfg, st.shards, e.op.key) then 1 else 0)
            && now.misses == was.misses + (if e.op.Get? && !Present(cfg, st.shards, e.op.key) then 1 else 0)
            && now.compressions
               == was.compressions
                  + (if e.op.Set? && cfg.compression && cfg.codec.encode(e.op.info).Some? then 1 else 0)
  {
    hide NextShards, Evicts;
  }

  lemma {:induction false} StepChangesTotal(cfg: Config, st: State, op: Op, now: int)
    requires cfg.Valid() && |st.shards| == cfg.shardCount && !op.ClearStats?
    ensures Total(Step(cfg, st, op, now).shards) - Total(st.shards)
         == Step(cfg, st, op, now).stats.size - st.stats.size
  {
    if op.HasKey() {
      var i := cfg.Home(op.key);
      TotalUpdate(st.shards, i, ShardStep(cfg, st.shards[i], op, now));
      WithoutMembers(st.shards[i], op.key);
    }
  }

  /** Between two resets of the counters, every insertion is accounted for by growth, eviction or
      deletion, the growth of `Size` is the growth of the lists, and hits and misses add up to the
      lookups. */
  lemma {:induction false} CountersBalance(cfg: Config, st: State, evs: seq<Event>)
    requires cfg.Valid() && |st.shards| == cfg.shardCount
    requires forall i | 0 <= i < |evs| :: !evs[i].op.ClearStats?
    ensures var end := Run(cfg, st, evs);
            && Insertions(cfg, st, evs)
               == (end.stats.size - st.stats.size) + (end.stats.evictions - st.stats.evictions)
                  + Deletions(cfg, st, evs)
            && end.stats.size - st.stats.size == Total(end.shards) - Total(st.shards)
            && (end.stats.hits - st.stats.hits) + (end.stats.misses - st.stats.misses) == Lookups(evs)
    decreases |evs|
  {
    if evs != [] {
      var e := evs[0];
      StepChangesTotal(cfg, st, e.op, e.now);
      CountersBalance(cfg, Step(cfg, st, e.op, e.now), evs[1..]);
    }
  }

  lemma {:induction false} TotalOfEmpty(n: nat)
    ensures Total(seq(n, _ => [])) == 0
  {
    if n > 0 {
      assert seq(n, _ => [])[1..] == seq<seq<Item>>(n - 1, _ => []);
      TotalOfEmpty(n - 1);
    }
  }

  /** A run whose counters were last reset after `before`: from then on every counter counts what it is
      named for, and insertions equal Size plus evictions plus deletions, whatever the cache held at the
      reset; and without any reset Size is the number of entries. */
  lemma {:induction false} BalanceSinceReset(cfg: Config, before: seq<Event>, now: int, after: seq<Event>)
    requires cfg.Valid()
    requires forall i | 0 <= i < |after| :: !after[i].op.ClearStats?
    ensures var reset := Run(cfg, Empty(cfg), before + [Event(Op.ClearStats, now)]);
            var end := Run(cfg, Empty(cfg), before + [Event(Op.ClearStats, now)] + after);
            && Insertions(cfg, reset, after) == end.stats.size + end.stats.evictions + Deletions(cfg, reset, after)
            && end.stats.hits == Found(cfg, reset, after) && end.stats.misses == Absent(cfg, reset, after)
            && end.stats.compressions == Encodings(cfg, after)
            && end.stats.size == Total(end.shards) - Total(reset.shards)
    ensures Run(cfg, Empty(cfg), after).stats.size == Total(Run(cfg, Empty(cfg), after).shards)
  {
    var clear := [Event(Op.ClearStats, now)];
    RunAppend(cfg, Empty(cfg), before, clear);
    RunAppend(cfg, Empty(cfg), before + clear, after);
    var mid := Run(cfg, Empty(cfg), before);
    assert Run(cfg, mid, clear) == Step(cfg, mid, Op.ClearStats, now);
    CountersBalance(cfg, Run(cfg, mid, clear), after);
    CountersCount(cfg, Run(cfg, mid, clear), after);
    CountersBalance(cfg, Empty(cfg), after);
    TotalOfEmpty(cfg.shardCount);
  }

  // ---- size ----------------------------------------------------------------------------------

  lemma {:induction false} TotalAtMost(shards: seq<seq<Item>>, n: nat)
    requires forall i | 0 <= i < |shards| :: |shards[i]| <= n
    ensures Total(shards) <= |shards| * n
  {
    if shards != [] {
      TotalAtMost(shards[1..], n);
      assert |shards| * n == n + (|shards| - 1) * n;
    }
  }

  /** After every run the cache is no larger than it was made, if it was made for an entry in each
      shard; a smaller one has at most one in each. */
  lemma NeverTooLarge(cfg: Config, evs: seq<Event>)
    requires cfg.Valid() && InOrder(evs, 0)
    ensures Total(Run(cfg, Empty(cfg), evs).shards)
         <= if cfg.maxSize >= cfg.shardCount then cfg.maxSize else cfg.shardCount
  {
    assert evs + [] == evs;
    RunInv(cfg, evs, []);
    var shards := Run(cfg, Empty(cfg), evs).shards;
    hide Run, InOrder;
    CapacityInPlainTerms(cfg);
    hide Config.Capacity;
    forall i | 0 <= i < |shards| ensures |shards[i]| <= cfg.Capacity() {
      assert ShardInv(cfg, shards[i], i, ClockAfter(evs));
    }
    TotalAtMost(shards, cfg.Capacity());
  }
}
