/**
  Torrent caches that differ in their budget: driven by the same operations, the larger one answers
  whatever the smaller one answers, exactly as far as the encoder allows.
 */
module CacheInclusion {
  import opened Arith
  import opened Types
  import opened Wrappers
  import opened CacheSpec
  import opened CacheRuns

  // ---- what an entry may answer --------------------------------------------------------------

  /** A blob comes from an info that was Set; an entry without one holds an info that was Set and that
      the encoder, if there is one, refuses. */
  ghost predicate Genuine(cfg: Config, infos: Infos, x: Item) {
    match x.blob
    case Some(z) => cfg.compression && exists c | c in infos :: cfg.codec.encode(c) == Some(z)
    case None => x.info in infos && (cfg.compression ==> cfg.codec.encode(x.info).None?)
  }

  ghost predicate AllGenuine(cfg: Config, infos: Infos, s: seq<Item>) {
    forall x | x in s :: Genuine(cfg, infos, x)
  }

  lemma FreshIsGenuine(cfg: Config, infos: Infos, s: seq<Item>, k: Key, t: Torrent,
      info: TorrentInfo, now: int)
    requires AllGenuine(cfg, infos, s) && info in infos
    ensures Genuine(cfg, infos, Fresh(cfg, t, info, now, Stale(s, k)))
  {
    if Has(s, k) {
      assert Genuine(cfg, infos, Find(s, k));
    }
  }

  lemma ShardStepKeepsGenuine(cfg: Config, infos: Infos, s: seq<Item>, op: Op, now: int)
    requires cfg.Valid() && AllGenuine(cfg, infos, s) && Permits(infos, op)
    ensures AllGenuine(cfg, infos, ShardStep(cfg, s, op, now))
  {
    match op
    case Get(k) =>
      WithoutMembers(s, k);
      if Has(s, k) {
        assert Genuine(cfg, infos, Find(s, k));
      }
    case Set(k, t, info) =>
      WithoutMembers(s, k);
      RoomMembers(cfg, s);
      SetIsFresh(cfg, s, k, t, info, now);
      FreshIsGenuine(cfg, infos, s, k, t, info, now);
      hide Genuine, Fresh, ShardSet;
    case Delete(k) =>
      WithoutMembers(s, k);
    case Cleanup =>
      UnexpiredMembers(s, now, cfg.expiration);
    case ClearStats =>
  }

  /** What two caches hold for a key after the same operations: where the one has a blob that the other
      lacks, the other has been Set anew after an eviction, by an info that does not encode. */
  ghost predicate Like(x: Item, y: Item) {
    && x.torrent == y.torrent && x.last == y.last
    && (x.blob == y.blob || x.blob.None?)
    && (y.blob.None? ==> x.info == y.info)
  }

  /** Wherever an encoded info can be left behind by one that does not encode, its blob decodes to
      that one. */
  ghost predicate Harmless(cfg: Config, infos: Infos) {
    cfg.compression ==>
      forall a, b | a in infos && b in infos && cfg.codec.encode(a).Some? && cfg.codec.encode(b).None? ::
        cfg.codec.decode(cfg.codec.encode(a).value) == Some(b)
  }

  lemma LikeAnswers(cfg: Config, infos: Infos, x: Item, y: Item)
    requires Like(x, y) && Genuine(cfg, infos, x) && Genuine(cfg, infos, y) && Harmless(cfg, infos)
    ensures Answer(cfg, x).Hit? ==> Answer(cfg, y) == Answer(cfg, x)
  {
    if x.blob != y.blob {
      var c :| c in infos && cfg.codec.encode(c) == y.blob;
      assert x.info in infos;
    }
  }

  // ---- subsequences --------------------------------------------------------------------------

  ghost predicate Sub(a: seq<Item>, b: seq<Item>) {
    if a == [] then true
    else if b == [] then false
    else if Like(a[0], b[0]) then Sub(a[1..], b[1..])
    else Sub(a, b[1..])
  }

  lemma {:induction false} SubTail(a: seq<Item>, b: seq<Item>)
    requires a != [] && Sub(a, b)
    ensures Sub(a[1..], b)
  {
    if !Like(a[0], b[0]) {
      SubTail(a, b[1..]);
    }
    SubCons(a[1..], b[1..], b[0]);
    assert [b[0]] + b[1..] == b;
  }

  lemma {:induction false} SubCons(a: seq<Item>, b: seq<Item>, y: Item)
    requires Sub(a, b)
    ensures Sub(a, [y] + b)
    decreases |b|, 0
  {
    assert ([y] + b)[1..] == b;
    if a != [] && Like(a[0], y) {
      if !Like(a[0], b[0]) {
        SubCons(a, b[1..], y);
        assert ([y] + b[1..])[1..] == b[1..];
      }
      SubCons(a[1..], b[1..], b[0]);
      assert [b[0]] + b[1..] == b;
    }
  }

  lemma {:induction false} SubPair(a: seq<Item>, b: seq<Item>, x: Item, y: Item)
    requires Sub(a, b) && Like(x, y)
    ensures Sub([x] + a, [y] + b)
  {
    assert ([x] + a)[1..] == a && ([y] + b)[1..] == b;
  }

  lemma {:induction false} SubFind(a: seq<Item>, b: seq<Item>, k: Key)
    requires Sub(a, b) && Distinct(b)
    ensures Has(a, k) ==> Has(b, k) && Like(Find(a, k), Find(b, k))
    ensures |a| <= |b|
  {
    if a != [] {
      if Like(a[0], b[0]) {
        SubFind(a[1..], b[1..], k);
      } else {
        SubFind(a, b[1..], k);
        if Has(a, k) {
          assert b[1 + IndexOf(b[1..], k)].Key() == k;
        }
      }
    }
  }

  lemma {:induction false} SubWithout(a: seq<Item>, b: seq<Item>, k: Key)
    requires Sub(a, b) && Distinct(b)
    ensures Sub(Without(a, k), Without(b, k))
  {
    if a != [] {
      if Like(a[0], b[0]) {
        SubWithout(a[1..], b[1..], k);
      } else {
        SubWithout(a, b[1..], k);
        if b[0].Key() == k {
          WithoutAt(b[1..], k);
          assert forall j | 0 <= j < |b[1..]| :: b[1..][j].Key() != k;
        } else {
          SubCons(Without(a, k), Without(b[1..], k), b[0]);
        }
      }
    }
  }

  lemma {:induction false} SubDropLast(a: seq<Item>, b: seq<Item>)
    requires Sub(a, b)
    ensures Sub(DropLast(a), b)
    ensures Sub(DropLast(a), DropLast(b))
  {
    if a != [] {
      if Like(a[0], b[0]) {
        SubDropLast(a[1..], b[1..]);
        if |a| > 1 {
          assert DropLast(a) == [a[0]] + DropLast(a[1..]);
          assert DropLast(b) == [b[0]] + DropLast(b[1..]);
        }
      } else {
        SubDropLast(a, b[1..]);
        assert DropLast(b) == [b[0]] + DropLast(b[1..]);
        SubCons(DropLast(a), DropLast(b[1..]), b[0]);
        SubCons(DropLast(a), b[1..], b[0]);
        assert [b[0]] + b[1..] == b;
      }
    }
  }

  lemma {:induction false} SubUnexpired(a: seq<Item>, b: seq<Item>, now: int, expiration: int)
    requires Sub(a, b)
    ensures Sub(Unexpired(a, now, expiration), Unexpired(b, now, expiration))
    ensures |a| <= |b|
    ensures |Unexpired(b, now, expiration)| - |Unexpired(a, now, expiration)| <= |b| - |a|
  {
    if a != [] {
      if Like(a[0], b[0]) {
        SubUnexpired(a[1..], b[1..], now, expiration);
      } else {
        SubUnexpired(a, b[1..], now, expiration);
        SubCons(Unexpired(a, now, expiration), Unexpired(b[1..], now, expiration), b[0]);
      }
    } else {
      UnexpiredMembers(b, now, expiration);
    }
  }

  // ---- inclusion -----------------------------------------------------------------------------

  /** Two configurations that differ in nothing but the budget. */
  ghost predicate Wider(small: Config, big: Config) {
    && small.shardCount == big.shardCount
    && small.compression == big.compression
    && small.codec == big.codec
    && small.expiration == big.expiration
    && small.hash == big.hash
    && small.maxSize <= big.maxSize
  }

  /** The small shard is part of the big one, in the same order, and what the big one has beyond it
      fits into the difference of their capacities. */
  ghost predicate Included(small: Config, big: Config, a: seq<Item>, b: seq<Item>)
    requires small.Valid() && big.Valid()
  {
    && Sub(a, b)
    && |b| - |a| <= big.Capacity() - small.Capacity()
    && |a| <= small.Capacity()
    && |b| <= big.Capacity()
    && Distinct(b)
  }

  lemma CapacityMonotone(small: Config, big: Config)
    requires small.Valid() && big.Valid() && Wider(small, big)
    ensures small.Capacity() <= big.Capacity()
  {
    QuotientMonotone(small.maxSize, big.maxSize, small.shardCount);
  }

  lemma {:induction false} SubLength(a: seq<Item>, b: seq<Item>)
    requires Sub(a, b)
    ensures |a| <= |b|
  {
    if a != [] {
      if Like(a[0], b[0]) { SubLength(a[1..], b[1..]); } else { SubLength(a, b[1..]); }
    }
  }

  lemma RoomKeepsInclusion(small: Config, big: Config, a: seq<Item>, b: seq<Item>)
    requires small.Valid() && big.Valid() && Wider(small, big) && Included(small, big, a, b)
    ensures var a', b' := Room(small, a), Room(big, b);
            && Sub(a', b') && |b'| - |a'| <= big.Capacity() - small.Capacity()
            && |a'| < small.Capacity() && |b'| < big.Capacity()
  {
    CapacityMonotone(small, big);
    RoomByCapacity(small, a);
    RoomByCapacity(big, b);
    SubDropLast(a, b);
    SubLength(a, b);
  }

  /** An operation on a key that the big shard has, and perhaps the small one. */
  lemma {:induction false} TouchKeepsInclusion(small: Config, big: Config, a: seq<Item>, b: seq<Item>, x: Item, y: Item)
    requires small.Valid() && big.Valid() && Wider(small, big) && Included(small, big, a, b)
    requires Has(b, y.Key()) && Has(a, y.Key()) ==> Like(x, y)
    requires Has(b, y.Key())
    ensures var a' := if Has(a, y.Key()) then [x] + Without(a, y.Key()) else a;
            Included(small, big, a', [y] + Without(b, y.Key()))
  {
    var k := y.Key();
    SubWithout(a, b, k);
    WithoutMembers(a, k);
    WithoutMembers(b, k);
    WithoutKeepsDistinct(b, k);
    if Has(a, k) {
      SubPair(Without(a, k), Without(b, k), x, y);
    } else {
      WithoutAbsent(a, k);
      SubCons(a, Without(b, k), y);
    }
  }

  /** A new key in the big shard: the small one, which cannot have it, makes room as well. */
  lemma InsertKeepsInclusion(small: Config, big: Config, a: seq<Item>, b: seq<Item>, x: Item)
    requires small.Valid() && big.Valid() && Wider(small, big) && Included(small, big, a, b)
    requires !Has(b, x.Key())
    ensures Included(small, big, [x] + Room(small, a), [x] + Room(big, b))
  {
    RoomKeepsInclusion(small, big, a, b);
    var r := Room(big, b);
    assert forall j | 0 <= j < |r| :: r[j] == b[j] && r[j].Key() != x.Key();
    SubPair(Room(small, a), r, x, x);
  }

  /** A key that only the big shard has is new to the small one. */
  lemma {:induction false} CatchUpKeepsInclusion(small: Config, big: Config, a: seq<Item>, b: seq<Item>, x: Item,
      y: Item)
    requires small.Valid() && big.Valid() && Wider(small, big) && Included(small, big, a, b)
    requires Like(x, y) && Has(b, y.Key()) && !Has(a, y.Key())
    ensures Included(small, big, [x] + Room(small, a), [y] + Without(b, y.Key()))
  {
    var k := y.Key();
    CapacityMonotone(small, big);
    RoomByCapacity(small, a);
    SubWithout(a, b, k);
    WithoutAbsent(a, k);
    WithoutMembers(b, k);
    WithoutKeepsDistinct(b, k);
    SubDropLast(a, Without(b, k));
    SubLength(a, Without(b, k));
    SubPair(Room(small, a), Without(b, k), x, y);
  }

  lemma {:induction false} SetKeepsInclusion(small: Config, big: Config, a: seq<Item>, b: seq<Item>, t: Torrent,
      info: TorrentInfo, now: int)
    requires small.Valid() && big.Valid() && Wider(small, big) && Included(small, big, a, b)
    ensures var k := t.infoHash;
            Included(small, big, ShardSet(small, a, k, t, info, now), ShardSet(big, b, k, t, info, now))
  {
    var k := t.infoHash;
    SubFind(a, b, k);
    SetIsFresh(small, a, k, t, info, now);
    SetIsFresh(big, b, k, t, info, now);
    var x, y := Fresh(small, t, info, now, Stale(a, k)), Fresh(big, t, info, now, Stale(b, k));
    assert Like(x, y) && x.Key() == y.Key() == k && (!Has(b, k) ==> x == y);
    hide ShardSet, Included, Fresh, Like, Stale;
    if !Has(b, k) {
      InsertKeepsInclusion(small, big, a, b, x);
    } else if Has(a, k) {
      TouchKeepsInclusion(small, big, a, b, x, y);
    } else {
      CatchUpKeepsInclusion(small, big, a, b, x, y);
    }
  }

  lemma ShardStepKeepsInclusion(small: Config, big: Config, a: seq<Item>, b: seq<Item>, op: Op,
      now: int)
    requires small.Valid() && big.Valid() && Wider(small, big) && Included(small, big, a, b) && op.Valid()
    ensures Included(small, big, ShardStep(small, a, op, now), ShardStep(big, b, op, now))
  {
    match op
    case Get(k) =>
      SubFind(a, b, k);
      if Has(b, k) {
        var y := Touched(big, Find(b, k), now);
        TouchKeepsInclusion(small, big, a, b, if Has(a, k) then Touched(small, Find(a, k), now) else y, y);
      }
    case Set(k, t, info) =>
      SetKeepsInclusion(small, big, a, b, t, info, now);
    case Delete(k) =>
      SubFind(a, b, k);
      SubWithout(a, b, k);
      WithoutMembers(a, k);
      WithoutMembers(b, k);
      WithoutKeepsDistinct(b, k);
    case Cleanup =>
      SubUnexpired(a, b, now, big.expiration);
      UnexpiredKeepsDistinct(b, now, big.expiration);
      UnexpiredMembers(a, now, big.expiration);
    case ClearStats =>
  }

  lemma {:induction false} UnexpiredKeepsDistinct(s: seq<Item>, now: int, expiration: int)
    requires Distinct(s)
    ensures Distinct(Unexpired(s, now, expiration))
    ensures forall x :: x in Unexpired(s, now, expiration) ==> x in s
    ensures |Unexpired(s, now, expiration)| <= |s|
  {
    if s != [] {
      UnexpiredKeepsDistinct(s[1..], now, expiration);
      var r := Unexpired(s[1..], now, expiration);
      forall x | x in r ensures x.Key() != s[0].Key() {
        var i :| 0 <= i < |s[1..]| && s[1..][i] == x;
        assert s[1 + i] == x;
      }
    }
  }

  ghost predicate AllIncluded(small: Config, big: Config, infos: Infos, a: State, b: State) {
    && small.Valid() && big.Valid() && Wider(small, big)
    && |a.shards| == |b.shards| == small.shardCount
    && forall i | 0 <= i < |a.shards| ::
         && Included(small, big, a.shards[i], b.shards[i])
         && AllGenuine(big, infos, a.shards[i]) && AllGenuine(big, infos, b.shards[i])
  }

  lemma {:induction false} StepKeepsInclusion(small: Config, big: Config, infos: Infos, a: State, b: State, op: Op,
      now: int)
    requires AllIncluded(small, big, infos, a, b) && op.Valid() && Permits(infos, op)
    ensures AllIncluded(small, big, infos, Step(small, a, op, now), Step(big, b, op, now))
    ensures Harmless(big, infos) && Respond(small, a, op).Hit? ==> Respond(big, b, op) == Respond(small, a, op)
  {
    forall i | 0 <= i < |a.shards|
      ensures var a', b' := Step(small, a, op, now).shards[i], Step(big, b, op, now).shards[i];
              Included(small, big, a', b') && AllGenuine(big, infos, a') && AllGenuine(big, infos, b')
    {
      ShardStepKeepsInclusion(small, big, a.shards[i], b.shards[i], op, now);
      ShardStepKeepsGenuine(small, infos, a.shards[i], op, now);
      ShardStepKeepsGenuine(big, infos, b.shards[i], op, now);
      SameCodec(small, big, infos, a.shards[i]);
      SameCodec(small, big, infos, ShardStep(small, a.shards[i], op, now));
    }
    if op.Get? && Harmless(big, infos) && Respond(small, a, op).Hit? {
      var i := small.Home(op.key);
      SubFind(a.shards[i], b.shards[i], op.key);
      LikeAnswers(big, infos, Find(a.shards[i], op.key), Find(b.shards[i], op.key));
    }
  }

  lemma SameCodec(small: Config, big: Config, infos: Infos, s: seq<Item>)
    requires Wider(small, big)
    ensures AllGenuine(small, infos, s) <==> AllGenuine(big, infos, s)
  {
    forall x | x in s ensures Genuine(small, infos, x) <==> Genuine(big, infos, x) {
    }
  }

  /** Inclusion over whole runs: of two caches that differ only in their budget, driven by the same
      operations, the larger answers every request that the smaller answers, with the same value,
      provided that no blob left behind by a failing encoder answers for another info. */
  lemma {:induction false} LargerCacheHitsMore(small: Config, big: Config, infos: Infos, a: State, b: State,
      evs: seq<Event>)
    requires AllIncluded(small, big, infos, a, b) && Harmless(big, infos)
    requires AllPermitted(infos, evs) && forall i | 0 <= i < |evs| :: evs[i].op.Valid()
    ensures AllIncluded(small, big, infos, Run(small, a, evs), Run(big, b, evs))
    ensures forall i | 0 <= i < |evs| :: Responses(small, a, evs)[i].Hit? ==>
              Responses(big, b, evs)[i] == Responses(small, a, evs)[i]
    decreases |evs|
  {
    if evs != [] {
      var e := evs[0];
      StepKeepsInclusion(small, big, infos, a, b, e.op, e.now);
      hide AllIncluded, Harmless, Step, Respond;
      LargerCacheHitsMore(small, big, infos, Step(small, a, e.op, e.now), Step(big, b, e.op, e.now), evs[1..]);
    }
  }

  /** What the smaller of two new caches answers in a run, the larger answers with the same value. */
  ghost predicate Dominates(small: Config, big: Config, evs: seq<Event>)
    requires small.Valid() && big.Valid()
  {
    forall i | 0 <= i < |evs| :: Responses(small, Empty(small), evs)[i].Hit? ==>
      Responses(big, Empty(big), evs)[i] == Responses(small, Empty(small), evs)[i]
  }

  /** The same from two new caches. */
  lemma {:induction false} LargerCacheHitsMoreFromNew(small: Config, big: Config, infos: Infos, evs: seq<Event>)
    requires small.Valid() && big.Valid() && Wider(small, big) && Harmless(big, infos)
    requires AllPermitted(infos, evs) && forall i | 0 <= i < |evs| :: evs[i].op.Valid()
    ensures Dominates(small, big, evs)
  {
    CapacityMonotone(small, big);
    LargerCacheHitsMore(small, big, infos, Empty(small), Empty(big), evs);
  }

  // ---- when inclusion fails ------------------------------------------------------------------

  /** Some shard can be asked to hold more keys than it has room for. */
  ghost predicate Crowded(cfg: Config)
    requires cfg.Valid()
  {
    exists i, ks :: |ks| > cfg.Capacity() && Live(cfg, ks, i)
  }

  ghost predicate Live(cfg: Config, ks: set<Key>, i: nat)
    requires cfg.Valid()
  {
    forall k | k in ks :: cfg.Home(k) == i
  }

  /** The two caches can come to hold different entries. */
  ghost predicate Differ(small: Config, big: Config)
    requires small.Valid() && big.Valid()
  {
    small.Capacity() < big.Capacity() && Crowded(small)
  }

  lemma {:induction false} KeysOf(s: seq<Item>) returns (ks: set<Key>)
    requires Distinct(s)
    ensures |ks| == |s| && forall k :: k in ks <==> Has(s, k)
  {
    if s == [] {
      ks := {};
    } else {
      ks := KeysOf(s[1..]);
      HeadIsAlone(s);
      ks := ks + {s[0].Key()};
    }
  }

  /** Caches that cannot come to differ make the same steps. */
  lemma SameRoom(small: Config, big: Config, s: seq<Item>, k: Key, i: nat, clock: int)
    requires small.Valid() && big.Valid() && Wider(small, big) && !Differ(small, big)
    requires ShardInv(small, s, i, clock) && !Has(s, k) && small.Home(k) == i
    ensures Room(small, s) == Room(big, s)
  {
    CapacityMonotone(small, big);
    RoomByCapacity(small, s);
    RoomByCapacity(big, s);
    if small.Capacity() < big.Capacity() {
      var ks := KeysOf(s);
      forall j | j in ks + {k} ensures small.Home(j) == i {
        if j != k {
          assert Find(s, j) in s;
        }
      }
      assert Live(small, ks + {k}, i);
      assert |ks + {k}| == |s| + 1;
    }
  }

  lemma {:induction false} SameRuns(small: Config, big: Config, a: State, b: State, evs: seq<Event>, clock: int)
    requires small.Valid() && big.Valid() && Wider(small, big) && !Differ(small, big)
    requires a.shards == b.shards && Inv(small, a.shards, clock) && InOrder(evs, clock)
    ensures Responses(small, a, evs) == Responses(big, b, evs)
    decreases |evs|
  {
    if evs != [] {
      var e := evs[0];
      StepKeepsInv(small, a, e.op, clock, e.now);
      SameStep(small, big, a, b, e.op, clock, e.now);
      SameRuns(small, big, Step(small, a, e.op, e.now), Step(big, b, e.op, e.now), evs[1..], e.now);
    }
  }

  lemma SameStep(small: Config, big: Config, a: State, b: State, op: Op, clock: int, now: int)
    requires small.Valid() && big.Valid() && Wider(small, big) && !Differ(small, big)
    requires a.shards == b.shards && Inv(small, a.shards, clock) && op.Valid()
    ensures Step(small, a, op, now).shards == Step(big, b, op, now).shards
    ensures Respond(small, a, op) == Respond(big, b, op)
  {
    if op.Set? && !Has(a.shards[small.Home(op.key)], op.key) {
      SameRoom(small, big, a.shards[small.Home(op.key)], op.key, small.Home(op.key), clock);
    }
    assert NextShards(small, a.shards, op, now) == NextShards(big, b.shards, op, now);
  }

  /** Sets of distinct keys, all at time zero. */
  function SetAll(keys: seq<Key>, info: TorrentInfo): seq<Event> {
    seq(|keys|, j requires 0 <= j < |keys| => Event(Op.Set(keys[j], Torrent(keys[j], 0), info), 0))
  }

  /** What the Sets pile up on an entry. */
  function Pile(cfg: Config, x: Item, keys: seq<Key>, info: TorrentInfo): (r: seq<Item>)
    ensures |r| == |keys| + 1 && r[|keys|] == x
    ensures forall j | 0 <= j < |keys| :: r[j].Key() == keys[|keys| - 1 - j]
  {
    if keys == [] then [x]
    else
      var k := keys[|keys| - 1];
      [Item(Torrent(k, 0), info, 0, cfg.Compress(info))] + Pile(cfg, x, keys[..|keys| - 1], info)
  }

  ghost predicate AllNew(keys: seq<Key>, k: Key) {
    k !in keys && forall i, j | 0 <= i < j < |keys| :: keys[i] != keys[j]
  }

  function Fits(cfg: Config, n: nat): (m: nat)
    requires cfg.Valid()
    ensures m <= n + 1
  {
    if n + 1 <= cfg.Capacity() then n + 1 else cfg.Capacity()
  }

  /** As much of the pile is there as fits. */
  lemma {:induction false} PileUp(cfg: Config, x: Item, keys: seq<Key>, info: TorrentInfo, i: nat)
    requires cfg.Valid() && AllNew(keys, x.Key()) && forall k | k in keys :: cfg.Home(k) == i
    ensures ShardRun(cfg, [x], SetAll(keys, info), i) == Pile(cfg, x, keys, info)[..Fits(cfg, |keys|)]
  {
    if keys != [] {
      var init, k := keys[..|keys| - 1], keys[|keys| - 1];
      PileUp(cfg, x, init, info, i);
      var before := ShardRun(cfg, [x], SetAll(init, info), i);
      var e := Event(Op.Set(k, Torrent(k, 0), info), 0);
      assert SetAll(keys, info) == SetAll(init, info) + [e];
      ShardRunAppend(cfg, [x], SetAll(init, info), [e], i);
      assert [e][1..] == [];
      assert ShardRun(cfg, before, [e], i) == ShardSet(cfg, before, k, Torrent(k, 0), info, 0);
      hide *;
      PileOneMore(cfg, x, keys, info, before);
    }
  }

  lemma {:induction false} PileOneMore(cfg: Config, x: Item, keys: seq<Key>, info: TorrentInfo, before: seq<Item>)
    requires cfg.Valid() && AllNew(keys, x.Key()) && keys != []
    requires before == Pile(cfg, x, keys[..|keys| - 1], info)[..Fits(cfg, |keys| - 1)]
    ensures var k := keys[|keys| - 1];
            ShardSet(cfg, before, k, Torrent(k, 0), info, 0) == Pile(cfg, x, keys, info)[..Fits(cfg, |keys|)]
  {
    var init, k := keys[..|keys| - 1], keys[|keys| - 1];
    var pile := Pile(cfg, x, init, info);
    forall j | 0 <= j < |before| ensures before[j].Key() != k {
      assert before[j] == pile[j];
    }
    SetIsFresh(cfg, before, k, Torrent(k, 0), info, 0);
    RoomByCapacity(cfg, before);
    var x' := Item(Torrent(k, 0), info, 0, cfg.Compress(info));
    var r := Fits(cfg, |keys|) - 1;
    assert Pile(cfg, x, keys, info) == [x'] + pile;
    assert IndexOf(before, k) == |before|;
    assert Room(cfg, before) == pile[..r] && Fresh(cfg, Torrent(k, 0), info, 0, None) == x';
    hide *;
    FrontOfPart(x', pile, r);
  }

  lemma FrontOfPart(x: Item, s: seq<Item>, n: nat)
    requires n <= |s|
    ensures [x] + s[..n] == ([x] + s)[..n + 1]
  {
  }

  lemma {:induction false} InSequence(ks: set<Key>) returns (keys: seq<Key>)
    ensures |keys| == |ks| && (forall k | k in keys :: k in ks)
    ensures forall i, j | 0 <= i < j < |keys| :: keys[i] != keys[j]
  {
    if ks == {} {
      keys := [];
    } else {
      var k :| k in ks;
      keys := InSequence(ks - {k});
      keys := keys + [k];
    }
  }

  /** The run that tells the caches apart: an info is Set, as many other keys as the small shard holds
      push it out there, and an info that does not encode is Set for the same key and looked up. */
  function Telling(k: Key, others: seq<Key>, a: TorrentInfo, b: TorrentInfo): seq<Event> {
    var t := Torrent(k, 0);
    [Event(Op.Set(k, t, a), 0)] + SetAll(others, a) + [Event(Op.Set(k, t, b), 0)] + [Event(Op.Get(k), 0)]
  }

  /** The shard of the key before its lookup. */
  lemma {:induction false} ToldApart(cfg: Config, k: Key, others: seq<Key>, a: TorrentInfo, b: TorrentInfo)
    requires cfg.Valid() && AllNew(others, k) && forall j | j in others :: cfg.Home(j) == cfg.Home(k)
    requires cfg.Compress(a).Some? && cfg.Compress(b).None?
    ensures var t, evs := Torrent(k, 0), Telling(k, others, a, b);
            var stale := if |others| < cfg.Capacity() then cfg.Compress(a) else None;
            Responses(cfg, Empty(cfg), evs)[|others| + 2] == Answer(cfg, Item(t, b, 0, stale))
  {
    var t, evs, i := Torrent(k, 0), Telling(k, others, a, b), cfg.Home(k);
    var x := Item(t, a, 0, cfg.Compress(a));
    var first, second := [Event(Op.Set(k, t, a), 0)], [Event(Op.Set(k, t, b), 0)];
    assert evs[..|others| + 2] == first + SetAll(others, a) + second;
    ResponseAt(cfg, Empty(cfg), evs, |others| + 2);
    ShardsAreIndependent(cfg, Empty(cfg), evs[..|others| + 2], i);
    ShardRunAppend(cfg, [], first + SetAll(others, a), second, i);
    ShardRunAppend(cfg, [], first, SetAll(others, a), i);
    assert first[1..] == [] && second[1..] == [];
    assert ShardRun(cfg, [], first, i) == [x];
    PileUp(cfg, x, others, a, i);
    var s := ShardRun(cfg, [x], SetAll(others, a), i);
    Piled(cfg, x, others, a, s);
    SetIsFresh(cfg, s, k, t, b, 0);
    assert ShardRun(cfg, s, second, i) == ShardSet(cfg, s, k, t, b, 0);
    assert IndexOf(ShardSet(cfg, s, k, t, b, 0), k) == 0;
  }

  lemma {:induction false} Piled(cfg: Config, x: Item, others: seq<Key>, info: TorrentInfo, s: seq<Item>)
    requires cfg.Valid() && AllNew(others, x.Key())
    requires s == Pile(cfg, x, others, info)[..Fits(cfg, |others|)]
    ensures Stale(s, x.Key()) == if |others| < cfg.Capacity() then x.blob else None
  {
    var pile := Pile(cfg, x, others, info);
    assert forall j | 0 <= j < |s| :: s[j] == pile[j];
    assert forall j | 0 <= j < |others| :: pile[j].Key() != x.Key();
  }

  lemma TellingIsPermitted(infos: Infos, k: Key, others: seq<Key>, a: TorrentInfo, b: TorrentInfo)
    requires a in infos && b in infos
    ensures InOrder(Telling(k, others, a, b), 0) && AllPermitted(infos, Telling(k, others, a, b))
  {
    Simultaneous(Telling(k, others, a, b), 0);
  }

  lemma TellingTells(small: Config, big: Config, k: Key, others: seq<Key>, a: TorrentInfo,
      b: TorrentInfo)
    requires small.Valid() && big.Valid() && Wider(small, big) && |others| == small.Capacity() < big.Capacity()
    requires AllNew(others, k) && forall j | j in others :: small.Home(j) == small.Home(k)
    requires small.Compress(a).Some? && small.Compress(b).None?
    requires small.codec.decode(small.Compress(a).value) != Some(b)
    ensures !Dominates(small, big, Telling(k, others, a, b))
  {
    ToldApart(small, k, others, a, b);
    ToldApart(big, k, others, a, b);
    hide Responses, Telling, AllNew;
    var evs, last := Telling(k, others, a, b), |others| + 2;
    TellingLength(k, others, a, b);
    assert Responses(small, Empty(small), evs)[last] == Hit(Torrent(k, 0), b);
    assert Responses(big, Empty(big), evs)[last] != Hit(Torrent(k, 0), b);
  }

  lemma TellingLength(k: Key, others: seq<Key>, a: TorrentInfo, b: TorrentInfo)
    ensures |Telling(k, others, a, b)| == |others| + 3
  {
  }

  /** A run on which the caches answer differently. */
  lemma {:induction false} StaleBlobTells(small: Config, big: Config, infos: Infos) returns (evs: seq<Event>)
    requires small.Valid() && big.Valid() && Wider(small, big) && Differ(small, big) && !Harmless(big, infos)
    ensures InOrder(evs, 0) && AllPermitted(infos, evs) && !Dominates(small, big, evs)
  {
    var a, b :| a in infos && b in infos && big.codec.encode(a).Some? && big.codec.encode(b).None?
                && big.codec.decode(big.codec.encode(a).value) != Some(b);
    var i, ks :| |ks| > small.Capacity() && Live(small, ks, i);
    var keys := InSequence(ks);
    var k, others := keys[0], keys[1..small.Capacity() + 1];
    evs := Telling(k, others, a, b);
    assert forall j | j in others :: j in keys;
    TellingIsPermitted(infos, k, others, a, b);
    TellingTells(small, big, k, others, a, b);
    hide *;
  }

  /** The exact law of inclusion, for any set of infos: the larger cache answers whatever the smaller
      answers, in all runs that Set only those, if and only if the two never come to differ or no blob
      left behind by a failing encoder answers for another info. */
  lemma {:induction false} InclusionLaw(small: Config, big: Config, infos: Infos)
    requires small.Valid() && big.Valid() && Wider(small, big)
    ensures (forall evs :: InOrder(evs, 0) && AllPermitted(infos, evs) ==> Dominates(small, big, evs))
            <==> !Differ(small, big) || Harmless(big, infos)
  {
    if Differ(small, big) && !Harmless(big, infos) {
      var evs := StaleBlobTells(small, big, infos);
    } else {
      forall evs | InOrder(evs, 0) && AllPermitted(infos, evs) ensures Dominates(small, big, evs) {
        if Harmless(big, infos) {
          OrderedAreValid(evs, 0);
          LargerCacheHitsMoreFromNew(small, big, infos, evs);
        } else {
          SameRuns(small, big, Empty(small), Empty(big), evs, 0);
        }
      }
    }
  }

  lemma {:induction false} OrderedAreValid(evs: seq<Event>, clock: int)
    requires InOrder(evs, clock)
    ensures forall i | 0 <= i < |evs| :: evs[i].op.Valid()
  {
    if evs != [] {
      OrderedAreValid(evs[1..], evs[0].now);
    }
  }

  /** Two caches, of one entry and of two, with an encoder that knows a single info, for which
      inclusion fails. */
  lemma FailingEncoderBreaksInclusion() returns (small: Config, big: Config, evs: seq<Event>)
    ensures small.Valid() && big.Valid() && Wider(small, big)
    ensures InOrder(evs, 0) && !Dominates(small, big, evs)
  {
    var a := TorrentInfo("k", "a", [], 0, 0);
    var b := TorrentInfo("k", "b", [], 0, 0);
    var codec := Codec((i: TorrentInfo) => if i == a then Some("a") else None, (z: Blob) => Some(a));
    small := Config(1, 1, true, codec, 100, (k: Key) => 0);
    big := small.(maxSize := 2);
    var infos := iset{a, b};
    assert Live(small, {"j", "k"}, 0) && |{"j", "k"}| == 2 by {
      assert "j"[0] != "k"[0];
    }
    assert codec.encode(a).Some? && codec.encode(b).None? && codec.decode("a") != Some(b) by {
      assert "a"[0] != "b"[0];
    }
    evs := StaleBlobTells(small, big, infos);
  }
}
