/**
  What the torrent cache holds, decided by the history of operations alone: where a key stands in its
  shard follows from what was done since it was last touched.  Without deletions and expiry that is the
  law of least recent use: a key is there while fewer keys have been touched since than the shard holds.
 */
module CacheHistory {
  import opened Types
  import opened Wrappers
  import opened CacheSpec
  import opened CacheRuns

  /** When a key was last touched, and the keys of its shard that are before it since. */
  datatype Place = Place(last: int, ahead: set<Key>)

  /** Another key of the shard is touched: one key too many ahead, and this one has gone. */
  function Behind(cfg: Config, was: Option<Place>, j: Key): Option<Place>
    requires cfg.Valid()
  {
    match was
    case None => None
    case Some(p) => if |p.ahead + {j}| < cfg.Capacity() then Some(p.(ahead := p.ahead + {j})) else None
  }

  /** What an event does to the place of a key; `known` says whether a lookup finds what it looks for. */
  function NextPlace(cfg: Config, was: Option<Place>, e: Event, k: Key, known: bool): Option<Place>
    requires cfg.Valid()
  {
    match e.op
    case Delete(j) =>
      if j == k then None else if was.Some? then Some(was.value.(ahead := was.value.ahead - {j})) else None
    case Cleanup => if was.Some? && e.now - was.value.last > cfg.expiration then None else was
    case ClearStats => was
    case _ =>
      if e.op.Get? && !known then was
      else if e.op.key == k then Some(Place(e.now, {}))
      else if cfg.Home(e.op.key) == cfg.Home(k) then Behind(cfg, was, e.op.key)
      else was
  }

  /** The place of a key after a history, if it has one. */
  function Standing(cfg: Config, evs: seq<Event>, k: Key): Option<Place>
    requires cfg.Valid()
    decreases |evs|
  {
    if evs == [] then None
    else
      var init, e := evs[..|evs| - 1], evs[|evs| - 1];
      var known := e.op.Get? && Standing(cfg, init, e.op.key).Some?;
      NextPlace(cfg, Standing(cfg, init, k), e, k, known)
  }

  /** The place of a key in a shard. */
  function PlaceIn(s: seq<Item>, k: Key): Option<Place> {
    if s == [] then None
    else if s[0].Key() == k then Some(Place(s[0].last, {}))
    else
      match PlaceIn(s[1..], k)
      case None => None
      case Some(p) => Some(p.(ahead := p.ahead + {s[0].Key()}))
  }

  // ---- shards --------------------------------------------------------------------------------

  lemma {:induction false} PlaceHas(s: seq<Item>, k: Key)
    ensures PlaceIn(s, k).Some? <==> Has(s, k)
  {
    if s != [] {
      PlaceHas(s[1..], k);
    }
  }

  lemma {:induction false} PlaceSize(s: seq<Item>, k: Key)
    requires Distinct(s) && Has(s, k)
    ensures PlaceIn(s, k).Some? && |PlaceIn(s, k).value.ahead| == IndexOf(s, k)
    ensures forall j :: j in PlaceIn(s, k).value.ahead <==> IndexOf(s, j) < IndexOf(s, k)
  {
    if s[0].Key() != k {
      PlaceSize(s[1..], k);
      HeadIsAlone(s);
    }
  }

  lemma {:induction false} PlaceFront(x: Item, s: seq<Item>, k: Key)
    ensures PlaceIn([x] + s, k) ==
            if x.Key() == k then Some(Place(x.last, {}))
            else if PlaceIn(s, k).None? then None
            else Some(Place(PlaceIn(s, k).value.last, PlaceIn(s, k).value.ahead + {x.Key()}))
  {
    assert ([x] + s)[1..] == s;
  }

  lemma {:induction false} PlaceWithout(s: seq<Item>, j: Key, k: Key)
    requires Distinct(s)
    ensures PlaceIn(Without(s, j), k) ==
            if j == k || PlaceIn(s, k).None? then None
            else Some(Place(PlaceIn(s, k).value.last, PlaceIn(s, k).value.ahead - {j}))
  {
    if s != [] {
      HeadIsAlone(s);
      PlaceHas(s[1..], k);
      if s[0].Key() == j {
        if Has(s[1..], k) {
          PlaceSize(s[1..], k);
        }
      } else {
        PlaceWithout(s[1..], j, k);
        PlaceFront(s[0], Without(s[1..], j), k);
        var nobody: set<Key> := {};
        assert nobody - {j} == nobody;
        if PlaceIn(s[1..], k).Some? {
          var ahead := PlaceIn(s[1..], k).value.ahead;
          assert ahead - {j} + {s[0].Key()} == ahead + {s[0].Key()} - {j};
        }
      }
    }
  }

  lemma {:induction false} PlaceDropLast(s: seq<Item>, k: Key)
    requires Distinct(s) && s != []
    ensures PlaceIn(DropLast(s), k) == if s[|s| - 1].Key() == k then None else PlaceIn(s, k)
  {
    if |s| > 1 {
      assert DropLast(s)[1..] == DropLast(s[1..]);
      PlaceDropLast(s[1..], k);
    }
  }

  lemma {:induction false} PlaceUnexpired(s: seq<Item>, now: int, expiration: int, k: Key)
    requires ByRecency(s)
    ensures PlaceIn(Unexpired(s, now, expiration), k) ==
            if PlaceIn(s, k).Some? && now - PlaceIn(s, k).value.last > expiration then None else PlaceIn(s, k)
  {
    if s != [] {
      PlaceUnexpired(s[1..], now, expiration, k);
      if now - s[0].last > expiration {
        NoneIsNewer(s, k);
        if |s| > 1 {
          assert s[1].last <= s[0].last;
          NoneIsNewer(s[1..], k);
        }
      } else {
        PlaceFront(s[0], Unexpired(s[1..], now, expiration), k);
      }
    }
  }

  lemma {:induction false} NoneIsNewer(s: seq<Item>, k: Key)
    requires ByRecency(s) && s != []
    ensures PlaceIn(s, k).Some? ==> PlaceIn(s, k).value.last <= s[0].last
  {
    if s[0].Key() != k && |s| > 1 {
      assert s[1].last <= s[0].last;
      NoneIsNewer(s[1..], k);
    }
  }

  /** A touched key goes to the front, ... */
  lemma {:induction false} TouchedAgain(cfg: Config, s: seq<Item>, x: Item, k: Key)
    requires cfg.Valid() && Distinct(s) && |s| <= cfg.Capacity() && Has(s, x.Key())
    ensures PlaceIn([x] + Without(s, x.Key()), k) ==
            if x.Key() == k then Some(Place(x.last, {})) else Behind(cfg, PlaceIn(s, k), x.Key())
  {
    hide PlaceIn, Without, Distinct, Has, Config.Capacity;
    var j := x.Key();
    PlaceHas(s, k);
    PlaceFront(x, Without(s, j), k);
    PlaceWithout(s, j, k);
    if j != k && Has(s, k) {
      AheadOrBehind(s, j, k);
      OneMore(PlaceIn(s, k).value.ahead, j, |s|);
    }
  }

  /** ... and a new one pushes out the last of a full shard. */
  lemma {:induction false} TouchedFirst(cfg: Config, s: seq<Item>, x: Item, k: Key)
    requires cfg.Valid() && Distinct(s) && |s| <= cfg.Capacity() && !Has(s, x.Key())
    ensures PlaceIn([x] + Room(cfg, s), k) ==
            if x.Key() == k then Some(Place(x.last, {})) else Behind(cfg, PlaceIn(s, k), x.Key())
  {
    var j := x.Key();
    PlaceHas(s, k);
    RoomByCapacity(cfg, s);
    PlaceFront(x, Room(cfg, s), k);
    if s != [] {
      PlaceDropLast(s, k);
      LastIsBehind(s, k);
    }
    if Has(s, k) {
      PlaceSize(s, k);
    }
    hide PlaceIn, Room, Distinct, IndexOf;
  }

  lemma {:induction false} AheadOrBehind(s: seq<Item>, j: Key, k: Key)
    requires Distinct(s) && Has(s, j) && Has(s, k) && j != k
    ensures var p := PlaceIn(s, k);
            p.Some? && |p.value.ahead| < |s| && (j !in p.value.ahead ==> |p.value.ahead| + 1 < |s|)
  {
    hide PlaceIn, Distinct, IndexOf;
    PlaceSize(s, k);
    assert s[IndexOf(s, j)].Key() == j && s[IndexOf(s, k)].Key() == k;
  }

  lemma OneMore(ahead: set<Key>, j: Key, n: nat)
    requires |ahead| < n && (j !in ahead ==> |ahead| + 1 < n)
    ensures |ahead + {j}| < n && ahead - {j} + {j} == ahead + {j}
  {
    if j in ahead {
      assert ahead + {j} == ahead;
    }
  }

  lemma {:induction false} LastIsBehind(s: seq<Item>, k: Key)
    requires Distinct(s) && s != []
    ensures Has(s, k) ==> (IndexOf(s, k) == |s| - 1 <==> s[|s| - 1].Key() == k)
  {
  }

  /** One operation on the shard of a key, or a cleanup. */
  lemma {:induction false} StepPlace(cfg: Config, s: seq<Item>, e: Event, k: Key)
    requires cfg.Valid() && Distinct(s) && ByRecency(s) && |s| <= cfg.Capacity() && e.op.Valid()
    requires e.op.HasKey() ==> cfg.Home(e.op.key) == cfg.Home(k)
    ensures PlaceIn(ShardStep(cfg, s, e.op, e.now), k)
         == NextPlace(cfg, PlaceIn(s, k), e, k, e.op.Get? && Has(s, e.op.key))
  {
    match e.op
    case Get(j) =>
      if Has(s, j) {
        TouchedAgain(cfg, s, Touched(cfg, Find(s, j), e.now), k);
      }
    case Set(j, t, info) =>
      SetIsFresh(cfg, s, j, t, info, e.now);
      var x := Fresh(cfg, t, info, e.now, Stale(s, j));
      if Has(s, j) {
        TouchedAgain(cfg, s, x, k);
      } else {
        TouchedFirst(cfg, s, x, k);
      }
    case Delete(j) =>
      PlaceWithout(s, j, k);
    case Cleanup =>
      PlaceUnexpired(s, e.now, cfg.expiration, k);
    case ClearStats =>
  }

  // ---- the law -------------------------------------------------------------------------------

  /** The history of operations decides, for every run and every key, whether the key is there, when it
      was last touched, and which keys are before it. */
  lemma {:induction false} HistoryDecides(cfg: Config, evs: seq<Event>, k: Key)
    requires cfg.Valid() && InOrder(evs, 0)
    ensures PlaceIn(Run(cfg, Empty(cfg), evs).shards[cfg.Home(k)], k) == Standing(cfg, evs, k)
    ensures Present(cfg, Run(cfg, Empty(cfg), evs).shards, k) <==> Standing(cfg, evs, k).Some?
    decreases |evs|
  {
    PlaceHas(Run(cfg, Empty(cfg), evs).shards[cfg.Home(k)], k);
    if evs != [] {
      var init, e := evs[..|evs| - 1], evs[|evs| - 1];
      assert evs == init + [e];
      RunInv(cfg, init, [e]);
      HistoryDecides(cfg, init, k);
      if e.op.Get? {
        HistoryDecides(cfg, init, e.op.key);
      }
      LastPlace(cfg, init, e, k);
    }
  }

  lemma {:induction false} LastPlace(cfg: Config, init: seq<Event>, e: Event, k: Key)
    requires cfg.Valid() && InOrder(init + [e], 0)
    ensures var before := Run(cfg, Empty(cfg), init).shards;
            PlaceIn(Run(cfg, Empty(cfg), init + [e]).shards[cfg.Home(k)], k)
            == NextPlace(cfg, PlaceIn(before[cfg.Home(k)], k), e, k, e.op.Get? && Present(cfg, before, e.op.key))
  {
    var i, before := cfg.Home(k), Run(cfg, Empty(cfg), init);
    RunInv(cfg, init, [e]);
    RunAppend(cfg, Empty(cfg), init, [e]);
    assert [e][1..] == [];
    assert Run(cfg, before, [e]) == Step(cfg, before, e.op, e.now);
    assert ShardInv(cfg, before.shards[i], i, ClockAfter(init));
    hide Run, Inv, InOrder, Has, PlaceIn;
    if !e.op.HasKey() || cfg.Home(e.op.key) == i {
      StepPlace(cfg, before.shards[i], e, k);
    } else if e.op.Delete? {
      NotAhead(cfg, before.shards[i], e.op.key, i, k);
    }
  }

  lemma {:induction false} NotAhead(cfg: Config, s: seq<Item>, j: Key, i: nat, k: Key)
    requires cfg.Valid() && AtHome(cfg, s, i) && cfg.Home(j) != i
    ensures PlaceIn(s, k).Some? ==> PlaceIn(s, k).value.ahead - {j} == PlaceIn(s, k).value.ahead
  {
    if s != [] {
      assert s[0] in s && forall x | x in s[1..] :: x in s;
      NotAhead(cfg, s[1..], j, i, k);
    }
  }

  // ---- least recent use ----------------------------------------------------------------------

  /** The keys of its shard that have been touched since a key was last touched: by a Set, or by a
      lookup of a key that was there. */
  function Since(cfg: Config, evs: seq<Event>, k: Key): Option<set<Key>>
    requires cfg.Valid()
    decreases |evs|, 0
  {
    if evs == [] then None
    else
      var init, e := evs[..|evs| - 1], evs[|evs| - 1];
      if !(e.op.Set? || (e.op.Get? && Recent(cfg, init, e.op.key))) then Since(cfg, init, k)
      else if e.op.key == k then Some({})
      else if cfg.Home(e.op.key) != cfg.Home(k) then Since(cfg, init, k)
      else
        match Since(cfg, init, k)
        case None => None
        case Some(keys) => Some(keys + {e.op.key})
  }

  /** It has been touched, and fewer keys since than its shard holds. */
  predicate Recent(cfg: Config, evs: seq<Event>, k: Key)
    requires cfg.Valid()
    decreases |evs|, 1
  {
    Since(cfg, evs, k).Some? && |Since(cfg, evs, k).value| < cfg.Capacity()
  }

  /** Nothing is deleted, and no cleanup comes late enough to find something expired. */
  predicate NothingRemoved(cfg: Config, evs: seq<Event>) {
    forall i | 0 <= i < |evs| ::
      !evs[i].op.Delete? && (evs[i].op.Cleanup? ==> evs[i].now - evs[0].now <= cfg.expiration)
  }

  lemma {:induction false} RecentStands(cfg: Config, evs: seq<Event>, k: Key)
    requires cfg.Valid() && InOrder(evs, 0) && NothingRemoved(cfg, evs)
    ensures var p := Standing(cfg, evs, k);
            && (p.Some? <==> Recent(cfg, evs, k))
            && (p.Some? ==> p.value.ahead == Since(cfg, evs, k).value && evs != [] && p.value.last >= evs[0].now)
    decreases |evs|
  {
    if evs != [] {
      var init, e := evs[..|evs| - 1], evs[|evs| - 1];
      assert evs == init + [e];
      OrderSplits(init, [e], 0);
      FirstIsEarliest(evs, 0);
      hide InOrder;
      assert NothingRemoved(cfg, init) by {
        assert forall i | 0 <= i < |init| :: init[i] == evs[i];
      }
      RecentStands(cfg, init, k);
      if e.op.Get? {
        RecentStands(cfg, init, e.op.key);
      }
      if Since(cfg, init, k).Some? && e.op.HasKey() {
        Grows(Since(cfg, init, k).value, e.op.key);
      }
    }
  }

  lemma Grows(keys: set<Key>, j: Key)
    ensures |keys| <= |keys + {j}|
  {
    if j in keys {
      assert keys + {j} == keys;
    }
  }

  lemma {:induction false} FirstIsEarliest(evs: seq<Event>, clock: int)
    requires InOrder(evs, clock) && evs != []
    ensures evs[0].now <= evs[|evs| - 1].now
    decreases |evs|
  {
    if |evs| > 1 {
      FirstIsEarliest(evs[1..], evs[0].now);
    }
  }

  /** The law of least recent use: as long as nothing is deleted and nothing expires, a key is there if
      and only if it has been touched and fewer than `Capacity` other keys of its shard since. */
  lemma {:induction false} RecentlyUsedLaw(cfg: Config, evs: seq<Event>, k: Key)
    requires cfg.Valid() && InOrder(evs, 0) && NothingRemoved(cfg, evs)
    ensures Present(cfg, Run(cfg, Empty(cfg), evs).shards, k) <==> Recent(cfg, evs, k)
  {
    HistoryDecides(cfg, evs, k);
    RecentStands(cfg, evs, k);
  }

  // ---- what it answers -----------------------------------------------------------------------

  /** What has been stored for a key: the last value, and the blob that an answer is decoded from. */
  datatype Holding = Holding(torrent: Torrent, info: TorrentInfo, blob: Option<Blob>)

  /** What a history has stored for a key that is there: the last Set, with its own encoding or, where it
      has none, with the last one that a Set left behind since the key came in. */
  function Held(cfg: Config, evs: seq<Event>, k: Key): Option<Holding>
    requires cfg.Valid()
    decreases |evs|
  {
    if Standing(cfg, evs, k).None? then None
    else
      var e, was := evs[|evs| - 1], Held(cfg, evs[..|evs| - 1], k);
      if e.op.Set? && e.op.key == k then
        var blob := if cfg.compression then cfg.codec.encode(e.op.info) else None;
        Some(Holding(e.op.torrent, e.op.info, if blob.None? && was.Some? then was.value.blob else blob))
      else was
  }

  /** What a lookup makes of it: a blob that does not decode is no answer. */
  function Reply(cfg: Config, held: Option<Holding>): Response {
    match held
    case None => Miss
    case Some(h) =>
      if h.blob.None? then Hit(h.torrent, h.info)
      else
        match cfg.codec.decode(h.blob.value)
        case None => Miss
        case Some(info) => Hit(h.torrent, info)
  }

  ghost predicate Holds(cfg: Config, x: Item, held: Option<Holding>) {
    && held.Some?
    && x.torrent == held.value.torrent && x.blob == held.value.blob
    && (x.blob.None? ==> x.info == held.value.info)
    && (x.blob.Some? ==> cfg.compression)
  }

  lemma HeldAfter(cfg: Config, init: seq<Event>, e: Event, k: Key)
    requires cfg.Valid() && Standing(cfg, init + [e], k).Some?
    ensures Held(cfg, init + [e], k) ==
            if e.op.Set? && e.op.key == k then
              var blob, was := if cfg.compression then cfg.codec.encode(e.op.info) else None, Held(cfg, init, k);
              Some(Holding(e.op.torrent, e.op.info, if blob.None? && was.Some? then was.value.blob else blob))
            else Held(cfg, init, k)
  {
    var evs := init + [e];
    assert evs[..|evs| - 1] == init && evs[|evs| - 1] == e;
    hide Standing;
  }

  /** One operation on a shard: every entry holds what the history says. */
  lemma StepHolds(cfg: Config, init: seq<Event>, s: seq<Item>, e: Event)
    requires cfg.Valid() && e.op.Valid() && Distinct(s)
    requires forall x | x in s :: Holds(cfg, x, Held(cfg, init, x.Key()))
    requires forall k | Held(cfg, init, k).Some? && e.op.HasKey() && k == e.op.key :: Has(s, k)
    requires forall x | x in ShardStep(cfg, s, e.op, e.now) :: Standing(cfg, init + [e], x.Key()).Some?
    ensures forall x | x in ShardStep(cfg, s, e.op, e.now) :: Holds(cfg, x, Held(cfg, init + [e], x.Key()))
  {
    var s' := ShardStep(cfg, s, e.op, e.now);
    forall x | x in s' ensures Holds(cfg, x, Held(cfg, init + [e], x.Key())) {
      HeldAfter(cfg, init, e, x.Key());
      hide Held, Standing;
      EntryComesFrom(cfg, s, e, x);
    }
  }

  /** Where an entry comes from: it was there, or was touched, or was stored. */
  lemma EntryComesFrom(cfg: Config, s: seq<Item>, e: Event, x: Item)
    requires cfg.Valid() && e.op.Valid() && Distinct(s) && x in ShardStep(cfg, s, e.op, e.now)
    ensures if e.op.Set? && x.Key() == e.op.key then
              x == Fresh(cfg, e.op.torrent, e.op.info, e.now, Stale(s, x.Key()))
              && (Has(s, x.Key()) ==> Find(s, x.Key()) in s)
            else if e.op.Get? && x.Key() == e.op.key then
              Has(s, x.Key()) && Find(s, x.Key()) in s && x == Touched(cfg, Find(s, x.Key()), e.now)
            else x in s
  {
    match e.op
    case Get(k) =>
      WithoutKeepsDistinct(s, k);
      if !Has(s, k) {
        assert s[IndexOf(s, x.Key())] == x || IndexOf(s, x.Key()) < |s|;
      }
    case Set(k, t, info) =>
      SetIsFresh(cfg, s, k, t, info, e.now);
      WithoutKeepsDistinct(s, k);
      RoomMembers(cfg, s);
      AbsentIsNotIn(s, k);
    case Delete(k) =>
      WithoutMembers(s, k);
    case Cleanup =>
      UnexpiredMembers(s, e.now, cfg.expiration);
    case ClearStats =>
  }

  lemma AbsentIsNotIn(s: seq<Item>, k: Key)
    ensures !Has(s, k) ==> forall x | x in s :: x.Key() != k
  {
    if !Has(s, k) {
      forall x | x in s ensures x.Key() != k {
        var i :| 0 <= i < |s| && s[i] == x;
      }
    }
  }

  lemma InIsHas(s: seq<Item>, x: Item)
    requires x in s
    ensures Has(s, x.Key())
  {
    AbsentIsNotIn(s, x.Key());
  }

  lemma InvAtHome(cfg: Config, shards: seq<seq<Item>>, i: nat, clock: int)
    requires Inv(cfg, shards, clock) && i < |shards|
    ensures AtHome(cfg, shards[i], i)
  {
    assert ShardInv(cfg, shards[i], i, clock);
  }

  lemma AllAtHome(cfg: Config, evs: seq<Event>, i: nat)
    requires cfg.Valid() && InOrder(evs, 0) && i < cfg.shardCount
    ensures AtHome(cfg, Run(cfg, Empty(cfg), evs).shards[i], i)
  {
    hide Run, InOrder, Inv, AtHome;
    var none: seq<Event> := [];
    assert evs + none == evs;
    RunInv(cfg, evs, none);
    InvAtHome(cfg, Run(cfg, Empty(cfg), evs).shards, i, ClockAfter(evs));
  }

  /** What is in a shard stands in the history. */
  lemma InStands(cfg: Config, evs: seq<Event>, i: nat)
    requires cfg.Valid() && InOrder(evs, 0) && i < cfg.shardCount
    ensures forall x | x in Run(cfg, Empty(cfg), evs).shards[i] ::
              cfg.Home(x.Key()) == i && Standing(cfg, evs, x.Key()).Some?
  {
    AllAtHome(cfg, evs, i);
    hide Run, Standing, InOrder, Has;
    var s := Run(cfg, Empty(cfg), evs).shards[i];
    forall x | x in s ensures cfg.Home(x.Key()) == i && Standing(cfg, evs, x.Key()).Some? {
      InIsHas(s, x);
      HistoryDecides(cfg, evs, x.Key());
    }
  }

  lemma HeldIsThere(cfg: Config, evs: seq<Event>, k: Key)
    requires cfg.Valid() && InOrder(evs, 0) && Held(cfg, evs, k).Some?
    ensures Has(Run(cfg, Empty(cfg), evs).shards[cfg.Home(k)], k)
  {
    HistoryDecides(cfg, evs, k);
    hide Run, Standing;
  }

  lemma {:induction false} RunHolds(cfg: Config, evs: seq<Event>, i: nat)
    requires cfg.Valid() && InOrder(evs, 0) && i < cfg.shardCount
    ensures forall x | x in Run(cfg, Empty(cfg), evs).shards[i] :: Holds(cfg, x, Held(cfg, evs, x.Key()))
    decreases |evs|
  {
    if evs != [] {
      var init, e := evs[..|evs| - 1], evs[|evs| - 1];
      assert evs == init + [e];
      RunInv(cfg, init, [e]);
      RunHolds(cfg, init, i);
      LastHolds(cfg, init, e, i);
    }
  }

  lemma LastHolds(cfg: Config, init: seq<Event>, e: Event, i: nat)
    requires cfg.Valid() && InOrder(init, 0) && InOrder(init + [e], 0) && i < cfg.shardCount
    requires forall x | x in Run(cfg, Empty(cfg), init).shards[i] :: Holds(cfg, x, Held(cfg, init, x.Key()))
    ensures forall x | x in Run(cfg, Empty(cfg), init + [e]).shards[i] :: Holds(cfg, x, Held(cfg, init + [e], x.Key()))
  {
    var s, evs := Run(cfg, Empty(cfg), init).shards[i], init + [e];
    LastShard(cfg, init, e, i);
    InStands(cfg, evs, i);
    hide Run, Standing, Held, InOrder, ShardStep;
    if e.op.HasKey() && cfg.Home(e.op.key) != i {
      forall x | x in s ensures Holds(cfg, x, Held(cfg, evs, x.Key())) {
        HeldAfter(cfg, init, e, x.Key());
      }
    } else {
      if e.op.HasKey() && Held(cfg, init, e.op.key).Some? {
        HeldIsThere(cfg, init, e.op.key);
      }
      StepHolds(cfg, init, s, e);
    }
  }

  /** The last operation of a run on one shard. */
  lemma LastShard(cfg: Config, init: seq<Event>, e: Event, i: nat)
    requires cfg.Valid() && InOrder(init + [e], 0) && i < cfg.shardCount
    ensures e.op.Valid() && Distinct(Run(cfg, Empty(cfg), init).shards[i])
    ensures Run(cfg, Empty(cfg), init + [e]).shards[i] ==
            if e.op.HasKey() && cfg.Home(e.op.key) != i then Run(cfg, Empty(cfg), init).shards[i]
            else ShardStep(cfg, Run(cfg, Empty(cfg), init).shards[i], e.op, e.now)
  {
    var before := Run(cfg, Empty(cfg), init);
    RunInv(cfg, init, [e]);
    RunAppend(cfg, Empty(cfg), init, [e]);
    assert [e][1..] == [];
    assert Run(cfg, before, [e]) == Step(cfg, before, e.op, e.now);
    assert ShardInv(cfg, before.shards[i], i, ClockAfter(init));
    hide Run, Inv;
  }

  /** The exact answer of the cache after every run from new, whatever the codec does: it follows from
      the operations alone. */
  lemma AnswersFollow(cfg: Config, evs: seq<Event>, k: Key)
    requires cfg.Valid() && InOrder(evs, 0)
    ensures Respond(cfg, Run(cfg, Empty(cfg), evs), Op.Get(k)) == Reply(cfg, Held(cfg, evs, k))
  {
    HistoryDecides(cfg, evs, k);
    RunHolds(cfg, evs, cfg.Home(k));
    var s := Run(cfg, Empty(cfg), evs).shards[cfg.Home(k)];
    hide Run, Standing;
    if Has(s, k) {
      assert Find(s, k) in s;
    }
  }
}
