/**
  The sharded torrent cache: per shard a map from info hash to list element and a recency list,
  both changed in place, with counters shared by all shards.  Every method is proved to make the
  step that `CacheSpec` defines on the recency sequences.
 */
module TorrentCache {
  import opened Arith
  import opened Types
  import opened Wrappers
  import opened CacheSpec

  /** An element of the recency list; the map of the shard points to the same object. */
  class Entry {
    var torrent: Torrent
    var info: TorrentInfo
    var last: int
    var compressed: Option<Blob>

    constructor (torrent: Torrent, info: TorrentInfo, last: int, blob: Option<Blob>)
      ensures Item() == CacheSpec.Item(torrent, info, last, blob)
    {
      this.torrent, this.info, this.last, this.compressed := torrent, info, last, blob;
    }

    /** Rewrites the entry in place; without a new blob the old one stays. */
    method Refill(torrent: Torrent, info: TorrentInfo, last: int, blob: Option<Blob>)
      modifies this
      ensures Item() == CacheSpec.Item(torrent, info, last, if blob.Some? then blob else old(compressed))
    {
      this.torrent := torrent;
      this.info := info;
      this.last := last;
      if blob.Some? {
        compressed := blob;
      }
    }

    ghost function Item(): Item
      reads this
    {
      CacheSpec.Item(torrent, info, last, compressed)
    }
  }

  ghost function Keys(s: seq<Item>): set<Key> { set x | x in s :: x.Key() }

  /** The map and the list hold the same elements, each once and under its own info hash, and the
      elements hold the items of the recency sequence. */
  ghost predicate Agree(m: map<Key, Entry>, l: seq<Entry>, s: seq<Item>)
    reads l
  {
    && |l| == |s|
    && Distinct(s)
    && m.Keys == Keys(s)
    && (forall i | 0 <= i < |l| :: m[s[i].Key()] == l[i])
    && (forall i | 0 <= i < |l| :: l[i].Item() == s[i])
  }

  /** The list without the element at one position. */
  function Cut<T>(s: seq<T>, p: nat): (r: seq<T>)
    requires p < |s|
    ensures |r| == |s| - 1
    ensures forall i | 0 <= i < p :: r[i] == s[i]
    ensures forall i | p <= i < |r| :: r[i] == s[i + 1]
  {
    s[..p] + s[p + 1..]
  }

  lemma HasKey(s: seq<Item>, k: Key)
    ensures Has(s, k) <==> k in Keys(s)
  {
    if k in Keys(s) {
      var x :| x in s && x.Key() == k;
    }
  }

  lemma At(m: map<Key, Entry>, l: seq<Entry>, s: seq<Item>, k: Key) returns (p: nat)
    requires Agree(m, l, s)
    ensures Has(s, k) <==> k in m
    ensures k in m ==> p < |s| && l[p] == m[k] && s[p] == Find(s, k) && s[p].Key() == k
  {
    HasKey(s, k);
    p := IndexOf(s, k);
  }

  lemma Separate(m: map<Key, Entry>, l: seq<Entry>, s: seq<Item>)
    requires Agree(m, l, s)
    ensures forall i, j | 0 <= i < j < |l| :: l[i] != l[j]
  {
    forall i, j | 0 <= i < j < |l| ensures l[i] != l[j] {
      assert l[i].Item().Key() != l[j].Item().Key();
    }
  }

  lemma {:induction false} CutIsWithout(s: seq<Item>, p: nat)
    requires Distinct(s) && p < |s|
    ensures Cut(s, p) == Without(s, s[p].Key())
  {
    WithoutAt(s, s[p].Key());
    assert IndexOf(s, s[p].Key()) == p;
  }

  lemma {:induction false} WithoutLast(s: seq<Item>)
    requires Distinct(s) && s != []
    ensures DropLast(s) == Without(s, s[|s| - 1].Key())
  {
    CutIsWithout(s, |s| - 1);
  }

  lemma CutKeys(s: seq<Item>, p: nat)
    requires Distinct(s) && p < |s|
    ensures Keys(Cut(s, p)) == Keys(s) - {s[p].Key()}
    ensures Distinct(Cut(s, p))
  {
    var r := Cut(s, p);
    assert forall i | 0 <= i < |s| && i != p :: s[i] == r[if i < p then i else i - 1];
  }

  lemma {:induction false} CutOut(m: map<Key, Entry>, l: seq<Entry>, s: seq<Item>, p: nat)
    requires Agree(m, l, s) && p < |l|
    ensures Agree(m - {s[p].Key()}, Cut(l, p), Without(s, s[p].Key()))
  {
    CutKeys(s, p);
    CutIsWithout(s, p);
    var k, r, q := s[p].Key(), Cut(s, p), Cut(l, p);
    hide Without, Cut;
    forall i | 0 <= i < |r| ensures r[i].Key() in m - {k} && m[r[i].Key()] == q[i] && q[i].Item() == r[i] {
      var j := if i < p then i else i + 1;
      assert r[i] == s[j] && q[i] == l[j] && r[i] in r;
    }
  }

  lemma {:induction false} MoveOut(m: map<Key, Entry>, l: seq<Entry>, s: seq<Item>, p: nat)
    requires Agree(m, l, s) && p < |l|
    ensures Agree(m, [l[p]] + Cut(l, p), [s[p]] + Without(s, s[p].Key()))
  {
    CutOut(m, l, s, p);
    PutIn(m - {s[p].Key()}, Cut(l, p), Without(s, s[p].Key()), l[p]);
    assert (m - {s[p].Key()})[s[p].Key() := l[p]] == m;
  }

  lemma PutIn(m: map<Key, Entry>, l: seq<Entry>, s: seq<Item>, e: Entry)
    requires Agree(m, l, s) && e.Item().Key() !in m
    ensures Agree(m[e.Item().Key() := e], [e] + l, [e.Item()] + s)
  {
    assert forall i | 0 <= i < |s| :: s[i].Key() in Keys(s);
  }

  /** The element in front may be rewritten in place as long as its key stays. */
  lemma Rewrite(m: map<Key, Entry>, l: seq<Entry>, s: seq<Item>)
    requires |l| == |s| > 0 && Distinct(s) && m.Keys == Keys(s)
    requires forall i | 0 <= i < |l| :: m[s[i].Key()] == l[i]
    requires forall i | 0 < i < |l| :: l[i].Item() == s[i]
    requires l[0].Item().Key() == s[0].Key()
    ensures Agree(m, l, s[0 := l[0].Item()])
  {
    var r := s[0 := l[0].Item()];
    assert forall i | 0 <= i < |s| :: r[i].Key() == s[i].Key() && r[i] in r && s[i] in s;
    assert Keys(r) == Keys(s);
  }

  class Shard {
    var torrents: map<Key, Entry>
    var lru: seq<Entry>

    /** The recency sequence that the list stands for, and the elements it may consist of. */
    ghost var items: seq<Item>
    ghost var repr: set<Entry>

    constructor ()
      ensures Valid() && items == [] && repr == {}
    {
      torrents, lru, items, repr := map[], [], [], {};
    }

    ghost predicate Valid()
      reads this, repr
    {
      && (forall i | 0 <= i < |lru| :: lru[i] in repr)
      && Agree(torrents, lru, items)
    }

    /** The place of an element in the list. */
    method Place(e: Entry) returns (p: nat)
      requires e in lru
      ensures p < |lru| && lru[p] == e
    {
      p := 0;
      while lru[p] != e
        invariant p < |lru| && e !in lru[..p]
        decreases |lru| - p
      {
        p := p + 1;
      }
    }

    /** An element is moved by taking it out of the list and putting it back in front. */
    method MoveToFront(e: Entry)
      requires Valid() && e in lru
      modifies `lru, `items
      ensures Valid() && lru != [] && lru[0] == e && items != [] && items[0] == e.Item()
      ensures items == [items[0]] + Without(old(items), items[0].Key())
    {
      var p := Place(e);
      MoveOut(torrents, lru, items, p);
      lru, items := [e] + Cut(lru, p), [items[p]] + Without(items, items[p].Key());
    }

    method Remove(k: Key)
      requires Valid() && k in torrents
      modifies `lru, `items, `torrents
      ensures Valid() && torrents == old(torrents) - {k}
      ensures items == Without(old(items), k)
    {
      ghost var q := At(torrents, lru, items, k);
      var p := Place(torrents[k]);
      Separate(torrents, lru, items);
      CutOut(torrents, lru, items, p);
      lru, items := Cut(lru, p), Without(items, k);
      torrents := torrents - {k};
    }

    /** Removes the element at the back, finding its key through the torrent it holds. */
    method Evict() returns (evicted: bool)
      requires Valid()
      modifies `lru, `items, `torrents
      ensures Valid() && evicted == (old(items) != [])
      ensures torrents.Keys <= old(torrents.Keys)
      ensures items == DropLast(old(items))
    {
      evicted := lru != [];
      if evicted {
        var e := lru[|lru| - 1];
        CutOut(torrents, lru, items, |lru| - 1);
        WithoutLast(items);
        lru, items := Cut(lru, |lru| - 1), DropLast(items);
        torrents := torrents - {e.torrent.infoHash};
      }
    }

    method Get(cfg: Config, k: Key, now: int) returns (r: Response)
      requires Valid()
      modifies this, repr
      ensures Valid() && repr == old(repr)
      ensures items == ShardGet(cfg, old(items), k, now)
      ensures r == if Has(old(items), k) then Answer(cfg, Find(old(items), k)) else Miss
    {
      ghost var p := At(torrents, lru, items, k);
      if k !in torrents {
        return Miss;
      }
      var entry := torrents[k];
      MoveToFront(entry);
      r := Refresh(cfg, entry, now);
    }

    /** The rest of a lookup, on the entry that is now in front. */
    method Refresh(cfg: Config, entry: Entry, now: int) returns (r: Response)
      requires Valid() && lru != [] && entry == lru[0]
      modifies entry, `items
      ensures Valid()
      ensures items == [Touched(cfg, old(items[0]), now)] + old(items)[1..]
      ensures r == Answer(cfg, old(items[0]))
    {
      hide Distinct, Keys;
      Separate(torrents, lru, items);
      entry.last := now;
      r := Miss;
      if cfg.compression && entry.compressed.Some? {
        var decoded := cfg.codec.decode(entry.compressed.value);
        if decoded.Some? {
          entry.info := decoded.value;
          r := Hit(entry.torrent, entry.info);
        }
      } else {
        r := Hit(entry.torrent, entry.info);
      }
      Rewrite(torrents, lru, items);
      items := items[0 := entry.Item()];
    }

    method Set(cfg: Config, k: Key, t: Torrent, info: TorrentInfo, now: int) returns (evicted: bool)
      requires Valid() && cfg.Valid() && t.infoHash == k
      modifies this, repr
      ensures Valid() && old(repr) <= repr && fresh(repr - old(repr))
      ensures items == ShardSet(cfg, old(items), k, t, info, now)
      ensures evicted == (!Has(old(items), k) && Evicts(cfg, old(items)))
    {
      evicted := false;
      ghost var p := At(torrents, lru, items, k);
      if k in torrents {
        var entry := torrents[k];
        MoveToFront(entry);
        Overwrite(cfg, entry, t, info, now);
      } else {
        if |lru| >= Quotient(cfg.maxSize, cfg.shardCount) {
          evicted := Evict();
        }
        Insert(cfg, t, info, now);
      }
    }

    /** Set on a key already present, on its entry that is now in front. */
    method Overwrite(cfg: Config, entry: Entry, t: Torrent, info: TorrentInfo, now: int)
      requires Valid() && lru != [] && entry == lru[0] && items[0].Key() == t.infoHash
      modifies entry, `items
      ensures Valid()
      ensures items == [Item(t, info, now, if cfg.Compress(info).Some? then cfg.Compress(info) else old(items[0].blob))]
                       + old(items)[1..]
    {
      hide Distinct, Keys;
      Separate(torrents, lru, items);
      entry.Refill(t, info, now, cfg.Compress(info));
      Rewrite(torrents, lru, items);
      items := items[0 := entry.Item()];
    }

    /** Set on a key that is not in the shard. */
    method Insert(cfg: Config, t: Torrent, info: TorrentInfo, now: int)
      requires Valid() && t.infoHash !in torrents
      modifies this
      ensures Valid() && old(repr) <= repr && fresh(repr - old(repr))
      ensures items == [Item(t, info, now, cfg.Compress(info))] + old(items)
    {
      var entry := new Entry(t, info, now, cfg.Compress(info));
      PutIn(torrents, lru, items, entry);
      lru := [entry] + lru;
      torrents := torrents[t.infoHash := entry];
      items, repr := [entry.Item()] + items, repr + {entry};
    }

    method Delete(k: Key) returns (deleted: bool)
      requires Valid()
      modifies this
      ensures Valid() && repr == old(repr)
      ensures items == Without(old(items), k)
      ensures deleted == Has(old(items), k)
    {
      ghost var p := At(torrents, lru, items, k);
      deleted := k in torrents;
      if deleted {
        Remove(k);
      } else {
        WithoutAbsent(items, k);
      }
    }

    /** One key of a cleanup: the entry goes if it has expired. */
    method Expire(k: Key, expiration: int, now: int)
      requires Valid() && k in torrents
      modifies `lru, `items, `torrents
      ensures Valid()
      ensures torrents == if now - old(torrents[k].last) > expiration then old(torrents) - {k} else old(torrents)
      ensures Unexpired(items, now, expiration) == Unexpired(old(items), now, expiration)
    {
      ghost var p := At(torrents, lru, items, k);
      if now - torrents[k].last > expiration {
        ExpiredIsSkipped(items, k, now, expiration);
        Remove(k);
      }
    }

    /** Visits the keys of the map in any order, removing the expired ones as it goes. */
    method Cleanup(expiration: int, now: int) returns (removed: nat)
      requires Valid()
      modifies `lru, `items, `torrents
      ensures Valid()
      ensures items == Unexpired(old(items), now, expiration)
      ensures removed == |old(items)| - |items|
    {
      hide Unexpired;
      var length := |lru|;
      var pending := torrents.Keys;
      while pending != {}
        invariant Valid() && pending <= torrents.Keys
        invariant forall k :: k in torrents && k !in pending ==> now - torrents[k].last <= expiration
        invariant Unexpired(items, now, expiration) == Unexpired(old(items), now, expiration)
      {
        var k :| k in pending;
        pending := pending - {k};
        Expire(k, expiration, now);
      }
      AllUnexpired(torrents, lru, items, now, expiration);
      UnexpiredMembers(old(items), now, expiration);
      removed := length - |lru|;
    }
  }

  lemma {:induction false} ExpiredIsSkipped(s: seq<Item>, k: Key, now: int, expiration: int)
    requires Has(s, k) && now - Find(s, k).last > expiration
    ensures Unexpired(Without(s, k), now, expiration) == Unexpired(s, now, expiration)
  {
    if s[0].Key() != k {
      ExpiredIsSkipped(s[1..], k, now, expiration);
    }
  }

  lemma {:induction false} NoneExpired(s: seq<Item>, now: int, expiration: int)
    requires forall x :: x in s ==> now - x.last <= expiration
    ensures Unexpired(s, now, expiration) == s
  {
    if s != [] {
      NoneExpired(s[1..], now, expiration);
    }
  }

  lemma {:induction false} AllUnexpired(m: map<Key, Entry>, l: seq<Entry>, s: seq<Item>, now: int, expiration: int)
    requires Agree(m, l, s) && forall k :: k in m ==> now - m[k].last <= expiration
    ensures Unexpired(s, now, expiration) == s
  {
    forall i | 0 <= i < |s| ensures now - s[i].last <= expiration {
      assert s[i].Key() in Keys(s);
    }
    NoneExpired(s, now, expiration);
  }

  ghost function Removals(stats: Stats, n: int): Stats {
    stats.(evictions := stats.evictions + n, size := stats.size - n)
  }

  class Cache {
    const cfg: Config
    const shards: seq<Shard>
    var stats: Stats

    /** The recency sequences of the shards, and every entry that any shard may consist of. */
    ghost var contents: seq<seq<Item>>
    ghost var entries: set<Entry>

    ghost predicate Valid()
      reads `contents, `entries, shards, entries
    {
      && cfg.Valid()
      && |shards| == cfg.shardCount == |contents|
      && (forall i | 0 <= i < |shards| :: shards[i].items == contents[i])
      && (forall i, j | 0 <= i < j < |shards| :: shards[i] != shards[j] && shards[i].repr !! shards[j].repr)
      && (forall i | 0 <= i < |shards| :: shards[i].repr <= entries)
      && (forall i | 0 <= i < |shards| :: Holds(cfg, shards[i], i))
    }

    static ghost predicate Holds(cfg: Config, shard: Shard, i: nat)
      requires cfg.Valid()
      reads shard, shard.repr
    {
      shard.Valid() && AtHome(cfg, shard.items, i)
    }

    ghost function State(): State
      reads `stats, `contents
    {
      CacheSpec.State(contents, stats)
    }

    /** What happens to one shard and its entries does not disturb the others. */
    twostate lemma {:induction false} OthersHold(i: nat)
      requires old(Valid()) && i < |shards|
      requires forall j | 0 <= j < |shards| && j != i :: unchanged(shards[j])
      requires forall e | e in old(entries) && e !in old(shards[i].repr) :: unchanged(e)
      ensures forall j | 0 <= j < |shards| && j != i :: Holds(cfg, shards[j], j)
    {
      forall j | 0 <= j < |shards| && j != i ensures Holds(cfg, shards[j], j) {
        assert old(Holds(cfg, shards[j], j));
        assert forall e | e in shards[j].repr :: e in old(entries) && unchanged(e) by {
          assert old(shards[j].repr !! shards[i].repr);
        }
      }
    }

    /** One shard may gain new entries without meeting those of another. */
    twostate lemma {:induction false} StaysValid(i: nat)
      requires old(Valid()) && i < |shards|
      requires forall j | 0 <= j < |shards| && j != i :: unchanged(shards[j])
      requires forall e | e in old(entries) && e !in old(shards[i].repr) :: unchanged(e)
      requires Holds(cfg, shards[i], i) && fresh(shards[i].repr - old(shards[i].repr))
      requires entries == old(entries) + shards[i].repr && contents == old(contents)[i := shards[i].items]
      ensures Valid() && fresh(entries - old(entries))
    {
      OthersHold(i);
      forall j, k | 0 <= j < k < |shards| ensures shards[j].repr !! shards[k].repr {
        assert old(shards[j].repr !! shards[k].repr);
        assert old(shards[j].repr <= entries && shards[k].repr <= entries);
      }
      forall j | 0 <= j < |shards| ensures shards[j].repr <= entries {
        assert old(shards[j].repr <= entries);
      }
    }

    constructor (cfg: Config)
      requires cfg.Valid()
      ensures Valid() && this.cfg == cfg
      ensures State() == CacheSpec.State(seq(cfg.shardCount, _ => []), ZERO_STATS)
      ensures fresh(this) && fresh(shards) && entries == {}
    {
      this.cfg := cfg;
      var made: seq<Shard> := [];
      for i := 0 to cfg.shardCount
        invariant |made| == i && fresh(made)
        invariant forall j | 0 <= j < i :: made[j].Valid() && made[j].items == []
        invariant forall j | 0 <= j < i :: made[j].repr == {}
        invariant forall j, k | 0 <= j < k < i :: made[j] != made[k]
      {
        var shard := new Shard();
        made := made + [shard];
      }
      shards := made;
      stats, entries, contents := ZERO_STATS, {}, seq(cfg.shardCount, _ => []);
    }

    method GetShard(key: Key) returns (i: nat)
      requires Valid()
      ensures i == cfg.Home(key) && i < |shards|
    {
      i := cfg.hash(key) % |shards|;
    }

    /** The counters take no part in the structure. */
    twostate lemma CountersOnly()
      requires old(Valid()) && entries == old(entries) && contents == old(contents)
      requires unchanged(shards) && unchanged(entries)
      ensures Valid()
    {
      forall i | 0 <= i < |shards| ensures Holds(cfg, shards[i], i) {
        assert old(Holds(cfg, shards[i], i));
      }
    }

    /** An operation of one shard, counters aside. */
    twostate predicate Replaced(i: nat, s: seq<Item>)
      requires i < |old(contents)|
      reads this, shards, entries
    {
      && Valid()
      && fresh(entries - old(entries))
      && contents == old(contents)[i := s]
      && stats == old(stats)
    }

    method GetIn(i: nat, k: Key, now: int) returns (found: bool, r: Response)
      requires Valid() && i == cfg.Home(k) && i < |shards|
      modifies shards[i], shards[i].repr, `entries, `contents
      ensures Replaced(i, ShardGet(cfg, old(shards[i].items), k, now))
      ensures found == Present(cfg, old(contents), k)
      ensures r == Respond(cfg, old(State()), Op.Get(k))
    {
      var shard := shards[i];
      ghost var p := At(shard.torrents, shard.lru, shard.items, k);
      ShardStepKeepsHome(cfg, shard.items, Op.Get(k), i, now);
      found := k in shard.torrents;
      r := shard.Get(cfg, k, now);
      entries, contents := entries + shard.repr, contents[i := shard.items];
      StaysValid(i);
    }

    method Get(k: Key, now: int) returns (r: Response)
      requires Valid()
      modifies this, shards, entries
      ensures Valid() && fresh(entries - old(entries))
      ensures State() == Step(cfg, old(State()), Op.Get(k), now)
      ensures r == Respond(cfg, old(State()), Op.Get(k))
    {
      hide Holds, Without, Has, Answer, Touched;
      var i := GetShard(k);
      var found;
      found, r := GetIn(i, k, now);
      label Count:
      if found {
        stats := stats.(hits := stats.hits + 1);
      } else {
        stats := stats.(misses := stats.misses + 1);
      }
      CountersOnly@Count();
    }

    method SetIn(i: nat, k: Key, t: Torrent, info: TorrentInfo, now: int) returns (found: bool, evicted: bool)
      requires Valid() && t.infoHash == k && i == cfg.Home(k) && i < |shards|
      modifies shards[i], shards[i].repr, `entries, `contents
      ensures Replaced(i, ShardSet(cfg, old(shards[i].items), k, t, info, now))
      ensures found == Present(cfg, old(contents), k)
      ensures evicted == (!found && Evicts(cfg, old(contents)[i]))
    {
      hide Without, ShardSet, Has, AtHome, Evicts, Agree;
      var shard := shards[i];
      ghost var p := At(shard.torrents, shard.lru, shard.items, k);
      ShardStepKeepsHome(cfg, shard.items, Op.Set(k, t, info), i, now);
      found := k in shard.torrents;
      evicted := shard.Set(cfg, k, t, info, now);
      entries, contents := entries + shard.repr, contents[i := shard.items];
      StaysValid(i);
    }

    method Set(k: Key, t: Torrent, info: TorrentInfo, now: int)
      requires Valid() && t.infoHash == k
      modifies this, shards, entries
      ensures Valid() && fresh(entries - old(entries))
      ensures State() == Step(cfg, old(State()), Op.Set(k, t, info), now)
    {
      hide Holds, Has, Without, Room;
      var i := GetShard(k);
      var found, evicted := SetIn(i, k, t, info, now);
      label Count:
      var counted := stats;
      if cfg.Compress(info).Some? {
        counted := counted.(compressions := counted.compressions + 1);
      }
      if evicted {
        counted := counted.(evictions := counted.evictions + 1, size := counted.size - 1);
      }
      if !found {
        counted := counted.(size := counted.size + 1);
      }
      stats := counted;
      CountersOnly@Count();
    }

    method DeleteIn(i: nat, k: Key, ghost now: int) returns (deleted: bool)
      requires Valid() && i == cfg.Home(k) && i < |shards|
      modifies shards[i], `entries, `contents
      ensures Replaced(i, Without(old(shards[i].items), k))
      ensures deleted == Present(cfg, old(contents), k)
    {
      ShardStepKeepsHome(cfg, shards[i].items, Op.Delete(k), i, now);
      deleted := shards[i].Delete(k);
      entries, contents := entries + shards[i].repr, contents[i := shards[i].items];
      StaysValid(i);
    }

    method Delete(k: Key, ghost now: int)
      requires Valid()
      modifies this, shards
      ensures Valid() && fresh(entries - old(entries))
      ensures State() == Step(cfg, old(State()), Op.Delete(k), now)
    {
      hide Holds, Without, Has;
      var i := GetShard(k);
      var deleted := DeleteIn(i, k, now);
      label Count:
      if deleted {
        stats := stats.(size := stats.size - 1);
      }
      CountersOnly@Count();
    }

    method ClearStats(ghost now: int)
      requires Valid()
      modifies `stats
      ensures Valid()
      ensures State() == Step(cfg, old(State()), Op.ClearStats, now)
    {
      stats := ZERO_STATS;
      CountersOnly();
    }

    method CleanupIn(i: nat, now: int) returns (removed: nat)
      requires Valid() && i < |shards|
      modifies shards[i], `entries, `contents
      ensures var s := old(shards[i].items);
              && Replaced(i, Unexpired(s, now, cfg.expiration))
              && removed == |s| - |Unexpired(s, now, cfg.expiration)|
    {
      ShardStepKeepsHome(cfg, shards[i].items, Op.Cleanup, i, now);
      removed := shards[i].Cleanup(cfg.expiration, now);
      entries, contents := entries + shards[i].repr, contents[i := shards[i].items];
      StaysValid(i);
    }

    method CleanupAndCount(i: nat, now: int)
      requires Valid() && i < |shards|
      modifies shards[i], `entries, `contents, `stats
      ensures Valid() && fresh(entries - old(entries))
      ensures var s := old(contents)[i];
              && contents == old(contents)[i := Unexpired(s, now, cfg.expiration)]
              && stats == Removals(old(stats), |s| - |Unexpired(s, now, cfg.expiration)|)
    {
      hide Unexpired, Holds;
      var removed := CleanupIn(i, now);
      label Count:
      stats := stats.(evictions := stats.evictions + removed, size := stats.size - removed);
      CountersOnly@Count();
    }

    method Cleanup(now: int)
      requires Valid()
      modifies this, shards
      ensures Valid() && fresh(entries - old(entries))
      ensures State() == Step(cfg, old(State()), Op.Cleanup, now)
    {
      hide Holds, Unexpired, Total, Without;
      ghost var before, gone := contents, 0;
      ghost var target := NextShards(cfg, before, Op.Cleanup, now);
      for i := 0 to |shards|
        invariant Valid() && fresh(entries - old(entries))
        invariant forall j | 0 <= j < |contents| :: contents[j] == if j < i then target[j] else before[j]
        invariant gone == Total(before) - Total(contents)
        invariant stats == Removals(old(stats), gone)
      {
        TotalUpdate(contents, i, target[i]);
        gone := gone + |before[i]| - |target[i]|;
        CleanupAndCount(i, now);
      }
      assert contents == target;
    }
  }
}
