/**
  The sharded torrent cache as a value: one recency sequence per shard, most recently touched
  first, together with the shared counters.  The class in `TorrentCache` is proved to make exactly
  the steps defined here; the theorems about whole runs are in `CacheRuns`.
 */
module CacheSpec {
  import opened Arith
  import opened Types
  import opened Wrappers

  type Blob = string

  /** A torrent of the client: its identity and the text of its info hash. */
  datatype Torrent = Torrent(infoHash: Key, handle: nat)

  /** gob followed by zstd, and back; either direction may fail. */
  datatype Codec = Codec(
    encode: TorrentInfo -> Option<Blob>, decode: Blob -> Option<TorrentInfo>)

  /** `hash` is the 32-bit hash that selects the shard of a key. */
  datatype Config = Config(
    maxSize: int, shardCount: int, compression: bool, codec: Codec, expiration: int, hash: Key -> nat)
  {
    predicate Valid() {
      // `uint32(len(c.shards))` must not be zero.
      0 < shardCount < 0x1_0000_0000
    }

    /** Compression yields a blob only when it is enabled and the encoder succeeds. */
    function Compress(info: TorrentInfo): Option<Blob> {
      if compression then codec.encode(info) else None
    }

    function Home(key: Key): (i: nat)
      requires Valid()
      ensures i < shardCount
    {
      hash(key) % shardCount
    }

    /** What one shard can hold. */
    function Capacity(): int
      requires Valid()
    {
      if Quotient(maxSize, shardCount) < 1 then 1 else Quotient(maxSize, shardCount)
    }
  }

  datatype Item = Item(torrent: Torrent, info: TorrentInfo, last: int, blob: Option<Blob>) {
    function Key(): Key { torrent.infoHash }
  }

  datatype Stats = Stats(hits: int, misses: int, evictions: int, size: int, compressions: int)

  const ZERO_STATS := Stats(0, 0, 0, 0, 0)

  datatype State = State(shards: seq<seq<Item>>, stats: Stats)

  datatype Op =
    | Get(key: Key)
    | Set(key: Key, torrent: Torrent, info: TorrentInfo)
    | Delete(key: Key)
    | Cleanup
    | ClearStats
  {
    /** The cache finds an evicted entry's key by its torrent, so a caller must pass that hash. */
    predicate Valid() { Set? ==> key == torrent.infoHash }

    predicate HasKey() { Get? || Set? || Delete? }
  }

  datatype Response = Hit(torrent: Torrent, info: TorrentInfo) | Miss | Done

  // ---- one shard -----------------------------------------------------------------------------

  /** The position of a key in a recency sequence, or its length when the key is absent. */
  function IndexOf(s: seq<Item>, k: Key): (i: nat)
    ensures i <= |s|
    ensures i < |s| ==> s[i].Key() == k
    ensures forall j | 0 <= j < i :: s[j].Key() != k
  {
    if s == [] then 0 else if s[0].Key() == k then 0 else 1 + IndexOf(s[1..], k)
  }

  predicate Has(s: seq<Item>, k: Key) { IndexOf(s, k) < |s| }

  function Find(s: seq<Item>, k: Key): Item
    requires Has(s, k)
  {
    s[IndexOf(s, k)]
  }

  function Without(s: seq<Item>, k: Key): seq<Item> {
    if s == [] then [] else if s[0].Key() == k then s[1..] else [s[0]] + Without(s[1..], k)
  }

  function Unexpired(s: seq<Item>, now: int, expiration: int): seq<Item> {
    if s == [] then []
    else if now - s[0].last > expiration then Unexpired(s[1..], now, expiration)
    else [s[0]] + Unexpired(s[1..], now, expiration)
  }

  function DropLast(s: seq<Item>): seq<Item> { if s == [] then [] else s[..|s| - 1] }

  /** The entry that a hit leaves behind: touched now, its info refreshed from the blob. */
  function Touched(cfg: Config, x: Item, now: int): Item {
    if cfg.compression && x.blob.Some? && cfg.codec.decode(x.blob.value).Some?
    then x.(last := now, info := cfg.codec.decode(x.blob.value).value)
    else x.(last := now)
  }

  /** What a lookup of an entry answers: a blob that does not decode is reported as absent. */
  function Answer(cfg: Config, x: Item): Response {
    if cfg.compression && x.blob.Some? then
      match cfg.codec.decode(x.blob.value)
      case Some(info) => Hit(x.torrent, info)
      case None => Miss
    else Hit(x.torrent, x.info)
  }

  function ShardGet(cfg: Config, s: seq<Item>, k: Key, now: int): seq<Item> {
    if Has(s, k) then [Touched(cfg, Find(s, k), now)] + Without(s, k) else s
  }

  /** On a key already present a failing encoder leaves the previous blob in place. */
  function ShardSet(cfg: Config, s: seq<Item>, k: Key, t: Torrent, info: TorrentInfo, now: int): seq<Item>
    requires cfg.Valid()
  {
    if Has(s, k) then
      var blob := if cfg.Compress(info).Some? then cfg.Compress(info) else Find(s, k).blob;
      [Item(t, info, now, blob)] + Without(s, k)
    else
      [Item(t, info, now, cfg.Compress(info))] + Room(cfg, s)
  }

  /** The shard after making room for one more entry. */
  function Room(cfg: Config, s: seq<Item>): seq<Item>
    requires cfg.Valid()
  {
    if |s| >= Quotient(cfg.maxSize, cfg.shardCount) then DropLast(s) else s
  }

  function ShardStep(cfg: Config, s: seq<Item>, op: Op, now: int): seq<Item>
    requires cfg.Valid()
  {
    match op
    case Get(k) => ShardGet(cfg, s, k, now)
    case Set(k, t, info) => ShardSet(cfg, s, k, t, info, now)
    case Delete(k) => Without(s, k)
    case Cleanup => Unexpired(s, now, cfg.expiration)
    case ClearStats => s
  }

  // ---- the whole cache -----------------------------------------------------------------------

  function Total(shards: seq<seq<Item>>): nat {
    if shards == [] then 0 else |shards[0]| + Total(shards[1..])
  }

  lemma {:induction false} TotalUpdate(shards: seq<seq<Item>>, i: nat, s: seq<Item>)
    requires i < |shards|
    ensures Total(shards[i := s]) == Total(shards) - |shards[i]| + |s|
  {
    if i > 0 {
      TotalUpdate(shards[1..], i - 1, s);
      assert shards[i := s][1..] == shards[1..][i - 1 := s];
    }
  }

  /** An operation on a key changes that key's shard, and a cleanup changes all of them. */
  function NextShards(cfg: Config, shards: seq<seq<Item>>, op: Op, now: int): (r: seq<seq<Item>>)
    requires cfg.Valid() && |shards| == cfg.shardCount
  {
    if op.HasKey() then
      var i := cfg.Home(op.key);
      shards[i := ShardStep(cfg, shards[i], op, now)]
    else
      seq(|shards|, i requires 0 <= i < |shards| => ShardStep(cfg, shards[i], op, now))
  }

  function Present(cfg: Config, shards: seq<seq<Item>>, k: Key): bool
    requires cfg.Valid() && |shards| == cfg.shardCount
  {
    Has(shards[cfg.Home(k)], k)
  }

  function Evicts(cfg: Config, s: seq<Item>): bool
    requires cfg.Valid()
  {
    |s| >= Quotient(cfg.maxSize, cfg.shardCount) && s != []
  }

  function NextStats(cfg: Config, st: State, op: Op, now: int): Stats
    requires cfg.Valid() && |st.shards| == cfg.shardCount
  {
    match op
    case Get(k) =>
      if Present(cfg, st.shards, k) then st.stats.(hits := st.stats.hits + 1)
      else st.stats.(misses := st.stats.misses + 1)
    case Set(k, t, info) =>
      var compressed := st.stats.(
        compressions := st.stats.compressions + if cfg.Compress(info).Some? then 1 else 0);
      if Present(cfg, st.shards, k) then compressed
      else if Evicts(cfg, st.shards[cfg.Home(k)]) then
        compressed.(evictions := st.stats.evictions + 1)
      else compressed.(size := st.stats.size + 1)
    case Delete(k) =>
      if Present(cfg, st.shards, k) then st.stats.(size := st.stats.size - 1) else st.stats
    case Cleanup =>
      var gone := Total(st.shards) - Total(NextShards(cfg, st.shards, op, now));
      st.stats.(evictions := st.stats.evictions + gone, size := st.stats.size - gone)
    case ClearStats => ZERO_STATS
  }

  function Step(cfg: Config, st: State, op: Op, now: int): State
    requires cfg.Valid() && |st.shards| == cfg.shardCount
  {
    State(NextShards(cfg, st.shards, op, now), NextStats(cfg, st, op, now))
  }

  function Respond(cfg: Config, st: State, op: Op): Response
    requires cfg.Valid() && |st.shards| == cfg.shardCount
  {
    match op
    case Get(k) =>
      var s := st.shards[cfg.Home(k)];
      if Has(s, k) then Answer(cfg, Find(s, k)) else Miss
    case _ => Done
  }

  // ---- the invariant -------------------------------------------------------------------------

  ghost predicate Distinct(s: seq<Item>) {
    forall i, j | 0 <= i < j < |s| :: s[i].Key() != s[j].Key()
  }

  /** Most recently touched first. */
  ghost predicate ByRecency(s: seq<Item>) {
    forall i, j | 0 <= i < j < |s| :: s[i].last >= s[j].last
  }

  /** The order of one shard at a time no earlier than any of its accesses. */
  ghost predicate Ordered(s: seq<Item>, clock: int) {
    && Distinct(s)
    && ByRecency(s)
    && forall j | 0 <= j < |s| :: s[j].last <= clock
  }

  ghost predicate AtHome(cfg: Config, s: seq<Item>, i: nat)
    requires cfg.Valid()
  {
    forall x :: x in s ==> cfg.Home(x.Key()) == i
  }

  ghost predicate ShardInv(cfg: Config, s: seq<Item>, i: nat, clock: int)
    requires cfg.Valid()
  {
    Ordered(s, clock) && |s| <= cfg.Capacity() && AtHome(cfg, s, i)
  }

  ghost predicate Inv(cfg: Config, shards: seq<seq<Item>>, clock: int) {
    && cfg.Valid()
    && |shards| == cfg.shardCount
    && forall i | 0 <= i < |shards| :: ShardInv(cfg, shards[i], i, clock)
  }

  lemma {:induction false} WithoutAt(s: seq<Item>, k: Key)
    ensures Without(s, k) == if Has(s, k) then s[..IndexOf(s, k)] + s[IndexOf(s, k) + 1..] else s
  {
    if s != [] && s[0].Key() != k {
      var p := IndexOf(s[1..], k);
      WithoutAt(s[1..], k);
      assert IndexOf(s, k) == p + 1;
      if p < |s| - 1 {
        assert s[..p + 1] == [s[0]] + s[1..][..p] && s[1..][p + 1..] == s[p + 2..];
      }
      hide IndexOf;
    }
  }

  lemma {:induction false} WithoutAbsent(s: seq<Item>, k: Key)
    requires !Has(s, k)
    ensures Without(s, k) == s
  {
    if s != [] {
      WithoutAbsent(s[1..], k);
    }
  }

  /** A cleanup of a shard in recency order keeps a prefix: what it removes is a suffix, and all of
      that suffix, and nothing before it, has outlived the expiration time. */
  lemma {:induction false} CleanupDropsExpiredSuffix(s: seq<Item>, now: int, expiration: int)
    requires ByRecency(s)
    ensures var r := Unexpired(s, now, expiration);
            && |r| <= |s| && r == s[..|r|]
            && (forall i | 0 <= i < |r| :: now - s[i].last <= expiration)
            && (forall i | |r| <= i < |s| :: now - s[i].last > expiration)
  {
    if s != [] {
      var r := Unexpired(s[1..], now, expiration);
      CleanupDropsExpiredSuffix(s[1..], now, expiration);
      assert r != [] ==> r[0] == s[1];
    }
  }

  lemma {:induction false} UnexpiredMembers(s: seq<Item>, now: int, expiration: int)
    ensures forall x :: x in Unexpired(s, now, expiration) ==> x in s
    ensures |Unexpired(s, now, expiration)| <= |s|
  {
    if s != [] {
      UnexpiredMembers(s[1..], now, expiration);
    }
  }

  /** An item in front, newer than the others and of another key. */
  lemma FrontKeepsOrder(x: Item, s: seq<Item>, clock: int, now: int)
    requires Ordered(s, clock) && clock <= now == x.last && forall y | y in s :: y.Key() != x.Key()
    ensures Ordered([x] + s, now)
  {
    var r := [x] + s;
    assert forall j | 0 < j < |r| :: r[j] == s[j - 1] && r[j] in s;
  }

  lemma {:induction false} TouchKeepsOrder(s: seq<Item>, k: Key, x: Item, clock: int, now: int)
    requires Ordered(s, clock) && clock <= now && Has(s, k) && x.Key() == k && x.last == now
    ensures Ordered([x] + Without(s, k), now)
  {
    WithoutKeepsOrder(s, k, clock);
    WithoutKeepsDistinct(s, k);
    hide Ordered, Distinct, Without;
    FrontKeepsOrder(x, Without(s, k), clock, now);
  }

  lemma {:induction false} WithoutMembers(s: seq<Item>, k: Key)
    ensures forall x :: x in Without(s, k) ==> x in s
    ensures |Without(s, k)| == if Has(s, k) then |s| - 1 else |s|
  {
    if s != [] && s[0].Key() != k {
      WithoutMembers(s[1..], k);
    }
  }

  lemma {:induction false} WithoutKeepsDistinct(s: seq<Item>, k: Key)
    requires Distinct(s)
    ensures Distinct(Without(s, k))
    ensures forall x | x in Without(s, k) :: x in s && x.Key() != k
  {
    if s != [] {
      if s[0].Key() != k {
        WithoutKeepsDistinct(s[1..], k);
        var w := Without(s[1..], k);
        forall x | x in w ensures x.Key() != s[0].Key() {
          var i :| 0 <= i < |s[1..]| && s[1..][i] == x;
        }
      } else {
        assert forall i | 0 <= i < |s| - 1 :: s[1..][i] == s[i + 1];
      }
    }
  }

  lemma {:induction false} WithoutKeepsRecency(s: seq<Item>, k: Key)
    requires ByRecency(s)
    ensures ByRecency(Without(s, k))
  {
    if s != [] && s[0].Key() != k {
      WithoutKeepsRecency(s[1..], k);
      WithoutMembers(s[1..], k);
      var w := Without(s[1..], k);
      forall x | x in w ensures x.last <= s[0].last {
        var i :| 0 <= i < |s[1..]| && s[1..][i] == x;
      }
    }
  }

  lemma {:induction false} WithoutKeepsOrder(s: seq<Item>, k: Key, clock: int)
    requires Ordered(s, clock)
    ensures Ordered(Without(s, k), clock)
  {
    WithoutKeepsDistinct(s, k);
    WithoutKeepsRecency(s, k);
    WithoutMembers(s, k);
    hide Without, Distinct, ByRecency;
    var w := Without(s, k);
    forall j | 0 <= j < |w| ensures w[j].last <= clock {
      assert w[j] in w && w[j] in s;
    }
  }

  lemma {:induction false} InsertKeepsOrder(cfg: Config, s: seq<Item>, x: Item, clock: int, now: int)
    requires cfg.Valid() && Ordered(s, clock) && clock <= now && !Has(s, x.Key()) && x.last == now
    ensures Ordered([x] + Room(cfg, s), now)
  {
    var r := Room(cfg, s);
    assert forall j | 0 <= j < |r| :: r[j] == s[j] && r[j].Key() != x.Key();
    FrontKeepsOrder(x, r, clock, now);
  }

  lemma ShardStepKeepsOrder(cfg: Config, s: seq<Item>, op: Op, clock: int, now: int)
    requires cfg.Valid() && Ordered(s, clock) && clock <= now && op.Valid()
    ensures Ordered(ShardStep(cfg, s, op, now), now)
  {
    match op
    case Get(k) =>
      if Has(s, k) {
        TouchKeepsOrder(s, k, Touched(cfg, Find(s, k), now), clock, now);
      }
    case Set(k, t, info) =>
      if Has(s, k) {
        TouchKeepsOrder(s, k, ShardSet(cfg, s, k, t, info, now)[0], clock, now);
      } else {
        InsertKeepsOrder(cfg, s, ShardSet(cfg, s, k, t, info, now)[0], clock, now);
      }
    case Delete(k) =>
      WithoutKeepsOrder(s, k, clock);
    case Cleanup =>
      CleanupDropsExpiredSuffix(s, now, cfg.expiration);
    case ClearStats =>
  }

  lemma RoomMembers(cfg: Config, s: seq<Item>)
    requires cfg.Valid()
    ensures forall x :: x in Room(cfg, s) ==> x in s
    ensures |s| <= cfg.Capacity() ==> |Room(cfg, s)| < cfg.Capacity()
  {
  }

  /** A step changes the size within the capacity and brings in no key but the operation's own. */
  lemma ShardStepMembers(cfg: Config, s: seq<Item>, op: Op, now: int)
    requires cfg.Valid() && op.Valid()
    ensures |s| <= cfg.Capacity() ==> |ShardStep(cfg, s, op, now)| <= cfg.Capacity()
    ensures forall x :: x in ShardStep(cfg, s, op, now) ==>
              x in s || (op.HasKey() && x.Key() == op.key)
  {
    match op
    case Get(k) =>
      WithoutMembers(s, k);
    case Set(k, t, info) =>
      WithoutMembers(s, k);
      RoomMembers(cfg, s);
    case Delete(k) =>
      WithoutMembers(s, k);
    case Cleanup =>
      UnexpiredMembers(s, now, cfg.expiration);
    case ClearStats =>
  }

  lemma ShardStepKeepsHome(cfg: Config, s: seq<Item>, op: Op, i: nat, now: int)
    requires cfg.Valid() && AtHome(cfg, s, i) && op.Valid()
    requires op.HasKey() ==> cfg.Home(op.key) == i
    ensures AtHome(cfg, ShardStep(cfg, s, op, now), i)
  {
    ShardStepMembers(cfg, s, op, now);
  }

  lemma ShardStepKeepsInv(cfg: Config, s: seq<Item>, op: Op, i: nat, clock: int, now: int)
    requires cfg.Valid() && ShardInv(cfg, s, i, clock) && clock <= now && op.Valid()
    requires op.HasKey() ==> cfg.Home(op.key) == i
    ensures ShardInv(cfg, ShardStep(cfg, s, op, now), i, now)
  {
    ShardStepKeepsOrder(cfg, s, op, clock, now);
    ShardStepMembers(cfg, s, op, now);
  }

  /** Every operation keeps the invariant: keys are distinct and live in their own shard, no shard
      exceeds max(1, maxSize / shards), and each shard is in order of last access. */
  lemma {:induction false} StepKeepsInv(cfg: Config, st: State, op: Op, clock: int, now: int)
    requires Inv(cfg, st.shards, clock) && clock <= now && op.Valid()
    ensures Inv(cfg, Step(cfg, st, op, now).shards, now)
  {
    var shards' := NextShards(cfg, st.shards, op, now);
    forall i | 0 <= i < |shards'|
      ensures ShardInv(cfg, shards'[i], i, now)
    {
      if !op.HasKey() || i == cfg.Home(op.key) {
        ShardStepKeepsInv(cfg, st.shards[i], op, i, clock, now);
      }
    }
  }

  /** A shard that is full gives up exactly its least recently touched entry, and only then. */
  lemma EvictionTakesLeastRecent(cfg: Config, s: seq<Item>, k: Key, t: Torrent,
      info: TorrentInfo, i: nat, clock: int, now: int)
    requires cfg.Valid() && ShardInv(cfg, s, i, clock) && !Has(s, k)
    ensures var kept := ShardSet(cfg, s, k, t, info, now)[1..];
            && (|s| < cfg.Capacity() ==> kept == s)
            && (|s| == cfg.Capacity() ==>
                  && kept + [s[|s| - 1]] == s
                  && forall x :: x in s ==> s[|s| - 1].last <= x.last)
  {
    assert ShardSet(cfg, s, k, t, info, now)[1..] == Room(cfg, s);
  }

  // ---- sizes in plain terms ------------------------------------------------------------------

  /** A key is at home in the shard that its hash leaves as a remainder. */
  lemma HomeIsRemainder(cfg: Config, k: Key)
    requires cfg.Valid()
    ensures cfg.hash(k) == Quotient(cfg.hash(k), cfg.shardCount) * cfg.shardCount + cfg.Home(k)
  {
  }

  /** A new key pushes an entry out exactly when with one more entry in each shard the cache would be
      over its size. */
  lemma EvictsWhenFull(cfg: Config, s: seq<Item>, k: Key, t: Torrent, info: TorrentInfo, now: int)
    requires cfg.Valid() && !Has(s, k)
    ensures |ShardSet(cfg, s, k, t, info, now)| ==
            if s != [] && (|s| + 1) * cfg.shardCount > cfg.maxSize then |s| else |s| + 1
    ensures Evicts(cfg, s) <==> s != [] && (|s| + 1) * cfg.shardCount > cfg.maxSize
  {
    QuotientAtMost(cfg.maxSize, cfg.shardCount, |s|);
  }

  /** Full shards make up the size of the cache, but for a rest that is smaller than their number; a
      shard holds one entry in any case. */
  lemma CapacityInPlainTerms(cfg: Config)
    requires cfg.Valid()
    ensures cfg.Capacity() >= 1
    ensures cfg.Capacity() * cfg.shardCount <= (if cfg.maxSize < cfg.shardCount then cfg.shardCount else cfg.maxSize)
    ensures cfg.maxSize < (cfg.Capacity() + 1) * cfg.shardCount
  {
    QuotientTruncates(cfg.maxSize, cfg.shardCount);
    QuotientAtMost(cfg.maxSize, cfg.shardCount, cfg.Capacity());
    QuotientAtMost(cfg.maxSize, cfg.shardCount, 0);
  }
}
