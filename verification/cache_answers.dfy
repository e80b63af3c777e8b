/**
  What a torrent cache answers, against a plain map that never forgets.
 */
module CacheAnswers {
  import opened Types
  import opened Wrappers
  import opened CacheSpec
  import opened CacheRuns

  // ---- agreement with a plain map ------------------------------------------------------------

  /** A map that never forgets: what the cache is a lossy view of. */
  type Ledger = map<Key, (Torrent, TorrentInfo)>

  function Note(m: Ledger, op: Op): Ledger {
    match op
    case Set(k, t, info) => m[k := (t, info)]
    case Delete(k) => m - {k}
    case _ => m
  }

  function NoteAll(m: Ledger, evs: seq<Event>): Ledger
    decreases |evs|
  {
    if evs == [] then m else NoteAll(Note(m, evs[0].op), evs[1..])
  }

  /** What an entry holds beside what the ledger holds for its key: the info itself, its blob, or the
      blob of another that was left behind. */
  ghost predicate Backed(cfg: Config, infos: Infos, x: Item, m: Ledger) {
    && x.Key() in m
    && x.torrent == m[x.Key()].0
    && var info := m[x.Key()].1;
       && info in infos
       && match x.blob
          case None => x.info == info
          case Some(z) =>
            cfg.compression &&
            (cfg.codec.encode(info) == Some(z) || (cfg.codec.encode(info).None? && Encoded(cfg, infos, z)))
  }

  ghost predicate Encoded(cfg: Config, infos: Infos, z: Blob) {
    exists a | a in infos :: cfg.codec.encode(a) == Some(z)
  }

  /** No blob decodes to anything but the info that it was made from, and none that decodes can be left
      behind by an info that does not encode. */
  ghost predicate Truthful(cfg: Config, infos: Infos) {
    cfg.compression ==>
      forall a | a in infos && cfg.codec.encode(a).Some? && cfg.codec.decode(cfg.codec.encode(a).value).Some? ::
        && cfg.codec.decode(cfg.codec.encode(a).value) == Some(a)
        && forall b | b in infos :: cfg.codec.encode(b).Some?
  }

  lemma BackedAnswers(cfg: Config, infos: Infos, x: Item, m: Ledger)
    requires Backed(cfg, infos, x, m) && Truthful(cfg, infos) && Answer(cfg, x).Hit?
    ensures Answer(cfg, x) == Hit(m[x.Key()].0, m[x.Key()].1)
  {
    if x.blob.Some? && Encoded(cfg, infos, x.blob.value) {
      var a :| a in infos && cfg.codec.encode(a) == x.blob;
      assert cfg.codec.decode(x.blob.value) == Some(a);
    }
  }

  ghost predicate AllBacked(cfg: Config, infos: Infos, st: State, m: Ledger)
    requires cfg.Valid()
  {
    && |st.shards| == cfg.shardCount
    && forall i, x | 0 <= i < |st.shards| && x in st.shards[i] ::
         Backed(cfg, infos, x, m) && cfg.Home(x.Key()) == i
  }

  lemma FreshIsBacked(cfg: Config, infos: Infos, s: seq<Item>, t: Torrent, info: TorrentInfo,
      now: int, m: Ledger)
    requires (forall x | x in s :: Backed(cfg, infos, x, m)) && info in infos
    ensures var k := t.infoHash; Backed(cfg, infos, Fresh(cfg, t, info, now, Stale(s, k)), m[k := (t, info)])
  {
    var k := t.infoHash;
    if Has(s, k) {
      assert Backed(cfg, infos, Find(s, k), m);
      assert m[k].1 in infos;
    }
  }

  lemma ShardStepKeepsBacked(cfg: Config, infos: Infos, s: seq<Item>, op: Op, now: int, m: Ledger)
    requires cfg.Valid() && op.Valid() && Distinct(s) && Permits(infos, op)
    requires forall x | x in s :: Backed(cfg, infos, x, m)
    ensures forall x | x in ShardStep(cfg, s, op, now) :: Backed(cfg, infos, x, Note(m, op))
  {
    match op
    case Get(k) =>
      WithoutMembers(s, k);
      if Has(s, k) {
        assert Backed(cfg, infos, Find(s, k), m);
        assert Backed(cfg, infos, Touched(cfg, Find(s, k), now), m);
      }
    case Set(k, t, info) =>
      WithoutKeepsDistinct(s, k);
      WithoutMembers(s, k);
      RoomMembers(cfg, s);
      SetIsFresh(cfg, s, k, t, info, now);
      FreshIsBacked(cfg, infos, s, t, info, now, m);
      var rest := if Has(s, k) then Without(s, k) else Room(cfg, s);
      forall x | x in rest ensures Backed(cfg, infos, x, m) && x.Key() != k {
        var j :| 0 <= j < |s| && s[j] == x;
      }
      hide ShardSet, Fresh;
    case Delete(k) =>
      WithoutKeepsDistinct(s, k);
      WithoutMembers(s, k);
    case Cleanup =>
      UnexpiredMembers(s, now, cfg.expiration);
    case ClearStats =>
  }

  lemma StepKeepsBacked(cfg: Config, infos: Infos, st: State, op: Op, clock: int, now: int,
      m: Ledger)
    requires Inv(cfg, st.shards, clock) && clock <= now && op.Valid() && AllBacked(cfg, infos, st, m)
    requires Permits(infos, op)
    ensures AllBacked(cfg, infos, Step(cfg, st, op, now), Note(m, op))
  {
    StepKeepsInv(cfg, st, op, clock, now);
    var after := Step(cfg, st, op, now);
    forall i, x | 0 <= i < |after.shards| && x in after.shards[i]
      ensures Backed(cfg, infos, x, Note(m, op)) && cfg.Home(x.Key()) == i
    {
      assert ShardInv(cfg, st.shards[i], i, clock) && ShardInv(cfg, after.shards[i], i, now);
      if !op.HasKey() || i == cfg.Home(op.key) {
        ShardStepKeepsBacked(cfg, infos, st.shards[i], op, now, m);
      } else {
        assert Backed(cfg, infos, x, m);
      }
    }
  }

  /** The i-th operation, if it hits, answers with what the ledger holds then. */
  ghost predicate AnswersLatest(cfg: Config, st: State, evs: seq<Event>, m: Ledger, i: nat)
    requires cfg.Valid() && |st.shards| == cfg.shardCount && i < |evs|
  {
    Responses(cfg, st, evs)[i].Hit? ==>
      var latest := NoteAll(m, evs[..i]);
      && evs[i].op.Get? && evs[i].op.key in latest
      && Responses(cfg, st, evs)[i] == Hit(latest[evs[i].op.key].0, latest[evs[i].op.key].1)
  }

  /** Over every run a hit answers with the value of the latest Set of its key, which no Delete has
      followed, provided that the codec tells the truth about what is Set. */
  lemma {:induction false} HitsAreLatest(cfg: Config, infos: Infos, st: State, evs: seq<Event>, clock: int, m: Ledger)
    requires Inv(cfg, st.shards, clock) && InOrder(evs, clock) && AllBacked(cfg, infos, st, m)
    requires Truthful(cfg, infos) && AllPermitted(infos, evs)
    ensures forall i | 0 <= i < |evs| :: AnswersLatest(cfg, st, evs, m, i)
    decreases |evs|
  {
    if evs != [] {
      var e := evs[0];
      var next := Step(cfg, st, e.op, e.now);
      StepKeepsInv(cfg, st, e.op, clock, e.now);
      StepKeepsBacked(cfg, infos, st, e.op, clock, e.now, m);
      HitsAreLatest(cfg, infos, next, evs[1..], e.now, Note(m, e.op));
      FirstIsLatest(cfg, infos, st, evs, m);
      hide Inv, AllBacked, Truthful, Step, Respond, Backed;
      forall i | 0 < i < |evs| ensures AnswersLatest(cfg, st, evs, m, i) {
        assert AnswersLatest(cfg, next, evs[1..], Note(m, e.op), i - 1);
        assert evs[..i][1..] == evs[1..][..i - 1];
      }
    }
  }

  lemma FirstIsLatest(cfg: Config, infos: Infos, st: State, evs: seq<Event>, m: Ledger)
    requires cfg.Valid() && AllBacked(cfg, infos, st, m) && Truthful(cfg, infos) && evs != []
    ensures AnswersLatest(cfg, st, evs, m, 0)
  {
    if evs[0].op.Get? {
      var s, k := st.shards[cfg.Home(evs[0].op.key)], evs[0].op.key;
      if Has(s, k) && Answer(cfg, Find(s, k)).Hit? {
        assert Find(s, k) in s;
        BackedAnswers(cfg, infos, Find(s, k), m);
      }
    }
  }

  /** A run of one key on which a hit is not the latest: the info is Set and looked up, and perhaps
      another that does not encode is Set between. */
  lemma LieShows(cfg: Config, infos: Infos) returns (evs: seq<Event>, i: nat)
    requires cfg.Valid() && !Truthful(cfg, infos)
    ensures InOrder(evs, 0) && AllPermitted(infos, evs) && i < |evs|
    ensures !AnswersLatest(cfg, Empty(cfg), evs, map[], i)
  {
    var a :| a in infos && cfg.codec.encode(a).Some? && cfg.codec.decode(cfg.codec.encode(a).value).Some?
             && (cfg.codec.decode(cfg.codec.encode(a).value) == Some(a) ==>
                   exists b | b in infos :: cfg.codec.encode(b).None?);
    var t := Torrent("", 0);
    var set1, get := Event(Op.Set("", t, a), 0), Event(Op.Get(""), 0);
    if cfg.codec.decode(cfg.codec.encode(a).value) != Some(a) {
      evs, i := [set1, get], 1;
      LieAtOnce(cfg, t, a);
    } else {
      var b :| b in infos && cfg.codec.encode(b).None?;
      evs, i := [set1, Event(Op.Set("", t, b), 0), get], 2;
      LieLater(cfg, t, a, b);
    }
    Simultaneous(evs, 0);
  }

  lemma LieAtOnce(cfg: Config, t: Torrent, a: TorrentInfo)
    requires cfg.Valid() && t.infoHash == "" && cfg.Compress(a).Some?
    requires cfg.codec.decode(cfg.Compress(a).value).Some? && cfg.codec.decode(cfg.Compress(a).value) != Some(a)
    ensures !AnswersLatest(cfg, Empty(cfg), [Event(Op.Set("", t, a), 0), Event(Op.Get(""), 0)], map[], 1)
  {
    var set1, get := Event(Op.Set("", t, a), 0), Event(Op.Get(""), 0);
    var evs := [set1, get];
    ResponseAt(cfg, Empty(cfg), evs, 1);
    assert evs[..1] == [set1] && [set1][1..] == [];
    DecodesTo(cfg, Empty(cfg), t, a);
    assert NoteAll(map[], [set1]) == map["" := (t, a)];
    hide Step, Respond;
  }

  lemma {:induction false} NoteTwo(m: Ledger, e0: Event, e1: Event)
    ensures NoteAll(m, [e0, e1]) == Note(Note(m, e0.op), e1.op)
  {
    assert [e0, e1][1..] == [e1] && [e1][1..] == [];
    assert NoteAll(m, [e0, e1]) == NoteAll(Note(m, e0.op), [e1]);
    assert NoteAll(Note(m, e0.op), [e1]) == NoteAll(Note(Note(m, e0.op), e1.op), []);
  }

  lemma RunTwo(cfg: Config, st: State, e0: Event, e1: Event)
    requires cfg.Valid() && |st.shards| == cfg.shardCount
    ensures Run(cfg, st, [e0, e1]) == Step(cfg, Step(cfg, st, e0.op, e0.now), e1.op, e1.now)
  {
    var next := Step(cfg, st, e0.op, e0.now);
    assert [e0, e1][1..] == [e1] && [e1][1..] == [];
    assert Run(cfg, st, [e0, e1]) == Run(cfg, next, [e1]);
    assert Run(cfg, next, [e1]) == Run(cfg, Step(cfg, next, e1.op, e1.now), []);
    hide Step;
  }

  lemma LieLater(cfg: Config, t: Torrent, a: TorrentInfo, b: TorrentInfo)
    requires cfg.Valid() && t.infoHash == "" && cfg.Compress(a).Some? && cfg.Compress(b).None? && a != b
    requires cfg.codec.decode(cfg.Compress(a).value) == Some(a)
    ensures !AnswersLatest(cfg, Empty(cfg),
                           [Event(Op.Set("", t, a), 0), Event(Op.Set("", t, b), 0), Event(Op.Get(""), 0)], map[], 2)
  {
    var set1, set2, get := Event(Op.Set("", t, a), 0), Event(Op.Set("", t, b), 0), Event(Op.Get(""), 0);
    var evs := [set1, set2, get];
    ResponseAt(cfg, Empty(cfg), evs, 2);
    assert evs[..2] == [set1, set2];
    LeftBehind(cfg, Empty(cfg), t, a, b);
    NoteTwo(map[], set1, set2);
    RunTwo(cfg, Empty(cfg), set1, set2);
    hide Step, Respond, NoteAll, Run, Responses;
  }

  function Decoded(cfg: Config, t: Torrent, z: Blob): Response {
    match cfg.codec.decode(z)
    case Some(d) => Hit(t, d)
    case None => Miss
  }

  lemma DecodesTo(cfg: Config, st: State, t: Torrent, a: TorrentInfo)
    requires cfg.Valid() && |st.shards| == cfg.shardCount && cfg.Compress(a).Some?
    ensures Respond(cfg, Step(cfg, st, Op.Set(t.infoHash, t, a), 0), Op.Get(t.infoHash))
         == Decoded(cfg, t, cfg.Compress(a).value)
  {
    var s := st.shards[cfg.Home(t.infoHash)];
    SetIsFresh(cfg, s, t.infoHash, t, a, 0);
    assert IndexOf(ShardSet(cfg, s, t.infoHash, t, a, 0), t.infoHash) == 0;
  }

  lemma LeftBehind(cfg: Config, st: State, t: Torrent, a: TorrentInfo, b: TorrentInfo)
    requires cfg.Valid() && |st.shards| == cfg.shardCount && cfg.Compress(a).Some? && cfg.Compress(b).None?
    ensures var k := t.infoHash;
            Respond(cfg, Step(cfg, Step(cfg, st, Op.Set(k, t, a), 0), Op.Set(k, t, b), 0), Op.Get(k)) ==
            Decoded(cfg, t, cfg.Compress(a).value)
  {
    var k, i := t.infoHash, cfg.Home(t.infoHash);
    var s := st.shards[i];
    var s1 := ShardSet(cfg, s, k, t, a, 0);
    SetIsFresh(cfg, s, k, t, a, 0);
    assert IndexOf(s1, k) == 0;
    SetIsFresh(cfg, s1, k, t, b, 0);
    assert IndexOf(ShardSet(cfg, s1, k, t, b, 0), k) == 0;
  }

  /** The exact law of agreement, for any set of infos: every hit of every run that Sets only those
      answers with the latest Set if and only if the codec tells the truth about them. */
  lemma AgreementLaw(cfg: Config, infos: Infos)
    requires cfg.Valid()
    ensures (forall evs, i :: InOrder(evs, 0) && AllPermitted(infos, evs) && 0 <= i < |evs| ==>
               AnswersLatest(cfg, Empty(cfg), evs, map[], i))
            <==> Truthful(cfg, infos)
  {
    if Truthful(cfg, infos) {
      forall evs, i | InOrder(evs, 0) && AllPermitted(infos, evs) && 0 <= i < |evs|
        ensures AnswersLatest(cfg, Empty(cfg), evs, map[], i)
      {
        HitsAreLatest(cfg, infos, Empty(cfg), evs, 0, map[]);
      }
    } else {
      var evs, i := LieShows(cfg, infos);
    }
  }

  /** After a Set, the next lookup of the key answers with the stored value exactly when either the
      value comes back from the codec, or the encoder failed and there was no blob to fall back on
      that decodes to anything else. */
  lemma SetThenGet(cfg: Config, st: State, k: Key, t: Torrent, info: TorrentInfo, now: int)
    requires cfg.Valid() && |st.shards| == cfg.shardCount && t.infoHash == k
    ensures var s := st.shards[cfg.Home(k)];
            var stale := if Has(s, k) then Find(s, k).blob else None;
            Respond(cfg, Step(cfg, st, Op.Set(k, t, info), now), Op.Get(k)) == Hit(t, info) <==>
            if cfg.Compress(info).Some? then cfg.codec.decode(cfg.Compress(info).value) == Some(info)
            else !cfg.compression || stale.None? || cfg.codec.decode(stale.value) == Some(info)
  {
    var i := cfg.Home(k);
    var s' := Step(cfg, st, Op.Set(k, t, info), now).shards[i];
    assert s' == ShardSet(cfg, st.shards[i], k, t, info, now);
    assert IndexOf(s', k) == 0;
  }
}
