/**
  Whole runs of the file store: who holds a permit, which file is the oldest, and what the replies
  mean.
 */
module FileStoreRuns {
  import opened Types
  import opened FileStoreSpec

  // ---- permits -------------------------------------------------------------------------------

  /** How many readers an operation opens or closes. */
  function Opens(cfg: Config, s: State, op: Op): nat { if Step(cfg, s, op).1.Content? then 1 else 0 }

  function Closes(op: Op): nat { if op.CloseReader? then 1 else 0 }

  function Opened(cfg: Config, s: State, ops: seq<Op>): nat
    decreases |ops|
  {
    if ops == [] then 0 else Opens(cfg, s, ops[0]) + Opened(cfg, Step(cfg, s, ops[0]).0, ops[1..])
  }

  function Closed(ops: seq<Op>): nat { if ops == [] then 0 else Closes(ops[0]) + Closed(ops[1..]) }

  /** With some readers open at first, none is closed that is not open. */
  predicate Matched(cfg: Config, s: State, open: nat, ops: seq<Op>)
    decreases |ops|
  {
    ops != [] ==>
      && Closes(ops[0]) <= open
      && Matched(cfg, Step(cfg, s, ops[0]).0, open + Opens(cfg, s, ops[0]) - Closes(ops[0]), ops[1..])
  }

  lemma StepHeld(cfg: Config, s: State, op: Op)
    requires cfg.Valid() && Tracked(cfg, s.lru) && Closes(op) <= s.held
    ensures Step(cfg, s, op).0.held == s.held + Opens(cfg, s, op) - Closes(op)
  {
    if op.Store? {
      EvictKeepsDrift(cfg, s, op.size, op.world.evict);
    }
    if op.Close? {
      SweepLoses(cfg, s, op.order, op.stuck);
    }
    hide Evict, Sweep, Tracked, Untrack, Promote, Add;
  }

  lemma {:induction false} HeldCounts(cfg: Config, s: State, ops: seq<Op>)
    requires cfg.Valid() && Tracked(cfg, s.lru) && Matched(cfg, s, s.held, ops)
    ensures Run(cfg, s, ops).held == s.held + Opened(cfg, s, ops) - Closed(ops)
    decreases |ops|
  {
    if ops != [] {
      StepHeld(cfg, s, ops[0]);
      DriftLaw(cfg, s, ops[0]);
      hide Step, Opens, Closes;
      HeldCounts(cfg, Step(cfg, s, ops[0]).0, ops[1..]);
    }
  }

  predicate NeedsPermit(op: Op) { op.Store? || op.Get? || op.CloseFile? }

  /** After every run from new that closes only what is open, the permits in use are the readers that
      were opened and not closed, and an operation is turned away exactly when they are all in use. */
  lemma PermitLaw(cfg: Config, ops: seq<Op>, op: Op)
    requires cfg.Valid() && Matched(cfg, Empty(), 0, ops)
    ensures var s := Run(cfg, Empty(), ops);
            && s.held == Opened(cfg, Empty(), ops) - Closed(ops)
            && (Step(cfg, s, op).1 == Failed(NoPermit) <==> NeedsPermit(op) && s.held >= cfg.maxConcurrency)
  {
    HeldCounts(cfg, Empty(), ops);
    hide Run, Opened, Closed, Evict, Sweep;
  }

  /** A store with a permit and no open reader turns nobody away. */
  lemma AllClosed(cfg: Config, ops: seq<Op>, op: Op)
    requires cfg.Valid() && cfg.maxConcurrency > 0 && Matched(cfg, Empty(), 0, ops)
    requires Opened(cfg, Empty(), ops) == Closed(ops)
    ensures Step(cfg, Run(cfg, Empty(), ops), op).1 != Failed(NoPermit)
  {
    PermitLaw(cfg, ops, op);
    hide Run, Opened, Closed, Step;
  }

  // ---- recency -------------------------------------------------------------------------------

  /** The keys that an operation uses, in order: those it stores or looks up, and leaves tracked. */
  function Uses(op: Op, reply: Reply): seq<string> {
    match op
    case Store(k, _, _, _) => if reply == Done then [k] else []
    case Get(k, _) => if reply == Failed(NoPermit) then [] else [k]
    case CloseReader => []
    case CloseFile(k, _) => if reply == Failed(RemoveFailed) then [k] else []
    case Close(order, _) => order
  }

  function AllUses(cfg: Config, s: State, ops: seq<Op>): seq<string>
    decreases |ops|
  {
    if ops == [] then []
    else Uses(ops[0], Step(cfg, s, ops[0]).1) + AllUses(cfg, Step(cfg, s, ops[0]).0, ops[1..])
  }

  /** Where a key was used last, counting from one; nought if it never was. */
  function LastUse(uses: seq<string>, k: string): (n: nat)
    ensures n <= |uses|
  {
    if uses == [] then 0 else if uses[|uses| - 1] == k then |uses| else LastUse(uses[..|uses| - 1], k)
  }

  /** All tracked keys have been used, the first most recently. */
  ghost predicate ByUse(lru: seq<Entry>, uses: seq<string>) {
    && (forall i | 0 <= i < |lru| :: LastUse(uses, lru[i].key) > 0)
    && (forall i, j | 0 <= i < j < |lru| :: LastUse(uses, lru[i].key) > LastUse(uses, lru[j].key))
  }

  lemma OneMoreUse(uses: seq<string>, k: string, j: string)
    ensures LastUse(uses + [k], j) == if j == k then |uses| + 1 else LastUse(uses, j)
  {
    var more := uses + [k];
    assert more[..|more| - 1] == uses;
  }

  lemma FrontByUse(lru: seq<Entry>, uses: seq<string>, e: Entry)
    requires ByUse(lru, uses) && forall i | 0 <= i < |lru| :: lru[i].key != e.key
    ensures ByUse([e] + lru, uses + [e.key])
  {
    var front, more := [e] + lru, uses + [e.key];
    forall i | 0 <= i < |front|
      ensures LastUse(more, front[i].key) == if i == 0 then |more| else LastUse(uses, lru[i - 1].key)
    {
      OneMoreUse(uses, e.key, front[i].key);
    }
    hide LastUse;
  }

  lemma UntrackByUse(lru: seq<Entry>, uses: seq<string>, k: string)
    requires ByUse(lru, uses)
    ensures ByUse(Untrack(lru, k), uses)
  {
    var u, p := Untrack(lru, k), Position(lru, k);
    if p < |lru| {
      assert forall i | 0 <= i < |u| :: u[i] == lru[if i < p then i else i + 1];
    }
    hide LastUse;
  }

  lemma UntrackedIsGone(lru: seq<Entry>, k: string)
    requires DistinctKeys(lru)
    ensures forall i | 0 <= i < |Untrack(lru, k)| :: Untrack(lru, k)[i].key != k
  {
    var u, p := Untrack(lru, k), Position(lru, k);
    if p < |lru| {
      assert forall i | 0 <= i < |u| :: u[i] == lru[if i < p then i else i + 1];
    }
  }

  lemma PromoteByUse(lru: seq<Entry>, uses: seq<string>, k: string)
    requires ByUse(lru, uses) && DistinctKeys(lru)
    ensures ByUse(Promote(lru, k), uses + [k])
  {
    UntrackByUse(lru, uses, k);
    UntrackedIsGone(lru, k);
    hide Untrack;
    if Tracks(lru, k) {
      FrontByUse(Untrack(lru, k), uses, lru[Position(lru, k)]);
    } else {
      OthersAsBefore(lru, uses, k);
    }
  }

  lemma OthersAsBefore(lru: seq<Entry>, uses: seq<string>, k: string)
    requires ByUse(lru, uses) && forall i | 0 <= i < |lru| :: lru[i].key != k
    ensures ByUse(lru, uses + [k])
  {
    forall i | 0 <= i < |lru| ensures LastUse(uses + [k], lru[i].key) == LastUse(uses, lru[i].key) {
      OneMoreUse(uses, k, lru[i].key);
    }
    hide LastUse;
  }

  lemma AddByUse(lru: seq<Entry>, uses: seq<string>, e: Entry, capacity: nat)
    requires ByUse(lru, uses) && DistinctKeys(lru)
    ensures ByUse(Add(lru, e, capacity), uses + [e.key])
  {
    UntrackByUse(lru, uses, e.key);
    UntrackedIsGone(lru, e.key);
    FrontByUse(Untrack(lru, e.key), uses, e);
    hide LastUse;
  }

  lemma SweptIsPromoted(cfg: Config, s: State, order: seq<string>, stuck: set<string>, uses: seq<string>)
    requires Tracked(cfg, s.lru) && ByUse(s.lru, uses)
    ensures order != [] ==>
              var lru := SweepOne(s, order[0], stuck).0.lru; Tracked(cfg, lru) && ByUse(lru, uses + [order[0]])
  {
    if order != [] {
      PromoteByUse(s.lru, uses, order[0]);
      PromoteKeepsTracked(cfg, s.lru, order[0]);
      hide ByUse, Untrack;
    }
  }

  lemma {:induction false} SweepByUse(cfg: Config, s: State, order: seq<string>, stuck: set<string>, uses: seq<string>)
    requires Tracked(cfg, s.lru) && ByUse(s.lru, uses)
    ensures ByUse(Sweep(s, order, stuck).0.lru, uses + order)
    decreases |order|
  {
    SweptIsPromoted(cfg, s, order, stuck, uses);
    hide SweepOne, Promote, ByUse, Tracked;
    if order == [] {
      assert uses + order == uses;
    } else {
      var next := SweepOne(s, order[0], stuck).0;
      SweepByUse(cfg, next, order[1..], stuck, uses + [order[0]]);
      assert uses + [order[0]] + order[1..] == uses + order;
    }
  }

  lemma PrefixByUse(lru: seq<Entry>, longer: seq<Entry>, uses: seq<string>)
    requires ByUse(longer, uses) && lru <= longer
    ensures ByUse(lru, uses)
  {
    hide LastUse;
  }

  lemma StepByUse(cfg: Config, s: State, op: Op, uses: seq<string>)
    requires cfg.Valid() && Tracked(cfg, s.lru) && ByUse(s.lru, uses)
    ensures ByUse(Step(cfg, s, op).0.lru, uses + Uses(op, Step(cfg, s, op).1))
  {
    hide ByUse, Tracked, Evict, Add, Promote, Untrack, Sweep;
    assert uses + [] == uses;
    match op
    case Store(_, _, _, _) =>
      StoreByUse(cfg, s, op, uses);
    case Get(k, _) =>
      GetByUse(cfg, s.lru, k, uses);
    case CloseReader =>
    case CloseFile(k, _) =>
      GetByUse(cfg, s.lru, k, uses);
      UntrackByUse(s.lru, uses, k);
    case Close(order, stuck) =>
      SweepByUse(cfg, s, order, stuck, uses);
  }

  lemma GetByUse(cfg: Config, lru: seq<Entry>, k: string, uses: seq<string>)
    requires Tracked(cfg, lru) && ByUse(lru, uses)
    ensures ByUse(Promote(lru, k), uses + [k]) && (!Tracks(lru, k) ==> Promote(lru, k) == lru)
  {
    PromoteByUse(lru, uses, k);
  }

  lemma StoreByUse(cfg: Config, s: State, op: Op, uses: seq<string>)
    requires cfg.Valid() && Tracked(cfg, s.lru) && ByUse(s.lru, uses) && op.Store?
    ensures ByUse(Step(cfg, s, op).0.lru, uses + Uses(op, Step(cfg, s, op).1))
  {
    assert uses + [] == uses;
    EvictKeepsDrift(cfg, s, op.size, op.world.evict);
    var room := Evict(cfg, s, op.size, op.world.evict).0.lru;
    PrefixByUse(room, s.lru, uses);
    AddByUse(room, uses, Entry(op.key, cfg.path(op.key)), cfg.cacheSize);
    hide ByUse, Evict, Add;
  }

  lemma {:induction false} RunByUse(cfg: Config, s: State, ops: seq<Op>, uses: seq<string>)
    requires cfg.Valid() && Tracked(cfg, s.lru) && ByUse(s.lru, uses)
    ensures ByUse(Run(cfg, s, ops).lru, uses + AllUses(cfg, s, ops))
    decreases |ops|
  {
    if ops == [] {
      assert uses + [] == uses;
    } else {
      var s', now := Step(cfg, s, ops[0]).0, Uses(ops[0], Step(cfg, s, ops[0]).1);
      StepByUse(cfg, s, ops[0], uses);
      DriftLaw(cfg, s, ops[0]);
      hide Step, Uses, ByUse, Tracked;
      RunByUse(cfg, s', ops[1..], uses + now);
      assert uses + now + AllUses(cfg, s', ops[1..]) == uses + (now + AllUses(cfg, s', ops[1..]));
    }
  }

  /** After every run from new the list is in order of last use: what eviction takes from its end is what
      no operation has used for longest. */
  lemma OldestIsLeastUsed(cfg: Config, ops: seq<Op>)
    requires cfg.Valid()
    ensures ByUse(Run(cfg, Empty(), ops).lru, AllUses(cfg, Empty(), ops))
  {
    RunByUse(cfg, Empty(), ops, []);
    assert [] + AllUses(cfg, Empty(), ops) == AllUses(cfg, Empty(), ops);
    hide Run, AllUses;
  }

  // ---- what is tracked, and what the replies mean --------------------------------------------

  /** A Store that succeeds puts its key in front and keeps all others that eviction has left, but for
      the last when they are already as many as the list may hold. */
  lemma StoreTracks(cfg: Config, s: State, op: Op)
    requires cfg.Valid() && Tracked(cfg, s.lru) && op.Store? && Step(cfg, s, op).1 == Done
    ensures var room, r := Evict(cfg, s, op.size, op.world.evict).0.lru, Step(cfg, s, op).0.lru;
            && r != [] && r[0] == Entry(op.key, cfg.path(op.key))
            && forall e: Entry | e.key != op.key ::
                 e in r <==> e in room && !(|room| == cfg.cacheSize && !Tracks(room, op.key) && e == room[|room| - 1])
  {
    EvictKeepsDrift(cfg, s, op.size, op.world.evict);
    var room := Evict(cfg, s, op.size, op.world.evict).0.lru;
    hide Evict;
    AddMembers(room, Entry(op.key, cfg.path(op.key)), cfg.cacheSize);
    hide Add;
  }

  lemma AddMembers(lru: seq<Entry>, e: Entry, capacity: nat)
    requires DistinctKeys(lru) && |lru| <= capacity && capacity > 0
    ensures var r := Add(lru, e, capacity);
            && r != [] && r[0] == e
            && forall x: Entry | x.key != e.key ::
                 x in r <==> x in lru && !(|lru| == capacity && !Tracks(lru, e.key) && x == lru[|lru| - 1])
  {
    var r, p := Add(lru, e, capacity), Position(lru, e.key);
    if p < |lru| {
      assert lru == lru[..p] + [lru[p]] + lru[p + 1..];
    } else if |lru| == capacity {
      assert r == [e] + lru[..|lru| - 1] && lru == lru[..|lru| - 1] + [lru[|lru| - 1]];
    }
  }

  /** What was stored can be got at once. */
  lemma StoreThenGet(cfg: Config, s: State, op: Op)
    requires cfg.Valid() && Tracked(cfg, s.lru) && op.Store? && Step(cfg, s, op).1 == Done
    ensures Step(cfg, Step(cfg, s, op).0, Get(op.key, true)).1 == Content(op.data)
  {
    EvictKeepsDrift(cfg, s, op.size, op.world.evict);
    StoreTracks(cfg, s, op);
    var s' := Step(cfg, s, op).0;
    assert Position(s'.lru, op.key) == 0;
    hide Evict, Add;
  }

  /** A new store takes a file exactly up to as many mebibytes as it takes files. */
  lemma FirstFits(cfg: Config, k: string, data: Bytes, size: int)
    requires cfg.Valid() && cfg.maxConcurrency > 0
    ensures Step(cfg, Empty(), Store(k, data, size, World([], true, true, 0, true))).1
         == if size <= 1048576 * cfg.cacheSize then Done else Failed(EvictionFailed)
  {
  }

  /** Closing a file forgets its key and deletes its file, and no other. */
  lemma CloseFileForgets(cfg: Config, s: State, k: string, removeOk: bool)
    requires cfg.Valid() && Tracked(cfg, s.lru) && Step(cfg, s, CloseFile(k, removeOk)).1 == Done
    ensures var s', path := Step(cfg, s, CloseFile(k, removeOk)).0, cfg.path(k);
            && path in s.files && s'.files == s.files - {path} && !Tracks(s'.lru, k)
            && forall e: Entry | e.key != k :: e in s'.lru <==> e in s.lru
  {
    var p, u := Position(s.lru, k), Untrack(s.lru, k);
    UntrackedIsGone(s.lru, k);
    assert s.lru == s.lru[..p] + [s.lru[p]] + s.lru[p + 1..];
  }

  /** What a Get and a CloseFile answer, with a permit. */
  lemma RepliesSay(cfg: Config, s: State, k: string, ok: bool)
    requires cfg.Valid() && Tracked(cfg, s.lru) && s.held < cfg.maxConcurrency
    ensures var got, closed := Step(cfg, s, Get(k, ok)).1, Step(cfg, s, CloseFile(k, ok)).1;
            var tracked, there := exists e :: e in s.lru && e.key == k, cfg.path(k) in s.files;
            && (got == Failed(NotFound) <==> !tracked) && (closed == Failed(NotFound) <==> !tracked)
            && (got == Failed(OpenFailed) <==> tracked && !(there && ok))
            && (closed == Failed(RemoveFailed) <==> tracked && !(there && ok))
            && (got.Content? <==> tracked && there && ok) && (closed == Done <==> tracked && there && ok)
            && (got.Content? ==> got.bytes == s.files[cfg.path(k)])
  {
    var p := Position(s.lru, k);
    if p < |s.lru| {
      assert s.lru[p] in s.lru;
    }
  }
}
