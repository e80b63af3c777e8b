/**
  The file store as a value: a recency list of tracked files, the directory on disk, the byte
  counter that is held against the budget, and the permits in use.  `currentSize` drifts away from
  what is on disk; the theorems say exactly how, in which direction, and at what cost.
 */
module FileStoreSpec {
  import opened Types

  type Path = string

  datatype Entry = Entry(key: string, path: Path)

  /** `path` joins the cache directory with a key; different keys may name the same file. */
  datatype Config = Config(cacheSize: nat, maxConcurrency: nat, path: string -> Path) {
    predicate Valid() { cacheSize > 0 }

    /** The same number bounds the files by count and, in mebibytes, by size. */
    function MaxSize(): nat { cacheSize * 1024 * 1024 }
  }

  datatype State = State(
    lru: seq<Entry>,            // most recently used first
    files: map<Path, Bytes>,
    currentSize: int,
    held: nat)                  // permits of the semaphore in use between calls

  /** What the operating system does to one iteration of an eviction. */
  datatype Fault = NoFault | StatFails | RemoveFails

  /** What the operating system does to one Store; `copied` bytes reach the file if the copy fails. */
  datatype World = World(evict: seq<Fault>, createOk: bool, copyOk: bool, copied: nat, cleanupOk: bool)

  datatype Op =
    | Store(key: string, data: Bytes, size: int, world: World)
    | Get(key: string, openOk: bool)
    | CloseReader
    | CloseFile(key: string, removeOk: bool)
    | Close(order: seq<string>, stuck: set<string>)

  datatype Error = NoPermit | EvictionFailed | CreateFailed | CopyFailed | NotFound | OpenFailed | RemoveFailed

  datatype Reply = Done | Content(bytes: Bytes) | Failed(error: Error)

  // ---- the recency list ----------------------------------------------------------------------

  /** The place of a key in the list, or the length of the list when it is not tracked. */
  function Position(lru: seq<Entry>, k: string): (i: nat)
    ensures i <= |lru|
    ensures i < |lru| ==> lru[i].key == k
    ensures forall j | 0 <= j < i :: lru[j].key != k
  {
    if lru == [] then 0 else if lru[0].key == k then 0 else 1 + Position(lru[1..], k)
  }

  predicate Tracks(lru: seq<Entry>, k: string) { Position(lru, k) < |lru| }

  function Untrack(lru: seq<Entry>, k: string): seq<Entry> {
    if Tracks(lru, k) then lru[..Position(lru, k)] + lru[Position(lru, k) + 1..] else lru
  }

  /** The list after a lookup of k. */
  function Promote(lru: seq<Entry>, k: string): seq<Entry> {
    if Tracks(lru, k) then [lru[Position(lru, k)]] + Untrack(lru, k) else lru
  }

  /** Adding a key beyond the capacity silently forgets the oldest one. */
  function Add(lru: seq<Entry>, e: Entry, capacity: nat): seq<Entry> {
    if Tracks(lru, e.key) then [e] + Untrack(lru, e.key)
    else if |lru| + 1 > capacity then ([e] + lru)[..|lru|]
    else [e] + lru
  }

  ghost predicate DistinctKeys(lru: seq<Entry>) {
    forall i, j | 0 <= i < j < |lru| :: lru[i].key != lru[j].key
  }

  // ---- bytes on disk -------------------------------------------------------------------------

  ghost function Total(files: map<Path, Bytes>): nat {
    if files == map[] then 0
    else
      var p :| p in files;
      |files[p]| + Total(files - {p})
  }

  function SizeAt(files: map<Path, Bytes>, p: Path): nat { if p in files then |files[p]| else 0 }

  lemma {:induction false} TotalWithout(files: map<Path, Bytes>, p: Path)
    ensures Total(files) == SizeAt(files, p) + Total(files - {p})
    decreases |files|
  {
    if p !in files {
      assert files - {p} == files;
    } else {
      var q :| q in files && Total(files) == |files[q]| + Total(files - {q});
      if q != p {
        TotalWithout(files - {q}, p);
        TotalWithout(files - {p}, q);
        assert files - {q} - {p} == files - {p} - {q};
      }
    }
  }

  lemma TotalWith(files: map<Path, Bytes>, p: Path, content: Bytes)
    ensures Total(files[p := content]) == Total(files) - SizeAt(files, p) + |content|
  {
    TotalWithout(files, p);
    TotalWithout(files[p := content], p);
    assert files[p := content] - {p} == files - {p};
  }

  // ---- operations ----------------------------------------------------------------------------

  /** Forgets and deletes the oldest tracked files until `needed` more bytes fit.  A failing file
      operation ends the loop with its entry already forgotten. */
  function Evict(cfg: Config, s: State, needed: int, faults: seq<Fault>): (r: (State, bool))
    decreases |s.lru|
  {
    if s.currentSize + needed <= cfg.MaxSize() then (s, true)
    else if s.lru == [] then (s, false)
    else
      var oldest := s.lru[|s.lru| - 1].path;
      var forgotten := s.(lru := s.lru[..|s.lru| - 1]);
      if oldest !in s.files || (faults != [] && faults[0] != NoFault) then (forgotten, false)
      else
        Evict(cfg, forgotten.(files := s.files - {oldest}, currentSize := s.currentSize - |s.files[oldest]|),
              needed, if faults == [] then [] else faults[1..])
  }

  function StoreStep(cfg: Config, s: State, op: Op): (State, Reply)
    requires op.Store?
  {
    var (room, ok) := Evict(cfg, s, op.size, op.world.evict);
    if !ok then (room, Failed(EvictionFailed)) else Fill(cfg, room, op.key, op.data, op.world)
  }

  /** Creates the file, truncating what was there, copies into it, and tracks it if that succeeds. */
  function Fill(cfg: Config, s: State, key: string, data: Bytes, w: World): (State, Reply) {
    var path := cfg.path(key);
    if !w.createOk then (s, Failed(CreateFailed))
    else if !w.copyOk then
      (s.(files := if w.cleanupOk then s.files - {path} else s.files[path := Partial(data, w.copied)]),
       Failed(CopyFailed))
    else
      (s.(files := s.files[path := data],
          lru := Add(s.lru, Entry(key, path), cfg.cacheSize),
          currentSize := s.currentSize + |data|),
       Done)
  }

  /** The part of the data that a failing copy has written. */
  function Partial(data: Bytes, copied: nat): (r: Bytes)
    ensures r <= data && |r| == if copied <= |data| then copied else |data|
  {
    data[..if copied <= |data| then copied else |data|]
  }

  function Step(cfg: Config, s: State, op: Op): (State, Reply) {
    match op
    case Store(_, _, _, _) =>
      if s.held >= cfg.maxConcurrency then (s, Failed(NoPermit)) else StoreStep(cfg, s, op)
    case Get(k, openOk) =>
      if s.held >= cfg.maxConcurrency then (s, Failed(NoPermit))
      else if !Tracks(s.lru, k) then (s, Failed(NotFound))
      else
        var promoted := s.(lru := Promote(s.lru, k));
        var path := s.lru[Position(s.lru, k)].path;
        if path !in s.files || !openOk then (promoted, Failed(OpenFailed))
        else (promoted.(held := s.held + 1), Content(s.files[path]))
    case CloseReader =>
      (s.(held := if s.held > 0 then s.held - 1 else 0), Done)
    case CloseFile(k, removeOk) =>
      if s.held >= cfg.maxConcurrency then (s, Failed(NoPermit))
      else if !Tracks(s.lru, k) then (s, Failed(NotFound))
      else
        var path := s.lru[Position(s.lru, k)].path;
        if path !in s.files || !removeOk then (s.(lru := Promote(s.lru, k)), Failed(RemoveFailed))
        else (s.(lru := Untrack(s.lru, k), files := s.files - {path}), Done)
    case Close(order, stuck) =>
      var (r, failed) := Sweep(s, order, stuck);
      (r, if failed then Failed(RemoveFailed) else Done)
  }

  /** Closing the store looks up each key and deletes its file; the flag says that some deletion
      failed.  Neither the list nor the counter forgets the files. */
  function Sweep(s: State, order: seq<string>, stuck: set<string>): (r: (State, bool))
    decreases |order|
  {
    if order == [] then (s, false)
    else
      var (next, fails) := SweepOne(s, order[0], stuck);
      var rest := Sweep(next, order[1..], stuck);
      (rest.0, fails || rest.1)
  }

  function SweepOne(s: State, k: string, stuck: set<string>): (State, bool) {
    if !Tracks(s.lru, k) then (s, false)
    else
      var path := s.lru[Position(s.lru, k)].path;
      var fails := path !in s.files || k in stuck;
      (s.(lru := Promote(s.lru, k), files := if fails then s.files else s.files - {path}), fails)
  }

  function SweptBytes(s: State, order: seq<string>, stuck: set<string>): nat
    decreases |order|
  {
    if order == [] then 0
    else
      var k, (next, fails) := order[0], SweepOne(s, order[0], stuck);
      (if fails || !Tracks(s.lru, k) then 0 else |s.files[s.lru[Position(s.lru, k)].path]|)
      + SweptBytes(next, order[1..], stuck)
  }

  /** A Store, with what the operating system does to it, that cannot exceed the budget: if it is tried
      and the copy succeeds the data is no longer than declared, and if the copy fails nothing is left
      behind. */
  predicate Safe(cfg: Config, op: Op) {
    op.Store? && cfg.maxConcurrency > 0 && op.size <= cfg.MaxSize() && op.world.createOk ==>
      if op.world.copyOk then |op.data| <= op.size || op.data == []
      else op.world.cleanupOk || op.world.copied == 0 || op.data == []
  }

  /** Bytes counted in currentSize and not on disk. */
  ghost function Drift(s: State): int { s.currentSize - Total(s.files) }

  /** The bytes an operation makes disappear from disk without taking them off currentSize: those of
      a file that is overwritten and those of files that are closed. */
  function Loss(cfg: Config, s: State, op: Op): nat {
    match op
    case Store(k, data, size, w) =>
      if s.held >= cfg.maxConcurrency then 0
      else
        var (room, ok) := Evict(cfg, s, size, w.evict);
        if ok && w.createOk then SizeAt(room.files, cfg.path(k)) else 0
    case CloseFile(k, removeOk) =>
      if Step(cfg, s, op).1 == Done then SizeAt(s.files, s.lru[Position(s.lru, k)].path) else 0
    case Close(order, stuck) => SweptBytes(s, order, stuck)
    case _ => 0
  }

  /** The bytes a failed copy leaves behind uncounted. */
  function Leak(cfg: Config, s: State, op: Op): nat {
    if op.Store? && Step(cfg, s, op).1 == Failed(CopyFailed) && !op.world.cleanupOk
    then |Partial(op.data, op.world.copied)|
    else 0
  }

  // ---- one operation -------------------------------------------------------------------------

  ghost predicate Tracked(cfg: Config, lru: seq<Entry>) {
    && |lru| <= cfg.cacheSize
    && DistinctKeys(lru)
    && forall i | 0 <= i < |lru| :: lru[i].path == cfg.path(lru[i].key)
  }

  lemma UntrackKeepsTracked(cfg: Config, lru: seq<Entry>, k: string)
    requires Tracked(cfg, lru)
    ensures Tracked(cfg, Untrack(lru, k))
    ensures forall i | 0 <= i < |Untrack(lru, k)| :: Untrack(lru, k)[i].key != k
  {
    var u, p := Untrack(lru, k), Position(lru, k);
    if p < |lru| {
      assert forall i | 0 <= i < |u| :: u[i] == lru[if i < p then i else i + 1];
    }
  }

  lemma FrontKeepsTracked(cfg: Config, e: Entry, lru: seq<Entry>)
    requires Tracked(cfg, lru) && |lru| < cfg.cacheSize && e.path == cfg.path(e.key)
    requires forall i | 0 <= i < |lru| :: lru[i].key != e.key
    ensures Tracked(cfg, [e] + lru)
  {
    var front := [e] + lru;
    assert forall i | 0 < i < |front| :: front[i] == lru[i - 1];
  }

  lemma PromoteKeepsTracked(cfg: Config, lru: seq<Entry>, k: string)
    requires Tracked(cfg, lru)
    ensures Tracked(cfg, Untrack(lru, k)) && Tracked(cfg, Promote(lru, k))
  {
    UntrackKeepsTracked(cfg, lru, k);
    UntrackSize(lru, k);
    if Tracks(lru, k) {
      FrontKeepsTracked(cfg, lru[Position(lru, k)], Untrack(lru, k));
    }
    hide Untrack, Tracked;
  }

  lemma UntrackSize(lru: seq<Entry>, k: string)
    ensures |Untrack(lru, k)| == if Tracks(lru, k) then |lru| - 1 else |lru|
  {
  }

  lemma AddKeepsTracked(cfg: Config, lru: seq<Entry>, k: string)
    requires cfg.Valid() && Tracked(cfg, lru)
    ensures Tracked(cfg, Add(lru, Entry(k, cfg.path(k)), cfg.cacheSize))
  {
    UntrackKeepsTracked(cfg, lru, k);
    UntrackSize(lru, k);
    hide Untrack;
  }

  /** Eviction takes bytes off the counter exactly as it takes them off the disk, and ends with room
      for the new file unless it says otherwise. */
  lemma {:induction false} EvictKeepsDrift(cfg: Config, s: State, needed: int, faults: seq<Fault>)
    requires Tracked(cfg, s.lru)
    ensures var (r, ok) := Evict(cfg, s, needed, faults);
            && Drift(r) == Drift(s) && r.held == s.held
            && r.currentSize <= s.currentSize
            && (ok ==> r.currentSize + needed <= cfg.MaxSize())
            && r.lru <= s.lru && Tracked(cfg, r.lru)
            && r.files.Keys <= s.files.Keys && (forall p | p in r.files :: r.files[p] == s.files[p])
    decreases |s.lru|
  {
    if s.currentSize + needed > cfg.MaxSize() && s.lru != [] {
      var oldest := s.lru[|s.lru| - 1].path;
      if oldest in s.files && (faults == [] || faults[0] == NoFault) {
        var next := s.(lru := s.lru[..|s.lru| - 1], files := s.files - {oldest},
                       currentSize := s.currentSize - |s.files[oldest]|);
        TotalWithout(s.files, oldest);
        EvictKeepsDrift(cfg, next, needed, if faults == [] then [] else faults[1..]);
      }
    }
  }

  lemma {:induction false} SweepLoses(cfg: Config, s: State, order: seq<string>, stuck: set<string>)
    requires Tracked(cfg, s.lru)
    ensures var r := Sweep(s, order, stuck).0;
            && Drift(r) == Drift(s) + SweptBytes(s, order, stuck)
            && r.currentSize == s.currentSize && r.held == s.held && Tracked(cfg, r.lru)
            && r.files.Keys <= s.files.Keys && (forall p | p in r.files :: r.files[p] == s.files[p])
    decreases |order|
  {
    if order != [] {
      var k := order[0];
      PromoteKeepsTracked(cfg, s.lru, k);
      if Tracks(s.lru, k) {
        TotalWithout(s.files, s.lru[Position(s.lru, k)].path);
      }
      SweepLoses(cfg, SweepOne(s, k, stuck).0, order[1..], stuck);
    }
  }

  /** Closing gets to a path: some tracked key in the order names it and its removal does not fail. */
  ghost predicate Swept(lru: seq<Entry>, order: seq<string>, stuck: set<string>, p: Path) {
    exists e :: e in lru && e.path == p && e.key in order && e.key !in stuck
  }

  lemma PromoteMembers(lru: seq<Entry>, k: string, e: Entry)
    ensures e in Promote(lru, k) <==> e in lru
  {
    var p := Position(lru, k);
    if p < |lru| {
      assert lru == lru[..p] + [lru[p]] + lru[p + 1..];
    }
  }

  /** What closing comes to: exactly the files that it gets to are gone, and if it reports no failure
      those are the files of all tracked keys in the order. */
  ghost predicate Clears(s: State, order: seq<string>, stuck: set<string>, left: map<Path, Bytes>, done: bool) {
    && (forall p :: p in left <==> p in s.files && !Swept(s.lru, order, stuck, p))
    && (done ==> forall e | e in s.lru && e.key in order :: e.path !in left)
  }

  lemma {:induction false} SweepDeletes(cfg: Config, s: State, order: seq<string>, stuck: set<string>)
    requires Tracked(cfg, s.lru)
    ensures var (r, failed) := Sweep(s, order, stuck);
            Clears(s, order, stuck, r.files, !failed)
    decreases |order|
  {
    if order != [] {
      var k, rest, next := order[0], order[1..], SweepOne(s, order[0], stuck).0;
      PromoteKeepsTracked(cfg, s.lru, k);
      SweepDeletes(cfg, next, rest, stuck);
      forall e ensures e in next.lru <==> e in s.lru {
        PromoteMembers(s.lru, k, e);
      }
      forall p ensures Swept(s.lru, order, stuck, p) <==>
          Swept(next.lru, rest, stuck, p) || (Tracks(s.lru, k) && k !in stuck && s.lru[Position(s.lru, k)].path == p)
      {
        SweptOnce(s.lru, order, stuck, p);
      }
      forall e | e in s.lru && e.key == k ensures Tracks(s.lru, k) && s.lru[Position(s.lru, k)] == e {
      }
    }
  }

  lemma {:induction false} SweptOnce(lru: seq<Entry>, order: seq<string>, stuck: set<string>, p: Path)
    requires DistinctKeys(lru) && order != []
    ensures var k := order[0];
            Swept(lru, order, stuck, p) <==>
            Swept(lru, order[1..], stuck, p)
            || (Tracks(lru, k) && k !in stuck && lru[Position(lru, k)].path == p)
  {
  }

  lemma StoreDrifts(cfg: Config, s: State, op: Op)
    requires cfg.Valid() && Tracked(cfg, s.lru) && op.Store?
    ensures var s' := Step(cfg, s, op).0;
            && Drift(s') == Drift(s) + Loss(cfg, s, op) - Leak(cfg, s, op)
            && Tracked(cfg, s'.lru)
  {
    var room, path, w := Evict(cfg, s, op.size, op.world.evict).0, cfg.path(op.key), op.world;
    EvictKeepsDrift(cfg, s, op.size, w.evict);
    TotalWith(room.files, path, op.data);
    TotalWith(room.files, path, Partial(op.data, w.copied));
    TotalWithout(room.files, path);
    AddKeepsTracked(cfg, room.lru, op.key);
    hide Evict, Total, Tracked, Add;
  }

  /** The exact law of the drift, for every operation and every behaviour of the file system. */
  lemma DriftLaw(cfg: Config, s: State, op: Op)
    requires cfg.Valid() && Tracked(cfg, s.lru)
    ensures var s' := Step(cfg, s, op).0;
            && Drift(s') == Drift(s) + Loss(cfg, s, op) - Leak(cfg, s, op)
            && Tracked(cfg, s'.lru)
  {
    hide Tracked, Total, Evict, Untrack, Promote, Sweep, SweptBytes, StoreStep;
    match op
    case Store(_, _, _, _) =>
      StoreDrifts(cfg, s, op);
    case Get(k, _) =>
      PromoteKeepsTracked(cfg, s.lru, k);
    case CloseReader =>
    case CloseFile(k, _) =>
      PromoteKeepsTracked(cfg, s.lru, k);
      if Tracks(s.lru, k) {
        TotalWithout(s.files, s.lru[Position(s.lru, k)].path);
      }
    case Close(order, stuck) =>
      SweepLoses(cfg, s, order, stuck);
  }

  /** On disk never more than counted, counted never more than allowed. */
  ghost predicate Inv(cfg: Config, s: State) {
    && cfg.Valid()
    && Tracked(cfg, s.lru)
    && Total(s.files) <= s.currentSize <= cfg.MaxSize()
    && s.held <= cfg.maxConcurrency
  }

  lemma StepKeepsInv(cfg: Config, s: State, op: Op)
    requires Inv(cfg, s) && Safe(cfg, op)
    ensures Inv(cfg, Step(cfg, s, op).0) && Leak(cfg, s, op) == 0
  {
    DriftLaw(cfg, s, op);
    if op.Store? {
      EvictKeepsDrift(cfg, s, op.size, op.world.evict);
    }
    if op.Close? {
      SweepLoses(cfg, s, op.order, op.stuck);
    }
  }

  /** A failed copy whose remains cannot be removed breaks the budget of an empty store. */
  lemma LeakBreaksBudget(cfg: Config, k: string, b: Byte)
    requires cfg.Valid() && cfg.maxConcurrency > 0
    ensures var s' := Step(cfg, Empty(), Store(k, [b], 1, World([], true, false, 1, false))).0;
            s'.currentSize == 0 && Total(s'.files) == 1
  {
    var files: map<Path, Bytes> := map[];
    TotalWith(files, cfg.path(k), [b]);
    assert Partial([b], 1) == [b];
  }

  // ---- runs ----------------------------------------------------------------------------------

  function Empty(): State { State([], map[], 0, 0) }

  function Run(cfg: Config, s: State, ops: seq<Op>): State
    decreases |ops|
  {
    if ops == [] then s else Run(cfg, Step(cfg, s, ops[0]).0, ops[1..])
  }

  function Replies(cfg: Config, s: State, ops: seq<Op>): (r: seq<Reply>)
    ensures |r| == |ops|
    decreases |ops|
  {
    if ops == [] then [] else [Step(cfg, s, ops[0]).1] + Replies(cfg, Step(cfg, s, ops[0]).0, ops[1..])
  }

  function TotalLoss(cfg: Config, s: State, ops: seq<Op>): nat
    decreases |ops|
  {
    if ops == [] then 0 else Loss(cfg, s, ops[0]) + TotalLoss(cfg, Step(cfg, s, ops[0]).0, ops[1..])
  }

  ghost predicate AllSafe(cfg: Config, ops: seq<Op>) { forall i | 0 <= i < |ops| :: Safe(cfg, ops[i]) }

  /** In every reachable state the bytes on disk are within currentSize, currentSize is within the
      budget, and the difference is exactly what overwriting and closing files has lost. */
  lemma {:induction false} DiskBudget(cfg: Config, s: State, ops: seq<Op>)
    requires Inv(cfg, s) && AllSafe(cfg, ops)
    ensures Inv(cfg, Run(cfg, s, ops))
    ensures Drift(Run(cfg, s, ops)) == Drift(s) + TotalLoss(cfg, s, ops)
    decreases |ops|
  {
    if ops != [] {
      assert Safe(cfg, ops[0]);
      StepKeepsInv(cfg, s, ops[0]);
      DriftLaw(cfg, s, ops[0]);
      DiskBudget(cfg, Step(cfg, s, ops[0]).0, ops[1..]);
    }
  }

  lemma {:induction false} DiskBudgetFromNew(cfg: Config, ops: seq<Op>)
    requires cfg.Valid() && AllSafe(cfg, ops)
    ensures var end := Run(cfg, Empty(), ops);
            && Total(end.files) <= end.currentSize <= cfg.MaxSize()
            && end.currentSize - Total(end.files) == TotalLoss(cfg, Empty(), ops)
  {
    var start := Empty();
    assert Total(start.files) == 0;
    assert Inv(cfg, start);
    hide Run, TotalLoss, AllSafe, Safe, Total, Tracked;
    DiskBudget(cfg, start, ops);
  }

  lemma {:induction false} RunAppend(cfg: Config, s: State, a: seq<Op>, b: seq<Op>)
    ensures Run(cfg, s, a + b) == Run(cfg, Run(cfg, s, a), b)
    decreases |a|
  {
    if a == [] {
      assert a + b == b;
    } else {
      assert (a + b)[1..] == a[1..] + b;
      RunAppend(cfg, Step(cfg, s, a[0]).0, a[1..], b);
    }
  }

  const FINE := World([], true, true, 0, true)

  /** Two safe operations that bring the counter to n with nothing on disk: storing a file of that
      size and closing it. */
  function Losing(n: nat): seq<Op> {
    [Store("", seq(n, _ => 0), n, FINE), CloseFile("", true)]
  }

  lemma {:induction false} LosingLoses(cfg: Config, n: nat)
    requires cfg.Valid() && cfg.maxConcurrency > 0 && n <= cfg.MaxSize()
    ensures AllSafe(cfg, Losing(n)) && Run(cfg, Empty(), Losing(n)) == State([], map[], n, 0)
  {
    var s, ops, path := Empty(), Losing(n), cfg.path("");
    var data: Bytes := seq(n, _ => 0);
    var stored := State([Entry("", path)], map[path := data], n, 0);
    assert Step(cfg, s, ops[0]).0 == stored;
    assert map[path := data] - {path} == map[];
    assert Step(cfg, stored, ops[1]).0 == State([], map[], n, 0);
    assert ops[1..] == [ops[1]] && ops[1..][1..] == [];
    assert Run(cfg, stored, ops[1..]) == State([], map[], n, 0);
    assert Run(cfg, s, ops) == Run(cfg, stored, ops[1..]);
    assert Safe(cfg, ops[0]);
  }

  /** An operation that is not safe breaks the budget after a safe run. */
  lemma UnsafeBreaks(cfg: Config, op: Op) returns (ops: seq<Op>)
    requires cfg.Valid() && !Safe(cfg, op)
    ensures AllSafe(cfg, ops) && !Inv(cfg, Run(cfg, Empty(), ops + [op]))
  {
    var files: map<Path, Bytes> := map[];
    var w, path := op.world, cfg.path(op.key);
    var n := if !w.copyOk then 0 else if op.size < 0 then cfg.MaxSize() else cfg.MaxSize() - op.size;
    ops := Losing(n);
    LosingLoses(cfg, n);
    RunAppend(cfg, Empty(), ops, [op]);
    var s := State([], files, n, 0);
    assert Run(cfg, s, [op]) == Step(cfg, s, op).0;
    assert Step(cfg, s, op).0 == Fill(cfg, s, op.key, op.data, w).0;
    TotalWith(files, path, Partial(op.data, w.copied));
    assert Total(files) == 0;
    if w.copyOk {
      assert Step(cfg, s, op).0.currentSize == n + |op.data| > cfg.MaxSize();
    } else {
      assert Step(cfg, s, op).0.currentSize == 0 < Total(Step(cfg, s, op).0.files);
    }
    assert !Inv(cfg, Step(cfg, s, op).0);
    assert Run(cfg, Empty(), ops + [op]) == Step(cfg, s, op).0;
    hide *;
  }

  /** The exact condition: the budget holds after every safe run that ends in an operation if and only
      if that operation is safe. */
  lemma {:induction false} BudgetLaw(cfg: Config, op: Op)
    requires cfg.Valid()
    ensures (forall ops :: AllSafe(cfg, ops) ==> Inv(cfg, Run(cfg, Empty(), ops + [op]))) <==> Safe(cfg, op)
  {
    if Safe(cfg, op) {
      var start := Empty();
      assert Total(start.files) == 0;
      assert Inv(cfg, start);
      forall ops | AllSafe(cfg, ops) ensures Inv(cfg, Run(cfg, start, ops + [op])) {
        var longer := ops + [op];
        assert forall i | 0 <= i < |longer| :: longer[i] == if i < |ops| then ops[i] else op;
        DiskBudget(cfg, start, longer);
      }
    } else {
      var ops := UnsafeBreaks(cfg, op);
    }
  }

  /** What is lost stays lost: once the lost bytes leave no room for a file, no sequence of further
      operations ever makes room for it again. */
  lemma {:induction false} LostSpaceNeverReturns(cfg: Config, s: State, ops: seq<Op>, op: Op)
    requires Inv(cfg, s) && AllSafe(cfg, ops) && op.Store?
    requires Drift(s) + op.size > cfg.MaxSize()
    ensures Step(cfg, Run(cfg, s, ops), op).1 in {Failed(NoPermit), Failed(EvictionFailed)}
  {
    hide Run, TotalLoss, Total, AllSafe;
    DiskBudget(cfg, s, ops);
    EvictKeepsDrift(cfg, Run(cfg, s, ops), op.size, op.world.evict);
  }

  // ---- when a file is refused ----------------------------------------------------------------

  /** What eviction can get at: the tracked files from the oldest on, up to the first whose file is
      missing. */
  function Freeable(lru: seq<Entry>, files: map<Path, Bytes>): nat {
    if lru == [] then 0
    else
      var oldest := lru[|lru| - 1].path;
      if oldest !in files then 0 else |files[oldest]| + Freeable(lru[..|lru| - 1], files - {oldest})
  }

  /** When no file operation fails, room is made exactly when the file fits beside what is lost and
      what eviction cannot get at: files that the list has forgotten, and files behind a missing one. */
  lemma {:induction false} RefusedOnlyWhenFull(cfg: Config, s: State, needed: int)
    ensures Evict(cfg, s, needed, []).1 <==>
            Drift(s) + (Total(s.files) - Freeable(s.lru, s.files)) + needed <= cfg.MaxSize()
    ensures Freeable(s.lru, s.files) <= Total(s.files)
    decreases |s.lru|
  {
    FreeableIsOnDisk(s.lru, s.files);
    if s.lru != [] && s.lru[|s.lru| - 1].path in s.files {
      var rest, oldest := s.lru[..|s.lru| - 1], s.lru[|s.lru| - 1].path;
      var next := s.(lru := rest, files := s.files - {oldest}, currentSize := s.currentSize - |s.files[oldest]|);
      RefusedOnlyWhenFull(cfg, next, needed);
    }
  }

  lemma {:induction false} FreeableIsOnDisk(lru: seq<Entry>, files: map<Path, Bytes>)
    ensures Freeable(lru, files) <= Total(files)
    decreases |lru|
  {
    if lru != [] && lru[|lru| - 1].path in files {
      TotalWithout(files, lru[|lru| - 1].path);
      FreeableIsOnDisk(lru[..|lru| - 1], files - {lru[|lru| - 1].path});
    }
  }

  /** A refusal means that the list is empty or that a file operation failed, and eviction stops as
      soon as it can: with the last file it removed still in place there was no room. */
  lemma {:induction false} EvictionStopsInTime(cfg: Config, s: State, needed: int, faults: seq<Fault>)
    ensures var (r, ok) := Evict(cfg, s, needed, faults);
            && r.lru <= s.lru
            && (ok && r.lru == s.lru ==> r == s)
            && (!ok ==> r.currentSize + needed > cfg.MaxSize())
            && (!ok && r.lru != [] ==>
                  && |r.lru| < |s.lru|
                  && (s.lru[|r.lru|].path !in r.files || exists i :: 0 <= i < |faults| && faults[i] != NoFault))
            && (ok && r.lru != s.lru ==>
                  && s.lru[|r.lru|].path in s.files
                  && r.currentSize + |s.files[s.lru[|r.lru|].path]| + needed > cfg.MaxSize())
    decreases |s.lru|
  {
    if s.currentSize + needed > cfg.MaxSize() && s.lru != [] {
      var rest, oldest := s.lru[..|s.lru| - 1], s.lru[|s.lru| - 1].path;
      if oldest in s.files && (faults == [] || faults[0] == NoFault) {
        var next := s.(lru := rest, files := s.files - {oldest}, currentSize := s.currentSize - |s.files[oldest]|);
        var later := if faults == [] then [] else faults[1..];
        EvictionStopsInTime(cfg, next, needed, later);
        if i :| 0 <= i < |later| && later[i] != NoFault {
          assert faults[i + 1] != NoFault;
        }
      }
    }
  }

  // ---- contents ------------------------------------------------------------------------------

  /** What was last written under each path: the data of a Store, or the part of it that a failed copy
      left behind. */
  type Ledger = map<Path, Bytes>

  function Note(cfg: Config, m: Ledger, op: Op, reply: Reply): Ledger {
    if op.Store? && reply == Done then m[cfg.path(op.key) := op.data]
    else if op.Store? && reply == Failed(CopyFailed) && !op.world.cleanupOk then
      m[cfg.path(op.key) := Partial(op.data, op.world.copied)]
    else m
  }

  function NoteAll(cfg: Config, m: Ledger, ops: seq<Op>, replies: seq<Reply>): Ledger
    requires |ops| == |replies|
    decreases |ops|
  {
    if ops == [] then m else NoteAll(cfg, Note(cfg, m, ops[0], replies[0]), ops[1..], replies[1..])
  }

  ghost predicate Faithful(files: map<Path, Bytes>, m: Ledger) {
    forall p | p in files :: p in m && files[p] == m[p]
  }

  lemma StepKeepsFaithful(cfg: Config, s: State, op: Op, m: Ledger)
    requires Tracked(cfg, s.lru) && Faithful(s.files, m)
    ensures Faithful(Step(cfg, s, op).0.files, Note(cfg, m, op, Step(cfg, s, op).1))
  {
    if op.Store? {
      EvictKeepsDrift(cfg, s, op.size, op.world.evict);
    }
    if op.Close? {
      SweepLoses(cfg, s, op.order, op.stuck);
    }
  }

  /** Over every run, whatever a Get delivers is what was last written to that file. */
  lemma {:induction false} GetsDeliverLastStored(cfg: Config, s: State, ops: seq<Op>, m: Ledger)
    requires cfg.Valid() && Tracked(cfg, s.lru) && Faithful(s.files, m)
    ensures var replies := Replies(cfg, s, ops);
            forall i | 0 <= i < |ops| && replies[i].Content? ::
              var latest := NoteAll(cfg, m, ops[..i], replies[..i]);
              && ops[i].Get? && cfg.path(ops[i].key) in latest
              && replies[i].bytes == latest[cfg.path(ops[i].key)]
    decreases |ops|
  {
    if ops != [] {
      var (next, reply) := Step(cfg, s, ops[0]);
      var replies := Replies(cfg, s, ops);
      DriftLaw(cfg, s, ops[0]);
      StepKeepsFaithful(cfg, s, ops[0], m);
      GetsDeliverLastStored(cfg, next, ops[1..], Note(cfg, m, ops[0], reply));
      forall i | 0 <= i < |ops| && replies[i].Content?
        ensures var latest := NoteAll(cfg, m, ops[..i], replies[..i]);
                && ops[i].Get? && cfg.path(ops[i].key) in latest
                && replies[i].bytes == latest[cfg.path(ops[i].key)]
      {
        if i > 0 {
          assert ops[..i][1..] == ops[1..][..i - 1] && replies[..i][1..] == replies[1..][..i - 1];
        }
      }
    }
  }
}
