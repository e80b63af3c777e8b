/**
  What a reader sees that stays open.  Get hands out an open file, and the operations that follow go on
  under it: removing a file leaves its bytes to whoever has it open, creating it anew under the same
  path truncates the very file that is open and fills it with other bytes.
 */
module FileReaders {
  import opened Types
  import opened FileStoreSpec

  /** An open file: the path it was opened under, whether it is still the file under that path, and
      the bytes that are in it now. */
  datatype Reader = Reader(path: Path, linked: bool, bytes: Bytes)

  predicate Opens(cfg: Config, s: State, k: string) { Step(cfg, s, Get(k, true)).1.Content? }

  /** What Get opens. */
  function Opened(cfg: Config, s: State, k: string): Reader
    requires Opens(cfg, s, k)
  {
    Reader(s.lru[Position(s.lru, k)].path, true, Step(cfg, s, Get(k, true)).1.bytes)
  }

  function Unlink(r: Reader, files: map<Path, Bytes>): Reader {
    if r.path in files then r else r.(linked := false)
  }

  /** What becomes of an open file when an operation of the store is made in a state. */
  function Seen(cfg: Config, s: State, r: Reader, op: Op): Reader {
    match op
    case Store(k, data, size, w) =>
      if s.held >= cfg.maxConcurrency then r
      else
        var (room, ok) := Evict(cfg, s, size, w.evict);
        var r1 := Unlink(r, room.files);
        if !ok || !w.createOk || !r1.linked || r1.path != cfg.path(k) then r1
        else if w.copyOk then r1.(bytes := data)
        else Reader(r1.path, !w.cleanupOk, Partial(data, w.copied))
    case _ => Unlink(r, Step(cfg, s, op).0.files)
  }

  function Follow(cfg: Config, s: State, r: Reader, ops: seq<Op>): Reader
    decreases |ops|
  {
    if ops == [] then r else Follow(cfg, Step(cfg, s, ops[0]).0, Seen(cfg, s, r, ops[0]), ops[1..])
  }

  /** The bytes in an open file are those on disk as long as it has its name. */
  ghost predicate SeesDisk(r: Reader, files: map<Path, Bytes>) {
    r.linked ==> r.path in files && files[r.path] == r.bytes
  }

  lemma StepKeepsSight(cfg: Config, s: State, r: Reader, op: Op)
    requires cfg.Valid() && Tracked(cfg, s.lru) && SeesDisk(r, s.files)
    ensures SeesDisk(Seen(cfg, s, r, op), Step(cfg, s, op).0.files)
    ensures Tracked(cfg, Step(cfg, s, op).0.lru)
  {
    DriftLaw(cfg, s, op);
    if op.Store? {
      EvictKeepsDrift(cfg, s, op.size, op.world.evict);
    }
    if op.Close? {
      SweepLoses(cfg, s, op.order, op.stuck);
    }
  }

  /** Over every run an open file either still has its name, and then it holds what was last written
      under that path, by whatever Store, or it has lost it, and then nothing will change it any more. */
  lemma {:induction false} ReadersSeeLatest(cfg: Config, s: State, r: Reader, ops: seq<Op>, m: Ledger)
    requires cfg.Valid() && Tracked(cfg, s.lru) && SeesDisk(r, s.files) && Faithful(s.files, m)
    ensures var r' := Follow(cfg, s, r, ops);
            var latest := NoteAll(cfg, m, ops, Replies(cfg, s, ops));
            && r'.path == r.path
            && (r'.linked ==> r.linked && r.path in latest && r'.bytes == latest[r.path])
            && (!r.linked ==> r' == r)
    decreases |ops|
  {
    if ops != [] {
      var s', reply := Step(cfg, s, ops[0]).0, Step(cfg, s, ops[0]).1;
      StepKeepsSight(cfg, s, r, ops[0]);
      StepKeepsFaithful(cfg, s, ops[0], m);
      ReadersSeeLatest(cfg, s', Seen(cfg, s, r, ops[0]), ops[1..], Note(cfg, m, ops[0], reply));
      SeenKeepsPath(cfg, s, r, ops[0]);
      assert Replies(cfg, s, ops)[1..] == Replies(cfg, s', ops[1..]);
    }
  }

  lemma SeenKeepsPath(cfg: Config, s: State, r: Reader, op: Op)
    ensures var r' := Seen(cfg, s, r, op);
            r'.path == r.path && (r'.linked ==> r.linked) && (!r.linked ==> r' == r)
    ensures var r' := Seen(cfg, s, r, op);
            !(op.Store? && cfg.path(op.key) == r.path && s.held < cfg.maxConcurrency) ==> r'.bytes == r.bytes
  {
  }

  /** Evicting, closing and removing never change what a reader sees, nor does a Store to another path. */
  lemma {:induction false} OnlyStoresDisturb(cfg: Config, s: State, r: Reader, ops: seq<Op>)
    requires forall i | 0 <= i < |ops| && ops[i].Store? :: cfg.path(ops[i].key) != r.path
    ensures Follow(cfg, s, r, ops).bytes == r.bytes
    decreases |ops|
  {
    if ops != [] {
      SeenKeepsPath(cfg, s, r, ops[0]);
      OnlyStoresDisturb(cfg, Step(cfg, s, ops[0]).0, Seen(cfg, s, r, ops[0]), ops[1..]);
    }
  }

  /** Whoever has the file open has not given its permit back: only permits of others are returned. */
  predicate StaysOpen(cfg: Config, s: State, ops: seq<Op>)
    decreases |ops|
  {
    ops != [] ==>
      && (ops[0].CloseReader? ==> s.held > 1)
      && StaysOpen(cfg, Step(cfg, s, ops[0]).0, ops[1..])
  }

  lemma {:induction false} RunKeepsTracked(cfg: Config, s: State, ops: seq<Op>)
    requires cfg.Valid() && Tracked(cfg, s.lru)
    ensures Tracked(cfg, Run(cfg, s, ops).lru)
    decreases |ops|
  {
    if ops != [] {
      DriftLaw(cfg, s, ops[0]);
      RunKeepsTracked(cfg, Step(cfg, s, ops[0]).0, ops[1..]);
    }
  }

  lemma StepKeepsPermit(cfg: Config, s: State, op: Op)
    requires cfg.Valid() && Tracked(cfg, s.lru) && s.held > 0 && (op.CloseReader? ==> s.held > 1)
    ensures Tracked(cfg, Step(cfg, s, op).0.lru) && Step(cfg, s, op).0.held > 0
  {
    DriftLaw(cfg, s, op);
    if op.Store? {
      EvictKeepsDrift(cfg, s, op.size, op.world.evict);
    }
    if op.Close? {
      SweepLoses(cfg, s, op.order, op.stuck);
    }
  }

  /** With a single permit an open reader keeps every Store out. */
  lemma {:induction false} SinglePermitProtects(cfg: Config, s: State, r: Reader, ops: seq<Op>)
    requires cfg.Valid() && cfg.maxConcurrency <= 1
    requires Tracked(cfg, s.lru) && s.held > 0 && StaysOpen(cfg, s, ops)
    ensures Follow(cfg, s, r, ops).bytes == r.bytes
    decreases |ops|
  {
    if ops != [] {
      SeenKeepsPath(cfg, s, r, ops[0]);
      StepKeepsPermit(cfg, s, ops[0]);
      SinglePermitProtects(cfg, Step(cfg, s, ops[0]).0, Seen(cfg, s, r, ops[0]), ops[1..]);
    }
  }

  /** After a run from new, what Get opens stays as it is for as long as it is open. */
  ghost predicate Undisturbed(cfg: Config, before: seq<Op>, k: string, after: seq<Op>) {
    var s := Run(cfg, Empty(), before);
    Opens(cfg, s, k) && StaysOpen(cfg, Step(cfg, s, Get(k, true)).0, after) ==>
      Follow(cfg, Step(cfg, s, Get(k, true)).0, Opened(cfg, s, k), after).bytes == Opened(cfg, s, k).bytes
  }

  /** A Store of one byte that nothing goes wrong with. */
  function Plain(b: Byte): Op { Store("", [b], 1, World([], true, true, 0, true)) }

  /** With a second permit a Store comes between: the reader of one byte finds another. */
  lemma StoreDisturbs(cfg: Config)
    requires cfg.Valid() && cfg.maxConcurrency > 1
    ensures !Undisturbed(cfg, [Plain(0)], "", [Plain(1)])
  {
    var start, path := Empty(), cfg.path("");
    var stored := Step(cfg, start, Plain(0)).0;
    assert stored == State([Entry("", path)], map[path := [0]], 1, 0);
    assert [Plain(0)][1..] == [] && [Plain(1)][1..] == [];
    assert Run(cfg, start, [Plain(0)]) == stored;
    var reading := Step(cfg, stored, Get("", true)).0;
    assert Opened(cfg, stored, "") == Reader(path, true, [0]);
    assert reading == stored.(held := 1);
    assert Seen(cfg, reading, Reader(path, true, [0]), Plain(1)) == Reader(path, true, [1]);
    assert StaysOpen(cfg, reading, [Plain(1)]);
  }

  /** The exact law: what Get hands out is safe from later operations, in all runs, if and only if the
      store has no second permit. */
  lemma ReaderLaw(cfg: Config)
    requires cfg.Valid()
    ensures (forall before, k, after :: Undisturbed(cfg, before, k, after)) <==> cfg.maxConcurrency <= 1
  {
    if cfg.maxConcurrency > 1 {
      StoreDisturbs(cfg);
    } else {
      forall before, k, after ensures Undisturbed(cfg, before, k, after) {
        var s := Run(cfg, Empty(), before);
        if Opens(cfg, s, k) && StaysOpen(cfg, Step(cfg, s, Get(k, true)).0, after) {
          RunKeepsTracked(cfg, Empty(), before);
          DriftLaw(cfg, s, Get(k, true));
          SinglePermitProtects(cfg, Step(cfg, s, Get(k, true)).0, Opened(cfg, s, k), after);
        }
      }
    }
  }
}
