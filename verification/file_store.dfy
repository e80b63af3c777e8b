/**
  The file store as it runs: fields changed in place, the eviction loop, and the directory it works
  on.  Every method is proved to make the step that `FileStoreSpec` defines.
 */
module FileStore {
  import opened Types
  import opened FileStoreSpec

  class FileStore {
    const cfg: Config
    var lru: seq<Entry>
    var currentSize: int
    var held: nat

    /** The cache directory. */
    var files: map<Path, Bytes>

    ghost predicate Valid()
      reads this
    {
      cfg.Valid() && Tracked(cfg, lru)
    }

    ghost function State(): State
      reads this
    {
      FileStoreSpec.State(lru, files, currentSize, held)
    }

    constructor (cfg: Config)
      requires cfg.Valid()
      ensures Valid() && this.cfg == cfg && State() == Empty()
    {
      this.cfg := cfg;
      lru, currentSize, held, files := [], 0, 0, map[];
    }

    method Stat(path: Path, fault: Fault) returns (size: int)
      ensures size >= 0 <==> path in files && fault != StatFails
      ensures size >= 0 ==> size == |files[path]|
    {
      size := if path in files && fault != StatFails then |files[path]| else -1;
    }

    method Remove(path: Path, ok: bool) returns (removed: bool)
      modifies `files
      ensures removed == (ok && path in old(files))
      ensures files == if removed then old(files) - {path} else old(files)
    {
      removed := ok && path in files;
      if removed {
        files := files - {path};
      }
    }

    method Store(key: string, data: Bytes, size: int, world: World) returns (reply: Reply)
      requires Valid()
      modifies this
      ensures Valid() && (State(), reply) == Step(cfg, old(State()), Op.Store(key, data, size, world))
    {
      if held >= cfg.maxConcurrency {
        return Failed(NoPermit);
      }
      if currentSize + size > cfg.MaxSize() {
        var ok := Evict(size, world.evict);
        if !ok {
          return Failed(EvictionFailed);
        }
      }
      reply := Fill(key, data, world);
    }

    method Fill(key: string, data: Bytes, world: World) returns (reply: Reply)
      requires Valid()
      modifies `lru, `files, `currentSize
      ensures Valid() && (State(), reply) == FileStoreSpec.Fill(cfg, old(State()), key, data, world)
    {
      var filePath := cfg.path(key);
      if !world.createOk {
        return Failed(CreateFailed);
      }
      ghost var before := files;
      files := files[filePath := []];
      assert files - {filePath} == before - {filePath};
      assert files[filePath := data] == before[filePath := data];
      ghost var partial := Partial(data, world.copied);
      assert files[filePath := partial] == before[filePath := partial];
      reply := Copy(filePath, data, world);
      if reply == Done {
        AddKeepsTracked(cfg, lru, key);
        lru := Add(lru, Entry(key, filePath), cfg.cacheSize);
        currentSize := currentSize + |data|;
      }
    }

    /** Copies into a file just created; what a failing copy has written is removed again. */
    method Copy(filePath: Path, data: Bytes, world: World) returns (reply: Reply)
      requires filePath in files
      modifies `files
      ensures reply == if world.copyOk then Done else Failed(CopyFailed)
      ensures files == if world.copyOk then old(files)[filePath := data]
                       else if world.cleanupOk then old(files) - {filePath}
                       else old(files)[filePath := Partial(data, world.copied)]
    {
      if !world.copyOk {
        files := files[filePath := Partial(data, world.copied)];
        var removed := Remove(filePath, world.cleanupOk);
        return Failed(CopyFailed);
      }
      files := files[filePath := data];
      reply := Done;
    }

    method Evict(needed: int, faults: seq<Fault>) returns (ok: bool)
      requires Valid()
      modifies `lru, `files, `currentSize
      ensures Valid()
      ensures (State(), ok) == FileStoreSpec.Evict(cfg, old(State()), needed, faults)
    {
      hide Untrack;
      var rest := faults;
      while currentSize + needed > cfg.MaxSize()
        invariant Valid()
        invariant FileStoreSpec.Evict(cfg, State(), needed, rest)
               == FileStoreSpec.Evict(cfg, old(State()), needed, faults)
        decreases |lru|
      {
        if lru == [] {
          return false;
        }
        var oldest := lru[|lru| - 1];
        lru := lru[..|lru| - 1];
        var fault := if rest == [] then NoFault else rest[0];
        var size := Stat(oldest.path, fault);
        if size < 0 {
          return false;
        }
        var removed := Remove(oldest.path, fault == NoFault);
        if !removed {
          return false;
        }
        currentSize := currentSize - size;
        UntrackAbsent(lru, oldest.key);
        lru := Untrack(lru, oldest.key);
        rest := if rest == [] then [] else rest[1..];
      }
      ok := true;
    }

    method Get(key: string, openOk: bool) returns (reply: Reply)
      requires Valid()
      modifies `lru, `held
      ensures Valid() && (State(), reply) == Step(cfg, old(State()), Op.Get(key, openOk))
    {
      if held >= cfg.maxConcurrency {
        return Failed(NoPermit);
      }
      if !Tracks(lru, key) {
        return Failed(NotFound);
      }
      var filePath := lru[Position(lru, key)].path;
      PromoteKeepsTracked(cfg, lru, key);
      lru := Promote(lru, key);
      if filePath !in files || !openOk {
        return Failed(OpenFailed);
      }
      held := held + 1;
      reply := Content(files[filePath]);
    }

    /** Closing what Get returned gives its permit back; closing it twice is an error of the caller. */
    method CloseReader()
      requires Valid() && held > 0
      modifies `held
      ensures Valid() && State() == Step(cfg, old(State()), Op.CloseReader).0
    {
      held := held - 1;
    }

    method CloseFile(key: string, removeOk: bool) returns (reply: Reply)
      requires Valid()
      modifies `lru, `files
      ensures Valid() && (State(), reply) == Step(cfg, old(State()), Op.CloseFile(key, removeOk))
    {
      hide Tracked, StoreStep, Sweep, Untrack, Promote;
      if held >= cfg.maxConcurrency {
        return Failed(NoPermit);
      }
      if !Tracks(lru, key) {
        return Failed(NotFound);
      }
      var filePath := lru[Position(lru, key)].path;
      PromoteKeepsTracked(cfg, lru, key);
      ghost var before := lru;
      lru := Promote(lru, key);
      var removed := Remove(filePath, removeOk);
      if !removed {
        return Failed(RemoveFailed);
      }
      UntrackPromoted(cfg, before, key);
      lru := Untrack(lru, key);
      reply := Done;
    }

    /** Deletes the file of one key, if it is tracked. */
    method CloseKey(key: string, stuck: set<string>) returns (failed: bool)
      requires Valid()
      modifies `lru, `files
      ensures Valid() && (State(), failed) == SweepOne(old(State()), key, stuck)
    {
      if !Tracks(lru, key) {
        return false;
      }
      var filePath := lru[Position(lru, key)].path;
      PromoteKeepsTracked(cfg, lru, key);
      lru := Promote(lru, key);
      var removed := Remove(filePath, key !in stuck);
      failed := !removed;
    }

    /** Deletes the file of every tracked key.  The deletions run side by side in the source, so the
        order in which they look up their keys is a parameter. */
    method Close(order: seq<string>, stuck: set<string>) returns (reply: Reply)
      requires Valid()
      modifies `lru, `files
      ensures Valid() && (State(), reply) == Step(cfg, old(State()), Op.Close(order, stuck))
      ensures Clears(old(State()), order, stuck, files, reply == Done)
    {
      hide Clears, Tracked, SweepOne;
      SweepDeletes(cfg, State(), order, stuck);
      var failed := false;
      for i := 0 to |order|
        invariant Valid()
        invariant Sweep(State(), order[i..], stuck).0 == Sweep(old(State()), order, stuck).0
        invariant (failed || Sweep(State(), order[i..], stuck).1) == Sweep(old(State()), order, stuck).1
      {
        assert order[i..][1..] == order[i + 1..];
        var fails := CloseKey(order[i], stuck);
        failed := failed || fails;
      }
      reply := if failed then Failed(RemoveFailed) else Done;
    }
  }

  lemma UntrackAbsent(lru: seq<Entry>, k: string)
    requires forall i | 0 <= i < |lru| :: lru[i].key != k
    ensures Untrack(lru, k) == lru
  {
  }

  /** Taking out a key that was just moved to the front leaves the others as they were. */
  lemma UntrackPromoted(cfg: Config, lru: seq<Entry>, k: string)
    requires Tracked(cfg, lru) && Tracks(lru, k)
    ensures Untrack(Promote(lru, k), k) == Untrack(lru, k)
  {
    assert Position(Promote(lru, k), k) == 0;
  }
}
