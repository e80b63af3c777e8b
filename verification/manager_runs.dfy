/**
  A run of the torrent manager that shows what its limit on concurrent torrents does not limit: one
  call after the other adds as many torrents as one likes through a single slot of the semaphore.
 */
module ManagerRuns {
  import opened Types
  import opened Wrappers
  import opened Manager
  import opened ManagerProofs

  /** Some run leads from one state to another. */
  ghost predicate Leads(cfg: Config, s: State, s': State) {
    exists events :: IsRun(cfg, s, events) && Run(cfg, s, events) == s'
  }

  lemma {:induction false} RunsJoin(cfg: Config, s: State, a: seq<Event>, b: seq<Event>)
    requires IsRun(cfg, s, a) && IsRun(cfg, Run(cfg, s, a), b)
    ensures IsRun(cfg, s, a + b) && Run(cfg, s, a + b) == Run(cfg, Run(cfg, s, a), b)
    decreases |a|
  {
    if a == [] {
      assert a + b == b;
    } else {
      assert (a + b)[0] == a[0] && (a + b)[1..] == a[1..] + b;
      hide Next, Possible;
      RunsJoin(cfg, Next(cfg, s, a[0]), a[1..], b);
    }
  }

  lemma LeadsOn(cfg: Config, s: State, s1: State, e: Event)
    requires Leads(cfg, s, s1) && Possible(cfg, s1, e)
    ensures Leads(cfg, s, Next(cfg, s1, e))
  {
    var events :| IsRun(cfg, s, events) && Run(cfg, s, events) == s1;
    hide Next, Possible;
    assert [e][1..] == [] && IsRun(cfg, Next(cfg, s1, e), []);
    assert IsRun(cfg, s1, [e]);
    assert Run(cfg, s1, [e]) == Run(cfg, Next(cfg, s1, e), []);
    RunsJoin(cfg, s, events, [e]);
  }

  /** Where a call is on its way: its point of the program, the locks, and what it has put in the map. */
  datatype Way = Way(th: Thread, mu: RW, sem: nat, wmu: RW)

  ghost predicate On(s: State, t: Tid, u: Tid, torrents: map<Key, Wid>, w: Wid, y: Way) {
    && t in s.threads && s.threads[t] == y.th && u !in s.threads && u != t
    && s.torrents == torrents && s.mu == y.mu && s.sem == y.sem
    && (w in s.wrappers ==> s.wrappers[w].mu == y.wmu)
  }

  /** A step of the call that neither changes the map nor starts a thread. */
  lemma OneStep(cfg: Config, s0: State, s: State, t: Tid, u: Tid, torrents: map<Key, Wid>,
      w: Wid, y: Way, c: Choice, next: Thread, e: Effect)
    returns (s': State)
    requires Leads(cfg, s0, s) && On(s, t, u, torrents, w, y)
    requires Advance(cfg, s, y.th, c) == Move(next, e) && Granted(s, e)
    requires !e.Insert? && !e.Delete? && !e.Spawn?
    ensures Leads(cfg, s0, s') && s'.wrappers.Keys == s.wrappers.Keys && s'.torrents == torrents
    ensures On(s', t, u, torrents, w, Way(next, NextMu(y.mu, t, e), NextSem(y.sem, e), NextWrapperMu(y.wmu, w, t, e)))
  {
    assert Possible(cfg, s, Go(t, c));
    s' := Next(cfg, s, Go(t, c));
    hide Advance, Leads;
    LeadsOn(cfg, s0, s, Go(t, c));
  }

  /** A call starts. */
  lemma Starts(cfg: Config, s: State, t: Tid, u: Tid, k: Key, w: Wid) returns (s': State)
    requires s.mu == FREE && s.sem == 0
    requires t !in s.threads && u !in s.threads && t != u && w !in s.wrappers
    ensures Leads(cfg, s, s') && w !in s'.wrappers && s'.torrents == s.torrents
    ensures On(s', t, u, s.torrents, w, Way(GRLock(k), FREE, 0, FREE))
  {
    assert IsRun(cfg, s, []) && Run(cfg, s, []) == s;
    LeadsOn(cfg, s, s, Call(t, GRLock(k)));
    s' := Next(cfg, s, Call(t, GRLock(k)));
    hide Leads;
  }

  /** It looks the torrent up and does not find it. */
  lemma LooksUp(cfg: Config, s0: State, s: State, t: Tid, u: Tid, k: Key, w: Wid) returns (s': State)
    requires Leads(cfg, s0, s) && k !in s.torrents && w !in s.wrappers
    requires On(s, t, u, s.torrents, w, Way(GRLock(k), FREE, 0, FREE))
    ensures Leads(cfg, s0, s') && w !in s'.wrappers && s'.torrents == s.torrents
    ensures On(s', t, u, s.torrents, w, Way(GTry(k), FREE, 0, FREE))
  {
    hide Leads, Next, Possible, Enabled, Step, After, Schedule, NextTorrents, NextAccess, NextWrappers, NextWrapper;
    var c, reading := Choice(0, true, 0, k, w, u), RW(None, {t});
    s' := OneStep(cfg, s0, s, t, u, s.torrents, w, Way(GRLock(k), FREE, 0, FREE), c, GLookup(k), AcquireRead);
    s' := OneStep(cfg, s0, s', t, u, s.torrents, w, Way(GLookup(k), reading, 0, FREE), c, GRUnlock(k, false), Tau);
    s' := OneStep(cfg, s0, s', t, u, s.torrents, w, Way(GRUnlock(k, false), reading, 0, FREE), c, GTry(k), ReleaseRead);
  }

  /** It takes the semaphore and `m.mu`. */
  lemma TakesLocks(cfg: Config, s0: State, s: State, t: Tid, u: Tid, k: Key, w: Wid)
    returns (s': State)
    requires Leads(cfg, s0, s) && cfg.maxConcurrentTorrents > 0 && k !in s.torrents && w !in s.wrappers
    requires On(s, t, u, s.torrents, w, Way(GTry(k), FREE, 0, FREE))
    ensures Leads(cfg, s0, s') && w !in s'.wrappers && s'.torrents == s.torrents
    ensures On(s', t, u, s.torrents, w, Way(GAdd(k), RW(Some(t), {}), 1, FREE))
  {
    hide Leads, Next, Possible, Enabled, Step, After, Schedule, NextTorrents, NextAccess, NextWrappers, NextWrapper;
    var c := Choice(0, true, 0, k, w, u);
    s' := OneStep(cfg, s0, s, t, u, s.torrents, w, Way(GTry(k), FREE, 0, FREE), c, GLock(k), AcquireSem);
    s' := OneStep(cfg, s0, s', t, u, s.torrents, w, Way(GLock(k), FREE, 1, FREE), c, GRecheck(k), Acquire);
    s' := OneStep(cfg, s0, s', t, u, s.torrents, w, Way(GRecheck(k), RW(Some(t), {}), 1, FREE), c, GAdd(k), Tau);
  }

  lemma AddIt(cfg: Config, s0: State, s: State, t: Tid, u: Tid, k: Key, w: Wid) returns (s': State)
    requires Leads(cfg, s0, s) && w !in s.wrappers
    requires On(s, t, u, s.torrents, w, Way(GAdd(k), RW(Some(t), {}), 1, FREE))
    ensures Leads(cfg, s0, s') && w in s'.wrappers && s'.torrents == s.torrents[k := w]
    ensures On(s', t, u, s.torrents[k := w], w, Way(UStamp(k, Inserted(w)), RW(Some(t), {}), 1, FREE))
  {
    var c := Choice(0, true, 0, k, w, u);
    assert Possible(cfg, s, Go(t, c));
    s' := Next(cfg, s, Go(t, c));
    LeadsOn(cfg, s0, s, Go(t, c));
    hide Leads;
  }

  /** Where updateLastAccessed is after i steps on the torrent just added, and the effect of the next. */
  function Stage(k: Key, w: Wid, i: nat): Thread {
    var why := Inserted(w);
    match i
    case 0 => UStamp(k, why)
    case 1 => UStore(k, 0, why)
    case 2 => UFind(k, 0, why)
    case 3 => ULock(k, w, 0, why)
    case 4 => UWrite(k, w, 0, why)
    case 5 => UUnlock(k, w, why)
    case _ => GSpawn(k, w)
  }

  function StageEffect(k: Key, w: Wid, i: nat): Effect {
    match i
    case 1 => Store(k, 0)
    case 3 => AcquireWrapper(w)
    case 4 => Touch(w, 0)
    case 5 => ReleaseWrapper(w)
    case _ => Tau
  }

  function StageWay(t: Tid, k: Key, w: Wid, i: nat): Way {
    Way(Stage(k, w, i), RW(Some(t), {}), 1, if i in {4, 5} then RW(Some(t), {}) else FREE)
  }

  lemma StageMoves(cfg: Config, s: State, k: Key, w: Wid, c: Choice, i: nat)
    requires k in s.torrents && s.torrents[k] == w && c.now == 0 && i < 6
    ensures Advance(cfg, s, Stage(k, w, i), c) == Move(Stage(k, w, i + 1), StageEffect(k, w, i))
  {
  }

  lemma StageAfter(t: Tid, k: Key, w: Wid, i: nat)
    requires i < 6
    ensures var y, e := StageWay(t, k, w, i), StageEffect(k, w, i);
            && !e.Insert? && !e.Delete? && !e.Spawn?
            && (e.AcquireWrapper? ==> y.wmu == FREE)
            && StageWay(t, k, w, i + 1)
               == Way(Stage(k, w, i + 1), NextMu(y.mu, t, e), NextSem(y.sem, e), NextWrapperMu(y.wmu, w, t, e))
  {
  }

  /** updateLastAccessed on the torrent just added, as far as its i-th step. */
  lemma {:induction false} Accesses(cfg: Config, s0: State, s: State, t: Tid, u: Tid, k: Key, w: Wid, i: nat)
    returns (s': State)
    requires i <= 6
    requires Leads(cfg, s0, s) && w in s.wrappers && k in s.torrents && s.torrents[k] == w
    requires On(s, t, u, s.torrents, w, StageWay(t, k, w, 0))
    ensures Leads(cfg, s0, s') && w in s'.wrappers && s'.torrents == s.torrents
    ensures On(s', t, u, s.torrents, w, StageWay(t, k, w, i))
  {
    s' := s;
    if i > 0 {
      var c, e := Choice(0, true, 0, k, w, u), StageEffect(k, w, i - 1);
      s' := Accesses(cfg, s0, s, t, u, k, w, i - 1);
      StageMoves(cfg, s', k, w, c, i - 1);
      StageAfter(t, k, w, i - 1);
      assert Granted(s', e);
      hide *;
      s' := OneStep(cfg, s0, s', t, u, s.torrents, w, StageWay(t, k, w, i - 1), c, Stage(k, w, i), e);
    }
  }

  /** The monitor is started. */
  lemma Spawns(cfg: Config, s0: State, s: State, t: Tid, u: Tid, k: Key, w: Wid)
    returns (s': State, v: Tid)
    requires Leads(cfg, s0, s)
    requires On(s, t, u, s.torrents, w, Way(GSpawn(k, w), RW(Some(t), {}), 1, FREE))
    ensures Leads(cfg, s0, s') && s'.torrents == s.torrents
    ensures On(s', t, v, s.torrents, w, Way(GUnlock(k), RW(Some(t), {}), 1, FREE))
  {
    var c := Choice(0, true, 0, k, w, u);
    assert Possible(cfg, s, Go(t, c));
    s' := Next(cfg, s, Go(t, c));
    LeadsOn(cfg, s0, s, Go(t, c));
    hide Leads;
    v := FreshId(s'.threads.Keys);
  }

  /** Everything is given back. */
  lemma Unlock(cfg: Config, s0: State, s: State, t: Tid, u: Tid, k: Key, w: Wid) returns (s': State)
    requires Leads(cfg, s0, s)
    requires On(s, t, u, s.torrents, w, Way(GUnlock(k), RW(Some(t), {}), 1, FREE))
    ensures Leads(cfg, s0, s') && s'.torrents == s.torrents
    ensures On(s', t, u, s.torrents, w, Way(GRelease(k), FREE, 1, FREE))
  {
    hide Leads, Next, Possible, Enabled, Step, After, Schedule, NextTorrents, NextAccess, NextWrappers, NextWrapper;
    var c := Choice(0, true, 0, k, w, u);
    s' := OneStep(cfg, s0, s, t, u, s.torrents, w, Way(GUnlock(k), RW(Some(t), {}), 1, FREE), c, GRelease(k), Release);
  }

  lemma Leaves(cfg: Config, s0: State, s: State, t: Tid, u: Tid, k: Key, w: Wid) returns (s': State)
    requires Leads(cfg, s0, s)
    requires On(s, t, u, s.torrents, w, Way(GRelease(k), FREE, 1, FREE))
    ensures Leads(cfg, s0, s') && s'.torrents == s.torrents && s'.mu == FREE && s'.sem == 0
  {
    hide Leads, Next, Possible, Enabled, Step, After, Schedule, NextTorrents, NextAccess, NextWrappers, NextWrapper;
    var c := Choice(0, true, 0, k, w, u);
    s' := OneStep(cfg, s0, s, t, u, s.torrents, w, Way(GRelease(k), FREE, 1, FREE), c, Done, ReleaseSem);
  }

  /** With one slot, a call that finds the manager at rest adds its torrent and leaves it at rest. */
  lemma AddsOne(cfg: Config, s: State, k: Key) returns (s': State)
    requires cfg.maxConcurrentTorrents > 0 && s.mu == FREE && s.sem == 0 && k !in s.torrents
    ensures Leads(cfg, s, s') && s'.mu == FREE && s'.sem == 0 && s'.torrents.Keys == s.torrents.Keys + {k}
  {
    hide Leads, On;
    var t := FreshId(s.threads.Keys);
    var w := FreshId(s.wrappers.Keys);
    var u := t + 1;
    s' := Starts(cfg, s, t, u, k, w);
    s' := LooksUp(cfg, s, s', t, u, k, w);
    s' := TakesLocks(cfg, s, s', t, u, k, w);
    s' := AddIt(cfg, s, s', t, u, k, w);
    s' := Accesses(cfg, s, s', t, u, k, w, 6);
    var v;
    s', v := Spawns(cfg, s, s', t, u, k, w);
    s' := Unlock(cfg, s, s', t, v, k, w);
    s' := Leaves(cfg, s, s', t, v, k, w);
  }

  lemma LeadsFurther(cfg: Config, s: State, s1: State, s2: State)
    requires Leads(cfg, s, s1) && Leads(cfg, s1, s2)
    ensures Leads(cfg, s, s2)
  {
    var a :| IsRun(cfg, s, a) && Run(cfg, s, a) == s1;
    var b :| IsRun(cfg, s1, b) && Run(cfg, s1, b) == s2;
    RunsJoin(cfg, s, a, b);
  }

  /** The limit is not one on torrents: even with a single slot, any set of torrents can be live. */
  lemma {:induction false} AnyNumberOfTorrents(cfg: Config, keys: set<Key>) returns (s: State)
    requires cfg.maxConcurrentTorrents > 0
    ensures Leads(cfg, INITIAL, s) && s.torrents.Keys == keys && s.mu == FREE && s.sem == 0
  {
    if keys == {} {
      s := INITIAL;
      assert IsRun(cfg, INITIAL, []) && Run(cfg, INITIAL, []) == INITIAL;
    } else {
      var k :| k in keys;
      var s1 := AnyNumberOfTorrents(cfg, keys - {k});
      s := AddsOne(cfg, s1, k);
      LeadsFurther(cfg, INITIAL, s1, s);
    }
  }
}
