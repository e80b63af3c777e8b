/**
  The torrent manager as a machine of concurrent threads.  `Advance` is the program: what a thread
  at a given point does next and which effect it asks of the shared state.  `After` is the shared
  state: the map of torrents, the access times, the semaphore, `m.mu` and the lock of every wrapper.
  Theorems about all interleavings are in `ManagerProofs`.
 */
module Manager {
  import opened Types
  import opened Wrappers

  type Tid = nat
  type Wid = nat

  /** Who called updateLastAccessed: the lock-free fast path, or a caller that holds `m.mu` because
      the recheck found the torrent or because it has just been inserted. */
  datatype Purpose = Fast | Recheck | Inserted(wid: Wid)

  /** When a cleanup tick looked at a torrent, and the access time it saw. */
  datatype Exam = Exam(last: int, at: int)

  /** Where a thread is.  A name ending in Lock is a thread waiting for that lock. */
  datatype Thread =
      // GetTorrent
    | GRLock(k: Key) | GLookup(k: Key) | GRUnlock(k: Key, found: bool) | GTry(k: Key) | GLock(k: Key)
    | GRecheck(k: Key) | GAdd(k: Key) | GSpawn(k: Key, w: Wid) | GUnlock(k: Key) | GRelease(k: Key)
      // updateLastAccessed
    | UStamp(k: Key, why: Purpose) | UStore(k: Key, now: int, why: Purpose) | UFind(k: Key, now: int, why: Purpose)
    | ULock(k: Key, w: Wid, now: int, why: Purpose) | UWrite(k: Key, w: Wid, now: int, why: Purpose)
    | UUnlock(k: Key, w: Wid, why: Purpose)
      // removeTorrent
    | RLock(k: Key) | RFind(k: Key) | RDelete(k: Key, w: Wid) | RForget(k: Key) | RUnlock
      // cleanupRoutine
    | CIdle | CLock | CBegin | CLoop(pending: set<Key>, kept: map<Key, Exam>)
    | CDelete(k: Key, w: Wid, pending: set<Key>, kept: map<Key, Exam>)
    | CForget(k: Key, pending: set<Key>, kept: map<Key, Exam>)
      // monitorTorrent
    | MIdle(w: Wid, k: Key) | MRLock(w: Wid, k: Key) | MLookup(w: Wid, k: Key) | MRUnlock(w: Wid, k: Key, found: bool)
    | MWRLock(w: Wid, k: Key) | MRead(w: Wid, k: Key) | MWRUnlock(w: Wid, k: Key, last: int)
    | MJudge(w: Wid, k: Key, last: int) | MWLock(w: Wid, k: Key) | MWUnlock(w: Wid, k: Key)
      // manageTorrentInfo and waitForTorrentInfo, which share the closing of infoReady
    | IIdle(w: Wid, k: Key) | WIdle(w: Wid)
    | QLock(w: Wid) | QCheck(w: Wid) | QClose(w: Wid) | QUnlock(w: Wid)
    | Done

  datatype RW = RW(writer: Option<Tid>, readers: set<Tid>)

  const FREE := RW(None, {})

  /** A wrapper with the history of what was done to it. */
  datatype Wrapper = Wrapper(
    key: Key, lastAccessed: int, mu: RW, ready: bool, closes: nat, drops: nat, monitors: nat)

  datatype State = State(
    threads: map<Tid, Thread>,
    torrents: map<Key, Wid>,
    lastAccessed: map<Key, int>,
    mu: RW,
    sem: nat,
    wrappers: map<Wid, Wrapper>,   // every wrapper that was ever inserted
    removed: nat)

  datatype Config = Config(maxConcurrentTorrents: nat, torrentTimeout: int)

  /** What a step leaves open: the clock, the answers of the client, which event a select takes, and
      the identities of what it creates. */
  datatype Choice = Choice(now: int, yes: bool, pick: nat, key: Key, wid: Wid, tid: Tid)

  datatype Effect =
    | Tau
    | AcquireRead | ReleaseRead | Acquire | Release
    | AcquireSem | ReleaseSem
    | AcquireWrapper(w: Wid) | ReleaseWrapper(w: Wid)
    | AcquireWrapperRead(w: Wid) | ReleaseWrapperRead(w: Wid)
    | Store(k: Key, now: int) | Touch(w: Wid, now: int)
    | Insert(k: Key, w: Wid, now: int) | Spawn(t: Tid, w: Wid, k: Key)
    | Drop(w: Wid) | Delete(k: Key) | Forget(k: Key)
    | CloseReady(w: Wid)

  datatype Move = Stuck | Move(next: Thread, effect: Effect)

  /** Where updateLastAccessed returns to. */
  function Return(k: Key, why: Purpose): Thread {
    match why
    case Fast => Done
    case Recheck => GUnlock(k)
    case Inserted(w) => GSpawn(k, w)
  }

  /** The program of every thread. */
  function Advance(cfg: Config, s: State, th: Thread, c: Choice): Move {
    match th
    case GRLock(k) => Move(GLookup(k), AcquireRead)
    case GLookup(k) => Move(GRUnlock(k, k in s.torrents), Tau)
    case GRUnlock(k, found) => Move(if found then UStamp(k, Fast) else GTry(k), ReleaseRead)
    case GTry(k) => if s.sem < cfg.maxConcurrentTorrents then Move(GLock(k), AcquireSem) else Move(Done, Tau)
    case GLock(k) => Move(GRecheck(k), Acquire)
    case GRecheck(k) => Move(if k in s.torrents then UStamp(k, Recheck) else GAdd(k), Tau)
    case GAdd(k) =>
      if !c.yes then Move(GUnlock(k), Tau)
      else if c.wid in s.wrappers then Stuck
      else Move(UStamp(k, Inserted(c.wid)), Insert(k, c.wid, c.now))
    case GSpawn(k, w) => if c.tid in s.threads then Stuck else Move(GUnlock(k), Spawn(c.tid, w, k))
    case GUnlock(k) => Move(GRelease(k), Release)
    case GRelease(k) => Move(Done, ReleaseSem)

    case UStamp(k, why) => Move(UStore(k, c.now, why), Tau)
    case UStore(k, now, why) => Move(UFind(k, now, why), Store(k, now))
    case UFind(k, now, why) =>
      if k in s.torrents then Move(ULock(k, s.torrents[k], now, why), Tau) else Move(Return(k, why), Tau)
    case ULock(k, w, now, why) => Move(UWrite(k, w, now, why), AcquireWrapper(w))
    case UWrite(k, w, now, why) => Move(UUnlock(k, w, why), Touch(w, now))
    case UUnlock(k, w, why) => Move(Return(k, why), ReleaseWrapper(w))

    case RLock(k) => Move(RFind(k), Acquire)
    case RFind(k) =>
      if k in s.torrents then Move(RDelete(k, s.torrents[k]), Drop(s.torrents[k])) else Move(RUnlock, Tau)
    case RDelete(k, w) => Move(RForget(k), Delete(k))
    case RForget(k) => Move(RUnlock, Forget(k))
    case RUnlock => Move(Done, Release)

    case CIdle => Move(CLock, Tau)
    case CLock => Move(CBegin, Acquire)
    case CBegin => Move(CLoop(s.torrents.Keys, map[]), Tau)
    case CLoop(pending, kept) =>
      if pending == {} then Move(CIdle, Release)
      else if c.key !in pending || c.key !in s.torrents then Stuck
      else if c.key !in s.lastAccessed then Move(CLoop(pending - {c.key}, kept), Tau)
      else if c.now - s.lastAccessed[c.key] > cfg.torrentTimeout * 2 then
        Move(CDelete(c.key, s.torrents[c.key], pending - {c.key}, kept), Drop(s.torrents[c.key]))
      else
        Move(CLoop(pending - {c.key}, kept[c.key := Exam(s.lastAccessed[c.key], c.now)]), Tau)
    case CDelete(k, w, pending, kept) => Move(CForget(k, pending, kept), Delete(k))
    case CForget(k, pending, kept) => Move(CLoop(pending, kept), Forget(k))

    case MIdle(w, k) =>
      if c.pick == 0 then Move(MRLock(w, k), Tau)
      else if c.pick == 1 then Move(RLock(k), Tau)
      else if c.pick == 2 then Move(MIdle(w, k), Tau)
      else if w in s.wrappers && s.wrappers[w].drops > 0 then Move(Done, Tau) else Stuck
    case MRLock(w, k) => Move(MLookup(w, k), AcquireRead)
    case MLookup(w, k) => Move(MRUnlock(w, k, k in s.torrents), Tau)
    case MRUnlock(w, k, found) => Move(if found then MWRLock(w, k) else Done, ReleaseRead)
    case MWRLock(w, k) => Move(MRead(w, k), AcquireWrapperRead(w))
    case MRead(w, k) =>
      if w in s.wrappers then Move(MWRUnlock(w, k, s.wrappers[w].lastAccessed), Tau) else Stuck
    case MWRUnlock(w, k, last) => Move(MJudge(w, k, last), ReleaseWrapperRead(w))
    case MJudge(w, k, last) =>
      if c.now - last > cfg.torrentTimeout * 2 && c.yes then Move(RLock(k), Tau)
      else if c.pick == 0 then Move(MWLock(w, k), Tau)
      else Move(MIdle(w, k), Tau)
    case MWLock(w, k) => Move(MWUnlock(w, k), AcquireWrapper(w))
    case MWUnlock(w, k) => Move(MIdle(w, k), ReleaseWrapper(w))

    case IIdle(w, k) => Move(if c.yes then QLock(w) else RLock(k), Tau)
    case WIdle(w) =>
      if c.pick == 0 then Move(QLock(w), Tau)
      else if c.pick == 1 then Move(Done, Tau)
      else if w in s.wrappers && s.wrappers[w].ready then Move(Done, Tau) else Stuck
    case QLock(w) => Move(QCheck(w), AcquireWrapper(w))
    case QCheck(w) =>
      if !c.yes || w !in s.wrappers || s.wrappers[w].ready then Move(QUnlock(w), Tau) else Move(QClose(w), Tau)
    case QClose(w) => Move(QUnlock(w), CloseReady(w))
    case QUnlock(w) => Move(Done, ReleaseWrapper(w))
    case Done => Stuck
  }

  // ---- shared state --------------------------------------------------------------------------

  predicate Free(l: RW) { l.writer.None? && l.readers == {} }

  /** Locks are granted when they are free; every other effect is always possible. */
  predicate Granted(s: State, e: Effect) {
    match e
    case AcquireRead => s.mu.writer.None?
    case Acquire => Free(s.mu)
    case AcquireWrapper(w) => w in s.wrappers && Free(s.wrappers[w].mu)
    case AcquireWrapperRead(w) => w in s.wrappers && s.wrappers[w].mu.writer.None?
    case _ => true
  }

  function NextMu(l: RW, t: Tid, e: Effect): RW {
    match e
    case AcquireRead => l.(readers := l.readers + {t})
    case ReleaseRead => l.(readers := l.readers - {t})
    case Acquire => l.(writer := Some(t))
    case Release => l.(writer := None)
    case _ => l
  }

  function NextSem(n: nat, e: Effect): nat {
    match e
    case AcquireSem => n + 1
    case ReleaseSem => if n > 0 then n - 1 else 0
    case _ => n
  }

  function NextTorrents(m: map<Key, Wid>, e: Effect): map<Key, Wid> {
    match e
    case Insert(k, w, _) => m[k := w]
    case Delete(k) => m - {k}
    case _ => m
  }

  function NextAccess(m: map<Key, int>, e: Effect): map<Key, int> {
    match e
    case Store(k, now) => m[k := now]
    case Forget(k) => m - {k}
    case _ => m
  }

  function NextWrapperMu(l: RW, w: Wid, t: Tid, e: Effect): RW {
    match e
    case AcquireWrapper(v) => if v == w then l.(writer := Some(t)) else l
    case ReleaseWrapper(v) => if v == w then l.(writer := None) else l
    case AcquireWrapperRead(v) => if v == w then l.(readers := l.readers + {t}) else l
    case ReleaseWrapperRead(v) => if v == w then l.(readers := l.readers - {t}) else l
    case _ => l
  }

  function NextWrapper(x: Wrapper, w: Wid, t: Tid, e: Effect): Wrapper {
    var y := x.(mu := NextWrapperMu(x.mu, w, t, e));
    match e
    case Touch(v, now) => if v == w then y.(lastAccessed := now) else y
    case CloseReady(v) => if v == w then y.(ready := true, closes := x.closes + 1) else y
    case Drop(v) => if v == w then y.(drops := x.drops + 1) else y
    case Spawn(_, v, _) => if v == w then y.(monitors := x.monitors + 1) else y
    case _ => y
  }

  function NextWrappers(ws: map<Wid, Wrapper>, t: Tid, e: Effect): map<Wid, Wrapper> {
    var changed := map w | w in ws :: NextWrapper(ws[w], w, t, e);
    if e.Insert? then changed[e.w := Wrapper(e.k, e.now, FREE, false, 0, 0, 0)] else changed
  }

  /** The threads after a step: the one that moved, and the monitor it may have started. */
  function Schedule(threads: map<Tid, Thread>, t: Tid, next: Thread, e: Effect): map<Tid, Thread> {
    var moved := threads[t := next];
    if e.Spawn? then moved[e.t := MIdle(e.w, e.k)] else moved
  }

  predicate Enabled(cfg: Config, s: State, t: Tid, c: Choice) {
    && t in s.threads
    && var m := Advance(cfg, s, s.threads[t], c);
       m.Move? && Granted(s, m.effect)
  }

  function Step(cfg: Config, s: State, t: Tid, c: Choice): State
    requires Enabled(cfg, s, t, c)
  {
    After(s, t, Advance(cfg, s, s.threads[t], c))
  }

  function After(s: State, t: Tid, m: Move): State
    requires m.Move?
  {
    var e := m.effect;
    State(Schedule(s.threads, t, m.next, e), NextTorrents(s.torrents, e), NextAccess(s.lastAccessed, e),
          NextMu(s.mu, t, e), NextSem(s.sem, e), NextWrappers(s.wrappers, t, e),
          if e.Delete? then s.removed + 1 else s.removed)
  }

  /** What happens next: a new call, or a step of a thread. */
  datatype Event = Call(t: Tid, start: Thread) | Go(t: Tid, choice: Choice)

  /** Threads that may be started at any time. */
  predicate Callable(s: State, th: Thread) {
    || th.GRLock?
    || th.CIdle?
    || (th.IIdle? && th.w in s.wrappers && s.wrappers[th.w].key == th.k)
    || (th.WIdle? && th.w in s.wrappers)
  }

  predicate Possible(cfg: Config, s: State, e: Event) {
    match e
    case Call(t, start) => t !in s.threads && Callable(s, start)
    case Go(t, c) => Enabled(cfg, s, t, c)
  }

  function Next(cfg: Config, s: State, e: Event): State
    requires Possible(cfg, s, e)
  {
    match e
    case Call(t, start) => s.(threads := s.threads[t := start])
    case Go(t, c) => Step(cfg, s, t, c)
  }

  const INITIAL := State(map[], map[], map[], FREE, 0, map[], 0)

  predicate IsRun(cfg: Config, s: State, events: seq<Event>)
    decreases |events|
  {
    events != [] ==> Possible(cfg, s, events[0]) && IsRun(cfg, Next(cfg, s, events[0]), events[1..])
  }

  function Run(cfg: Config, s: State, events: seq<Event>): State
    requires IsRun(cfg, s, events)
    decreases |events|
  {
    if events == [] then s else Run(cfg, Next(cfg, s, events[0]), events[1..])
  }
}
