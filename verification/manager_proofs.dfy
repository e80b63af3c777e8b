/**
  What holds in every state of every interleaving of the torrent manager.
 */
module ManagerProofs {
  import opened Types
  import opened Wrappers
  import opened Manager

  // ---- what a thread holds, by where it is ---------------------------------------------------

  /** updateLastAccessed on behalf of a caller that holds `m.mu`. */
  predicate UnderLock(th: Thread) {
    (th.UStamp? || th.UStore? || th.UFind? || th.ULock? || th.UWrite? || th.UUnlock?) && th.why != Fast
  }

  predicate HoldsWrite(th: Thread) {
    || UnderLock(th)
    || th.GRecheck? || th.GAdd? || th.GSpawn? || th.GUnlock?
    || th.RFind? || th.RDelete? || th.RForget? || th.RUnlock?
    || th.CBegin? || th.CLoop? || th.CDelete? || th.CForget?
  }

  predicate HoldsRead(th: Thread) { th.GLookup? || th.GRUnlock? || th.MLookup? || th.MRUnlock? }

  function HoldsWrapper(th: Thread): Option<Wid> {
    if th.UWrite? || th.UUnlock? || th.MWUnlock? || th.QCheck? || th.QClose? || th.QUnlock? then Some(th.w) else None
  }

  function HoldsWrapperRead(th: Thread): Option<Wid> {
    if th.MRead? || th.MWRUnlock? then Some(th.w) else None
  }

  /** Between taking and returning a slot of the semaphore. */
  predicate InAdd(th: Thread) {
    UnderLock(th) || th.GLock? || th.GRecheck? || th.GAdd? || th.GSpawn? || th.GUnlock? || th.GRelease?
  }

  /** Effects that only the holder of `m.mu` asks for. */
  predicate Structural(e: Effect) { e.Insert? || e.Drop? || e.Delete? || e.Forget? || e.Spawn? }

  /** Each lock is taken by a thread that does not have it and returned by one that does, and
      nothing else changes what a thread holds. */
  ghost predicate WriteDiscipline(th: Thread, next: Thread, e: Effect) {
    && HoldsWrite(next) == (if e.Acquire? then true else if e.Release? then false else HoldsWrite(th))
    && (e.Acquire? ==> !HoldsWrite(th))
    && (e.Release? ==> HoldsWrite(th))
  }

  ghost predicate ReadDiscipline(th: Thread, next: Thread, e: Effect) {
    && HoldsRead(next) == (if e.AcquireRead? then true else if e.ReleaseRead? then false else HoldsRead(th))
    && (e.AcquireRead? ==> !HoldsRead(th))
    && (e.ReleaseRead? ==> HoldsRead(th))
  }

  ghost predicate WrapperWriteDiscipline(th: Thread, next: Thread, e: Effect) {
    && HoldsWrapper(next) == (if e.AcquireWrapper? then Some(e.w)
                              else if e.ReleaseWrapper? then None else HoldsWrapper(th))
    && (e.AcquireWrapper? ==> HoldsWrapper(th).None?)
    && (e.ReleaseWrapper? || e.Touch? || e.CloseReady? ==> HoldsWrapper(th) == Some(e.w))
  }

  ghost predicate WrapperReadDiscipline(th: Thread, next: Thread, e: Effect) {
    && HoldsWrapperRead(next) == (if e.AcquireWrapperRead? then Some(e.w)
                                  else if e.ReleaseWrapperRead? then None else HoldsWrapperRead(th))
    && (e.AcquireWrapperRead? ==> HoldsWrapperRead(th).None?)
    && (e.ReleaseWrapperRead? ==> HoldsWrapperRead(th) == Some(e.w))
  }

  ghost predicate SemDiscipline(cfg: Config, s: State, th: Thread, next: Thread, e: Effect) {
    && InAdd(next) == (if e.AcquireSem? then true else if e.ReleaseSem? then false else InAdd(th))
    && (e.AcquireSem? ==> !InAdd(th) && s.sem < cfg.maxConcurrentTorrents)
    && (e.ReleaseSem? ==> InAdd(th))
  }

  /** What is created is new. */
  ghost predicate CreatesNew(s: State, e: Effect) {
    (e.Spawn? ==> e.t !in s.threads) && (e.Insert? ==> e.w !in s.wrappers)
  }

  /** The wrapper that the thread has inserted and not yet started a monitor for. */
  function Fresh(th: Thread): Option<Wid> {
    if (th.UStamp? || th.UStore? || th.UFind? || th.ULock? || th.UWrite? || th.UUnlock?) && th.why.Inserted?
    then Some(th.why.wid)
    else if th.GSpawn? then Some(th.w) else None
  }

  /** The wrapper that the thread has dropped and not yet taken out of the map. */
  function Dying(th: Thread): Option<Wid> { if th.RDelete? || th.CDelete? then Some(th.w) else None }

  /** The torrent that the thread has inserted and not yet given an access time. */
  function Unstamped(th: Thread): Option<Key> {
    if (th.UStamp? || th.UStore?) && th.why.Inserted? then Some(th.k) else None
  }

  /** How a step changes what is pending. */
  ghost predicate FreshDiscipline(th: Thread, next: Thread, e: Effect) {
    && Fresh(next) == (if e.Insert? then Some(e.w) else if e.Spawn? then None else Fresh(th))
    && (e.Insert? ==> th == GAdd(e.k))
    && (e.Spawn? ==> th == GSpawn(e.k, e.w))
    && (e.Acquire? || e.Release? || !HoldsWrite(th) ==> Fresh(th) == None)
  }

  ghost predicate DyingDiscipline(s: State, th: Thread, next: Thread, e: Effect) {
    && Dying(next) == (if e.Drop? then Some(e.w) else if e.Delete? then None else Dying(th))
    && (e.Drop? ==> Dying(th) == None && next.k in s.torrents && s.torrents[next.k] == e.w)
    && (e.Delete? ==> Dying(th).Some? && th.k == e.k)
    && (e.Acquire? || e.Release? || !HoldsWrite(th) ==> Dying(th) == None)
  }

  ghost predicate StampDiscipline(th: Thread, next: Thread, e: Effect) {
    && Unstamped(next) == (if e.Insert? then Some(e.k) else if e.Store? then None else Unstamped(th))
    && (e.Store? ==> Unstamped(th) == None || Unstamped(th) == Some(e.k))
    && (e.Forget? ==> (th.RForget? || th.CForget?) && th.k == e.k)
    && (e.Acquire? || e.Release? || !HoldsWrite(th) ==> Unstamped(th) == None)
  }

  /** All that one step keeps to. */
  ghost predicate Disciplined(cfg: Config, s: State, th: Thread, next: Thread, e: Effect) {
    && WriteDiscipline(th, next, e) && ReadDiscipline(th, next, e)
    && WrapperWriteDiscipline(th, next, e) && WrapperReadDiscipline(th, next, e)
    && SemDiscipline(cfg, s, th, next, e) && CreatesNew(s, e)
    && FreshDiscipline(th, next, e) && DyingDiscipline(s, th, next, e) && StampDiscipline(th, next, e)
    && (Structural(e) ==> HoldsWrite(th))
  }

  // Parts of the program: GetTorrent looking a torrent up, inserting it and leaving; updateLastAccessed
  // without and with the wrapper's lock; removeTorrent; the cleanup routine between and within ticks;
  // the monitor watching, reading and judging its torrent; and the closing of infoReady.

  predicate InFind(th: Thread) { th.GRLock? || th.GLookup? || th.GRUnlock? || th.GTry? }

  predicate InInsert(th: Thread) { th.GLock? || th.GRecheck? || th.GAdd? }

  predicate InLeave(th: Thread) { th.GSpawn? || th.GUnlock? || th.GRelease? }

  predicate InStamp(th: Thread) { th.UStamp? || th.UStore? || th.UFind? }

  predicate InTouch(th: Thread) { th.ULock? || th.UWrite? || th.UUnlock? }

  predicate InRemove(th: Thread) { th.RLock? || th.RFind? || th.RDelete? || th.RForget? || th.RUnlock? }

  predicate InRest(th: Thread) { th.CIdle? || th.CLock? || th.CBegin? }

  predicate InSweep(th: Thread) { th.CLoop? || th.CDelete? || th.CForget? }

  predicate InWatch(th: Thread) { th.MIdle? || th.MRLock? || th.MLookup? || th.MRUnlock? }

  predicate InRead(th: Thread) { th.MWRLock? || th.MRead? || th.MWRUnlock? }

  predicate InJudge(th: Thread) { th.MJudge? || th.MWLock? || th.MWUnlock? }

  predicate InWait(th: Thread) { th.IIdle? || th.WIdle? }

  predicate InClose(th: Thread) { th.QLock? || th.QCheck? || th.QClose? || th.QUnlock? }

  predicate InAccess(th: Thread) { InStamp(th) || InTouch(th) }

  predicate InTick(th: Thread) { InRest(th) || InSweep(th) }

  lemma FindIsDisciplined(cfg: Config, s: State, th: Thread, c: Choice)
    requires InFind(th) && Advance(cfg, s, th, c).Move?
    ensures var Move(next, e) := Advance(cfg, s, th, c); Disciplined(cfg, s, th, next, e)
  {
  }

  lemma InsertIsDisciplined(cfg: Config, s: State, th: Thread, c: Choice)
    requires InInsert(th) && Advance(cfg, s, th, c).Move?
    ensures var Move(next, e) := Advance(cfg, s, th, c); Disciplined(cfg, s, th, next, e)
  {
  }

  lemma LeaveIsDisciplined(cfg: Config, s: State, th: Thread, c: Choice)
    requires InLeave(th) && Advance(cfg, s, th, c).Move?
    ensures var Move(next, e) := Advance(cfg, s, th, c); Disciplined(cfg, s, th, next, e)
  {
  }

  lemma StampIsDisciplined(cfg: Config, s: State, th: Thread, c: Choice)
    requires InStamp(th) && Advance(cfg, s, th, c).Move?
    ensures var Move(next, e) := Advance(cfg, s, th, c); Disciplined(cfg, s, th, next, e)
  {
  }

  lemma TouchIsDisciplined(cfg: Config, s: State, th: Thread, c: Choice)
    requires InTouch(th) && Advance(cfg, s, th, c).Move?
    ensures var Move(next, e) := Advance(cfg, s, th, c); Disciplined(cfg, s, th, next, e)
  {
  }

  lemma RemoveIsDisciplined(cfg: Config, s: State, th: Thread, c: Choice)
    requires InRemove(th) && Advance(cfg, s, th, c).Move?
    ensures var Move(next, e) := Advance(cfg, s, th, c); Disciplined(cfg, s, th, next, e)
  {
  }

  lemma RestIsDisciplined(cfg: Config, s: State, th: Thread, c: Choice)
    requires InRest(th) && Advance(cfg, s, th, c).Move?
    ensures var Move(next, e) := Advance(cfg, s, th, c); Disciplined(cfg, s, th, next, e)
  {
  }

  lemma SweepIsDisciplined(cfg: Config, s: State, th: Thread, c: Choice)
    requires InSweep(th) && Advance(cfg, s, th, c).Move?
    ensures var Move(next, e) := Advance(cfg, s, th, c); Disciplined(cfg, s, th, next, e)
  {
  }

  lemma WatchIsDisciplined(cfg: Config, s: State, th: Thread, c: Choice)
    requires InWatch(th) && Advance(cfg, s, th, c).Move?
    ensures var Move(next, e) := Advance(cfg, s, th, c); Disciplined(cfg, s, th, next, e)
  {
  }

  lemma ReadIsDisciplined(cfg: Config, s: State, th: Thread, c: Choice)
    requires InRead(th) && Advance(cfg, s, th, c).Move?
    ensures var Move(next, e) := Advance(cfg, s, th, c); Disciplined(cfg, s, th, next, e)
  {
  }

  lemma JudgeIsDisciplined(cfg: Config, s: State, th: Thread, c: Choice)
    requires InJudge(th) && Advance(cfg, s, th, c).Move?
    ensures var Move(next, e) := Advance(cfg, s, th, c); Disciplined(cfg, s, th, next, e)
  {
  }

  lemma WaitIsDisciplined(cfg: Config, s: State, th: Thread, c: Choice)
    requires InWait(th) && Advance(cfg, s, th, c).Move?
    ensures var Move(next, e) := Advance(cfg, s, th, c); Disciplined(cfg, s, th, next, e)
  {
  }

  lemma CloseIsDisciplined(cfg: Config, s: State, th: Thread, c: Choice)
    requires InClose(th) && Advance(cfg, s, th, c).Move?
    ensures var Move(next, e) := Advance(cfg, s, th, c); Disciplined(cfg, s, th, next, e)
  {
  }

  lemma EveryPart(cfg: Config, s: State, th: Thread, c: Choice)
    requires Advance(cfg, s, th, c).Move?
    ensures InFind(th) || InInsert(th) || InLeave(th) || InStamp(th) || InTouch(th) || InRemove(th) || InRest(th)
         || InSweep(th) || InWatch(th) || InRead(th) || InJudge(th) || InWait(th) || InClose(th)
  {
  }

  /** Every step of every thread keeps to the disciplines. */
  lemma StepIsDisciplined(cfg: Config, s: State, th: Thread, c: Choice)
    requires Advance(cfg, s, th, c).Move?
    ensures var Move(next, e) := Advance(cfg, s, th, c); Disciplined(cfg, s, th, next, e)
  {
    EveryPart(cfg, s, th, c);
    hide *;
    if
    case InFind(th) => FindIsDisciplined(cfg, s, th, c);
    case InInsert(th) => InsertIsDisciplined(cfg, s, th, c);
    case InLeave(th) => LeaveIsDisciplined(cfg, s, th, c);
    case InStamp(th) => StampIsDisciplined(cfg, s, th, c);
    case InTouch(th) => TouchIsDisciplined(cfg, s, th, c);
    case InRemove(th) => RemoveIsDisciplined(cfg, s, th, c);
    case InRest(th) => RestIsDisciplined(cfg, s, th, c);
    case InSweep(th) => SweepIsDisciplined(cfg, s, th, c);
    case InWatch(th) => WatchIsDisciplined(cfg, s, th, c);
    case InRead(th) => ReadIsDisciplined(cfg, s, th, c);
    case InJudge(th) => JudgeIsDisciplined(cfg, s, th, c);
    case InWait(th) => WaitIsDisciplined(cfg, s, th, c);
    case InClose(th) => CloseIsDisciplined(cfg, s, th, c);
  }

  // ---- locks ---------------------------------------------------------------------------------

  /** The locks agree with where the threads are: at most one writer, and none beside readers. */
  ghost predicate LockInv(s: State) {
    WriterInv(s) && ReadersInv(s) && (s.mu.writer.Some? ==> s.mu.readers == {})
  }

  ghost predicate WriterInv(s: State) {
    && (forall t | t in s.threads :: HoldsWrite(s.threads[t]) <==> s.mu.writer == Some(t))
    && (s.mu.writer.Some? ==> s.mu.writer.value in s.threads)
  }

  ghost predicate ReadersInv(s: State) {
    && (forall t | t in s.threads :: HoldsRead(s.threads[t]) <==> t in s.mu.readers)
    && s.mu.readers <= s.threads.Keys
  }

  ghost predicate WrapperLockInv(s: State) {
    forall w | w in s.wrappers :: WrapperWriterInv(s, w) && WrapperReadersInv(s, w) && WrapperExclusion(s, w)
  }

  ghost predicate WrapperExclusion(s: State, w: Wid)
    requires w in s.wrappers
  {
    s.wrappers[w].mu.writer.Some? ==> s.wrappers[w].mu.readers == {}
  }

  ghost predicate WrapperWriterInv(s: State, w: Wid)
    requires w in s.wrappers
  {
    var l := s.wrappers[w].mu;
    && (forall t | t in s.threads :: HoldsWrapper(s.threads[t]) == Some(w) <==> l.writer == Some(t))
    && (l.writer.Some? ==> l.writer.value in s.threads)
  }

  ghost predicate WrapperReadersInv(s: State, w: Wid)
    requires w in s.wrappers
  {
    var l := s.wrappers[w].mu;
    && (forall t | t in s.threads :: HoldsWrapperRead(s.threads[t]) == Some(w) <==> t in l.readers)
    && l.readers <= s.threads.Keys
  }

  ghost predicate Known(s: State, w: Wid, k: Key) { w in s.wrappers && s.wrappers[w].key == k }

  /** Points of the program that hold on to a wrapper and its info hash. */
  predicate NamesTorrent(th: Thread) {
    || th.GSpawn? || th.ULock? || th.UWrite? || th.UUnlock? || th.RDelete? || th.CDelete? || th.IIdle?
    || th.MIdle? || th.MRLock? || th.MLookup? || th.MRUnlock? || th.MWRLock? || th.MRead? || th.MWRUnlock?
    || th.MJudge? || th.MWLock? || th.MWUnlock?
  }

  ghost predicate NamesKnown(s: State, th: Thread) { NamesTorrent(th) ==> Known(s, th.w, th.k) }

  ghost predicate PointsToKnown(s: State, th: Thread) {
    th.WIdle? || th.QLock? || th.QCheck? || th.QClose? || th.QUnlock? ==> th.w in s.wrappers
  }

  ghost predicate InsertedKnown(s: State, th: Thread) {
    InAccess(th) && th.why.Inserted? ==> Known(s, th.why.wid, th.k)
  }

  /** The wrappers a thread knows of exist, and belong to the torrent it thinks. */
  ghost predicate Refs(s: State, th: Thread) {
    NamesKnown(s, th) && PointsToKnown(s, th) && InsertedKnown(s, th)
  }

  ghost predicate RefInv(s: State) {
    && (forall k | k in s.torrents :: Known(s, s.torrents[k], k))
    && (forall t | t in s.threads :: Refs(s, s.threads[t]))
  }

  lemma NewMonitorHoldsNothing(w: Wid, k: Key)
    ensures var th := MIdle(w, k);
            !HoldsWrite(th) && !HoldsRead(th) && HoldsWrapper(th).None? && HoldsWrapperRead(th).None? && !InAdd(th)
  {
  }

  /** The threads after a step, one by one. */
  lemma Scheduled(s: State, t: Tid, m: Move)
    requires m.Move? && t in s.threads && CreatesNew(s, m.effect)
    ensures var threads := After(s, t, m).threads;
            && threads.Keys == s.threads.Keys + (if m.effect.Spawn? then {m.effect.t} else {})
            && threads[t] == m.next
            && (m.effect.Spawn? ==> threads[m.effect.t] == MIdle(m.effect.w, m.effect.k))
            && (forall u | u in s.threads && u != t :: threads[u] == s.threads[u])
  {
  }

  lemma EffectKeepsWriter(s: State, t: Tid, m: Move)
    requires WriterInv(s) && t in s.threads && m.Move? && Granted(s, m.effect)
    requires WriteDiscipline(s.threads[t], m.next, m.effect) && CreatesNew(s, m.effect)
    ensures WriterInv(After(s, t, m))
  {
    Scheduled(s, t, m);
    if m.effect.Spawn? {
      NewMonitorHoldsNothing(m.effect.w, m.effect.k);
    }
    hide HoldsWrite, Schedule, NextWrappers, NextTorrents, NextAccess, NextSem;
  }

  lemma EffectKeepsReaders(s: State, t: Tid, m: Move)
    requires ReadersInv(s) && t in s.threads && m.Move? && Granted(s, m.effect)
    requires ReadDiscipline(s.threads[t], m.next, m.effect) && CreatesNew(s, m.effect)
    ensures ReadersInv(After(s, t, m))
  {
    Scheduled(s, t, m);
    if m.effect.Spawn? {
      NewMonitorHoldsNothing(m.effect.w, m.effect.k);
    }
    hide HoldsRead, Schedule, NextWrappers, NextTorrents, NextAccess, NextSem;
  }

  lemma EffectKeepsWrapperWriter(s: State, t: Tid, m: Move, w: Wid)
    requires w in s.wrappers && WrapperWriterInv(s, w) && t in s.threads && m.Move? && Granted(s, m.effect)
    requires WrapperWriteDiscipline(s.threads[t], m.next, m.effect) && CreatesNew(s, m.effect)
    ensures w in After(s, t, m).wrappers && WrapperWriterInv(After(s, t, m), w)
  {
    Scheduled(s, t, m);
    MuAfter(s, t, m, w);
    if m.effect.Spawn? {
      NewMonitorHoldsNothing(m.effect.w, m.effect.k);
    }
    hide HoldsWrapper, Schedule, After;
  }

  lemma EffectKeepsWrapperReaders(s: State, t: Tid, m: Move, w: Wid)
    requires w in s.wrappers && WrapperReadersInv(s, w) && t in s.threads && m.Move? && Granted(s, m.effect)
    requires WrapperReadDiscipline(s.threads[t], m.next, m.effect) && CreatesNew(s, m.effect)
    ensures w in After(s, t, m).wrappers && WrapperReadersInv(After(s, t, m), w)
  {
    Scheduled(s, t, m);
    MuAfter(s, t, m, w);
    if m.effect.Spawn? {
      NewMonitorHoldsNothing(m.effect.w, m.effect.k);
    }
    hide HoldsWrapperRead, Schedule, After;
  }

  lemma MuAfter(s: State, t: Tid, m: Move, w: Wid)
    requires w in s.wrappers && m.Move? && CreatesNew(s, m.effect)
    ensures w in After(s, t, m).wrappers
    ensures After(s, t, m).wrappers[w].mu == NextWrapperMu(s.wrappers[w].mu, w, t, m.effect)
  {
  }

  lemma StepKeepsLocks(cfg: Config, s: State, t: Tid, c: Choice)
    requires LockInv(s) && Enabled(cfg, s, t, c)
    ensures LockInv(Step(cfg, s, t, c))
  {
    var m := Advance(cfg, s, s.threads[t], c);
    StepIsDisciplined(cfg, s, s.threads[t], c);
    EffectKeepsWriter(s, t, m);
    EffectKeepsReaders(s, t, m);
    hide Advance, WriterInv, ReadersInv, WriteDiscipline, ReadDiscipline;
  }

  /** No thread waits for, or works on, a wrapper that does not exist. */
  lemma StepKeepsWrapperLocks(cfg: Config, s: State, t: Tid, c: Choice)
    requires WrapperLockInv(s) && RefInv(s) && Enabled(cfg, s, t, c)
    ensures WrapperLockInv(Step(cfg, s, t, c))
  {
    var m := Advance(cfg, s, s.threads[t], c);
    var s' := Step(cfg, s, t, c);
    StepIsDisciplined(cfg, s, s.threads[t], c);
    forall w | w in s'.wrappers
      ensures WrapperWriterInv(s', w) && WrapperReadersInv(s', w) && WrapperExclusion(s', w)
    {
      if w in s.wrappers {
        EffectKeepsWrapperWriter(s, t, m, w);
        EffectKeepsWrapperReaders(s, t, m, w);
        EffectKeepsExclusion(s, t, m, w);
      } else {
        NewWrapperIsFree(s, t, m, w);
      }
    }
  }

  lemma EffectKeepsExclusion(s: State, t: Tid, m: Move, w: Wid)
    requires w in s.wrappers && WrapperExclusion(s, w) && m.Move? && Granted(s, m.effect)
    requires CreatesNew(s, m.effect)
    ensures w in After(s, t, m).wrappers && WrapperExclusion(After(s, t, m), w)
  {
  }

  lemma NewWrapperIsFree(s: State, t: Tid, m: Move, w: Wid)
    requires w !in s.wrappers && RefInv(s) && t in s.threads && m.Move? && CreatesNew(s, m.effect)
    requires WrapperWriteDiscipline(s.threads[t], m.next, m.effect)
    requires WrapperReadDiscipline(s.threads[t], m.next, m.effect)
    requires w in After(s, t, m).wrappers
    ensures var s' := After(s, t, m);
            WrapperWriterInv(s', w) && WrapperReadersInv(s', w) && WrapperExclusion(s', w)
  {
    Scheduled(s, t, m);
    assert m.effect.Insert? && m.effect.w == w;
    assert After(s, t, m).wrappers[w].mu == FREE;
    forall u | u in s.threads
      ensures HoldsWrapper(s.threads[u]) != Some(w) && HoldsWrapperRead(s.threads[u]) != Some(w)
    {
      assert Refs(s, s.threads[u]);
    }
    hide HoldsWrapper, HoldsWrapperRead, Schedule, NextMu, NextTorrents, NextAccess, NextSem;
  }

  // ---- references ----------------------------------------------------------------------------

  lemma KnownStays(s: State, t: Tid, m: Move, w: Wid, k: Key)
    requires m.Move? && CreatesNew(s, m.effect) && Known(s, w, k)
    ensures Known(After(s, t, m), w, k)
  {
  }

  lemma RefsStay(s: State, t: Tid, m: Move, th: Thread)
    requires m.Move? && CreatesNew(s, m.effect) && Refs(s, th)
    ensures Refs(After(s, t, m), th)
  {
    NamesLast(s, t, m, th);
    PointsLast(s, t, m, th);
    InsertedLasts(s, t, m, th);
    hide After, NamesKnown, PointsToKnown, InsertedKnown;
  }

  lemma NamesLast(s: State, t: Tid, m: Move, th: Thread)
    requires m.Move? && CreatesNew(s, m.effect) && NamesKnown(s, th)
    ensures NamesKnown(After(s, t, m), th)
  {
    hide After, Known, CreatesNew;
    if NamesTorrent(th) {
      KnownStays(s, t, m, th.w, th.k);
    }
  }

  lemma PointsLast(s: State, t: Tid, m: Move, th: Thread)
    requires m.Move? && CreatesNew(s, m.effect) && PointsToKnown(s, th)
    ensures PointsToKnown(After(s, t, m), th)
  {
    hide After, CreatesNew;
    if th.WIdle? || th.QLock? || th.QCheck? || th.QClose? || th.QUnlock? {
      KnownStays(s, t, m, th.w, s.wrappers[th.w].key);
    }
  }

  lemma InsertedLasts(s: State, t: Tid, m: Move, th: Thread)
    requires m.Move? && CreatesNew(s, m.effect) && InsertedKnown(s, th)
    ensures InsertedKnown(After(s, t, m), th)
  {
    hide After, Known, CreatesNew;
    if InAccess(th) && th.why.Inserted? {
      KnownStays(s, t, m, th.why.wid, th.k);
    }
  }

  /** A thread only learns of wrappers from the map, from what it knows, or by inserting them. */
  lemma NextRefs(cfg: Config, s: State, th: Thread, c: Choice)
    requires RefInv(s) && Refs(s, th) && Advance(cfg, s, th, c).Move?
    ensures Advance(cfg, s, th, c).effect.Insert? || Refs(s, Advance(cfg, s, th, c).next)
  {
    NextNamesKnown(cfg, s, th, c);
    NextPointsToKnown(cfg, s, th, c);
    NextInsertedKnown(cfg, s, th, c);
    hide Advance, NamesKnown, PointsToKnown, InsertedKnown;
  }

  lemma NextNamesKnown(cfg: Config, s: State, th: Thread, c: Choice)
    requires RefInv(s) && Refs(s, th) && Advance(cfg, s, th, c).Move?
    ensures NamesKnown(s, Advance(cfg, s, th, c).next)
  {
    if NamesTorrent(th) {
      KnownIsRemembered(cfg, s, th, c);
    } else {
      KnownIsFound(cfg, s, th, c);
    }
    hide Advance, NamesTorrent;
  }

  lemma KnownIsRemembered(cfg: Config, s: State, th: Thread, c: Choice)
    requires NamesTorrent(th) && Known(s, th.w, th.k) && InsertedKnown(s, th) && Advance(cfg, s, th, c).Move?
    ensures NamesKnown(s, Advance(cfg, s, th, c).next)
  {
  }

  lemma KnownIsFound(cfg: Config, s: State, th: Thread, c: Choice)
    requires !NamesTorrent(th) && RefInv(s) && Refs(s, th) && Advance(cfg, s, th, c).Move?
    ensures NamesKnown(s, Advance(cfg, s, th, c).next)
  {
  }

  lemma NextPointsToKnown(cfg: Config, s: State, th: Thread, c: Choice)
    requires NamesKnown(s, th) && PointsToKnown(s, th) && Advance(cfg, s, th, c).Move?
    ensures PointsToKnown(s, Advance(cfg, s, th, c).next)
  {
    if InClose(th) || InWait(th) {
      PointerStays(cfg, s, th, c);
    } else {
      OthersDoNotPoint(cfg, s, th, c);
    }
    hide Advance, InClose, InWait;
  }

  lemma PointerStays(cfg: Config, s: State, th: Thread, c: Choice)
    requires InClose(th) || InWait(th)
    requires NamesKnown(s, th) && PointsToKnown(s, th) && Advance(cfg, s, th, c).Move?
    ensures PointsToKnown(s, Advance(cfg, s, th, c).next)
  {
  }

  lemma OthersDoNotPoint(cfg: Config, s: State, th: Thread, c: Choice)
    requires !InClose(th) && !InWait(th) && Advance(cfg, s, th, c).Move?
    ensures var next := Advance(cfg, s, th, c).next; !next.WIdle? && !InClose(next)
  {
  }

  lemma NextInsertedKnown(cfg: Config, s: State, th: Thread, c: Choice)
    requires InsertedKnown(s, th) && Advance(cfg, s, th, c).Move?
    ensures Advance(cfg, s, th, c).effect.Insert? || InsertedKnown(s, Advance(cfg, s, th, c).next)
  {
    if InAccess(th) {
      InsertedStays(cfg, s, th, c);
    } else {
      OthersDoNotInsert(cfg, s, th, c);
    }
    hide Advance, InAccess;
  }

  lemma InsertedStays(cfg: Config, s: State, th: Thread, c: Choice)
    requires InAccess(th) && InsertedKnown(s, th) && Advance(cfg, s, th, c).Move?
    ensures InsertedKnown(s, Advance(cfg, s, th, c).next)
  {
  }

  lemma OthersDoNotInsert(cfg: Config, s: State, th: Thread, c: Choice)
    requires !InAccess(th) && Advance(cfg, s, th, c).Move?
    ensures var Move(next, e) := Advance(cfg, s, th, c);
            e.Insert? || !InAccess(next) || !next.why.Inserted?
  {
  }

  lemma AddedRefs(cfg: Config, s: State, k: Key, c: Choice)
    requires Advance(cfg, s, GAdd(k), c).Move?
    ensures var Move(next, e) := Advance(cfg, s, GAdd(k), c); e.Insert? ==> next == UStamp(e.k, Inserted(e.w))
  {
  }

  lemma CreatedRefs(cfg: Config, s: State, th: Thread, c: Choice)
    requires Refs(s, th) && Advance(cfg, s, th, c).Move?
    ensures var Move(next, e) := Advance(cfg, s, th, c);
            && (e.Insert? ==> next == UStamp(e.k, Inserted(e.w)))
            && (e.Spawn? ==> Known(s, e.w, e.k))
  {
    StepIsDisciplined(cfg, s, th, c);
    if th.GAdd? {
      AddedRefs(cfg, s, th.k, c);
    }
    hide Advance, WriteDiscipline, ReadDiscipline, WrapperWriteDiscipline, WrapperReadDiscipline,
         SemDiscipline, CreatesNew, DyingDiscipline, StampDiscipline, Structural, HoldsWrite, Fresh;
  }

  lemma StepKeepsRefs(cfg: Config, s: State, t: Tid, c: Choice)
    requires RefInv(s) && Enabled(cfg, s, t, c)
    ensures RefInv(Step(cfg, s, t, c))
  {
    var m := Advance(cfg, s, s.threads[t], c);
    var s' := Step(cfg, s, t, c);
    StepIsDisciplined(cfg, s, s.threads[t], c);
    NextRefs(cfg, s, s.threads[t], c);
    CreatedRefs(cfg, s, s.threads[t], c);
    hide Advance, After, RefInv, Refs, Known;
    EffectKeepsRefs(s, t, m);
  }

  lemma EffectKeepsRefs(s: State, t: Tid, m: Move)
    requires RefInv(s) && t in s.threads && m.Move? && CreatesNew(s, m.effect)
    requires if m.effect.Insert? then m.next == UStamp(m.effect.k, Inserted(m.effect.w)) else Refs(s, m.next)
    requires m.effect.Spawn? ==> Known(s, m.effect.w, m.effect.k)
    ensures RefInv(After(s, t, m))
  {
    var s' := After(s, t, m);
    Scheduled(s, t, m);
    MapStaysKnown(s, t, m);
    hide Schedule, NextMu, NextTorrents, NextAccess, NextSem, NamesTorrent, InAccess;
    forall u | u in s'.threads ensures Refs(s', s'.threads[u]) {
      if m.effect.Spawn? && u == m.effect.t {
        KnownStays(s, t, m, m.effect.w, m.effect.k);
        MonitorRefs(s', m.effect.w, m.effect.k);
      } else if u == t {
        if m.effect.Insert? {
          InsertedRefs(s', m.effect.w, m.effect.k);
        } else {
          RefsStay(s, t, m, m.next);
        }
      } else {
        RefsStay(s, t, m, s.threads[u]);
      }
    }
  }

  lemma MapStaysKnown(s: State, t: Tid, m: Move)
    requires RefInv(s) && m.Move? && CreatesNew(s, m.effect)
    ensures var s' := After(s, t, m); forall k | k in s'.torrents :: Known(s', s'.torrents[k], k)
  {
    var s' := After(s, t, m);
    forall k | k in s'.torrents ensures Known(s', s'.torrents[k], k) {
      if k in s.torrents && !(m.effect.Insert? && m.effect.k == k) {
        KnownStays(s, t, m, s.torrents[k], k);
      }
    }
  }

  lemma MonitorRefs(s: State, w: Wid, k: Key)
    requires Known(s, w, k)
    ensures Refs(s, MIdle(w, k))
  {
  }

  lemma InsertedRefs(s: State, w: Wid, k: Key)
    requires Known(s, w, k)
    ensures Refs(s, UStamp(k, Inserted(w)))
  {
  }

  // ---- the life of a torrent -----------------------------------------------------------------

  /** The thread that holds `m.mu`. */
  function Holder(s: State): Thread {
    if s.mu.writer.Some? && s.mu.writer.value in s.threads then s.threads[s.mu.writer.value] else Done
  }

  predicate Live(s: State, w: Wid)
    requires w in s.wrappers
  {
    s.wrappers[w].key in s.torrents && s.torrents[s.wrappers[w].key] == w
  }

  /** Every wrapper has had one monitor, but for the one being inserted. */
  ghost predicate MonitorInv(s: State) {
    forall w | w in s.wrappers :: s.wrappers[w].monitors == if Fresh(Holder(s)) == Some(w) then 0 else 1
  }

  /** A wrapper has been dropped once if it has left the map, or is just leaving it, and otherwise not. */
  ghost predicate DropInv(s: State) {
    forall w | w in s.wrappers ::
      s.wrappers[w].drops == if Live(s, w) && Dying(Holder(s)) != Some(w) then 0 else 1
  }

  /** Every torrent has an access time, but for the one being inserted. */
  ghost predicate AccessInv(s: State) {
    forall k | k in s.torrents :: k in s.lastAccessed || Unstamped(Holder(s)) == Some(k)
  }

  ghost predicate CountInv(s: State) { |s.wrappers| == |s.torrents| + s.removed }

  /** What the holder of `m.mu` relies on. */
  ghost predicate HolderFacts(cfg: Config, s: State, th: Thread) {
    && (th.GAdd? ==> th.k !in s.torrents)
    && (Fresh(th).Some? ==> th.k in s.torrents && s.torrents[th.k] == Fresh(th).value)
    && (Dying(th).Some? ==> th.k in s.torrents && s.torrents[th.k] == Dying(th).value)
    && (th.RForget? || th.CForget? ==> th.k !in s.torrents)
    && (th.CLoop? || th.CDelete? || th.CForget? ==>
          && th.pending <= s.torrents.Keys
          && s.torrents.Keys <= th.pending + th.kept.Keys + (if th.CDelete? then {th.k} else {})
          && (th.CDelete? ==> th.k !in th.pending)
          && forall k | k in th.kept :: th.kept[k].at - th.kept[k].last <= cfg.torrentTimeout * 2)
  }

  lemma HolderAfter(s: State, t: Tid, m: Move)
    requires WriterInv(s) && t in s.threads && m.Move? && CreatesNew(s, m.effect)
    requires WriteDiscipline(s.threads[t], m.next, m.effect) && Granted(s, m.effect)
    ensures Holder(After(s, t, m)) ==
            if m.effect.Acquire? then m.next
            else if m.effect.Release? then Done
            else if s.mu.writer == Some(t) then m.next
            else Holder(s)
    ensures s.mu.writer == Some(t) <==> HoldsWrite(s.threads[t])
    ensures s.mu.writer == Some(t) ==> Holder(s) == s.threads[t]
    ensures m.effect.Acquire? ==> Holder(s) == Done
  {
    Scheduled(s, t, m);
    hide HoldsWrite, Schedule, NextWrappers, NextTorrents, NextAccess, NextSem;
  }

  /** All that the life-cycle invariants need to know of one step. */
  ghost predicate Moves(cfg: Config, s: State, t: Tid, m: Move) {
    && t in s.threads && m.Move? && Granted(s, m.effect)
    && WriterInv(s) && RefInv(s) && HolderFacts(cfg, s, Holder(s))
    && CreatesNew(s, m.effect)
    && WriteDiscipline(s.threads[t], m.next, m.effect)
    && FreshDiscipline(s.threads[t], m.next, m.effect)
    && DyingDiscipline(s, s.threads[t], m.next, m.effect)
    && StampDiscipline(s.threads[t], m.next, m.effect)
    && (Structural(m.effect) ==> HoldsWrite(s.threads[t]))
  }

  lemma StepMoves(cfg: Config, s: State, t: Tid, c: Choice)
    requires Enabled(cfg, s, t, c) && WriterInv(s) && RefInv(s) && HolderFacts(cfg, s, Holder(s))
    ensures Moves(cfg, s, t, Advance(cfg, s, s.threads[t], c))
  {
    var th := s.threads[t];
    StepIsDisciplined(cfg, s, th, c);
    hide Advance, WriterInv, RefInv, HolderFacts, FreshDiscipline, DyingDiscipline, StampDiscipline,
         WriteDiscipline, HoldsWrite;
  }

  /** How a step changes what is pending with whoever holds `m.mu`. */
  lemma PendingAfter(cfg: Config, s: State, t: Tid, m: Move)
    requires Moves(cfg, s, t, m)
    ensures var h, h', e := Holder(s), Holder(After(s, t, m)), m.effect;
            && Fresh(h') == (if e.Insert? then Some(e.w) else if e.Spawn? then None else Fresh(h))
            && Dying(h') == (if e.Drop? then Some(e.w) else if e.Delete? then None else Dying(h))
            && (e.Insert? ==> Fresh(h) == None && Dying(h) == None && Unstamped(h) == None && e.k !in s.torrents)
            && (e.Spawn? ==> Fresh(h) == Some(e.w))
            && (e.Drop? ==> Dying(h) == None && m.next.k in s.torrents && s.torrents[m.next.k] == e.w)
            && (e.Delete? ==> e.k in s.torrents && Dying(h) == Some(s.torrents[e.k]))
            && (e.Forget? ==> e.k !in s.torrents)
            && (e.Insert? ==> Unstamped(h') == Some(e.k))
            && (e.Insert? || Unstamped(h') == Unstamped(h) || (e.Store? && Unstamped(h) == Some(e.k)))
  {
    HolderAfter(s, t, m);
    hide Holder, WriterInv, RefInv, Schedule, NextMu, NextTorrents, NextAccess, NextWrappers, NextSem;
  }

  lemma EffectKeepsMonitors(cfg: Config, s: State, t: Tid, m: Move)
    requires Moves(cfg, s, t, m) && MonitorInv(s)
    ensures MonitorInv(After(s, t, m))
  {
    PendingAfter(cfg, s, t, m);
    hide Moves, Holder, Fresh, Dying, Unstamped, Schedule, NextMu, NextTorrents, NextAccess, NextSem;
  }

  lemma EffectKeepsDrops(cfg: Config, s: State, t: Tid, m: Move)
    requires Moves(cfg, s, t, m) && DropInv(s)
    ensures DropInv(After(s, t, m))
  {
    PendingAfter(cfg, s, t, m);
    assert RefInv(s) && CreatesNew(s, m.effect);
    if m.effect.Drop? {
      assert Known(s, m.effect.w, m.next.k);
    }
    var s' := After(s, t, m);
    forall w | w in s'.wrappers
      ensures s'.wrappers[w].drops == if Live(s', w) && Dying(Holder(s')) != Some(w) then 0 else 1
    {
      DropsAfter(s, t, m, w);
    }
    hide Moves, Holder, Fresh, Dying, Unstamped, After;
  }

  /** The drops of one wrapper after a step. */
  lemma DropsAfter(s: State, t: Tid, m: Move, w: Wid)
    requires m.Move? && RefInv(s) && CreatesNew(s, m.effect) && DropInv(s) && w in After(s, t, m).wrappers
    requires var h, h', e := Holder(s), Holder(After(s, t, m)), m.effect;
             && Dying(h') == (if e.Drop? then Some(e.w) else if e.Delete? then None else Dying(h))
             && (e.Insert? ==> Dying(h) == None && e.k !in s.torrents)
             && (e.Drop? ==> Dying(h) == None && e.w in s.wrappers && Live(s, e.w))
             && (e.Delete? ==> e.k in s.torrents && Dying(h) == Some(s.torrents[e.k]))
    ensures var s' := After(s, t, m);
            s'.wrappers[w].drops == if Live(s', w) && Dying(Holder(s')) != Some(w) then 0 else 1
  {
    hide Holder, Dying, Schedule, NextMu, NextAccess, NextSem;
  }

  lemma EffectKeepsAccess(cfg: Config, s: State, t: Tid, m: Move)
    requires Moves(cfg, s, t, m) && AccessInv(s)
    ensures AccessInv(After(s, t, m))
  {
    PendingAfter(cfg, s, t, m);
    hide Moves, Holder, Fresh, Dying, Unstamped, Schedule, NextMu, NextWrappers, NextSem;
  }

  lemma EffectKeepsCount(cfg: Config, s: State, t: Tid, m: Move)
    requires Moves(cfg, s, t, m) && CountInv(s)
    ensures CountInv(After(s, t, m))
  {
    PendingAfter(cfg, s, t, m);
    assert CreatesNew(s, m.effect);
    hide Moves, Holder, Fresh, Dying, Unstamped, After;
    CountAfter(s, t, m);
  }

  lemma CountAfter(s: State, t: Tid, m: Move)
    requires m.Move?
    requires m.effect.Insert? ==> m.effect.w !in s.wrappers && m.effect.k !in s.torrents
    requires m.effect.Delete? ==> m.effect.k in s.torrents
    ensures var s' := After(s, t, m);
            |s'.wrappers| - |s'.torrents| - s'.removed == |s.wrappers| - |s.torrents| - s.removed
  {
    hide *;
    var s', e := After(s, t, m), m.effect;
    EffectKeys(s, t, m);
    if e.Insert? {
      OneMore(s.wrappers, s'.wrappers, e.w);
      OneMore(s.torrents, s'.torrents, e.k);
    } else {
      AsMany(s.wrappers, s'.wrappers);
      if e.Delete? {
        OneMore(s'.torrents, s.torrents, e.k);
      } else {
        AsMany(s.torrents, s'.torrents);
      }
    }
  }

  lemma EffectKeys(s: State, t: Tid, m: Move)
    requires m.Move?
    requires m.effect.Delete? ==> m.effect.k in s.torrents
    ensures var s', e := After(s, t, m), m.effect;
            && s'.wrappers.Keys == (if e.Insert? then s.wrappers.Keys + {e.w} else s.wrappers.Keys)
            && (if e.Insert? then s'.torrents.Keys == s.torrents.Keys + {e.k}
                else if e.Delete? then e.k !in s'.torrents && s.torrents.Keys == s'.torrents.Keys + {e.k}
                else s'.torrents.Keys == s.torrents.Keys)
            && s'.removed == if e.Delete? then s.removed + 1 else s.removed
  {
    hide Schedule, NextMu, NextAccess, NextSem;
  }

  lemma {:induction false} OneMore<K, V>(m: map<K, V>, n: map<K, V>, k: K)
    requires k !in m && n.Keys == m.Keys + {k}
    ensures |n| == |m| + 1
  {
    assert |n| == |n.Keys| && |m| == |m.Keys|;
  }

  lemma {:induction false} AsMany<K, V>(m: map<K, V>, n: map<K, V>)
    requires n.Keys == m.Keys
    ensures |n| == |m|
  {
    assert |n| == |n.Keys| && |m| == |m.Keys|;
  }

  /** The facts travel with the thread. */
  lemma NextFacts(cfg: Config, s: State, t: Tid, c: Choice)
    requires Enabled(cfg, s, t, c) && HolderFacts(cfg, s, s.threads[t]) && HoldsWrite(s.threads[t])
    requires s.threads[t].CLoop? ==> s.torrents.Keys <= s.lastAccessed.Keys
    ensures HolderFacts(cfg, Step(cfg, s, t, c), Advance(cfg, s, s.threads[t], c).next)
  {
    if InTick(s.threads[t]) {
      NextTickFacts(cfg, s, t, c);
    } else {
      NextCallFacts(cfg, s, t, c);
    }
    hide Enabled, Step, Advance, HolderFacts, HoldsWrite;
  }

  lemma NextTickFacts(cfg: Config, s: State, t: Tid, c: Choice)
    requires Enabled(cfg, s, t, c) && HolderFacts(cfg, s, s.threads[t]) && InTick(s.threads[t])
    requires s.threads[t].CLoop? ==> s.torrents.Keys <= s.lastAccessed.Keys
    ensures HolderFacts(cfg, Step(cfg, s, t, c), Advance(cfg, s, s.threads[t], c).next)
  {
    hide Schedule, NextMu, NextAccess, NextWrappers;
  }

  lemma NextCallFacts(cfg: Config, s: State, t: Tid, c: Choice)
    requires Enabled(cfg, s, t, c) && HolderFacts(cfg, s, s.threads[t]) && !InTick(s.threads[t])
    requires HoldsWrite(s.threads[t])
    ensures HolderFacts(cfg, Step(cfg, s, t, c), Advance(cfg, s, s.threads[t], c).next)
  {
    hide Schedule, NextMu, NextAccess, NextWrappers;
  }

  /** Nobody else can invalidate the facts of the holder, and who takes the lock needs none. */
  lemma OthersKeepFacts(cfg: Config, s: State, t: Tid, c: Choice)
    requires Enabled(cfg, s, t, c) && !HoldsWrite(s.threads[t])
    ensures Step(cfg, s, t, c).torrents == s.torrents
    ensures Advance(cfg, s, s.threads[t], c).effect.Acquire? ==>
              HolderFacts(cfg, s, Advance(cfg, s, s.threads[t], c).next)
  {
    hide Schedule, NextMu, NextAccess, NextWrappers;
  }

  lemma StepKeepsFacts(cfg: Config, s: State, t: Tid, c: Choice)
    requires Enabled(cfg, s, t, c) && WriterInv(s) && RefInv(s) && AccessInv(s) && HolderFacts(cfg, s, Holder(s))
    ensures var s' := Step(cfg, s, t, c); HolderFacts(cfg, s', Holder(s'))
  {
    var m := Advance(cfg, s, s.threads[t], c);
    StepMoves(cfg, s, t, c);
    HolderAfter(s, t, m);
    if HoldsWrite(s.threads[t]) {
      NextFacts(cfg, s, t, c);
    } else {
      OthersKeepFacts(cfg, s, t, c);
    }
    hide Advance, Holder, HoldsWrite, WriterInv, RefInv, Schedule, NextMu, NextAccess, NextWrappers, NextTorrents;
  }

  // ---- infoReady -----------------------------------------------------------------------------

  /** infoReady is closed at most once: who is about to close it holds the wrapper's lock and has
      seen it open. */
  ghost predicate ReadyInv(s: State) {
    && (forall w | w in s.wrappers :: s.wrappers[w].closes == if s.wrappers[w].ready then 1 else 0)
    && (forall t | t in s.threads :: AboutToClose(s, s.threads[t]))
  }

  ghost predicate AboutToClose(s: State, th: Thread) {
    th.QClose? ==> th.w in s.wrappers && !s.wrappers[th.w].ready
  }

  lemma ClosingIsChecked(cfg: Config, s: State, th: Thread, c: Choice)
    requires Advance(cfg, s, th, c).Move?
    ensures var Move(next, e) := Advance(cfg, s, th, c);
            && (e.CloseReady? ==> th == QClose(e.w))
            && AboutToClose(s, next)
            && (next.QClose? ==> e == Tau)
  {
    if InClose(th) {
      CloserChecks(cfg, s, th, c);
    } else {
      OthersDoNotClose(cfg, s, th, c);
    }
    hide Advance, InClose;
  }

  lemma CloserChecks(cfg: Config, s: State, th: Thread, c: Choice)
    requires InClose(th) && Advance(cfg, s, th, c).Move?
    ensures var Move(next, e) := Advance(cfg, s, th, c);
            && (e.CloseReady? ==> th == QClose(e.w))
            && AboutToClose(s, next)
            && (next.QClose? ==> e == Tau)
  {
  }

  lemma OthersDoNotClose(cfg: Config, s: State, th: Thread, c: Choice)
    requires !InClose(th) && Advance(cfg, s, th, c).Move?
    ensures !Advance(cfg, s, th, c).effect.CloseReady? && !Advance(cfg, s, th, c).next.QClose?
  {
  }

  lemma StepKeepsReady(cfg: Config, s: State, t: Tid, c: Choice)
    requires ReadyInv(s) && WrapperLockInv(s) && Enabled(cfg, s, t, c)
    ensures ReadyInv(Step(cfg, s, t, c))
  {
    var m := Advance(cfg, s, s.threads[t], c);
    ClosingIsChecked(cfg, s, s.threads[t], c);
    StepIsDisciplined(cfg, s, s.threads[t], c);
    hide Advance;
    if m.effect.CloseReady? {
      assert AboutToClose(s, s.threads[t]);
      forall u | u in s.threads && u != t ensures s.threads[u] != QClose(m.effect.w) {
        assert WrapperWriterInv(s, m.effect.w);
        assert HoldsWrapper(s.threads[t]) == Some(m.effect.w);
      }
    }
    EffectKeepsReady(s, t, m);
  }

  lemma EffectKeepsReady(s: State, t: Tid, m: Move)
    requires ReadyInv(s) && t in s.threads && m.Move? && CreatesNew(s, m.effect)
    requires AboutToClose(s, m.next) && (m.next.QClose? ==> m.effect == Tau)
    requires m.effect.CloseReady? ==> m.effect.w in s.wrappers && !s.wrappers[m.effect.w].ready
    requires m.effect.CloseReady? ==> forall u | u in s.threads && u != t :: s.threads[u] != QClose(m.effect.w)
    ensures ReadyInv(After(s, t, m))
  {
    Scheduled(s, t, m);
    hide Schedule, NextMu, NextTorrents, NextAccess, NextSem, NextWrapperMu;
    var s' := After(s, t, m);
    forall u | u in s'.threads ensures AboutToClose(s', s'.threads[u]) {
      if u in s.threads && u != t {
        assert AboutToClose(s, s.threads[u]);
      }
    }
  }

  // ---- the semaphore -------------------------------------------------------------------------

  ghost function Adders(s: State): set<Tid> { set t | t in s.threads && InAdd(s.threads[t]) }

  /** The slots in use are the calls inside the add section, and never more than allowed. */
  ghost predicate SemInv(cfg: Config, s: State) {
    s.sem == |Adders(s)| <= cfg.maxConcurrentTorrents
  }

  lemma StepKeepsSem(cfg: Config, s: State, t: Tid, c: Choice)
    requires SemInv(cfg, s) && Enabled(cfg, s, t, c)
    ensures SemInv(cfg, Step(cfg, s, t, c))
  {
    StepIsDisciplined(cfg, s, s.threads[t], c);
    hide Advance;
    AddersAfter(cfg, s, t, Advance(cfg, s, s.threads[t], c));
  }

  lemma AddersAfter(cfg: Config, s: State, t: Tid, m: Move)
    requires t in s.threads && m.Move? && CreatesNew(s, m.effect)
    requires SemDiscipline(cfg, s, s.threads[t], m.next, m.effect)
    ensures Adders(After(s, t, m)) == if m.effect.AcquireSem? then Adders(s) + {t}
                                      else if m.effect.ReleaseSem? then Adders(s) - {t} else Adders(s)
    ensures m.effect.AcquireSem? ==> t !in Adders(s)
    ensures m.effect.ReleaseSem? ==> t in Adders(s)
  {
    Scheduled(s, t, m);
    if m.effect.Spawn? {
      NewMonitorHoldsNothing(m.effect.w, m.effect.k);
    }
    hide InAdd, Schedule, NextMu, NextTorrents, NextAccess, NextWrappers, NextSem;
  }

  // ---- every reachable state -----------------------------------------------------------------

  ghost predicate Inv(cfg: Config, s: State) {
    && LockInv(s) && WrapperLockInv(s) && RefInv(s)
    && MonitorInv(s) && DropInv(s) && AccessInv(s) && CountInv(s)
    && HolderFacts(cfg, s, Holder(s))
    && ReadyInv(s) && SemInv(cfg, s)
  }

  lemma StepKeepsInv(cfg: Config, s: State, t: Tid, c: Choice)
    requires Inv(cfg, s) && Enabled(cfg, s, t, c)
    ensures Inv(cfg, Step(cfg, s, t, c))
  {
    var m := Advance(cfg, s, s.threads[t], c);
    StepKeepsLocks(cfg, s, t, c);
    StepKeepsWrapperLocks(cfg, s, t, c);
    StepKeepsRefs(cfg, s, t, c);
    assert WriterInv(s);
    StepMoves(cfg, s, t, c);
    EffectKeepsMonitors(cfg, s, t, m);
    EffectKeepsDrops(cfg, s, t, m);
    EffectKeepsAccess(cfg, s, t, m);
    EffectKeepsCount(cfg, s, t, m);
    StepKeepsFacts(cfg, s, t, c);
    StepKeepsReady(cfg, s, t, c);
    StepKeepsSem(cfg, s, t, c);
    hide Advance, After, LockInv, WrapperLockInv, RefInv, MonitorInv, DropInv, AccessInv, CountInv, HolderFacts,
         ReadyInv, SemInv, Moves, Holder;
  }

  /** A thread that has just been started holds nothing. */
  ghost predicate Idle(th: Thread) {
    && !HoldsWrite(th) && !HoldsRead(th) && !InAdd(th) && !th.QClose?
    && HoldsWrapper(th).None? && HoldsWrapperRead(th).None?
  }

  function Started(s: State, t: Tid, start: Thread): State { s.(threads := s.threads[t := start]) }

  lemma CallKeepsInv(cfg: Config, s: State, t: Tid, start: Thread)
    requires Inv(cfg, s) && t !in s.threads && Callable(s, start)
    ensures Inv(cfg, Started(s, t, start))
  {
    CallableIsIdle(s, start);
    hide Idle, Callable, Refs;
    CallKeepsLocks(s, t, start);
    CallKeepsWrapperLocks(s, t, start);
    CallKeepsRefs(s, t, start);
    assert WriterInv(s);
    CallKeepsLife(cfg, s, t, start);
    CallKeepsReady(s, t, start);
    CallKeepsSem(cfg, s, t, start);
    hide LockInv, WrapperLockInv, RefInv, MonitorInv, DropInv, AccessInv, CountInv, HolderFacts,
         ReadyInv, SemInv, Holder;
  }

  lemma CallableIsIdle(s: State, start: Thread)
    requires Callable(s, start)
    ensures Idle(start) && Refs(s, start)
  {
  }

  lemma CallKeepsLocks(s: State, t: Tid, start: Thread)
    requires LockInv(s) && t !in s.threads && Idle(start)
    ensures LockInv(Started(s, t, start))
  {
    hide HoldsWrite, HoldsRead;
  }

  lemma CallKeepsWrapperLocks(s: State, t: Tid, start: Thread)
    requires WrapperLockInv(s) && t !in s.threads && Idle(start)
    ensures WrapperLockInv(Started(s, t, start))
  {
    hide HoldsWrapper, HoldsWrapperRead;
    var s' := Started(s, t, start);
    forall w | w in s'.wrappers
      ensures WrapperWriterInv(s', w) && WrapperReadersInv(s', w) && WrapperExclusion(s', w)
    {
      assert WrapperWriterInv(s, w) && WrapperReadersInv(s, w) && WrapperExclusion(s, w);
    }
  }

  lemma CallKeepsLife(cfg: Config, s: State, t: Tid, start: Thread)
    requires WriterInv(s) && t !in s.threads
    requires MonitorInv(s) && DropInv(s) && AccessInv(s) && CountInv(s) && HolderFacts(cfg, s, Holder(s))
    ensures var s' := Started(s, t, start);
            MonitorInv(s') && DropInv(s') && AccessInv(s') && CountInv(s') && HolderFacts(cfg, s', Holder(s'))
  {
    CallKeepsHolder(s, t, start);
    FactsAreAboutTheMap(cfg, s, Started(s, t, start), Holder(s));
    hide HolderFacts, Holder, Fresh, Dying, Unstamped;
  }

  lemma CallKeepsReady(s: State, t: Tid, start: Thread)
    requires ReadyInv(s) && t !in s.threads && Idle(start)
    ensures ReadyInv(Started(s, t, start))
  {
    var s' := Started(s, t, start);
    forall u | u in s'.threads ensures AboutToClose(s', s'.threads[u]) {
      if u != t {
        assert AboutToClose(s, s.threads[u]);
      }
    }
  }

  lemma CallKeepsSem(cfg: Config, s: State, t: Tid, start: Thread)
    requires SemInv(cfg, s) && t !in s.threads && Idle(start)
    ensures SemInv(cfg, Started(s, t, start))
  {
    hide InAdd;
    assert Adders(Started(s, t, start)) == Adders(s);
  }

  lemma FactsAreAboutTheMap(cfg: Config, s: State, s': State, th: Thread)
    requires HolderFacts(cfg, s, th) && s'.torrents == s.torrents
    ensures HolderFacts(cfg, s', th)
  {
  }

  lemma CallKeepsHolder(s: State, t: Tid, start: Thread)
    requires WriterInv(s) && t !in s.threads
    ensures Holder(Started(s, t, start)) == Holder(s)
  {
  }

  lemma CallKeepsRefs(s: State, t: Tid, start: Thread)
    requires RefInv(s) && t !in s.threads && Refs(s, start)
    ensures RefInv(Started(s, t, start))
  {
    var s' := Started(s, t, start);
    forall u | u in s'.threads ensures Refs(s', s'.threads[u]) {
      if u != t {
        assert Refs(s, s.threads[u]);
      }
    }
  }

  /** The invariant holds along every interleaving of calls, ticks and monitors. */
  lemma {:induction false} RunKeepsInv(cfg: Config, s: State, events: seq<Event>)
    requires Inv(cfg, s) && IsRun(cfg, s, events)
    ensures Inv(cfg, Run(cfg, s, events))
    decreases |events|
  {
    if events != [] {
      match events[0] {
        case Call(t, start) => CallKeepsInv(cfg, s, t, start);
        case Go(t, c) => StepKeepsInv(cfg, s, t, c);
      }
      RunKeepsInv(cfg, Next(cfg, s, events[0]), events[1..]);
    }
  }

  lemma InitialInv(cfg: Config)
    ensures Inv(cfg, INITIAL)
  {
    assert Adders(INITIAL) == {};
  }

  /** Every reachable state satisfies the invariant. */
  lemma Reachable(cfg: Config, events: seq<Event>)
    requires IsRun(cfg, INITIAL, events)
    ensures Inv(cfg, Run(cfg, INITIAL, events))
  {
    InitialInv(cfg);
    RunKeepsInv(cfg, INITIAL, events);
  }

  // ---- what follows --------------------------------------------------------------------------

  /** Life cycle, in every reachable state and under every interleaving: what was inserted is live or
      removed; nothing is dropped twice, closed twice or monitored twice; and whenever `m.mu` is free
      every wrapper has had its one monitor, it has been dropped exactly when it has left the map,
      and every torrent has an access time. */
  lemma {:induction false} LifeCycle(cfg: Config, events: seq<Event>)
    requires IsRun(cfg, INITIAL, events)
    ensures var s := Run(cfg, INITIAL, events);
            && |s.wrappers| == |s.torrents| + s.removed
            && (forall w | w in s.wrappers ::
                  s.wrappers[w].drops <= 1 && s.wrappers[w].closes <= 1 && s.wrappers[w].monitors <= 1)
            && (forall w | w in s.wrappers && s.wrappers[w].drops == 0 :: Live(s, w))
            && (s.mu.writer.None? ==>
                  && (forall w | w in s.wrappers :: s.wrappers[w].monitors == 1)
                  && (forall w | w in s.wrappers :: s.wrappers[w].drops == 1 <==> !Live(s, w))
                  && s.torrents.Keys <= s.lastAccessed.Keys)
  {
    Reachable(cfg, events);
    var s := Run(cfg, INITIAL, events);
    hide Run, IsRun, LockInv, WrapperLockInv, RefInv, MonitorInv, DropInv, AccessInv, HolderFacts, ReadyInv, SemInv;
    ClosedOnce(s);
    DroppedOnce(s);
    if s.mu.writer.None? {
      SettledWhenFree(s);
    }
  }

  lemma DroppedOnce(s: State)
    requires MonitorInv(s) && DropInv(s)
    ensures forall w | w in s.wrappers :: s.wrappers[w].drops <= 1 && s.wrappers[w].monitors <= 1
    ensures forall w | w in s.wrappers && s.wrappers[w].drops == 0 :: Live(s, w)
  {
    hide Fresh, Dying, Holder, Live;
  }

  lemma SettledWhenFree(s: State)
    requires MonitorInv(s) && DropInv(s) && AccessInv(s) && s.mu.writer.None?
    ensures forall w | w in s.wrappers :: s.wrappers[w].monitors == 1
    ensures forall w | w in s.wrappers :: s.wrappers[w].drops == 1 <==> !Live(s, w)
    ensures s.torrents.Keys <= s.lastAccessed.Keys
  {
    assert Holder(s) == Done;
    hide Live;
  }

  lemma ClosedOnce(s: State)
    requires ReadyInv(s)
    ensures forall w | w in s.wrappers :: s.wrappers[w].closes <= 1
  {
  }

  /** An insertion never replaces a torrent that is there, although the map was first read before the
      lock was taken. */
  lemma InsertionNeverOverwrites(cfg: Config, s: State, t: Tid, c: Choice)
    requires Inv(cfg, s) && Enabled(cfg, s, t, c)
    ensures var e := Advance(cfg, s, s.threads[t], c).effect;
            e.Insert? ==> e.k !in s.torrents && e.w !in s.wrappers && Adders(s) >= {t}
  {
    assert WriterInv(s);
    StepMoves(cfg, s, t, c);
    PendingAfter(cfg, s, t, Advance(cfg, s, s.threads[t], c));
  }

  /** No wrapper is dropped again: a thread about to drop one, be it a stale monitor or a cleanup
      tick, has found it live and not yet dropped. */
  lemma DropIsTheFirst(cfg: Config, s: State, t: Tid, c: Choice)
    requires Inv(cfg, s) && Enabled(cfg, s, t, c)
    ensures var e := Advance(cfg, s, s.threads[t], c).effect;
            e.Drop? ==> e.w in s.wrappers && Live(s, e.w) && s.wrappers[e.w].drops == 0
  {
    var m := Advance(cfg, s, s.threads[t], c);
    assert WriterInv(s);
    StepMoves(cfg, s, t, c);
    PendingAfter(cfg, s, t, m);
    if m.effect.Drop? {
      assert RefInv(s) && DropInv(s);
      assert Known(s, m.effect.w, m.next.k);
    }
    hide Advance, After, Moves, HolderFacts, LockInv, WrapperLockInv, ReadyInv, SemInv;
  }

  /** The semaphore counts the calls in the add section; at most one thread holds `m.mu` for writing
      and then nobody reads; the same for every wrapper. */
  lemma Exclusion(cfg: Config, s: State, t: Tid, u: Tid)
    requires Inv(cfg, s) && t in s.threads && u in s.threads && t != u
    ensures s.sem == |Adders(s)| <= cfg.maxConcurrentTorrents
    ensures HoldsWrite(s.threads[t]) ==> !HoldsWrite(s.threads[u]) && !HoldsRead(s.threads[u])
    ensures HoldsWrapper(s.threads[t]).Some? ==>
              && HoldsWrapper(s.threads[u]) != HoldsWrapper(s.threads[t])
              && HoldsWrapperRead(s.threads[u]) != HoldsWrapper(s.threads[t])
  {
    assert LockInv(s) && SemInv(cfg, s);
    if HoldsWrapper(s.threads[t]).Some? {
      var w := HoldsWrapper(s.threads[t]).value;
      assert Refs(s, s.threads[t]);
      assert WrapperWriterInv(s, w) && WrapperReadersInv(s, w) && WrapperExclusion(s, w);
    }
  }

  // ---- the cleanup tick ----------------------------------------------------------------------

  /** A tick never skips a torrent: each one it looks at is in the map and has an access time, and
      it is removed exactly when that lies more than twice the timeout back. */
  lemma TickJudgesEveryTorrent(cfg: Config, s: State, t: Tid, c: Choice)
    requires Inv(cfg, s) && t in s.threads && s.threads[t].CLoop? && c.key in s.threads[t].pending
    ensures c.key in s.torrents && c.key in s.lastAccessed && Enabled(cfg, s, t, c)
    ensures var m := Advance(cfg, s, s.threads[t], c);
            && (m.effect.Drop? <==> c.now - s.lastAccessed[c.key] > cfg.torrentTimeout * 2)
            && (m.effect.Drop? ==> m.effect.w == s.torrents[c.key] && m.next.CDelete? && m.next.k == c.key)
            && (!m.effect.Drop? ==>
                  && m.next.CLoop?
                  && m.next.kept == s.threads[t].kept[c.key := Exam(s.lastAccessed[c.key], c.now)])
  {
    TickFacts(cfg, s, t);
    Judgement(cfg, s, s.threads[t].pending, s.threads[t].kept, c);
    hide Inv, Advance;
  }

  lemma Judgement(cfg: Config, s: State, pending: set<Key>, kept: map<Key, Exam>, c: Choice)
    requires c.key in pending && c.key in s.torrents && c.key in s.lastAccessed
    ensures var m := Advance(cfg, s, CLoop(pending, kept), c);
            && m.Move? && Granted(s, m.effect)
            && (m.effect.Drop? <==> c.now - s.lastAccessed[c.key] > cfg.torrentTimeout * 2)
            && (m.effect.Drop? ==> m.effect.w == s.torrents[c.key] && m.next.CDelete? && m.next.k == c.key)
            && (!m.effect.Drop? ==> m.next.CLoop? && m.next.kept == kept[c.key := Exam(s.lastAccessed[c.key], c.now)])
  {
  }

  lemma HolderIs(cfg: Config, s: State, t: Tid)
    requires Inv(cfg, s) && t in s.threads && HoldsWrite(s.threads[t])
    ensures HolderFacts(cfg, s, s.threads[t])
    ensures forall k | k in s.torrents :: k in s.lastAccessed || Unstamped(s.threads[t]) == Some(k)
  {
    assert WriterInv(s) && AccessInv(s) && HolderFacts(cfg, s, Holder(s));
    assert Holder(s) == s.threads[t];
    hide Inv, HolderFacts, Unstamped;
  }

  lemma TickFacts(cfg: Config, s: State, t: Tid)
    requires Inv(cfg, s) && t in s.threads && s.threads[t].CLoop?
    ensures s.threads[t].pending <= s.torrents.Keys <= s.lastAccessed.Keys
  {
    hide Inv;
    HolderIs(cfg, s, t);
  }

  /** When a tick ends, every torrent left in the map was examined during it and had been accessed
      within twice the timeout of its examination. */
  lemma TickLeavesNoIdleTorrent(cfg: Config, s: State, t: Tid, k: Key)
    requires Inv(cfg, s) && t in s.threads && s.threads[t].CLoop? && s.threads[t].pending == {}
    requires k in s.torrents
    ensures var kept := s.threads[t].kept;
            k in kept && kept[k].at - kept[k].last <= cfg.torrentTimeout * 2
  {
    hide Inv;
    HolderIs(cfg, s, t);
  }

  // ---- no deadlock ---------------------------------------------------------------------------

  /** Threads that wait for nothing but an event from outside, or are finished. */
  predicate Resting(th: Thread) { th.Done? || th.CIdle? || th.MIdle? || th.IIdle? || th.WIdle? }

  predicate WantsRead(th: Thread) { th.GRLock? || th.MRLock? }

  predicate WantsWrite(th: Thread) { th.GLock? || th.RLock? || th.CLock? }

  function WantsWrapper(th: Thread): Option<Wid> {
    if th.ULock? || th.MWLock? || th.QLock? then Some(th.w) else None
  }

  function WantsWrapperRead(th: Thread): Option<Wid> { if th.MWRLock? then Some(th.w) else None }

  predicate Running(th: Thread) {
    && !Resting(th) && !WantsRead(th) && !WantsWrite(th)
    && WantsWrapper(th).None? && WantsWrapperRead(th).None?
  }

  /** A read lock is also held back while a writer is waiting. */
  ghost predicate Polite(s: State, t: Tid)
    requires t in s.threads
  {
    var th := s.threads[t];
    && (WantsRead(th) ==> forall u | u in s.threads :: !WantsWrite(s.threads[u]))
    && (WantsWrapperRead(th).Some? ==>
          forall u | u in s.threads :: WantsWrapper(s.threads[u]) != WantsWrapperRead(th))
  }

  ghost predicate CanMove(cfg: Config, s: State, t: Tid) {
    t in s.threads && !Resting(s.threads[t]) && Polite(s, t) && exists c :: Enabled(cfg, s, t, c)
  }

  lemma {:induction false} FreshId(ids: set<nat>) returns (n: nat)
    ensures forall i | i in ids :: i < n
  {
    if ids == {} {
      n := 0;
    } else {
      var i :| i in ids;
      n := FreshId(ids - {i});
      n := if n <= i then i + 1 else n;
      assert forall j | j in ids :: j == i || j in ids - {i};
    }
  }

  /** A thread that is not waiting can always go on. */
  lemma RunningCanMove(cfg: Config, s: State, t: Tid)
    requires Inv(cfg, s) && t in s.threads && Running(s.threads[t])
    ensures CanMove(cfg, s, t)
  {
    var th := s.threads[t];
    var tid := FreshId(s.threads.Keys);
    var c := Choice(0, false, 0, "", 0, tid);
    assert Refs(s, th);
    if th.CLoop? && th.pending != {} {
      var k :| k in th.pending;
      c := c.(key := k);
      TickJudgesEveryTorrent(cfg, s, t, c);
    }
    hide Inv;
    RunningIsEnabled(cfg, s, t, c);
  }

  lemma RunningIsEnabled(cfg: Config, s: State, t: Tid, c: Choice)
    requires t in s.threads && Running(s.threads[t]) && Refs(s, s.threads[t])
    requires c.tid !in s.threads && !c.yes
    requires s.threads[t].CLoop? && s.threads[t].pending != {} ==>
               c.key in s.threads[t].pending && c.key in s.torrents
    ensures CanMove(cfg, s, t)
  {
    assert Enabled(cfg, s, t, c);
  }

  /** A thread that waits for a lock that is free can have it. */
  lemma WaiterCanMove(cfg: Config, s: State, t: Tid)
    requires t in s.threads && Refs(s, s.threads[t]) && Polite(s, t)
    requires WantsRead(s.threads[t]) || WantsWrite(s.threads[t]) ==> Free(s.mu)
    requires WantsWrapper(s.threads[t]).Some? ==> Free(s.wrappers[WantsWrapper(s.threads[t]).value].mu)
    requires WantsWrapperRead(s.threads[t]).Some? ==> Free(s.wrappers[WantsWrapperRead(s.threads[t]).value].mu)
    requires !Running(s.threads[t]) && !Resting(s.threads[t])
    ensures CanMove(cfg, s, t)
  {
    var c := Choice(0, false, 0, "", 0, 0);
    assert Enabled(cfg, s, t, c);
  }

  /** A thread that holds a wrapper's lock, or `m.mu` for reading, is not waiting for anything. */
  lemma HoldersRun(s: State, t: Tid)
    requires t in s.threads
    ensures var th := s.threads[t];
            && (HoldsWrapper(th).Some? || HoldsWrapperRead(th).Some? || HoldsRead(th) ==> Running(th))
            && (HoldsWrite(th) ==> Running(th) || WantsWrapper(th).Some?)
  {
  }

  /** A wrapper's lock that is not free is held by some thread. */
  lemma WrapperHolder(cfg: Config, s: State, w: Wid) returns (u: Tid)
    requires Inv(cfg, s) && w in s.wrappers && !Free(s.wrappers[w].mu)
    ensures u in s.threads && (HoldsWrapper(s.threads[u]) == Some(w) || HoldsWrapperRead(s.threads[u]) == Some(w))
  {
    assert WrapperWriterInv(s, w) && WrapperReadersInv(s, w);
    var l := s.wrappers[w].mu;
    if l.writer.Some? {
      u := l.writer.value;
    } else {
      u :| u in l.readers;
    }
  }

  /** A wrapper whose lock a thread waits for exists. */
  lemma WantedIsKnown(cfg: Config, s: State, t: Tid)
    requires Inv(cfg, s) && t in s.threads
    ensures var th := s.threads[t];
            && (WantsWrapper(th).Some? ==> WantsWrapper(th).value in s.wrappers)
            && (WantsWrapperRead(th).Some? ==> WantsWrapperRead(th).value in s.wrappers)
            && Refs(s, th)
  {
    assert Refs(s, s.threads[t]);
  }

  lemma HeldWrapperEnds(cfg: Config, s: State, w: Wid) returns (u: Tid)
    requires Inv(cfg, s) && w in s.wrappers && !Free(s.wrappers[w].mu)
    ensures CanMove(cfg, s, u)
  {
    hide Inv, CanMove, Running, HoldsWrapper, HoldsWrapperRead;
    u := WrapperHolder(cfg, s, w);
    HoldersRun(s, u);
    RunningCanMove(cfg, s, u);
  }

  lemma WriterGets(cfg: Config, s: State, t: Tid)
    requires t in s.threads && Refs(s, s.threads[t])
    requires var w := WantsWrapper(s.threads[t]); w.Some? && w.value in s.wrappers && Free(s.wrappers[w.value].mu)
    ensures CanMove(cfg, s, t)
  {
    WaiterCanMove(cfg, s, t);
    hide CanMove;
  }

  lemma ReaderGets(cfg: Config, s: State, t: Tid)
    requires t in s.threads && Refs(s, s.threads[t])
    requires var w := WantsWrapperRead(s.threads[t]);
             && w.Some? && w.value in s.wrappers && Free(s.wrappers[w.value].mu)
             && forall v | v in s.threads :: WantsWrapper(s.threads[v]) != w
    ensures CanMove(cfg, s, t)
  {
    WaiterCanMove(cfg, s, t);
    hide CanMove;
  }

  /** A thread that waits for a wrapper's lock points at a thread that can move. */
  lemma WrapperWaitEnds(cfg: Config, s: State, t: Tid) returns (u: Tid)
    requires Inv(cfg, s) && t in s.threads
    requires WantsWrapper(s.threads[t]).Some?
    ensures CanMove(cfg, s, u)
  {
    WantedIsKnown(cfg, s, t);
    hide *;
    var w := WantsWrapper(s.threads[t]).value;
    if Free(s.wrappers[w].mu) {
      WriterGets(cfg, s, t);
      u := t;
    } else {
      u := HeldWrapperEnds(cfg, s, w);
    }
  }

  lemma WrapperReadWaitEnds(cfg: Config, s: State, t: Tid) returns (u: Tid)
    requires Inv(cfg, s) && t in s.threads
    requires WantsWrapperRead(s.threads[t]).Some?
    ensures CanMove(cfg, s, u)
  {
    WantedIsKnown(cfg, s, t);
    hide *;
    var w := WantsWrapperRead(s.threads[t]).value;
    if v :| v in s.threads && WantsWrapper(s.threads[v]) == Some(w) {
      u := WrapperWaitEnds(cfg, s, v);
    } else if Free(s.wrappers[w].mu) {
      ReaderGets(cfg, s, t);
      u := t;
    } else {
      u := HeldWrapperEnds(cfg, s, w);
    }
  }

  /** When `m.mu` is not free some thread holds it. */
  lemma MainHolder(s: State) returns (u: Tid)
    requires LockInv(s) && !Free(s.mu)
    ensures u in s.threads && (HoldsWrite(s.threads[u]) || HoldsRead(s.threads[u]))
  {
    if s.mu.writer.Some? {
      u := s.mu.writer.value;
    } else {
      u :| u in s.mu.readers;
    }
  }

  lemma MainWaitEnds(cfg: Config, s: State, t: Tid) returns (u: Tid)
    requires Inv(cfg, s) && t in s.threads
    requires WantsRead(s.threads[t]) || WantsWrite(s.threads[t])
    ensures CanMove(cfg, s, u)
  {
    assert LockInv(s) && RefInv(s);
    if !Free(s.mu) {
      u := MainHolder(s);
      HoldersRun(s, u);
      hide Inv, LockInv, RefInv, HoldsWrite, HoldsRead, CanMove, Running, WantsRead, WantsWrite;
      if Running(s.threads[u]) {
        RunningCanMove(cfg, s, u);
      } else {
        u := WrapperWaitEnds(cfg, s, u);
      }
    } else {
      u := MainCanBeTaken(cfg, s, t);
    }
  }

  /** When `m.mu` is free one of the threads that want it can have it, a writer first. */
  lemma MainCanBeTaken(cfg: Config, s: State, t: Tid) returns (u: Tid)
    requires RefInv(s) && Free(s.mu) && t in s.threads
    requires WantsRead(s.threads[t]) || WantsWrite(s.threads[t])
    ensures CanMove(cfg, s, u)
  {
    hide CanMove, Refs;
    u := t;
    if v :| v in s.threads && WantsWrite(s.threads[v]) {
      u := v;
    }
    assert Refs(s, s.threads[u]);
    WaiterCanMove(cfg, s, u);
  }

  /** No reachable state is deadlocked: as long as some thread is neither finished nor waiting for
      an outside event, some such thread can move, even when waiting writers hold back readers. */
  lemma NoDeadlock(cfg: Config, s: State, t: Tid) returns (u: Tid)
    requires Inv(cfg, s) && t in s.threads && !Resting(s.threads[t])
    ensures CanMove(cfg, s, u)
  {
    var th := s.threads[t];
    if WantsRead(th) || WantsWrite(th) {
      u := MainWaitEnds(cfg, s, t);
    } else if WantsWrapper(th).Some? {
      u := WrapperWaitEnds(cfg, s, t);
    } else if WantsWrapperRead(th).Some? {
      u := WrapperReadWaitEnds(cfg, s, t);
    } else {
      RunningCanMove(cfg, s, t);
      u := t;
    }
  }

  // ---- the same for every run ----------------------------------------------------------------

  /** After every interleaving, whatever step comes next: an insertion overwrites nothing, and a drop
      is the first of its wrapper. */
  lemma {:induction false} SafeSteps(cfg: Config, events: seq<Event>, t: Tid, c: Choice)
    requires IsRun(cfg, INITIAL, events)
    ensures var s := Run(cfg, INITIAL, events);
            Enabled(cfg, s, t, c) ==>
              var e := Advance(cfg, s, s.threads[t], c).effect;
              && (e.Insert? ==> e.k !in s.torrents && e.w !in s.wrappers && Adders(s) >= {t})
              && (e.Drop? ==> e.w in s.wrappers && Live(s, e.w) && s.wrappers[e.w].drops == 0)
  {
    Reachable(cfg, events);
    hide *;
    if Enabled(cfg, Run(cfg, INITIAL, events), t, c) {
      InsertionNeverOverwrites(cfg, Run(cfg, INITIAL, events), t, c);
      DropIsTheFirst(cfg, Run(cfg, INITIAL, events), t, c);
    }
  }

  /** After every interleaving the semaphore counts the calls in the add section, and whoever holds a
      lock for writing holds it alone. */
  lemma {:induction false} MutualExclusion(cfg: Config, events: seq<Event>, t: Tid, u: Tid)
    requires IsRun(cfg, INITIAL, events)
    ensures var s := Run(cfg, INITIAL, events);
            && s.sem == |Adders(s)| <= cfg.maxConcurrentTorrents
            && (t in s.threads && u in s.threads && t != u ==>
                  && (HoldsWrite(s.threads[t]) ==> !HoldsWrite(s.threads[u]) && !HoldsRead(s.threads[u]))
                  && (HoldsWrapper(s.threads[t]).Some? ==>
                        && HoldsWrapper(s.threads[u]) != HoldsWrapper(s.threads[t])
                        && HoldsWrapperRead(s.threads[u]) != HoldsWrapper(s.threads[t])))
  {
    Reachable(cfg, events);
    var s := Run(cfg, INITIAL, events);
    assert SemInv(cfg, s);
    hide Run, IsRun, Inv, HoldsWrite, HoldsRead, HoldsWrapper, HoldsWrapperRead;
    if t in s.threads && u in s.threads && t != u {
      Exclusion(cfg, s, t, u);
    }
  }

  /** After every interleaving a tick under way has only torrents before it that are in the map, all
      with an access time, and a tick at its end leaves only torrents it has found fresh enough. */
  lemma {:induction false} TicksAreThorough(cfg: Config, events: seq<Event>, t: Tid, k: Key)
    requires IsRun(cfg, INITIAL, events)
    ensures var s := Run(cfg, INITIAL, events);
            t in s.threads && s.threads[t].CLoop? ==>
              && s.threads[t].pending <= s.torrents.Keys <= s.lastAccessed.Keys
              && (s.threads[t].pending == {} && k in s.torrents ==>
                    k in s.threads[t].kept
                    && s.threads[t].kept[k].at - s.threads[t].kept[k].last <= cfg.torrentTimeout * 2)
  {
    Reachable(cfg, events);
    hide *;
    var s := Run(cfg, INITIAL, events);
    if t in s.threads && s.threads[t].CLoop? {
      TickFacts(cfg, s, t);
      if s.threads[t].pending == {} && k in s.torrents {
        TickLeavesNoIdleTorrent(cfg, s, t, k);
      }
    }
  }

  /** No interleaving ends in a deadlock. */
  lemma {:induction false} NeverDeadlocked(cfg: Config, events: seq<Event>)
    requires IsRun(cfg, INITIAL, events)
    ensures var s := Run(cfg, INITIAL, events);
            (exists t :: t in s.threads && !Resting(s.threads[t])) ==> exists u :: CanMove(cfg, s, u)
  {
    Reachable(cfg, events);
    hide *;
    var s := Run(cfg, INITIAL, events);
    if t :| t in s.threads && !Resting(s.threads[t]) {
      var u := NoDeadlock(cfg, s, t);
    }
  }
}
