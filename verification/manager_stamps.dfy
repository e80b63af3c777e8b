/**
  Access times, in every interleaving of the torrent manager: what a thread has read is still so while
  it holds the lock it read under, every recorded time is the last one that was stamped, and a torrent
  is removed for being idle only on the strength of such a time.
 */
module ManagerStamps {
  import opened Types
  import opened Wrappers
  import opened Manager
  import opened ManagerProofs
  import opened ManagerRuns
  import opened ManagerOrphans

  // ---- what has been read under a lock -------------------------------------------------------

  /** What a thread has found out and acts on, with the lock still held, is true. */
  ghost predicate Current(s: State, th: Thread) {
    && (th.GRUnlock? || th.MRUnlock? ==> (th.found <==> th.k in s.torrents))
    && (th.MWRUnlock? ==> th.w in s.wrappers && s.wrappers[th.w].lastAccessed == th.last)
    && (InAccess(th) && th.why == Recheck ==> th.k in s.torrents)
  }

  ghost predicate ReadsInv(s: State) { forall t | t in s.threads :: Current(s, s.threads[t]) }

  /** Points of the program that rest on something read. */
  predicate Rests(th: Thread) {
    th.GRUnlock? || th.MRUnlock? || th.MWRUnlock? || (InAccess(th) && th.why == Recheck)
  }

  /** What is read is read as it is, by a step that changes nothing that is read. */
  ghost predicate ReadsRight(s: State, next: Thread, e: Effect) {
    Current(s, next) && (Rests(next) ==> !e.Insert? && !e.Delete? && (next.MWRUnlock? ==> !e.Touch?))
  }

  lemma FindReads(cfg: Config, s: State, th: Thread, c: Choice)
    requires InFind(th) && Current(s, th) && Advance(cfg, s, th, c).Move?
    ensures var Move(next, e) := Advance(cfg, s, th, c); ReadsRight(s, next, e)
  {
  }

  lemma InsertReads(cfg: Config, s: State, th: Thread, c: Choice)
    requires InInsert(th) && Current(s, th) && Advance(cfg, s, th, c).Move?
    ensures var Move(next, e) := Advance(cfg, s, th, c); ReadsRight(s, next, e)
  {
  }

  lemma StampReads(cfg: Config, s: State, th: Thread, c: Choice)
    requires InStamp(th) && Current(s, th) && Advance(cfg, s, th, c).Move?
    ensures var Move(next, e) := Advance(cfg, s, th, c); ReadsRight(s, next, e)
  {
  }

  lemma TouchReads(cfg: Config, s: State, th: Thread, c: Choice)
    requires InTouch(th) && Current(s, th) && Advance(cfg, s, th, c).Move?
    ensures var Move(next, e) := Advance(cfg, s, th, c); ReadsRight(s, next, e)
  {
  }

  lemma WatchReads(cfg: Config, s: State, th: Thread, c: Choice)
    requires InWatch(th) && Current(s, th) && Advance(cfg, s, th, c).Move?
    ensures var Move(next, e) := Advance(cfg, s, th, c); ReadsRight(s, next, e)
  {
  }

  lemma ReadReads(cfg: Config, s: State, th: Thread, c: Choice)
    requires InRead(th) && Current(s, th) && Advance(cfg, s, th, c).Move?
    ensures var Move(next, e) := Advance(cfg, s, th, c); ReadsRight(s, next, e)
  {
  }

  predicate Reading(th: Thread) {
    InFind(th) || InInsert(th) || InStamp(th) || InTouch(th) || InWatch(th) || InRead(th)
  }

  lemma OthersRead(cfg: Config, s: State, th: Thread, c: Choice)
    requires !Reading(th) && Advance(cfg, s, th, c).Move?
    ensures !Rests(Advance(cfg, s, th, c).next)
  {
  }

  lemma StepReads(cfg: Config, s: State, th: Thread, c: Choice)
    requires Current(s, th) && Advance(cfg, s, th, c).Move?
    ensures var Move(next, e) := Advance(cfg, s, th, c); ReadsRight(s, next, e)
  {
    if !Reading(th) {
      OthersRead(cfg, s, th, c);
    }
    hide Advance, InFind, InInsert, InStamp, InTouch, InWatch, InRead;
    if
    case InFind(th) => FindReads(cfg, s, th, c);
    case InInsert(th) => InsertReads(cfg, s, th, c);
    case InStamp(th) => StampReads(cfg, s, th, c);
    case InTouch(th) => TouchReads(cfg, s, th, c);
    case InWatch(th) => WatchReads(cfg, s, th, c);
    case InRead(th) => ReadReads(cfg, s, th, c);
    case !Reading(th) => RestsOnNothing(s, Advance(cfg, s, th, c).next);
  }

  lemma RestsOnNothing(s: State, th: Thread)
    requires !Rests(th)
    ensures Current(s, th)
  {
  }

  /** What a step leaves as it is. */
  lemma Unchanged(s: State, t: Tid, m: Move)
    requires m.Move? && CreatesNew(s, m.effect)
    ensures var s', e := After(s, t, m), m.effect;
            && (!e.Insert? && !e.Delete? ==> s'.torrents == s.torrents)
            && (forall w | w in s.wrappers ::
                  && w in s'.wrappers
                  && s'.wrappers[w].lastAccessed
                     == if e.Touch? && e.w == w then e.now else s.wrappers[w].lastAccessed)
            && (e.Insert? ==> e.w in s'.wrappers && s'.wrappers[e.w].lastAccessed == e.now)
            && (forall w | w in s'.wrappers :: w in s.wrappers || (e.Insert? && e.w == w))
  {
    hide Schedule, NextMu, NextAccess, NextSem, NextWrapperMu;
  }

  lemma MoverStaysCurrent(s: State, t: Tid, m: Move)
    requires m.Move? && CreatesNew(s, m.effect) && ReadsRight(s, m.next, m.effect)
    ensures Current(After(s, t, m), m.next)
  {
    Unchanged(s, t, m);
    hide After, InAccess;
  }

  /** Nobody changes what another has read as long as that one holds its lock. */
  lemma OtherStaysCurrent(cfg: Config, s: State, t: Tid, m: Move, u: Tid)
    requires Inv(cfg, s) && t in s.threads && u in s.threads && u != t && m.Move?
    requires Disciplined(cfg, s, s.threads[t], m.next, m.effect) && Current(s, s.threads[u])
    ensures Current(After(s, t, m), s.threads[u])
  {
    LocksExclude(cfg, s, t, m, u);
    Unchanged(s, t, m);
    hide *;
    CurrentStays(s, After(s, t, m), s.threads[u], m.effect);
  }

  lemma CurrentStays(s: State, s': State, th: Thread, e: Effect)
    requires Current(s, th) && (!e.Insert? && !e.Delete? ==> s'.torrents == s.torrents)
    requires forall w | w in s.wrappers ::
               w in s'.wrappers
               && s'.wrappers[w].lastAccessed == if e.Touch? && e.w == w then e.now else s.wrappers[w].lastAccessed
    requires Rests(th) && (e.Insert? || e.Delete?) ==> th.MWRUnlock?
    requires th.MWRUnlock? && e.Touch? ==> e.w != th.w
    ensures Current(s', th)
  {
  }

  lemma LocksExclude(cfg: Config, s: State, t: Tid, m: Move, u: Tid)
    requires Inv(cfg, s) && t in s.threads && u in s.threads && u != t && m.Move?
    requires Disciplined(cfg, s, s.threads[t], m.next, m.effect)
    ensures CreatesNew(s, m.effect)
    ensures Rests(s.threads[u]) && (m.effect.Insert? || m.effect.Delete?) ==> s.threads[u].MWRUnlock?
    ensures s.threads[u].MWRUnlock? && m.effect.Touch? ==> m.effect.w != s.threads[u].w
  {
    var th, e := s.threads[u], m.effect;
    hide HolderFacts, MonitorInv, DropInv, AccessInv, CountInv, ReadyInv, SemInv, RefInv;
    if e.Insert? || e.Delete? {
      assert HoldsWrite(s.threads[t]);
      Exclusion(cfg, s, t, u);
    }
    if th.MWRUnlock? && e.Touch? && e.w == th.w {
      assert HoldsWrapper(s.threads[t]) == Some(th.w) && HoldsWrapperRead(th) == Some(th.w);
      Exclusion(cfg, s, t, u);
    }
  }

  lemma StepKeepsReads(cfg: Config, s: State, t: Tid, c: Choice)
    requires Inv(cfg, s) && ReadsInv(s) && Enabled(cfg, s, t, c)
    ensures ReadsInv(Step(cfg, s, t, c))
  {
    var m, s' := Advance(cfg, s, s.threads[t], c), Step(cfg, s, t, c);
    StepIsDisciplined(cfg, s, s.threads[t], c);
    assert Current(s, s.threads[t]);
    StepReads(cfg, s, s.threads[t], c);
    Scheduled(s, t, m);
    hide Advance, Inv, ReadsRight, Current;
    forall u | u in s'.threads ensures Current(s', s'.threads[u]) {
      if u == t {
        MoverStaysCurrent(s, t, m);
      } else if u in s.threads {
        assert Current(s, s.threads[u]);
        OtherStaysCurrent(cfg, s, t, m, u);
      } else {
        NewMonitorReadsNothing(s', m.effect.w, m.effect.k);
      }
    }
  }

  lemma NewMonitorReadsNothing(s: State, w: Wid, k: Key)
    ensures Current(s, MIdle(w, k))
  {
  }

  lemma CallKeepsReads(cfg: Config, s: State, t: Tid, start: Thread)
    requires ReadsInv(s) && t !in s.threads && Callable(s, start)
    ensures ReadsInv(Next(cfg, s, Call(t, start)))
  {
    var s' := Next(cfg, s, Call(t, start));
    forall u | u in s'.threads ensures Current(s', s'.threads[u]) {
      if u != t {
        assert Current(s, s.threads[u]);
      }
    }
  }

  lemma {:induction false} RunKeepsReads(cfg: Config, s: State, events: seq<Event>)
    requires Inv(cfg, s) && ReadsInv(s) && IsRun(cfg, s, events)
    ensures ReadsInv(Run(cfg, s, events))
    decreases |events|
  {
    if events != [] {
      match events[0] {
        case Call(t, start) =>
          CallKeepsInv(cfg, s, t, start);
          CallKeepsReads(cfg, s, t, start);
        case Go(t, c) =>
          StepKeepsInv(cfg, s, t, c);
          StepKeepsReads(cfg, s, t, c);
      }
      hide Inv, ReadsInv, Step;
      RunKeepsReads(cfg, Next(cfg, s, events[0]), events[1..]);
    }
  }

  /** After every interleaving: a lookup in the map, and a reading of a wrapper's access time, are still
      true when the lock they were made under is given back. */
  lemma {:induction false} ReadsAreCurrent(cfg: Config, events: seq<Event>)
    requires IsRun(cfg, INITIAL, events)
    ensures ReadsInv(Run(cfg, INITIAL, events))
  {
    InitialInv(cfg);
    RunKeepsReads(cfg, INITIAL, events);
  }

  // ---- the last stamp ------------------------------------------------------------------------

  /** The access time that an event gives a wrapper: that of its insertion, or the one with which
      updateLastAccessed, holding the wrapper's lock, is about to overwrite it. */
  function StampOf(s: State, e: Event, w: Wid): Option<int> {
    if e.Call? || e.t !in s.threads then None
    else
      var th := s.threads[e.t];
      if th.UWrite? && th.w == w then Some(th.now)
      else if th.GAdd? && e.choice.yes && e.choice.wid == w then Some(e.choice.now)
      else None
  }

  /** The last of them over a run. */
  function LastStamp(cfg: Config, s: State, events: seq<Event>, w: Wid, sofar: Option<int>): Option<int>
    requires IsRun(cfg, s, events)
    decreases |events|
  {
    if events == [] then sofar
    else
      var stamp := StampOf(s, events[0], w);
      LastStamp(cfg, Next(cfg, s, events[0]), events[1..], w, if stamp.Some? then stamp else sofar)
  }

  ghost predicate Stamped(s: State, w: Wid, sofar: Option<int>) {
    if w in s.wrappers then sofar == Some(s.wrappers[w].lastAccessed) else sofar == None
  }

  lemma TouchersWrite(cfg: Config, s: State, th: Thread, c: Choice)
    requires Advance(cfg, s, th, c).Move? && !th.UWrite?
    ensures !Advance(cfg, s, th, c).effect.Touch?
  {
  }

  lemma InsertersAdd(cfg: Config, s: State, th: Thread, c: Choice)
    requires Advance(cfg, s, th, c).Move? && !th.GAdd?
    ensures !Advance(cfg, s, th, c).effect.Insert?
  {
  }

  lemma WritersTouch(cfg: Config, s: State, th: Thread, c: Choice)
    requires Advance(cfg, s, th, c).Move?
    ensures var e := Advance(cfg, s, th, c).effect;
            && (th.UWrite? ==> e == Touch(th.w, th.now))
            && (th.GAdd? ==> e == if c.yes then Insert(th.k, c.wid, c.now) else Tau)
  {
  }

  /** A call of GetTorrent that overwrites a wrapper's access time overwrites it with the time it took. */
  lemma AccessStamps(cfg: Config, s: State, t: Tid, c: Choice)
    requires Inv(cfg, s) && Enabled(cfg, s, t, c) && s.threads[t].UWrite?
    ensures var th, s' := s.threads[t], Step(cfg, s, t, c);
            && th.w in s'.wrappers && s'.wrappers[th.w].lastAccessed == th.now
            && forall w | w in s.wrappers && w != th.w ::
                 w in s'.wrappers && s'.wrappers[w].lastAccessed == s.wrappers[w].lastAccessed
  {
    var m := Advance(cfg, s, s.threads[t], c);
    StepIsDisciplined(cfg, s, s.threads[t], c);
    WritersTouch(cfg, s, s.threads[t], c);
    Unchanged(s, t, m);
    assert RefInv(s) && Refs(s, s.threads[t]) && NamesTorrent(s.threads[t]);
    hide Advance, After, Inv, RefInv;
  }

  lemma StampIsEffect(cfg: Config, s: State, t: Tid, c: Choice, w: Wid)
    requires Enabled(cfg, s, t, c)
    ensures var e := Advance(cfg, s, s.threads[t], c).effect;
            StampOf(s, Go(t, c), w) == if (e.Touch? || e.Insert?) && e.w == w then Some(e.now) else None
  {
    var th := s.threads[t];
    WritersTouch(cfg, s, th, c);
    if !th.UWrite? {
      TouchersWrite(cfg, s, th, c);
    }
    if !th.GAdd? {
      InsertersAdd(cfg, s, th, c);
    }
    hide Advance;
  }

  lemma TouchesKnown(cfg: Config, s: State, t: Tid, c: Choice)
    requires Inv(cfg, s) && Enabled(cfg, s, t, c)
    ensures var e := Advance(cfg, s, s.threads[t], c).effect;
            CreatesNew(s, e) && (e.Touch? ==> e.w in s.wrappers) && (e.Insert? ==> e.w !in s.wrappers)
  {
    var th := s.threads[t];
    StepIsDisciplined(cfg, s, th, c);
    assert RefInv(s) && Refs(s, th);
    if th.UWrite? {
      assert NamesTorrent(th);
      WritersTouch(cfg, s, th, c);
    } else {
      TouchersWrite(cfg, s, th, c);
    }
    hide Advance, Inv, RefInv, Refs;
  }

  lemma StepStamped(cfg: Config, s: State, t: Tid, c: Choice, w: Wid, sofar: Option<int>)
    requires Inv(cfg, s) && Enabled(cfg, s, t, c) && Stamped(s, w, sofar)
    ensures var stamp := StampOf(s, Go(t, c), w);
            Stamped(Step(cfg, s, t, c), w, if stamp.Some? then stamp else sofar)
  {
    var m := Advance(cfg, s, s.threads[t], c);
    StampIsEffect(cfg, s, t, c, w);
    TouchesKnown(cfg, s, t, c);
    Unchanged(s, t, m);
    hide Advance, After, Inv, CreatesNew, StampOf;
  }

  lemma NextStamped(cfg: Config, s: State, e: Event, w: Wid, sofar: Option<int>)
    requires Inv(cfg, s) && Possible(cfg, s, e) && Stamped(s, w, sofar)
    ensures Stamped(Next(cfg, s, e), w, if StampOf(s, e, w).Some? then StampOf(s, e, w) else sofar)
  {
    hide Inv, Enabled, Step;
    if e.Go? {
      StepStamped(cfg, s, e.t, e.choice, w, sofar);
    }
  }

  lemma {:induction false} RunStamped(cfg: Config, s: State, events: seq<Event>, w: Wid, sofar: Option<int>)
    requires Inv(cfg, s) && IsRun(cfg, s, events) && Stamped(s, w, sofar)
    ensures Stamped(Run(cfg, s, events), w, LastStamp(cfg, s, events, w, sofar))
    decreases |events|
  {
    if events != [] {
      NextStamped(cfg, s, events[0], w, sofar);
      match events[0] {
        case Call(t, start) => CallKeepsInv(cfg, s, t, start);
        case Go(t, c) => StepKeepsInv(cfg, s, t, c);
      }
      var stamp := StampOf(s, events[0], w);
      hide Inv, Stamped, Step, StampOf;
      RunStamped(cfg, Next(cfg, s, events[0]), events[1..], w, if stamp.Some? then stamp else sofar);
    }
  }

  /** After every interleaving the access time of a wrapper is the last one stamped on it, by its
      insertion or by a call of GetTorrent since. */
  lemma {:induction false} WrapperTimeIsLastStamp(cfg: Config, events: seq<Event>, w: Wid)
    requires IsRun(cfg, INITIAL, events)
    ensures var s := Run(cfg, INITIAL, events);
            w in s.wrappers ==> LastStamp(cfg, INITIAL, events, w, None) == Some(s.wrappers[w].lastAccessed)
  {
    InitialInv(cfg);
    RunStamped(cfg, INITIAL, events, w, None);
  }

  /** The time that updateLastAccessed takes from the clock is the one it stores, and the one it stamps. */
  lemma AccessCarriesTime(cfg: Config, s: State, th: Thread, c: Choice)
    requires InAccess(th) && Advance(cfg, s, th, c).Move?
    ensures var Move(next, e) := Advance(cfg, s, th, c);
            && (th.UStamp? ==> next.UStore? && next.now == c.now)
            && (th.UStore? ==> e == Store(th.k, th.now) && next.UFind?)
            && (next.UFind? || next.ULock? || next.UWrite? ==> next.now == th.now)
            && (InAccess(next) ==> next.k == th.k && next.why == th.why)
            && (th.UFind? && th.k in s.torrents ==> next.ULock? && next.w == s.torrents[th.k])
  {
  }

  // ---- the map of access times ---------------------------------------------------------------

  /** What an event does to the access time of a torrent: it stores one, or removes it together with
      the torrent. */
  datatype Change = Kept | Set(now: int) | Removed

  function ChangeOf(s: State, e: Event, k: Key): Change {
    if e.Call? || e.t !in s.threads then Kept
    else
      var th := s.threads[e.t];
      if th.UStore? && th.k == k then Set(th.now)
      else if (th.RForget? || th.CForget?) && th.k == k then Removed
      else Kept
  }

  function LastTime(cfg: Config, s: State, events: seq<Event>, k: Key, sofar: Option<int>): Option<int>
    requires IsRun(cfg, s, events)
    decreases |events|
  {
    if events == [] then sofar
    else
      var next :=
        match ChangeOf(s, events[0], k)
        case Kept => sofar
        case Set(now) => Some(now)
        case Removed => None;
      LastTime(cfg, Next(cfg, s, events[0]), events[1..], k, next)
  }

  function TimeOf(s: State, k: Key): Option<int> { if k in s.lastAccessed then Some(s.lastAccessed[k]) else None }

  lemma StorersStore(cfg: Config, s: State, th: Thread, c: Choice)
    requires Advance(cfg, s, th, c).Move? && !th.UStore?
    ensures !Advance(cfg, s, th, c).effect.Store?
  {
  }

  lemma StoringStores(cfg: Config, s: State, th: Thread, c: Choice)
    requires Advance(cfg, s, th, c).Move?
    ensures var e := Advance(cfg, s, th, c).effect;
            && (th.UStore? ==> e == Store(th.k, th.now))
            && (th.RForget? || th.CForget? ==> e == Forget(th.k))
  {
  }

  lemma NextTime(cfg: Config, s: State, e: Event, k: Key)
    requires Possible(cfg, s, e)
    ensures TimeOf(Next(cfg, s, e), k) ==
            match ChangeOf(s, e, k)
            case Kept => TimeOf(s, k)
            case Set(now) => Some(now)
            case Removed => None
  {
    if e.Go? {
      var th := s.threads[e.t];
      StoringStores(cfg, s, th, e.choice);
      if !th.UStore? {
        StorersStore(cfg, s, th, e.choice);
      }
      if !th.RForget? && !th.CForget? {
        OthersDoNotForget(cfg, s, th, e.choice);
      }
      hide Advance, NextTorrents, NextMu, NextSem, NextWrappers, Schedule;
    }
  }

  lemma {:induction false} RunTime(cfg: Config, s: State, events: seq<Event>, k: Key)
    requires IsRun(cfg, s, events)
    ensures TimeOf(Run(cfg, s, events), k) == LastTime(cfg, s, events, k, TimeOf(s, k))
    decreases |events|
  {
    if events != [] {
      NextTime(cfg, s, events[0], k);
      hide Next, ChangeOf, TimeOf;
      RunTime(cfg, Next(cfg, s, events[0]), events[1..], k);
    }
  }

  /** After every interleaving the access time of a torrent is the last one stored for it since it was
      last removed, and there is none if none has been. */
  lemma {:induction false} TimesAreLastStored(cfg: Config, events: seq<Event>, k: Key)
    requires IsRun(cfg, INITIAL, events)
    ensures TimeOf(Run(cfg, INITIAL, events), k) == LastTime(cfg, INITIAL, events, k, None)
  {
    RunTime(cfg, INITIAL, events, k);
  }

  // ---- what a monitor removes ----------------------------------------------------------------

  lemma {:induction false} LastEvent(cfg: Config, s: State, init: seq<Event>, e: Event)
    requires IsRun(cfg, s, init + [e])
    ensures IsRun(cfg, s, init) && Possible(cfg, Run(cfg, s, init), e)
    ensures Run(cfg, s, init + [e]) == Next(cfg, Run(cfg, s, init), e)
    decreases |init|
  {
    var events := init + [e];
    hide Next, Possible;
    if init == [] {
      assert events[0] == e && events[1..] == [];
      assert Run(cfg, s, events) == Run(cfg, Next(cfg, s, e), []);
    } else {
      assert events[0] == init[0] && events[1..] == init[1..] + [e];
      LastEvent(cfg, Next(cfg, s, init[0]), init[1..], e);
    }
  }

  /** After j events of a run a monitor held the lock of its wrapper for reading and had just read its
      access time, which was the last one stamped on it. */
  ghost predicate ReadAfter(cfg: Config, events: seq<Event>, j: nat, t: Tid, w: Wid, k: Key, last: int)
    requires j <= |events|
  {
    && IsRun(cfg, INITIAL, events[..j])
    && var s := Run(cfg, INITIAL, events[..j]);
       && t in s.threads && s.threads[t] == MWRUnlock(w, k, last)
       && w in s.wrappers && s.wrappers[w].lastAccessed == last
       && LastStamp(cfg, INITIAL, events[..j], w, None) == Some(last)
  }

  lemma JudgeComesFromReading(cfg: Config, s: State, th: Thread, c: Choice)
    requires Advance(cfg, s, th, c).Move? && Advance(cfg, s, th, c).next.MJudge?
    ensures var next := Advance(cfg, s, th, c).next; th == MWRUnlock(next.w, next.k, next.last)
  {
  }

  /** A thread that judges did so before the event as well, or was reading then. */
  lemma JudgeBefore(cfg: Config, s: State, e: Event, t: Tid)
    requires Possible(cfg, s, e) && t in Next(cfg, s, e).threads && Next(cfg, s, e).threads[t].MJudge?
    ensures t in s.threads
    ensures var th := Next(cfg, s, e).threads[t];
            s.threads[t] == th || s.threads[t] == MWRUnlock(th.w, th.k, th.last)
  {
    if e.Go? {
      var m := Advance(cfg, s, s.threads[e.t], e.choice);
      if m.next.MJudge? {
        JudgeComesFromReading(cfg, s, s.threads[e.t], e.choice);
      }
      hide Advance, NextTorrents, NextAccess, NextMu, NextSem, NextWrappers;
    }
  }

  lemma ReadNow(cfg: Config, events: seq<Event>, t: Tid, w: Wid, k: Key, last: int)
    requires IsRun(cfg, INITIAL, events)
    requires var s := Run(cfg, INITIAL, events); t in s.threads && s.threads[t] == MWRUnlock(w, k, last)
    ensures ReadAfter(cfg, events, |events|, t, w, k, last)
  {
    assert events[..|events|] == events;
    ReadsAreCurrent(cfg, events);
    WrapperTimeIsLastStamp(cfg, events, w);
    hide Run, IsRun, LastStamp;
    assert Current(Run(cfg, INITIAL, events), MWRUnlock(w, k, last));
  }

  /** What a monitor judges is a time that it has read at some moment of the run, and that was then the
      last one stamped. */
  lemma {:induction false} JudgedWasRead(cfg: Config, events: seq<Event>, t: Tid)
    requires IsRun(cfg, INITIAL, events)
    requires var s := Run(cfg, INITIAL, events); t in s.threads && s.threads[t].MJudge?
    ensures var th := Run(cfg, INITIAL, events).threads[t];
            exists j | 0 <= j <= |events| :: ReadAfter(cfg, events, j, t, th.w, th.k, th.last)
    decreases |events|
  {
    if events != [] {
      var init, e := events[..|events| - 1], events[|events| - 1];
      assert events == init + [e];
      LastEvent(cfg, INITIAL, init, e);
      var before, th := Run(cfg, INITIAL, init), Run(cfg, INITIAL, events).threads[t];
      JudgeBefore(cfg, before, e, t);
      hide Run, IsRun, Next, Possible, ReadAfter;
      if before.threads[t] == th {
        JudgedWasRead(cfg, init, t);
        var j :| 0 <= j <= |init| && ReadAfter(cfg, init, j, t, th.w, th.k, th.last);
        ReadLater(cfg, init, e, j, t, th.w, th.k, th.last);
      } else {
        ReadNow(cfg, init, t, th.w, th.k, th.last);
        ReadLater(cfg, init, e, |init|, t, th.w, th.k, th.last);
      }
    }
  }

  lemma ReadLater(cfg: Config, init: seq<Event>, e: Event, j: nat, t: Tid, w: Wid, k: Key, last: int)
    requires j <= |init| && ReadAfter(cfg, init, j, t, w, k, last)
    ensures ReadAfter(cfg, init + [e], j, t, w, k, last)
  {
    assert (init + [e])[..j] == init[..j];
  }

  lemma Verdict(cfg: Config, s: State, th: Thread, c: Choice)
    requires th.MJudge?
    ensures var next := Advance(cfg, s, th, c).next;
            && Advance(cfg, s, th, c).Move?
            && (next == RLock(th.k) <==> c.now - th.last > cfg.torrentTimeout * 2 && c.yes)
            && (next != RLock(th.k) ==> next == MWLock(th.w, th.k) || next == MIdle(th.w, th.k))
  {
  }

  /** After every interleaving a monitor goes on to remove its torrent as idle if and only if it is
      complete and the time that was read, then the last one stamped, lies over twice the timeout back. */
  lemma {:induction false} MonitorRemovesIdle(cfg: Config, events: seq<Event>, t: Tid, c: Choice)
    requires IsRun(cfg, INITIAL, events)
    requires var s := Run(cfg, INITIAL, events); t in s.threads && s.threads[t].MJudge?
    ensures var s := Run(cfg, INITIAL, events);
            var th := s.threads[t];
            && Advance(cfg, s, th, c).Move?
            && (Advance(cfg, s, th, c).next == RLock(th.k) <==> c.now - th.last > cfg.torrentTimeout * 2 && c.yes)
            && exists j | 0 <= j <= |events| :: ReadAfter(cfg, events, j, t, th.w, th.k, th.last)
  {
    JudgedWasRead(cfg, events, t);
    Verdict(cfg, Run(cfg, INITIAL, events), Run(cfg, INITIAL, events).threads[t], c);
    hide *;
  }

  // ---- access times without torrents ---------------------------------------------------------

  /** About to take the access time of a torrent out that has left the map. */
  predicate Forgetting(th: Thread, k: Key) { (th.RForget? || th.CForget?) && th.k == k }

  ghost predicate TimedInv(s: State) {
    forall k | k in s.lastAccessed :: k in s.torrents || Forgetting(Holder(s), k)
  }

  /** The fast path does not store a time for a torrent that is not in the map. */
  predicate StoresLive(s: State, e: Event) {
    e.Go? && e.t in s.threads && s.threads[e.t].UStore? && s.threads[e.t].why == Purpose.Fast ==>
      s.threads[e.t].k in s.torrents
  }

  predicate AllStoreLive(cfg: Config, s: State, events: seq<Event>)
    requires IsRun(cfg, s, events)
    decreases |events|
  {
    events != [] ==> StoresLive(s, events[0]) && AllStoreLive(cfg, Next(cfg, s, events[0]), events[1..])
  }

  lemma RemoversForget(cfg: Config, s: State, th: Thread, c: Choice)
    requires Advance(cfg, s, th, c).Move? && (th.RDelete? || th.CDelete? || th.RForget? || th.CForget?)
    ensures var Move(next, e) := Advance(cfg, s, th, c);
            if th.RDelete? || th.CDelete? then e == Delete(th.k) && Forgetting(next, th.k) else e == Forget(th.k)
  {
  }

  lemma EffectKeepsTimed(cfg: Config, s: State, t: Tid, m: Move)
    requires ManagerProofs.Moves(cfg, s, t, m) && TimedInv(s)
    requires m.effect.Store? ==> m.effect.k in s.torrents
    requires m.effect.Delete? ==> Forgetting(m.next, m.effect.k)
    requires forall k | Forgetting(s.threads[t], k) :: m.effect == Forget(k)
    ensures TimedInv(After(s, t, m))
  {
    HolderAfter(s, t, m);
    assert m.effect.Delete? ==> HoldsWrite(s.threads[t]);
    hide Holder, HoldsWrite, WriterInv, RefInv, HolderFacts, Schedule, NextMu, NextWrappers, NextSem, FreshDiscipline,
         DyingDiscipline, StampDiscipline;
  }

  /** Every other store of a time is for a torrent that its thread knows to be there. */
  lemma StoredIsThere(cfg: Config, s: State, t: Tid, c: Choice)
    requires Inv(cfg, s) && ReadsInv(s) && Enabled(cfg, s, t, c) && StoresLive(s, Go(t, c)) && s.threads[t].UStore?
    ensures s.threads[t].k in s.torrents
  {
    var th := s.threads[t];
    assert Current(s, th);
    if th.why.Inserted? {
      assert HoldsWrite(th);
      HolderIs(cfg, s, t);
    }
    hide Inv;
  }

  lemma StepKeepsTimed(cfg: Config, s: State, t: Tid, c: Choice)
    requires Inv(cfg, s) && ReadsInv(s) && TimedInv(s) && Enabled(cfg, s, t, c) && StoresLive(s, Go(t, c))
    ensures TimedInv(Step(cfg, s, t, c))
  {
    var th, m := s.threads[t], Advance(cfg, s, s.threads[t], c);
    assert WriterInv(s);
    StepMoves(cfg, s, t, c);
    if th.UStore? {
      StoredIsThere(cfg, s, t, c);
      StoringStores(cfg, s, th, c);
    } else {
      StorersStore(cfg, s, th, c);
    }
    if th.RDelete? || th.CDelete? || th.RForget? || th.CForget? {
      RemoversForget(cfg, s, th, c);
    }
    assert m.effect.Delete? ==> th.RDelete? || th.CDelete?;
    hide Advance, Inv, ReadsInv, TimedInv, ManagerProofs.Moves, After;
    EffectKeepsTimed(cfg, s, t, m);
  }

  lemma CallKeepsTimed(cfg: Config, s: State, t: Tid, start: Thread)
    requires Inv(cfg, s) && TimedInv(s) && t !in s.threads
    ensures TimedInv(Started(s, t, start))
  {
    assert WriterInv(s);
    CallKeepsHolder(s, t, start);
    hide Inv, Holder;
  }

  lemma {:induction false} RunKeepsTimed(cfg: Config, s: State, events: seq<Event>)
    requires Inv(cfg, s) && ReadsInv(s) && TimedInv(s) && IsRun(cfg, s, events) && AllStoreLive(cfg, s, events)
    ensures TimedInv(Run(cfg, s, events))
    decreases |events|
  {
    if events != [] {
      match events[0] {
        case Call(t, start) =>
          CallKeepsInv(cfg, s, t, start);
          CallKeepsReads(cfg, s, t, start);
          CallKeepsTimed(cfg, s, t, start);
        case Go(t, c) =>
          StepKeepsInv(cfg, s, t, c);
          StepKeepsReads(cfg, s, t, c);
          StepKeepsTimed(cfg, s, t, c);
      }
      hide Inv, ReadsInv, TimedInv, StoresLive, Step;
      RunKeepsTimed(cfg, Next(cfg, s, events[0]), events[1..]);
    }
  }

  /** The stale stamp of the fast path is the only way to an access time without a torrent: as long as
      none is made, the torrents with an access time are exactly those in the map whenever `m.mu` is
      free. */
  lemma {:induction false} OnlyStaleStampsLeaveOrphans(cfg: Config, events: seq<Event>)
    requires IsRun(cfg, INITIAL, events) && AllStoreLive(cfg, INITIAL, events)
    ensures var s := Run(cfg, INITIAL, events); s.mu.writer.None? ==> s.lastAccessed.Keys == s.torrents.Keys
  {
    InitialInv(cfg);
    RunKeepsTimed(cfg, INITIAL, events);
    LifeCycle(cfg, events);
    var s := Run(cfg, INITIAL, events);
    hide Run, IsRun, AllStoreLive;
    assert s.mu.writer.None? ==> Holder(s) == Done;
  }

  // ---- refusals and announcements ------------------------------------------------------------

  /** After every interleaving a call is refused if and only if as many others are adding torrents as
      the limit allows. */
  lemma {:induction false} RefusedExactlyWhenFull(cfg: Config, events: seq<Event>, t: Tid, c: Choice)
    requires IsRun(cfg, INITIAL, events)
    requires var s := Run(cfg, INITIAL, events); t in s.threads && s.threads[t].GTry?
    ensures var s := Run(cfg, INITIAL, events);
            && Enabled(cfg, s, t, c)
            && (Step(cfg, s, t, c).threads[t] == Done <==> |Adders(s)| == cfg.maxConcurrentTorrents)
            && (Step(cfg, s, t, c).threads[t] != Done ==> Step(cfg, s, t, c).threads[t] == GLock(s.threads[t].k))
  {
    Reachable(cfg, events);
    var s := Run(cfg, INITIAL, events);
    hide Run, IsRun;
    assert SemInv(cfg, s);
    hide Inv, Adders;
  }

  /** A thread that finds the info there leaves infoReady closed, whether it closes it or has found it so,
      and nothing opens it again. */
  lemma InfoIsAnnounced(cfg: Config, s: State, t: Tid, c: Choice)
    requires Inv(cfg, s) && Enabled(cfg, s, t, c)
    ensures var th, s' := s.threads[t], Step(cfg, s, t, c);
            && (th.QCheck? && c.yes ==>
                  th.w in s.wrappers && s'.threads[t] == if s.wrappers[th.w].ready then QUnlock(th.w) else QClose(th.w))
            && (th.QClose? ==> th.w in s'.wrappers && s'.wrappers[th.w].ready && s'.threads[t] == QUnlock(th.w))
            && (forall w | w in s.wrappers && s.wrappers[w].ready :: w in s'.wrappers && s'.wrappers[w].ready)
  {
    var th, m := s.threads[t], Advance(cfg, s, s.threads[t], c);
    StepIsDisciplined(cfg, s, th, c);
    assert RefInv(s) && Refs(s, th);
    Announces(cfg, s, th, c);
    hide Advance, Inv, RefInv;
    ReadyAfter(s, t, m);
    Scheduled(s, t, m);
    hide After;
  }

  lemma Announces(cfg: Config, s: State, th: Thread, c: Choice)
    requires Advance(cfg, s, th, c).Move? && Refs(s, th)
    ensures var Move(next, e) := Advance(cfg, s, th, c);
            && (th.QCheck? && c.yes ==>
                  th.w in s.wrappers && next == if s.wrappers[th.w].ready then QUnlock(th.w) else QClose(th.w))
            && (th.QClose? ==> th.w in s.wrappers && e == CloseReady(th.w) && next == QUnlock(th.w))
  {
  }

  lemma ReadyAfter(s: State, t: Tid, m: Move)
    requires m.Move? && CreatesNew(s, m.effect)
    ensures forall w | w in s.wrappers ::
              w in After(s, t, m).wrappers
              && After(s, t, m).wrappers[w].ready == (s.wrappers[w].ready || m.effect == CloseReady(w))
  {
    hide Schedule, NextMu, NextTorrents, NextAccess, NextSem, NextWrapperMu;
  }

  /** A monitor ends of itself exactly when its torrent is dropped, a waiter when the info is there, and a
      waiter may give up at any time. */
  lemma EndsOfItself(cfg: Config, s: State, t: Tid, c: Choice)
    requires t in s.threads && Refs(s, s.threads[t]) && (s.threads[t].MIdle? || s.threads[t].WIdle?)
    ensures c.pick > 2 && s.threads[t].MIdle? ==>
              (Enabled(cfg, s, t, c) <==> s.wrappers[s.threads[t].w].drops > 0)
    ensures c.pick > 2 && s.threads[t].WIdle? ==> (Enabled(cfg, s, t, c) <==> s.wrappers[s.threads[t].w].ready)
    ensures c.pick == 1 && s.threads[t].WIdle? ==> Enabled(cfg, s, t, c)
    ensures (c.pick > 2 || (c.pick == 1 && s.threads[t].WIdle?)) && Enabled(cfg, s, t, c) ==>
              Step(cfg, s, t, c).threads[t] == Done
  {
    hide NextWrappers, NextTorrents, NextAccess, NextMu, NextSem;
  }

  /** A thread that has looked its torrent up goes on as the map says, in every reachable state: a call to
      the fast path or to the semaphore, a monitor to its wrapper or to its end. */
  lemma {:induction false} LookupsAreActedOn(cfg: Config, events: seq<Event>, t: Tid, c: Choice)
    requires IsRun(cfg, INITIAL, events)
    requires var s := Run(cfg, INITIAL, events); t in s.threads && (s.threads[t].GRUnlock? || s.threads[t].MRUnlock?)
    ensures var s := Run(cfg, INITIAL, events);
            var th, m := s.threads[t], Advance(cfg, s, s.threads[t], c);
            && m.Move?
            && (th.GRUnlock? ==> m.next == if th.k in s.torrents then UStamp(th.k, Purpose.Fast) else GTry(th.k))
            && (th.MRUnlock? ==> m.next == if th.k in s.torrents then MWRLock(th.w, th.k) else Done)
  {
    ReadsAreCurrent(cfg, events);
    hide Run, IsRun;
    assert Current(Run(cfg, INITIAL, events), Run(cfg, INITIAL, events).threads[t]);
  }

  /** removeTorrent never gives `m.mu` back with the torrent still there, or its access time if it was. */
  lemma RemovalIsThorough(cfg: Config, s: State, t: Tid, c: Choice)
    requires Inv(cfg, s) && Enabled(cfg, s, t, c) && (s.threads[t].RFind? || s.threads[t].RForget?)
    requires Step(cfg, s, t, c).threads[t] == RUnlock
    ensures var k, s' := s.threads[t].k, Step(cfg, s, t, c);
            k !in s'.torrents && (s.threads[t].RForget? ==> k !in s'.lastAccessed)
  {
    var th, m := s.threads[t], Advance(cfg, s, s.threads[t], c);
    if th.RForget? {
      assert HoldsWrite(th);
      HolderIs(cfg, s, t);
    }
    RemoverMoves(cfg, s, th, c);
    hide Inv, Advance, Schedule, NextMu, NextSem, NextWrappers;
    Scheduled(s, t, m);
  }

  lemma RemoverMoves(cfg: Config, s: State, th: Thread, c: Choice)
    requires th.RFind? || th.RForget?
    ensures var m := Advance(cfg, s, th, c);
            && m.Move? && CreatesNew(s, m.effect)
            && (th.RFind? && m.next == RUnlock ==> th.k !in s.torrents && m.effect == Tau)
            && (th.RForget? ==> m.effect == Forget(th.k))
  {
  }
}
