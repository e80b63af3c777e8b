/**
  What the calls and routines of the torrent manager come to when nobody steps in between: from any
  state in which the locks they need are free, some run of one thread does all that the call is for.
 */
module ManagerCalls {
  import opened Types
  import opened Wrappers
  import opened Manager
  import opened ManagerProofs
  import opened ManagerRuns

  /** A thread, what it shares, and one wrapper. */
  datatype Sight = Sight(
    th: Thread, torrents: map<Key, Wid>, access: map<Key, int>, mu: RW, sem: nat, wrapper: Wrapper)

  ghost predicate Sees(s: State, t: Tid, w: Wid, v: Sight) {
    && t in s.threads && s.threads[t] == v.th
    && s.torrents == v.torrents && s.lastAccessed == v.access && s.mu == v.mu && s.sem == v.sem
    && w in s.wrappers && s.wrappers[w] == v.wrapper
  }

  function NextSight(v: Sight, t: Tid, w: Wid, next: Thread, e: Effect): Sight {
    Sight(next, NextTorrents(v.torrents, e), NextAccess(v.access, e), NextMu(v.mu, t, e), NextSem(v.sem, e),
          NextWrapper(v.wrapper, w, t, e))
  }

  predicate Plain(e: Effect) { !e.Spawn? && !e.Insert? }

  /** One step of the thread. */
  lemma Does(cfg: Config, s0: State, s: State, t: Tid, w: Wid, v: Sight, c: Choice, next: Thread, e: Effect)
    returns (s': State)
    requires Leads(cfg, s0, s) && Sees(s, t, w, v) && Plain(e)
    requires Advance(cfg, s, v.th, c) == Move(next, e) && Granted(s, e)
    ensures Leads(cfg, s0, s') && Sees(s', t, w, NextSight(v, t, w, next, e))
  {
    assert Possible(cfg, s, Go(t, c));
    s' := Next(cfg, s, Go(t, c));
    hide Advance, Leads, NextTorrents, NextAccess, NextMu, NextSem, NextWrapper;
    LeadsOn(cfg, s0, s, Go(t, c));
  }

  lemma Stays(cfg: Config, s: State)
    ensures Leads(cfg, s, s)
  {
    assert IsRun(cfg, s, []) && Run(cfg, s, []) == s;
  }

  // ---- updateLastAccessed --------------------------------------------------------------------

  function Access(k: Key, w: Wid, now: int, why: Purpose, i: nat): Thread {
    match i
    case 0 => UStamp(k, why)
    case 1 => UStore(k, now, why)
    case 2 => UFind(k, now, why)
    case 3 => ULock(k, w, now, why)
    case 4 => UWrite(k, w, now, why)
    case 5 => UUnlock(k, w, why)
    case _ => Return(k, why)
  }

  function AccessEffect(k: Key, w: Wid, now: int, i: nat): Effect {
    match i
    case 1 => Store(k, now)
    case 3 => AcquireWrapper(w)
    case 4 => Touch(w, now)
    case 5 => ReleaseWrapper(w)
    case _ => Tau
  }

  function AccessSight(v: Sight, t: Tid, k: Key, w: Wid, now: int, why: Purpose, i: nat): Sight {
    v.(th := Access(k, w, now, why, i),
       access := if i > 1 then v.access[k := now] else v.access,
       wrapper := v.wrapper.(mu := if i in {4, 5} then RW(Some(t), {}) else FREE,
                             lastAccessed := if i > 4 then now else v.wrapper.lastAccessed))
  }

  lemma AccessMove(cfg: Config, s: State, k: Key, w: Wid, c: Choice, why: Purpose, i: nat)
    requires i < 6 && k in s.torrents && s.torrents[k] == w
    ensures Advance(cfg, s, Access(k, w, c.now, why, i), c)
         == Move(Access(k, w, c.now, why, i + 1), AccessEffect(k, w, c.now, i))
  {
  }

  lemma AccessNext(v: Sight, t: Tid, k: Key, w: Wid, now: int, why: Purpose, i: nat)
    requires i < 6
    ensures NextSight(AccessSight(v, t, k, w, now, why, i), t, w,
                      Access(k, w, now, why, i + 1), AccessEffect(k, w, now, i))
         == AccessSight(v, t, k, w, now, why, i + 1)
  {
  }

  lemma AccessGranted(s: State, v: Sight, t: Tid, k: Key, w: Wid, now: int, why: Purpose, i: nat)
    requires i < 6 && Sees(s, t, w, AccessSight(v, t, k, w, now, why, i))
    ensures var y := AccessSight(v, t, k, w, now, why, i);
            && y.th == Access(k, w, now, why, i) && s.torrents == v.torrents
            && Granted(s, AccessEffect(k, w, now, i)) && Plain(AccessEffect(k, w, now, i))
  {
  }

  /** As far as its i-th step. */
  lemma {:induction false} Accessing(cfg: Config, s0: State, s: State, t: Tid, k: Key, w: Wid, now: int, why: Purpose,
      v: Sight, i: nat) returns (s': State)
    requires i <= 6 && k in v.torrents && v.torrents[k] == w
    requires Leads(cfg, s0, s) && Sees(s, t, w, AccessSight(v, t, k, w, now, why, 0))
    ensures Leads(cfg, s0, s') && Sees(s', t, w, AccessSight(v, t, k, w, now, why, i))
    decreases i
  {
    hide *;
    s' := s;
    if i > 0 {
      var c := Choice(now, true, 0, k, 0, 0);
      s' := Accessing(cfg, s0, s, t, k, w, now, why, v, i - 1);
      AccessGranted(s', v, t, k, w, now, why, i - 1);
      AccessMove(cfg, s', k, w, c, why, i - 1);
      AccessNext(v, t, k, w, now, why, i - 1);
      s' := Does(cfg, s0, s', t, w, AccessSight(v, t, k, w, now, why, i - 1), c,
                 Access(k, w, now, why, i), AccessEffect(k, w, now, i - 1));
    }
  }

  /** The torrent is there, and its wrapper's lock is free. */
  ghost predicate Ready(s: State, t: Tid, th: Thread, k: Key, w: Wid) {
    && t in s.threads && s.threads[t] == th
    && k in s.torrents && s.torrents[k] == w && w in s.wrappers && s.wrappers[w].mu == FREE
  }

  /** Both records of the access hold the new time, and nothing else has changed of the torrent. */
  ghost predicate Refreshed(s: State, s': State, k: Key, w: Wid, now: int) {
    && s'.torrents == s.torrents && s'.lastAccessed == s.lastAccessed[k := now]
    && w in s.wrappers && w in s'.wrappers && s'.wrappers[w] == s.wrappers[w].(lastAccessed := now)
  }

  /** A call of GetTorrent that finds the torrent, at once or after waiting for `m.mu`, leaves its time
      in both places and gives back what it holds. */
  lemma FindingRefreshes(cfg: Config, s: State, t: Tid, k: Key, w: Wid, now: int) returns (s': State)
    requires Ready(s, t, GRLock(k), k, w) && s.mu == FREE
    ensures Leads(cfg, s, s') && Refreshed(s, s', k, w, now)
    ensures t in s'.threads && s'.threads[t] == Done && s'.mu == FREE && s'.sem == s.sem
  {
    var v := Sight(GRLock(k), s.torrents, s.lastAccessed, s.mu, s.sem, s.wrappers[w]);
    Stays(cfg, s);
    s' := FindsAtOnce(cfg, s, s, t, k, w, v, 3);
    s' := Accessing(cfg, s, s', t, k, w, now, Purpose.Fast, v, 6);
    hide Leads;
  }

  function Finding(k: Key, i: nat): Thread {
    match i
    case 0 => GRLock(k)
    case 1 => GLookup(k)
    case 2 => GRUnlock(k, true)
    case _ => UStamp(k, Purpose.Fast)
  }

  function FindingEffect(i: nat): Effect { if i == 0 then AcquireRead else if i == 2 then ReleaseRead else Tau }

  function FindingSight(v: Sight, t: Tid, k: Key, i: nat): Sight {
    v.(th := Finding(k, i), mu := if i in {1, 2} then RW(None, {t}) else FREE)
  }

  lemma FindingMove(cfg: Config, s: State, k: Key, c: Choice, i: nat)
    requires i < 3 && k in s.torrents
    ensures Advance(cfg, s, Finding(k, i), c) == Move(Finding(k, i + 1), FindingEffect(i))
  {
  }

  lemma FindingNext(v: Sight, t: Tid, k: Key, w: Wid, i: nat)
    requires i < 3
    ensures NextSight(FindingSight(v, t, k, i), t, w, Finding(k, i + 1), FindingEffect(i))
         == FindingSight(v, t, k, i + 1)
  {
    var none: set<Tid> := {};
    assert none + {t} == {t} && {t} - {t} == none;
  }

  lemma FindingGranted(s: State, v: Sight, t: Tid, k: Key, w: Wid, i: nat)
    requires i < 3 && Sees(s, t, w, FindingSight(v, t, k, i))
    ensures FindingSight(v, t, k, i).th == Finding(k, i) && s.torrents == v.torrents
    ensures Granted(s, FindingEffect(i)) && Plain(FindingEffect(i))
  {
  }

  lemma {:induction false} FindsAtOnce(cfg: Config, s0: State, s: State, t: Tid, k: Key, w: Wid, v: Sight, i: nat)
    returns (s': State)
    requires i <= 3 && k in v.torrents && v.torrents[k] == w
    requires Leads(cfg, s0, s) && Sees(s, t, w, FindingSight(v, t, k, 0))
    ensures Leads(cfg, s0, s') && Sees(s', t, w, FindingSight(v, t, k, i))
    decreases i
  {
    hide *;
    s' := s;
    if i > 0 {
      var c := Choice(0, true, 0, k, 0, 0);
      s' := FindsAtOnce(cfg, s0, s, t, k, w, v, i - 1);
      FindingGranted(s', v, t, k, w, i - 1);
      FindingMove(cfg, s', k, c, i - 1);
      FindingNext(v, t, k, w, i - 1);
      s' := Does(cfg, s0, s', t, w, FindingSight(v, t, k, i - 1), c, Finding(k, i), FindingEffect(i - 1));
    }
  }

  /** So does one that finds it only when it looks again with `m.mu` taken; it goes on to give back the
      lock and its slot. */
  lemma RecheckRefreshes(cfg: Config, s: State, t: Tid, k: Key, w: Wid, now: int) returns (s': State)
    requires Ready(s, t, GRecheck(k), k, w) && s.mu == RW(Some(t), {}) && s.sem > 0
    ensures Leads(cfg, s, s') && Refreshed(s, s', k, w, now)
    ensures t in s'.threads && s'.threads[t] == Done && s'.mu == FREE && s'.sem == s.sem - 1
  {
    var c := Choice(now, true, 0, k, 0, 0);
    var v := Sight(GRecheck(k), s.torrents, s.lastAccessed, s.mu, s.sem, s.wrappers[w]);
    Stays(cfg, s);
    assert Advance(cfg, s, v.th, c) == Move(UStamp(k, Recheck), Tau);
    hide Leads, Advance;
    s' := RecheckAccesses(cfg, s, s, t, k, w, c, v);
    s' := Leaving(cfg, s, s', t, k, w, AccessSight(v, t, k, w, now, Recheck, 6));
  }

  lemma RecheckAccesses(cfg: Config, s0: State, s: State, t: Tid, k: Key, w: Wid, c: Choice, v: Sight)
    returns (s': State)
    requires Leads(cfg, s0, s) && Sees(s, t, w, v) && v.wrapper.mu == FREE
    requires k in v.torrents && v.torrents[k] == w && Advance(cfg, s, v.th, c) == Move(UStamp(k, Recheck), Tau)
    ensures Leads(cfg, s0, s') && Sees(s', t, w, AccessSight(v, t, k, w, c.now, Recheck, 6))
  {
    Turns(v, t, w, UStamp(k, Recheck));
    assert AccessSight(v, t, k, w, c.now, Recheck, 0) == v.(th := UStamp(k, Recheck));
    hide Leads, Advance, NextSight, AccessSight, Sees;
    s' := Does(cfg, s0, s, t, w, v, c, UStamp(k, Recheck), Tau);
    s' := Accessing(cfg, s0, s', t, k, w, c.now, Recheck, v, 6);
  }

  lemma LeavingNext(v: Sight, t: Tid, k: Key, w: Wid)
    requires v.mu == RW(Some(t), {}) && v.sem > 0
    ensures var v1 := v.(th := GRelease(k), mu := FREE);
            && NextSight(v, t, w, GRelease(k), Release) == v1
            && NextSight(v1, t, w, Done, ReleaseSem) == v1.(th := Done, sem := v.sem - 1)
  {
  }

  lemma Leaving(cfg: Config, s0: State, s: State, t: Tid, k: Key, w: Wid, v: Sight) returns (s': State)
    requires Leads(cfg, s0, s) && Sees(s, t, w, v) && v.th == GUnlock(k) && v.mu == RW(Some(t), {}) && v.sem > 0
    ensures Leads(cfg, s0, s') && Sees(s', t, w, v.(th := Done, mu := FREE, sem := v.sem - 1))
  {
    var c := Choice(0, true, 0, k, 0, 0);
    LeavingNext(v, t, k, w);
    hide Leads, Sees, NextSight;
    s' := Does(cfg, s0, s, t, w, v, c, GRelease(k), Release);
    s' := Does(cfg, s0, s', t, w, v.(th := GRelease(k), mu := FREE), c, Done, ReleaseSem);
  }

  // ---- removeTorrent -------------------------------------------------------------------------

  function Removing(k: Key, w: Wid, i: nat): Thread {
    match i
    case 0 => RLock(k)
    case 1 => RFind(k)
    case 2 => RDelete(k, w)
    case 3 => RForget(k)
    case 4 => RUnlock
    case _ => Done
  }

  function RemovingEffect(k: Key, w: Wid, i: nat): Effect {
    match i
    case 0 => Acquire
    case 1 => Drop(w)
    case 2 => Delete(k)
    case 3 => Forget(k)
    case _ => Release
  }

  function RemovingSight(v: Sight, t: Tid, k: Key, w: Wid, i: nat): Sight {
    v.(th := Removing(k, w, i),
       mu := if 1 <= i <= 4 then RW(Some(t), {}) else FREE,
       torrents := if i > 2 then v.torrents - {k} else v.torrents,
       access := if i > 3 then v.access - {k} else v.access,
       wrapper := if i > 1 then v.wrapper.(drops := v.wrapper.drops + 1) else v.wrapper)
  }

  lemma RemovingMove(cfg: Config, s: State, k: Key, w: Wid, c: Choice, i: nat)
    requires i < 5 && (i == 1 ==> k in s.torrents && s.torrents[k] == w)
    ensures Advance(cfg, s, Removing(k, w, i), c) == Move(Removing(k, w, i + 1), RemovingEffect(k, w, i))
  {
  }

  lemma RemovingNext(v: Sight, t: Tid, k: Key, w: Wid, i: nat)
    requires i < 5
    ensures NextSight(RemovingSight(v, t, k, w, i), t, w, Removing(k, w, i + 1), RemovingEffect(k, w, i))
         == RemovingSight(v, t, k, w, i + 1)
  {
  }

  lemma RemovingGranted(s: State, v: Sight, t: Tid, k: Key, w: Wid, i: nat)
    requires i < 5 && Sees(s, t, w, RemovingSight(v, t, k, w, i))
    ensures RemovingSight(v, t, k, w, i).th == Removing(k, w, i) && (i < 3 ==> s.torrents == v.torrents)
    ensures Granted(s, RemovingEffect(k, w, i)) && Plain(RemovingEffect(k, w, i))
  {
  }

  lemma {:induction false} Removes(cfg: Config, s0: State, s: State, t: Tid, k: Key, w: Wid, v: Sight, i: nat)
    returns (s': State)
    requires i <= 5 && k in v.torrents && v.torrents[k] == w
    requires Leads(cfg, s0, s) && Sees(s, t, w, RemovingSight(v, t, k, w, 0))
    ensures Leads(cfg, s0, s') && Sees(s', t, w, RemovingSight(v, t, k, w, i))
    decreases i
  {
    hide *;
    s' := s;
    if i > 0 {
      var c := Choice(0, true, 0, k, 0, 0);
      s' := Removes(cfg, s0, s, t, k, w, v, i - 1);
      RemovingGranted(s', v, t, k, w, i - 1);
      RemovingMove(cfg, s', k, w, c, i - 1);
      RemovingNext(v, t, k, w, i - 1);
      s' := Does(cfg, s0, s', t, w, RemovingSight(v, t, k, w, i - 1), c,
                 Removing(k, w, i), RemovingEffect(k, w, i - 1));
    }
  }

  /** The torrent and its access time are gone, its wrapper has been dropped once more, and all others
      are as they were. */
  ghost predicate Gone(s: State, s': State, k: Key, w: Wid) {
    && s'.torrents == s.torrents - {k} && s'.lastAccessed == s.lastAccessed - {k}
    && w in s.wrappers && w in s'.wrappers && s'.wrappers[w] == s.wrappers[w].(drops := s.wrappers[w].drops + 1)
  }

  /** Who removes a torrent: a monitor whose download has taken too long, one that judges its torrent
      idle, or the wait for its info that has run out of time. */
  ghost predicate GivesUp(cfg: Config, th: Thread, w: Wid, k: Key, c: Choice) {
    || (th == MIdle(w, k) && c.pick == 1)
    || (th.MJudge? && th.w == w && th.k == k && c.yes && c.now - th.last > cfg.torrentTimeout * 2)
    || (th == IIdle(w, k) && !c.yes)
  }

  lemma GivingUpMove(cfg: Config, s: State, th: Thread, w: Wid, k: Key, c: Choice)
    requires GivesUp(cfg, th, w, k, c)
    ensures Advance(cfg, s, th, c) == Move(RLock(k), Tau)
  {
  }

  lemma Turns(v: Sight, t: Tid, w: Wid, next: Thread)
    ensures NextSight(v, t, w, next, Tau) == v.(th := next)
  {
  }

  lemma TauIsGranted(s: State)
    ensures Granted(s, Tau) && Plain(Tau)
  {
  }

  lemma RemovingFirst(v: Sight, t: Tid, k: Key, w: Wid)
    requires v.mu == FREE
    ensures RemovingSight(v, t, k, w, 0) == v.(th := RLock(k))
  {
  }

  /** It does remove it. */
  lemma GivingUpRemoves(cfg: Config, s: State, t: Tid, th: Thread, k: Key, w: Wid, c: Choice) returns (s': State)
    requires Ready(s, t, th, k, w) && s.mu == FREE && GivesUp(cfg, th, w, k, c)
    ensures Leads(cfg, s, s') && Gone(s, s', k, w) && t in s'.threads && s'.threads[t] == Done && s'.mu == FREE
  {
    var v := Sight(th, s.torrents, s.lastAccessed, s.mu, s.sem, s.wrappers[w]);
    Stays(cfg, s);
    GivingUpMove(cfg, s, th, w, k, c);
    Turns(v, t, w, RLock(k));
    RemovingFirst(v, t, k, w);
    hide Leads, Advance, GivesUp, NextSight;
    s' := Does(cfg, s, s, t, w, v, c, RLock(k), Tau);
    s' := Removes(cfg, s, s', t, k, w, v, 5);
  }

  // ---- infoReady -----------------------------------------------------------------------------

  function Closing(w: Wid, i: nat): Thread {
    match i
    case 0 => QLock(w)
    case 1 => QCheck(w)
    case 2 => QClose(w)
    case 3 => QUnlock(w)
    case _ => Done
  }

  function ClosingEffect(w: Wid, i: nat): Effect {
    match i
    case 0 => AcquireWrapper(w)
    case 2 => CloseReady(w)
    case 3 => ReleaseWrapper(w)
    case _ => Tau
  }

  function ClosingSight(v: Sight, t: Tid, w: Wid, i: nat): Sight {
    var x := v.wrapper.(mu := if 1 <= i <= 3 then RW(Some(t), {}) else FREE);
    v.(th := Closing(w, i), wrapper := if i > 2 then x.(ready := true, closes := v.wrapper.closes + 1) else x)
  }

  lemma ClosingMove(cfg: Config, s: State, w: Wid, c: Choice, i: nat)
    requires i < 4 && c.yes && w in s.wrappers && (i == 1 ==> !s.wrappers[w].ready)
    ensures Advance(cfg, s, Closing(w, i), c) == Move(Closing(w, i + 1), ClosingEffect(w, i))
  {
  }

  lemma ClosingNext(v: Sight, t: Tid, w: Wid, i: nat)
    requires i < 4
    ensures NextSight(ClosingSight(v, t, w, i), t, w, Closing(w, i + 1), ClosingEffect(w, i))
         == ClosingSight(v, t, w, i + 1)
  {
  }

  lemma ClosingGranted(s: State, v: Sight, t: Tid, w: Wid, i: nat)
    requires i < 4 && Sees(s, t, w, ClosingSight(v, t, w, i)) && !v.wrapper.ready
    ensures ClosingSight(v, t, w, i).th == Closing(w, i) && w in s.wrappers && (i == 1 ==> !s.wrappers[w].ready)
    ensures Granted(s, ClosingEffect(w, i)) && Plain(ClosingEffect(w, i))
  {
  }

  lemma {:induction false} Closes(cfg: Config, s0: State, s: State, t: Tid, w: Wid, v: Sight, i: nat)
    returns (s': State)
    requires i <= 4 && !v.wrapper.ready
    requires Leads(cfg, s0, s) && Sees(s, t, w, ClosingSight(v, t, w, 0))
    ensures Leads(cfg, s0, s') && Sees(s', t, w, ClosingSight(v, t, w, i))
    decreases i
  {
    hide *;
    s' := s;
    if i > 0 {
      var c := Choice(0, true, 0, "", 0, 0);
      s' := Closes(cfg, s0, s, t, w, v, i - 1);
      ClosingGranted(s', v, t, w, i - 1);
      ClosingMove(cfg, s', w, c, i - 1);
      ClosingNext(v, t, w, i - 1);
      s' := Does(cfg, s0, s', t, w, ClosingSight(v, t, w, i - 1), c, Closing(w, i), ClosingEffect(w, i - 1));
    }
  }

  /** Whoever learns that the info is there, be it the routine that waits for it or a call that does,
      announces it if nobody has. */
  lemma InfoArrives(cfg: Config, s: State, t: Tid, w: Wid, k: Key) returns (s': State)
    requires t in s.threads && s.threads[t] in {IIdle(w, k), WIdle(w)}
    requires w in s.wrappers && s.wrappers[w].mu == FREE && !s.wrappers[w].ready
    ensures Leads(cfg, s, s') && t in s'.threads && s'.threads[t] == Done
    ensures w in s'.wrappers && s'.wrappers[w] == s.wrappers[w].(ready := true, closes := s.wrappers[w].closes + 1)
  {
    var c := Choice(0, true, 0, "", 0, 0);
    var v := Sight(s.threads[t], s.torrents, s.lastAccessed, s.mu, s.sem, s.wrappers[w]);
    Stays(cfg, s);
    assert Advance(cfg, s, v.th, c) == Move(QLock(w), Tau);
    hide Leads, Advance;
    s' := ClosesAfter(cfg, s, s, t, w, v, c);
  }

  lemma ClosesAfter(cfg: Config, s0: State, s: State, t: Tid, w: Wid, v: Sight, c: Choice) returns (s': State)
    requires Leads(cfg, s0, s) && Sees(s, t, w, v) && v.wrapper.mu == FREE && !v.wrapper.ready
    requires Advance(cfg, s, v.th, c) == Move(QLock(w), Tau)
    ensures Leads(cfg, s0, s') && Sees(s', t, w, ClosingSight(v, t, w, 4))
  {
    Turns(v, t, w, QLock(w));
    TauIsGranted(s);
    assert ClosingSight(v, t, w, 0) == v.(th := QLock(w));
    hide *;
    s' := Does(cfg, s0, s, t, w, v, c, QLock(w), Tau);
    s' := Closes(cfg, s0, s', t, w, v, 4);
  }

  // ---- the monitor ---------------------------------------------------------------------------

  lemma WrapperIsGranted(s: State, t: Tid, w: Wid, v: Sight)
    requires Sees(s, t, w, v) && v.wrapper.mu == FREE
    ensures Granted(s, AcquireWrapper(w)) && Plain(AcquireWrapper(w))
  {
  }

  lemma StartsUpdate(cfg: Config, s0: State, s: State, t: Tid, w: Wid, k: Key, last: int, now: int, v: Sight)
    returns (s': State)
    requires Leads(cfg, s0, s) && Sees(s, t, w, v) && v.th == MJudge(w, k, last) && v.wrapper.mu == FREE
    requires now - last <= cfg.torrentTimeout * 2
    ensures Leads(cfg, s0, s')
    ensures Sees(s', t, w, v.(th := MWUnlock(w, k), wrapper := v.wrapper.(mu := RW(Some(t), {}))))
  {
    var c := Choice(now, true, 0, k, 0, 0);
    UpdatingNext(v, t, w, k, last);
    hide *;
    UpdatingMove(cfg, s, c, w, k, last);
    TauIsGranted(s);
    s' := Does(cfg, s0, s, t, w, v, c, MWLock(w, k), Tau);
    UpdatingMove(cfg, s', c, w, k, last);
    WrapperIsGranted(s', t, w, v.(th := MWLock(w, k)));
    s' := Does(cfg, s0, s', t, w, v.(th := MWLock(w, k)), c, MWUnlock(w, k), AcquireWrapper(w));
  }

  /** A monitor that finds its torrent fresh takes the wrapper's lock to update its priorities, and goes
      back to waiting. */
  lemma FreshMonitorUpdates(cfg: Config, s: State, t: Tid, w: Wid, k: Key, last: int, now: int)
    returns (s1: State, s2: State)
    requires t in s.threads && s.threads[t] == MJudge(w, k, last) && now - last <= cfg.torrentTimeout * 2
    requires w in s.wrappers && s.wrappers[w].mu == FREE
    ensures Leads(cfg, s, s1) && Leads(cfg, s, s2)
    ensures t in s1.threads && HoldsWrapper(s1.threads[t]) == Some(w)
    ensures t in s2.threads && s2.threads[t] == MIdle(w, k) && w in s2.wrappers && s2.wrappers[w] == s.wrappers[w]
  {
    var c := Choice(now, true, 0, k, 0, 0);
    var v := Sight(MJudge(w, k, last), s.torrents, s.lastAccessed, s.mu, s.sem, s.wrappers[w]);
    Stays(cfg, s);
    s1 := StartsUpdate(cfg, s, s, t, w, k, last, now, v);
    UpdatingNext(v, t, w, k, last);
    UpdatingMove(cfg, s1, c, w, k, last);
    hide Leads, NextSight, Advance;
    s2 := Does(cfg, s, s1, t, w, v.(th := MWUnlock(w, k), wrapper := v.wrapper.(mu := RW(Some(t), {}))), c,
               MIdle(w, k), ReleaseWrapper(w));
  }

  lemma UpdatingMove(cfg: Config, s: State, c: Choice, w: Wid, k: Key, last: int)
    requires c.now - last <= cfg.torrentTimeout * 2 && c.pick == 0
    ensures Advance(cfg, s, MJudge(w, k, last), c) == Move(MWLock(w, k), Tau)
    ensures Advance(cfg, s, MWLock(w, k), c) == Move(MWUnlock(w, k), AcquireWrapper(w))
    ensures Advance(cfg, s, MWUnlock(w, k), c) == Move(MIdle(w, k), ReleaseWrapper(w))
  {
  }

  lemma UpdatingNext(v: Sight, t: Tid, w: Wid, k: Key, last: int)
    requires v.wrapper.mu == FREE
    ensures var v1 := v.(th := MWLock(w, k));
            var v2 := v.(th := MWUnlock(w, k), wrapper := v.wrapper.(mu := RW(Some(t), {})));
            && NextSight(v, t, w, MWLock(w, k), Tau) == v1
            && NextSight(v1, t, w, MWUnlock(w, k), AcquireWrapper(w)) == v2
            && NextSight(v2, t, w, MIdle(w, k), ReleaseWrapper(w)) == v.(th := MIdle(w, k))
  {
  }

  function Watching(w: Wid, k: Key, last: int, i: nat): Thread {
    match i
    case 0 => MIdle(w, k)
    case 1 => MRLock(w, k)
    case 2 => MLookup(w, k)
    case 3 => MRUnlock(w, k, true)
    case 4 => MWRLock(w, k)
    case 5 => MRead(w, k)
    case 6 => MWRUnlock(w, k, last)
    case _ => MJudge(w, k, last)
  }

  function WatchingEffect(w: Wid, i: nat): Effect {
    match i
    case 1 => AcquireRead
    case 3 => ReleaseRead
    case 4 => AcquireWrapperRead(w)
    case 6 => ReleaseWrapperRead(w)
    case _ => Tau
  }

  function WatchingSight(v: Sight, t: Tid, w: Wid, k: Key, i: nat): Sight {
    v.(th := Watching(w, k, v.wrapper.lastAccessed, i),
       mu := if i in {2, 3} then RW(None, {t}) else FREE,
       wrapper := v.wrapper.(mu := if i in {5, 6} then RW(None, {t}) else FREE))
  }

  lemma WatchingMove(cfg: Config, s: State, w: Wid, k: Key, c: Choice, last: int, i: nat)
    requires i < 7 && c.pick == 0 && k in s.torrents && w in s.wrappers && s.wrappers[w].lastAccessed == last
    ensures Advance(cfg, s, Watching(w, k, last, i), c) == Move(Watching(w, k, last, i + 1), WatchingEffect(w, i))
  {
  }

  lemma WatchingNext(v: Sight, t: Tid, w: Wid, k: Key, i: nat)
    requires i < 7
    ensures NextSight(WatchingSight(v, t, w, k, i), t, w,
                      Watching(w, k, v.wrapper.lastAccessed, i + 1), WatchingEffect(w, i))
         == WatchingSight(v, t, w, k, i + 1)
  {
    var none: set<Tid> := {};
    assert none + {t} == {t} && {t} - {t} == none;
  }

  lemma WatchingGranted(s: State, v: Sight, t: Tid, w: Wid, k: Key, i: nat)
    requires i < 7 && Sees(s, t, w, WatchingSight(v, t, w, k, i))
    ensures WatchingSight(v, t, w, k, i).th == Watching(w, k, v.wrapper.lastAccessed, i) && s.torrents == v.torrents
    ensures w in s.wrappers && s.wrappers[w].lastAccessed == v.wrapper.lastAccessed
    ensures Granted(s, WatchingEffect(w, i)) && Plain(WatchingEffect(w, i))
  {
  }

  lemma {:induction false} Watches(cfg: Config, s0: State, s: State, t: Tid, w: Wid, k: Key, v: Sight, i: nat)
    returns (s': State)
    requires i <= 7 && k in v.torrents
    requires Leads(cfg, s0, s) && Sees(s, t, w, WatchingSight(v, t, w, k, 0))
    ensures Leads(cfg, s0, s') && Sees(s', t, w, WatchingSight(v, t, w, k, i))
    decreases i
  {
    hide *;
    s' := s;
    if i > 0 {
      var c := Choice(0, true, 0, k, 0, 0);
      s' := Watches(cfg, s0, s, t, w, k, v, i - 1);
      WatchingGranted(s', v, t, w, k, i - 1);
      WatchingMove(cfg, s', w, k, c, v.wrapper.lastAccessed, i - 1);
      WatchingNext(v, t, w, k, i - 1);
      s' := Does(cfg, s0, s', t, w, WatchingSight(v, t, w, k, i - 1), c,
                 Watching(w, k, v.wrapper.lastAccessed, i), WatchingEffect(w, i - 1));
    }
  }

  /** At a tick a monitor whose torrent is there gets to judge the access time of its wrapper, with
      every lock given back. */
  lemma TickLeadsToJudgement(cfg: Config, s: State, t: Tid, k: Key, w: Wid) returns (s': State)
    requires Ready(s, t, MIdle(w, k), k, w) && s.mu == FREE
    ensures Leads(cfg, s, s') && t in s'.threads && s'.threads[t] == MJudge(w, k, s.wrappers[w].lastAccessed)
    ensures s'.mu == FREE && w in s'.wrappers && s'.wrappers[w] == s.wrappers[w] && s'.torrents == s.torrents
  {
    var v := Sight(MIdle(w, k), s.torrents, s.lastAccessed, s.mu, s.sem, s.wrappers[w]);
    Stays(cfg, s);
    hide Leads;
    s' := Watches(cfg, s, s, t, w, k, v, 7);
  }
}
