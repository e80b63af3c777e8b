/**
  What the fast path of GetTorrent can leave behind.  It stamps the access time of a torrent without
  holding `m.mu`; if the torrent is removed in between, the time stays in the map without a torrent,
  and as the cleanup visits torrents only, nothing takes it out again.
 */
module ManagerOrphans {
  import opened Types
  import opened Wrappers
  import opened Manager
  import opened ManagerProofs
  import opened ManagerRuns

  /** About to take the access time of a torrent out. */
  predicate Forgets(th: Thread, k: Key) {
    (th.RDelete? || th.RForget? || th.CDelete? || th.CForget?) && th.k == k
  }

  /** An access time without a torrent, and nobody on the way to remove it. */
  ghost predicate Orphan(s: State, k: Key) {
    && k !in s.torrents
    && k in s.lastAccessed
    && forall t | t in s.threads :: !Forgets(s.threads[t], k)
  }

  // ---- it stays ------------------------------------------------------------------------------

  lemma MoveForgets(cfg: Config, s: State, th: Thread, c: Choice, k: Key)
    requires !Forgets(th, k)
    ensures var m := Advance(cfg, s, th, c); m.Move? ==> m.effect != Forget(k)
  {
    if !(th.RForget? || th.CForget?) {
      OthersDoNotForget(cfg, s, th, c);
      hide Advance;
    }
  }

  lemma OthersDoNotForget(cfg: Config, s: State, th: Thread, c: Choice)
    requires !(th.RForget? || th.CForget?)
    ensures var m := Advance(cfg, s, th, c); m.Move? ==> !m.effect.Forget?
  {
  }

  lemma MoveKeepsOrphan(cfg: Config, s: State, th: Thread, c: Choice, k: Key)
    requires k !in s.torrents && !Forgets(th, k)
    ensures var m := Advance(cfg, s, th, c); m.Move? ==> !Forgets(m.next, k)
  {
    if !(th.RFind? || th.RDelete? || th.CLoop? || th.CDelete?) {
      OthersForgetNothing(cfg, s, th, c, k);
      hide Advance;
    }
  }

  lemma OthersForgetNothing(cfg: Config, s: State, th: Thread, c: Choice, k: Key)
    requires !(th.RFind? || th.RDelete? || th.CLoop? || th.CDelete?)
    ensures var m := Advance(cfg, s, th, c); m.Move? ==> !Forgets(m.next, k)
  {
  }

  lemma NextKeepsOrphan(cfg: Config, s: State, e: Event, k: Key)
    requires Orphan(s, k) && Possible(cfg, s, e) && k !in Next(cfg, s, e).torrents
    ensures Orphan(Next(cfg, s, e), k)
  {
    match e
    case Call(t, start) =>
    case Go(t, c) =>
      MoveKeepsOrphan(cfg, s, s.threads[t], c, k);
      MoveForgets(cfg, s, s.threads[t], c, k);
      var m := Advance(cfg, s, s.threads[t], c);
      hide Advance, Forgets, NextWrappers;
      assert !Forgets(s.threads[t], k);
      MonitorsForgetNothing(m.effect, k);
  }

  lemma MonitorsForgetNothing(e: Effect, k: Key)
    ensures e.Spawn? ==> !Forgets(MIdle(e.w, e.k), k)
  {
  }

  /** All through a run a torrent is not in the map. */
  predicate Unadded(cfg: Config, s: State, events: seq<Event>, k: Key)
    requires IsRun(cfg, s, events)
    decreases |events|
  {
    k !in s.torrents && (events != [] ==> Unadded(cfg, Next(cfg, s, events[0]), events[1..], k))
  }

  /** No call, no monitor and no cleanup tick ever takes it out, in any interleaving, unless the torrent
      is added again. */
  lemma {:induction false} OrphansStay(cfg: Config, s: State, events: seq<Event>, k: Key)
    requires Orphan(s, k) && IsRun(cfg, s, events) && Unadded(cfg, s, events, k)
    ensures Orphan(Run(cfg, s, events), k)
    decreases |events|
  {
    if events != [] {
      hide Next, Possible, Orphan;
      NextKeepsOrphan(cfg, s, events[0], k);
      OrphansStay(cfg, Next(cfg, s, events[0]), events[1..], k);
    }
  }

  // ---- it comes about ------------------------------------------------------------------------

  datatype View = View(torrents: map<Key, Wid>, access: map<Key, int>, mu: RW)

  /** Two threads and what they share. */
  ghost predicate Shows(s: State, t: Tid, x: Thread, u: Tid, y: Thread, v: View) {
    && t != u && t in s.threads && u in s.threads && s.threads[t] == x && s.threads[u] == y
    && s.torrents == v.torrents && s.lastAccessed == v.access && s.mu == v.mu
  }

  function NextView(v: View, t: Tid, e: Effect): View {
    View(NextTorrents(v.torrents, e), NextAccess(v.access, e), NextMu(v.mu, t, e))
  }

  lemma Moves(cfg: Config, s0: State, s: State, t: Tid, u: Tid, x: Thread, y: Thread, v: View,
      c: Choice, next: Thread, e: Effect) returns (s': State)
    requires Leads(cfg, s0, s) && Shows(s, t, x, u, y, v)
    requires Advance(cfg, s, x, c) == Move(next, e) && Granted(s, e) && !e.Spawn?
    ensures Leads(cfg, s0, s') && Shows(s', t, next, u, y, NextView(v, t, e))
  {
    assert Possible(cfg, s, Go(t, c));
    s' := Next(cfg, s, Go(t, c));
    hide Advance, Leads, NextTorrents, NextAccess, NextMu, NextWrappers;
    LeadsOn(cfg, s0, s, Go(t, c));
  }

  lemma Starting(cfg: Config, s0: State, s: State, t: Tid, u: Tid, x: Thread, y: Thread)
    returns (s': State)
    requires Leads(cfg, s0, s) && t !in s.threads && u !in s.threads && t != u
    requires (x.GRLock? || x.CIdle?) && (y.GRLock? || y.CIdle?)
    ensures Leads(cfg, s0, s') && Shows(s', t, x, u, y, View(s.torrents, s.lastAccessed, s.mu))
  {
    var s1 := Next(cfg, s, Call(t, x));
    LeadsOn(cfg, s0, s, Call(t, x));
    s' := Next(cfg, s1, Call(u, y));
    LeadsOn(cfg, s0, s1, Call(u, y));
    hide Leads;
  }

  // The fast path of GetTorrent: stages 0 to 3 find the torrent, 3 to 6 stamp its access time after it
  // has gone.

  function Fast(k: Key, now: int, i: nat): Thread {
    match i
    case 0 => GRLock(k)
    case 1 => GLookup(k)
    case 2 => GRUnlock(k, true)
    case 3 => UStamp(k, Purpose.Fast)
    case 4 => UStore(k, now, Purpose.Fast)
    case 5 => UFind(k, now, Purpose.Fast)
    case _ => Done
  }

  function FastEffect(k: Key, now: int, i: nat): Effect {
    match i
    case 0 => AcquireRead
    case 2 => ReleaseRead
    case 4 => Store(k, now)
    case _ => Tau
  }

  function FastView(v: View, t: Tid, k: Key, now: int, i: nat): View {
    if i in {1, 2} then v.(mu := RW(None, {t})) else if i > 4 then v.(access := v.access[k := now]) else v
  }

  lemma FastMoves(cfg: Config, s: State, k: Key, c: Choice, i: nat)
    requires i < 6 && (i < 3 ==> k in s.torrents) && (i == 5 ==> k !in s.torrents)
    ensures Advance(cfg, s, Fast(k, c.now, i), c) == Move(Fast(k, c.now, i + 1), FastEffect(k, c.now, i))
  {
  }

  lemma FastNext(v: View, t: Tid, k: Key, now: int, i: nat)
    requires v.mu == FREE
    ensures FastView(v, t, k, now, i + 1) == NextView(FastView(v, t, k, now, i), t, FastEffect(k, now, i))
    ensures FastView(v, t, k, now, i).torrents == v.torrents && FastView(v, t, k, now, i).mu.writer.None?
  {
    var nobody: set<Tid> := {};
    assert nobody + {t} == {t} && {t} - {t} == nobody;
  }

  lemma FastGranted(s: State, t: Tid, u: Tid, k: Key, now: int, v: View, i: nat)
    requires v.mu == FREE && i < 6 && Shows(s, t, Fast(k, now, i), u, CIdle, FastView(v, t, k, now, i))
    ensures Granted(s, FastEffect(k, now, i)) && !FastEffect(k, now, i).Spawn? && s.torrents == v.torrents
  {
  }

  lemma {:induction false} Stamps(cfg: Config, s0: State, s: State, t: Tid, u: Tid, k: Key, now: int, v: View,
      from: nat, i: nat) returns (s': State)
    requires v.mu == FREE && from <= i <= 6
    requires (from < 3 ==> i <= 3 && k in v.torrents) && (i == 6 ==> k !in v.torrents)
    requires Leads(cfg, s0, s) && Shows(s, t, Fast(k, now, from), u, CIdle, FastView(v, t, k, now, from))
    ensures Leads(cfg, s0, s') && Shows(s', t, Fast(k, now, i), u, CIdle, FastView(v, t, k, now, i))
    decreases i
  {
    hide *;
    s' := s;
    if i > from {
      var c := Choice(now, true, 0, k, 0, 0);
      s' := Stamps(cfg, s0, s, t, u, k, now, v, from, i - 1);
      FastNext(v, t, k, now, i - 1);
      FastGranted(s', t, u, k, now, v, i - 1);
      FastMoves(cfg, s', k, c, i - 1);
      s' := Moves(cfg, s0, s', t, u, Fast(k, now, i - 1), CIdle, FastView(v, t, k, now, i - 1), c,
                  Fast(k, now, i), FastEffect(k, now, i - 1));
    }
  }

  // A cleanup tick that finds the one torrent there is, and finds it idle.

  function Tick(k: Key, w: Wid, i: nat): Thread {
    match i
    case 0 => CIdle
    case 1 => CLock
    case 2 => CBegin
    case 3 => CLoop({k}, map[])
    case 4 => CDelete(k, w, {}, map[])
    case 5 => CForget(k, {}, map[])
    case 6 => CLoop({}, map[])
    case _ => CIdle
  }

  function TickEffect(k: Key, w: Wid, i: nat): Effect {
    match i
    case 1 => Acquire
    case 3 => Drop(w)
    case 4 => Delete(k)
    case 5 => Forget(k)
    case 6 => Release
    case _ => Tau
  }

  function TickView(v: View, u: Tid, k: Key, i: nat): View {
    View(if i > 4 then v.torrents - {k} else v.torrents, if i > 5 then v.access - {k} else v.access,
         if 2 <= i <= 6 then RW(Some(u), {}) else FREE)
  }

  lemma TickMoves(cfg: Config, s: State, k: Key, w: Wid, c: Choice, i: nat)
    requires i < 7 && c.key == k
    requires i < 5 ==> s.torrents == map[k := w]
    requires i < 5 ==> k in s.lastAccessed && c.now - s.lastAccessed[k] > cfg.torrentTimeout * 2
    ensures Advance(cfg, s, Tick(k, w, i), c) == Move(Tick(k, w, i + 1), TickEffect(k, w, i))
  {
    assert {k} - {k} == {};
    assert s.torrents == map[k := w] ==> s.torrents.Keys == {k};
  }

  lemma TickNext(v: View, u: Tid, k: Key, w: Wid, i: nat)
    requires v.mu == FREE && i < 7
    ensures TickView(v, u, k, i + 1) == NextView(TickView(v, u, k, i), u, TickEffect(k, w, i))
    ensures TickEffect(k, w, i).Acquire? ==> TickView(v, u, k, i).mu == FREE
  {
  }

  lemma TickGranted(cfg: Config, s: State, t: Tid, u: Tid, k: Key, w: Wid, v: View, x: Thread, i: nat)
    requires v.mu == FREE && i < 7 && Shows(s, u, Tick(k, w, i), t, x, TickView(v, u, k, i))
    ensures Granted(s, TickEffect(k, w, i)) && !TickEffect(k, w, i).Spawn?
    ensures i < 5 ==> s.torrents == v.torrents && s.lastAccessed == v.access
  {
  }

  lemma {:induction false} Removes(cfg: Config, s0: State, s: State, t: Tid, u: Tid, k: Key, w: Wid, now: int, v: View,
      x: Thread, i: nat) returns (s': State)
    requires i <= 7 && v.mu == FREE && v.torrents == map[k := w]
    requires k in v.access && now - v.access[k] > cfg.torrentTimeout * 2
    requires Leads(cfg, s0, s) && Shows(s, u, CIdle, t, x, v)
    ensures Leads(cfg, s0, s') && Shows(s', u, Tick(k, w, i), t, x, TickView(v, u, k, i))
  {
    s' := s;
    if i > 0 {
      hide *;
      var c := Choice(now, true, 0, k, 0, 0);
      s' := Removes(cfg, s0, s, t, u, k, w, now, v, x, i - 1);
      TickNext(v, u, k, w, i - 1);
      TickGranted(cfg, s', t, u, k, w, v, x, i - 1);
      TickMoves(cfg, s', k, w, c, i - 1);
      s' := Moves(cfg, s0, s', u, t, Tick(k, w, i - 1), x, TickView(v, u, k, i - 1), c,
                  Tick(k, w, i), TickEffect(k, w, i - 1));
    }
  }

  /** Whoever is about to take a time out holds `m.mu`. */
  lemma NobodyForgets(s: State, k: Key)
    requires WriterInv(s) && s.mu.writer.None?
    ensures forall t | t in s.threads :: !Forgets(s.threads[t], k)
  {
  }

  /** From the start, with one torrent, one fast call and one tick in between: the torrent has gone, every
      lock is free, and its access time is there for good. */
  lemma FastPathLeavesOrphan(cfg: Config, k: Key) returns (s: State)
    requires cfg.maxConcurrentTorrents > 0
    ensures Leads(cfg, INITIAL, s) && Orphan(s, k) && s.mu == FREE && s.torrents == map[]
    ensures forall events | IsRun(cfg, s, events) && Unadded(cfg, s, events, k) :: k in Run(cfg, s, events).lastAccessed
  {
    s := OneTorrent(cfg, k);
    var w, last := s.torrents[k], s.lastAccessed[k];
    var now := last + 2 * cfg.torrentTimeout + 1;
    var v := View(s.torrents, s.lastAccessed, FREE);
    var t := FreshId(s.threads.Keys);
    var u := t + 1;
    s := Starting(cfg, INITIAL, s, t, u, GRLock(k), CIdle);
    s := Stamps(cfg, INITIAL, s, t, u, k, now, v, 0, 3);
    assert Shows(s, u, CIdle, t, Fast(k, now, 3), v);
    s := Removes(cfg, INITIAL, s, t, u, k, w, now, v, Fast(k, now, 3), 7);
    var v' := TickView(v, u, k, 7);
    assert Shows(s, t, Fast(k, now, 3), u, CIdle, v');
    s := Stamps(cfg, INITIAL, s, t, u, k, now, v', 3, 6);
    hide Leads, Advance;
    Ends(cfg, s, k);
    forall events | IsRun(cfg, s, events) && Unadded(cfg, s, events, k)
      ensures k in Run(cfg, s, events).lastAccessed
    {
      OrphansStay(cfg, s, events, k);
    }
  }

  lemma Ends(cfg: Config, s: State, k: Key)
    requires Leads(cfg, INITIAL, s) && s.mu == FREE && k !in s.torrents && k in s.lastAccessed
    ensures Orphan(s, k)
  {
    var events :| IsRun(cfg, INITIAL, events) && Run(cfg, INITIAL, events) == s;
    Reachable(cfg, events);
    assert LockInv(s);
    NobodyForgets(s, k);
    hide Forgets, Inv;
  }

  lemma OneTorrent(cfg: Config, k: Key) returns (s: State)
    requires cfg.maxConcurrentTorrents > 0
    ensures Leads(cfg, INITIAL, s) && s.mu == FREE && k in s.lastAccessed
    ensures k in s.torrents && s.torrents == map[k := s.torrents[k]]
  {
    s := AddsOne(cfg, INITIAL, k);
    var events :| IsRun(cfg, INITIAL, events) && Run(cfg, INITIAL, events) == s;
    LifeCycle(cfg, events);
    hide *;
    assert s.torrents.Keys == {k};
  }
}
