/**
  Download priorities of the pieces of a torrent: a window around the playback position, recomputed
  over and over, with a call to the client only where a priority changes.
 */
module Pieces {

  datatype Priority = Normal | High | Now {
    function Rank(): nat {
      match this
      case Normal => 0
      case High => 1
      case Now => 2
    }
  }

  const WINDOW := 50

  function Abs(x: real): real { if x < 0.0 then -x else x }

  /** How far a piece is from the playback position, both as fractions of the whole. */
  function Distance(i: nat, pieces: nat, done: nat, total: nat): real
    requires pieces > 0 && total > 0
  {
    Abs(i as real / pieces as real - done as real / total as real)
  }

  /** The priority a piece should have.  Nothing compares below a distance that is not a number, which
      is what an empty torrent yields. */
  function Wanted(i: nat, pieces: nat, done: nat, total: nat): Priority
    requires pieces > 0
  {
    if total == 0 then Normal
    else if Distance(i, pieces, done, total) < WINDOW as real / pieces as real then Now
    else if Distance(i, pieces, done, total) < (WINDOW * 2) as real / pieces as real then High
    else Normal
  }

  /** A nearer piece never gets a lower priority than a farther one. */
  lemma NearerIsNotLower(i: nat, j: nat, pieces: nat, done: nat, total: nat)
    requires pieces > 0 && total > 0
    requires Distance(i, pieces, done, total) <= Distance(j, pieces, done, total)
    ensures Wanted(i, pieces, done, total).Rank() >= Wanted(j, pieces, done, total).Rank()
  {
  }

  // ---- how many pieces are in a window -------------------------------------------------------

  lemma {:induction false} IntervalSize(s: set<nat>, low: int, n: nat)
    requires forall i | i in s :: low <= i < low + n
    ensures |s| <= n
  {
    if n == 0 {
      assert s == {};
    } else {
      var top := low + n - 1;
      if top >= 0 {
        IntervalSize(s - {top}, low, n - 1);
      } else {
        assert s == {};
      }
    }
  }

  /** Scaling a distance of fractions to a distance of places. */
  lemma Scaled(i: nat, pieces: nat, done: nat, total: nat, width: nat)
    requires pieces > 0 && total > 0
    requires Distance(i, pieces, done, total) < width as real / pieces as real
    ensures var x := done as real / total as real * pieces as real;
            x - width as real < i as real < x + width as real
  {
    ScaledReals(i as real, done as real / total as real, pieces as real, width as real);
  }

  lemma ScaledReals(i: real, q: real, n: real, width: real)
    requires n > 0.0 && Abs(i / n - q) < width / n
    ensures q * n - width < i < q * n + width
  {
    var f, w := i / n, width / n;
    assert f * n == i && w * n == width;
    Multiply(f - q, w, n);
    Multiply(q - f, w, n);
    assert (f - q) * n == f * n - q * n;
    assert (q - f) * n == q * n - f * n;
  }

  lemma Multiply(a: real, b: real, n: real)
    requires n > 0.0 && a < b
    ensures a * n < b * n
  {
  }

  /** At most 2 * width pieces are closer than width places. */
  lemma WindowSize(s: set<nat>, pieces: nat, done: nat, total: nat, width: nat)
    requires pieces > 0 && total > 0
    requires forall i | i in s :: Distance(i, pieces, done, total) < width as real / pieces as real
    ensures |s| <= 2 * width
  {
    var x := done as real / total as real * pieces as real;
    var low := (x - width as real).Floor + 1;
    forall i | i in s ensures low <= i < low + 2 * width {
      Scaled(i, pieces, done, total, width);
    }
    IntervalSize(s, low, 2 * width);
  }

  /** A distance of fractions against a width, in whole numbers. */
  lemma DistanceInPlaces(i: nat, pieces: nat, done: nat, total: nat, width: nat)
    requires pieces > 0 && total > 0
    ensures Distance(i, pieces, done, total) < width as real / pieces as real
            <==> 0 - width * total < i * total - done * pieces < width * total
  {
    InWhole(i, total, done, pieces, width);
    FractionsInPlaces(i as real, done as real, width as real, pieces as real, total as real);
  }

  /** A fraction scaled to whole numbers. */
  function Scaling(x: real, p: real, t: real): real { x * p * t }

  lemma FractionsInPlaces(i: real, d: real, width: real, p: real, t: real)
    requires p > 0.0 && t > 0.0
    ensures Abs(i / p - d / t) < width / p <==> -(width * t) < i * t - d * p < width * t
  {
    var f, q, w := i / p, d / t, width / p;
    assert f * p == i && q * t == d && w * p == width;
    Spread(f, q, w, p, t, i, d, width);
    Scale(f - q, w, p, t);
    Scale(-w, f - q, p, t);
    hide Scaling;
    Within(f - q, w, Scaling(f - q, p, t), Scaling(w, p, t), Scaling(-w, p, t), i * t - d * p, width * t);
  }

  lemma Within(x: real, w: real, scaled: real, wide: real, low: real, ahead: real, reach: real)
    requires (x < w <==> scaled < wide) && (-w < x <==> low < scaled)
    requires scaled == ahead && wide == reach && low == -reach
    ensures Abs(x) < w <==> -reach < ahead < reach
  {
  }

  lemma Spread(f: real, q: real, w: real, p: real, t: real, i: real, d: real, width: real)
    requires f * p == i && q * t == d && w * p == width
    ensures Scaling(f - q, p, t) == i * t - d * p
    ensures Scaling(w, p, t) == width * t && Scaling(-w, p, t) == -(width * t)
  {
    var g := q * p;
    assert (f - q) * p == i - g;
    assert g * t == d * p by {
      Swap(q, p, t);
    }
    assert (i - g) * t == i * t - g * t;
    assert (-w) * p == -width;
    assert (-width) * t == -(width * t);
  }

  lemma Swap(a: real, b: real, c: real)
    ensures (a * b) * c == (a * c) * b
  {
  }

  lemma Scale(a: real, b: real, p: real, t: real)
    requires p > 0.0 && t > 0.0
    ensures a < b <==> Scaling(a, p, t) < Scaling(b, p, t)
  {
    if a < b {
      ScaleUp(a, b, p, t);
    } else if b < a {
      ScaleUp(b, a, p, t);
    }
    hide Scaling;
  }

  lemma ScaleUp(a: real, b: real, p: real, t: real)
    requires p > 0.0 && t > 0.0 && a < b
    ensures Scaling(a, p, t) < Scaling(b, p, t)
  {
    var x, y := a * p, b * p;
    assert x < y by {
      Multiply(a, b, p);
    }
    Multiply(x, y, t);
  }

  lemma InWhole(i: int, total: int, done: int, pieces: int, width: int)
    ensures (i * total) as real == i as real * total as real
    ensures (done * pieces) as real == done as real * pieces as real
    ensures (width * total) as real == width as real * total as real
  {
  }

  /** The windows in whole numbers: Now within fifty pieces of the playback position, High within a
      hundred, Normal beyond, and in a torrent without bytes. */
  lemma WantedInPlaces(i: nat, pieces: nat, done: nat, total: nat)
    requires pieces > 0
    ensures var ahead := i * total - done * pieces;
            Wanted(i, pieces, done, total) ==
            if -50 * total < ahead < 50 * total then Now
            else if -100 * total < ahead < 100 * total then High
            else Normal
  {
    if total > 0 {
      DistanceInPlaces(i, pieces, done, total, 50);
      DistanceInPlaces(i, pieces, done, total, 100);
      hide Distance;
    }
  }

  // ---- one pass ------------------------------------------------------------------------------

  /** What a pass looks at besides the priorities themselves. */
  datatype View = View(complete: seq<bool>, done: nat, total: nat)

  /** The priorities after a pass: a complete piece keeps the one it has. */
  function Pass(stats: seq<Priority>, v: View): (r: seq<Priority>)
    requires |v.complete| == |stats|
    ensures |r| == |stats|
  {
    seq(|stats|, i requires 0 <= i < |stats| =>
      if v.complete[i] then stats[i] else Wanted(i, |stats|, v.done, v.total))
  }

  /** The calls a pass makes, over the first n pieces. */
  function Calls(stats: seq<Priority>, v: View, n: nat): seq<(nat, Priority)>
    requires |v.complete| == |stats| && n <= |stats|
  {
    if n == 0 then []
    else
      var i := n - 1;
      var wanted := Wanted(i, |stats|, v.done, v.total);
      Calls(stats, v, i) + if v.complete[i] || wanted == stats[i] then [] else [(i, wanted)]
  }

  /** After a pass every incomplete piece has the priority of its window, and a complete one the one it
      had. */
  lemma PassInPlaces(stats: seq<Priority>, v: View, i: nat)
    requires |v.complete| == |stats| && i < |stats|
    ensures var ahead := i * v.total - v.done * |stats|;
            Pass(stats, v)[i] ==
            if v.complete[i] then stats[i]
            else if -50 * v.total < ahead < 50 * v.total then Now
            else if -100 * v.total < ahead < 100 * v.total then High
            else Normal
  {
    WantedInPlaces(i, |stats|, v.done, v.total);
    hide Wanted;
  }

  /** The calls of a pass are about exactly the pieces whose priority it changes, with the new one. */
  lemma {:induction false} CallsAreChanges(stats: seq<Priority>, v: View, n: nat, c: (nat, Priority))
    requires |v.complete| == |stats| && n <= |stats|
    ensures c in Calls(stats, v, n) <==>
            c.0 < n && Pass(stats, v)[c.0] != stats[c.0] && c.1 == Pass(stats, v)[c.0]
  {
    hide Wanted;
    if n > 0 {
      CallsAreChanges(stats, v, n - 1, c);
    }
  }

  /** After a pass an incomplete piece ranks no lower than an incomplete piece farther away. */
  lemma PassRanksByDistance(stats: seq<Priority>, v: View, i: nat, j: nat)
    requires |v.complete| == |stats| && i < |stats| && j < |stats|
    requires !v.complete[i] && !v.complete[j] && v.total > 0
    requires Distance(i, |stats|, v.done, v.total) <= Distance(j, |stats|, v.done, v.total)
    ensures Pass(stats, v)[i].Rank() >= Pass(stats, v)[j].Rank()
  {
    NearerIsNotLower(i, j, |stats|, v.done, v.total);
    hide Wanted;
  }

  /** A second pass with nothing changed issues no call and changes nothing. */
  lemma {:induction false} SecondPassIsSilent(stats: seq<Priority>, v: View, n: nat)
    requires |v.complete| == |stats| && n <= |stats|
    ensures Calls(Pass(stats, v), v, n) == []
    ensures Pass(Pass(stats, v), v) == Pass(stats, v)
  {
    hide Wanted;
    if n > 0 {
      SecondPassIsSilent(stats, v, n - 1);
    }
  }

  /** After a pass at most 100 incomplete pieces are Now and at most 200 are Now or High. */
  lemma PassBoundsWindows(stats: seq<Priority>, v: View)
    requires |v.complete| == |stats|
    ensures var r := Pass(stats, v);
            && |set i: nat | i < |r| && !v.complete[i] && r[i] == Now| <= 100
            && |set i: nat | i < |r| && !v.complete[i] && r[i] != Normal| <= 200
  {
    var r := Pass(stats, v);
    var now := set i: nat | i < |r| && !v.complete[i] && r[i] == Now;
    var near := set i: nat | i < |r| && !v.complete[i] && r[i] != Normal;
    if v.total == 0 || |stats| == 0 {
      assert now == {} && near == {};
    } else {
      forall i | i in near ensures Distance(i, |stats|, v.done, v.total) < 100 as real / |stats| as real {
        if r[i] == Now {
          Widen(|stats|);
        }
      }
      WindowSize(now, |stats|, v.done, v.total, 50);
      WindowSize(near, |stats|, v.done, v.total, 100);
    }
  }

  lemma Widen(pieces: nat)
    requires pieces > 0
    ensures 50 as real / pieces as real <= 100 as real / pieces as real
  {
  }

  // ---- runs ----------------------------------------------------------------------------------

  /** The last priority that a log of calls has set for each piece, starting from some. */
  function Issued(first: seq<Priority>, calls: seq<(nat, Priority)>): (r: seq<Priority>)
    requires forall c | c in calls :: c.0 < |first|
    ensures |r| == |first|
  {
    if calls == [] then first
    else
      var last := calls[|calls| - 1];
      Issued(first, calls[..|calls| - 1])[last.0 := last.1]
  }

  lemma {:induction false} CallsAreInRange(stats: seq<Priority>, v: View, n: nat)
    requires |v.complete| == |stats| && n <= |stats|
    ensures forall c | c in Calls(stats, v, n) :: c.0 < n
  {
    if n > 0 {
      CallsAreInRange(stats, v, n - 1);
    }
  }

  lemma ReplaceOne(r: seq<Priority>, stats: seq<Priority>, n: nat)
    requires 0 < n <= |r| && |r| == |stats|
    ensures r[..n] + stats[n..] == (r[..n - 1] + stats[n - 1..])[n - 1 := r[n - 1]]
  {
  }

  /** What the client was told is what is recorded: the calls of a pass turn the old priorities into
      the new ones, piece by piece. */
  lemma {:induction false} CallsMakeThePass(stats: seq<Priority>, v: View, n: nat)
    requires |v.complete| == |stats| && n <= |stats|
    requires forall c | c in Calls(stats, v, n) :: c.0 < |stats|
    ensures Issued(stats, Calls(stats, v, n)) == Pass(stats, v)[..n] + stats[n..]
  {
    hide *;
    if n == 0 {
      NoCalls(stats, v);
    } else {
      var before, r := Calls(stats, v, n - 1), Pass(stats, v);
      CallsAreInRange(stats, v, n - 1);
      CallsMakeThePass(stats, v, n - 1);
      LastCall(stats, v, n);
      if r[n - 1] == stats[n - 1] {
        KeepOne(r, stats, n);
      } else {
        IssuedOne(stats, before, (n - 1, r[n - 1]));
        ReplaceOne(r, stats, n);
      }
    }
  }

  lemma NoCalls(stats: seq<Priority>, v: View)
    requires |v.complete| == |stats|
    ensures Calls(stats, v, 0) == [] && Issued(stats, []) == stats == Pass(stats, v)[..0] + stats[0..]
  {
  }

  lemma LastCall(stats: seq<Priority>, v: View, n: nat)
    requires |v.complete| == |stats| && 0 < n <= |stats|
    ensures var r, before := Pass(stats, v), Calls(stats, v, n - 1);
            Calls(stats, v, n) == if r[n - 1] == stats[n - 1] then before else before + [(n - 1, r[n - 1])]
  {
    hide Wanted;
    var before := Calls(stats, v, n - 1);
    assert before + [] == before;
  }

  lemma IssuedOne(first: seq<Priority>, calls: seq<(nat, Priority)>, c: (nat, Priority))
    requires c.0 < |first| && forall d | d in calls :: d.0 < |first|
    ensures forall d | d in calls + [c] :: d.0 < |first|
    ensures Issued(first, calls + [c]) == Issued(first, calls)[c.0 := c.1]
  {
    var more := calls + [c];
    assert more[..|more| - 1] == calls && forall d | d in more :: d in calls || d == c;
  }

  lemma KeepOne(r: seq<Priority>, stats: seq<Priority>, n: nat)
    requires 0 < n <= |r| == |stats| && r[n - 1] == stats[n - 1]
    ensures r[..n] + stats[n..] == r[..n - 1] + stats[n - 1..]
  {
  }

  lemma {:induction false} IssuedAppend(first: seq<Priority>, a: seq<(nat, Priority)>, b: seq<(nat, Priority)>)
    requires forall c | c in a + b :: c.0 < |first|
    ensures (forall c | c in a :: c.0 < |first|) && (forall c | c in b :: c.0 < |first|)
    ensures Issued(first, a + b) == Issued(Issued(first, a), b)
  {
    assert forall c | c in a :: c in a + b;
    assert forall c | c in b :: c in a + b;
    if b == [] {
      assert a + b == a;
    } else {
      assert (a + b)[..|a + b| - 1] == a + b[..|b| - 1];
      IssuedAppend(first, a, b[..|b| - 1]);
    }
  }

  /** The priorities that an initialisation gives: high ones first. */
  function Initial(n: nat, window: int): (r: seq<Priority>)
    ensures |r| == n
  {
    seq(n, i => if i < window then High else Normal)
  }

  /** As many pieces as the window is wide come first, as far as there are so many. */
  lemma InitialIsWindow(n: nat, window: int)
    ensures var high: nat := if window < 0 then 0 else if window < n then window else n;
            Initial(n, window) == seq(high, _ => High) + seq(n - high, _ => Normal)
  {
  }

  /** The calls an initialisation makes: one for every piece. */
  function InitialCalls(n: nat, window: int): seq<(nat, Priority)> {
    if n == 0 then [] else InitialCalls(n - 1, window) + [(n - 1, if n - 1 < window then High else Normal)]
  }

  /** Whatever the client was told before, an initialisation tells it the initial priorities. */
  lemma {:induction false} InitialCallsMake(first: seq<Priority>, window: int, n: nat)
    requires n <= |first|
    ensures forall c | c in InitialCalls(n, window) :: c.0 < n
    ensures Issued(first, InitialCalls(n, window)) == Initial(|first|, window)[..n] + first[n..]
  {
    if n > 0 {
      InitialCallsMake(first, window, n - 1);
      var calls, r := InitialCalls(n, window), Initial(|first|, window);
      assert calls[..|calls| - 1] == InitialCalls(n - 1, window);
      ReplaceOne(r, first, n);
      hide Initial;
    }
  }

  /** What happens to the record of a torrent with n pieces, which is empty before it is initialised. */
  datatype Event = Initialize(window: int) | Update(view: View)

  ghost predicate Fits(n: nat, stats: seq<Priority>, e: Event) {
    (stats == [] || |stats| == n) && (e.Update? ==> |e.view.complete| == n)
  }

  function Next(n: nat, stats: seq<Priority>, e: Event): (r: seq<Priority>)
    requires Fits(n, stats, e)
    ensures r == [] || |r| == n
  {
    match e
    case Initialize(window) => if n == 0 then stats else Initial(n, window)
    case Update(v) => if stats == [] then stats else Pass(stats, v)
  }

  function Emits(n: nat, stats: seq<Priority>, e: Event): seq<(nat, Priority)>
    requires Fits(n, stats, e)
  {
    match e
    case Initialize(window) => InitialCalls(n, window)
    case Update(v) => if stats == [] then [] else Calls(stats, v, n)
  }

  ghost predicate AllFit(n: nat, stats: seq<Priority>, events: seq<Event>) {
    (stats == [] || |stats| == n) && forall e | e in events :: e.Update? ==> |e.view.complete| == n
  }

  function Run(n: nat, stats: seq<Priority>, events: seq<Event>): (r: seq<Priority>)
    requires AllFit(n, stats, events)
    ensures r == [] || |r| == n
    decreases |events|
  {
    if events == [] then stats else Run(n, Next(n, stats, events[0]), events[1..])
  }

  function Log(n: nat, stats: seq<Priority>, events: seq<Event>): seq<(nat, Priority)>
    requires AllFit(n, stats, events)
    decreases |events|
  {
    if events == [] then []
    else Emits(n, stats, events[0]) + Log(n, Next(n, stats, events[0]), events[1..])
  }

  /** One event: its calls turn what the client has into what is recorded. */
  lemma {:induction false} EventMirrors(n: nat, told: seq<Priority>, stats: seq<Priority>, e: Event)
    requires |told| == n && Fits(n, stats, e) && (stats == [] || stats == told)
    ensures forall c | c in Emits(n, stats, e) :: c.0 < n
    ensures var r := Next(n, stats, e); r == [] || Issued(told, Emits(n, stats, e)) == r
  {
    match e
    case Initialize(window) =>
      InitialCallsMake(told, window, n);
      assert Initial(n, window)[..n] + told[n..] == Initial(n, window);
    case Update(v) =>
      if stats != [] {
        CallsAreInRange(stats, v, n);
        CallsMakeThePass(stats, v, n);
        assert Pass(stats, v)[..n] + stats[n..] == Pass(stats, v);
      }
  }

  /** Over all runs of initialisations and passes the recorded priority of every piece is the last one
      issued for it, whatever the client had before. */
  lemma {:induction false} RecordsMirrorCalls(n: nat, told: seq<Priority>, stats: seq<Priority>, events: seq<Event>)
    requires |told| == n && AllFit(n, stats, events) && (stats == [] || stats == told)
    ensures forall c | c in Log(n, stats, events) :: c.0 < n
    ensures Run(n, stats, events) == [] || Issued(told, Log(n, stats, events)) == Run(n, stats, events)
    decreases |events|
  {
    if events != [] {
      var e := events[0];
      EventMirrors(n, told, stats, e);
      hide Next, Emits;
      var next, told' := Next(n, stats, e), Issued(told, Emits(n, stats, e));
      RecordsMirrorCalls(n, told', next, events[1..]);
      IssuedAppend(told, Emits(n, stats, e), Log(n, next, events[1..]));
    }
  }

  // ---- the wrapper ---------------------------------------------------------------------------

  datatype PieceStats = PieceStats(priority: Priority, lastRequest: int)

  class TorrentWrapper {
    const numPieces: nat
    var pieceStats: array<PieceStats>

    /** Every call to SetPriority so far. */
    ghost var calls: seq<(nat, Priority)>

    /** Once it is there, the record is what the client was last told for every piece. */
    ghost predicate Valid()
      reads this, pieceStats
    {
      && (forall c | c in calls :: c.0 < numPieces)
      && (pieceStats.Length == 0 || pieceStats.Length == numPieces)
      && (pieceStats.Length > 0 ==> Issued(Initial(numPieces, 0), calls) == Priorities())
    }

    ghost function Priorities(): (r: seq<Priority>)
      reads this, pieceStats
      ensures |r| == pieceStats.Length && forall i | 0 <= i < |r| :: r[i] == pieceStats[i].priority
    {
      seq(pieceStats.Length, i requires 0 <= i < pieceStats.Length reads this, pieceStats => pieceStats[i].priority)
    }

    constructor (numPieces: nat)
      ensures Valid() && this.numPieces == numPieces && pieceStats.Length == 0 && calls == []
    {
      this.numPieces := numPieces;
      pieceStats := new PieceStats[0];
      calls := [];
    }

    method SetPriority(i: nat, priority: Priority)
      modifies `calls
      ensures calls == old(calls) + [(i, priority)]
    {
      calls := calls + [(i, priority)];
    }

    /** Gives every piece a priority, the first ones a high one; a torrent without pieces is left alone. */
    method InitializePiecePriorities(pieceSelectionWindow: int)
      requires Valid()
      modifies this
      ensures Valid() && Priorities() == Next(numPieces, old(Priorities()), Initialize(pieceSelectionWindow))
      ensures calls == old(calls) + Emits(numPieces, old(Priorities()), Initialize(pieceSelectionWindow))
      ensures pieceStats == old(pieceStats) || fresh(pieceStats)
      ensures numPieces > 0 ==> forall i | 0 <= i < pieceStats.Length :: pieceStats[i].lastRequest == 0
    {
      if numPieces == 0 {
        return;
      }
      ghost var before, told := calls, Issued(Initial(numPieces, 0), calls);
      pieceStats := new PieceStats[numPieces](_ => PieceStats(Normal, 0));
      for i := 0 to numPieces
        invariant pieceStats.Length == numPieces && fresh(pieceStats)
        invariant forall j | 0 <= j < i :: pieceStats[j].priority == if j < pieceSelectionWindow then High else Normal
        invariant forall j | 0 <= j < numPieces :: pieceStats[j].lastRequest == 0
        invariant calls == before + InitialCalls(i, pieceSelectionWindow)
      {
        var priority := Normal;
        if i < pieceSelectionWindow {
          priority := High;
        }
        SetPriority(i, priority);
        pieceStats[i] := PieceStats(priority, 0);
      }
      Told(before, InitialCalls(numPieces, pieceSelectionWindow), [], Initialize(pieceSelectionWindow));
      assert Priorities() == Initial(numPieces, pieceSelectionWindow);
    }

    /** The calls of an event, after those that made the record. */
    lemma {:induction false} Told(before: seq<(nat, Priority)>, more: seq<(nat, Priority)>, stats: seq<Priority>,
        e: Event)
      requires (forall c | c in before :: c.0 < numPieces) && Fits(numPieces, stats, e)
      requires stats == [] || stats == Issued(Initial(numPieces, 0), before)
      requires more == Emits(numPieces, stats, e)
      ensures forall c | c in before + more :: c.0 < numPieces
      ensures var r := Next(numPieces, stats, e); r == [] || Issued(Initial(numPieces, 0), before + more) == r
    {
      EventMirrors(numPieces, Issued(Initial(numPieces, 0), before), stats, e);
      hide Emits, Next;
      IssuedAppend(Initial(numPieces, 0), before, more);
    }

    /** The loop over the pieces. */
    method UpdateAll(v: View, now: int)
      requires numPieces == pieceStats.Length == |v.complete|
      modifies pieceStats, `calls
      ensures Priorities() == Pass(old(Priorities()), v)
      ensures calls == old(calls) + Calls(old(Priorities()), v, numPieces)
      ensures forall j | 0 <= j < numPieces ::
                pieceStats[j].lastRequest
                == if pieceStats[j].priority != old(pieceStats[j].priority) then now else old(pieceStats[j].lastRequest)
    {
      hide Wanted;
      ghost var stats, before := Priorities(), calls;
      for i := 0 to numPieces
        invariant forall j | 0 <= j < numPieces ::
                    pieceStats[j].priority == if j < i then Pass(stats, v)[j] else stats[j]
        invariant forall j | 0 <= j < numPieces ::
                    pieceStats[j].lastRequest
                    == if pieceStats[j].priority != stats[j] then now else old(pieceStats[j].lastRequest)
        invariant calls == before + Calls(stats, v, i)
      {
        if !v.complete[i] {
          var priority := Wanted(i, numPieces, v.done, v.total);
          if priority != pieceStats[i].priority {
            SetPriority(i, priority);
            pieceStats[i] := PieceStats(priority, now);
          }
        }
      }
      assert Priorities() == Pass(stats, v);
    }

    /** One pass over the pieces; before the first initialisation it does nothing. */
    method UpdatePiecePriorities(v: View, now: int)
      requires Valid() && |v.complete| == numPieces
      modifies pieceStats, `calls
      ensures Valid() && Priorities() == Next(numPieces, old(Priorities()), Update(v))
      ensures calls == old(calls) + Emits(numPieces, old(Priorities()), Update(v))
      ensures forall i | 0 <= i < pieceStats.Length ::
                pieceStats[i].lastRequest
                == if pieceStats[i].priority != old(pieceStats[i].priority) then now else old(pieceStats[i].lastRequest)
    {
      if numPieces == 0 || pieceStats.Length == 0 {
        return;
      }
      ghost var stats, before := Priorities(), calls;
      hide Wanted, Issued, Calls, Pass;
      UpdateAll(v, now);
      Told(before, Calls(stats, v, numPieces), stats, Update(v));
    }
  }
}
