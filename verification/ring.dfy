/**
  The ring behind a CircularBuffer, on values: a buffer with two positions, the steps that a write and
  a read make of it, the exact law of a write that may overtake the reader, and what the steps come to
  over whole runs.
 */
module Ring {
  import opened Arith
  import opened Types

  /** A position after at most one turn. */
  function Wrap(x: nat, size: nat): (r: nat)
    requires x < 2 * size
    ensures r < size
  {
    if x < size then x else x - size
  }

  lemma WrapIsModulo(x: nat, size: nat)
    requires x < 2 * size
    ensures Wrap(x, size) == x % size
  {
    if x >= size {
      TurnOnce(x - size, size);
    }
  }

  lemma TurnOnce(x: nat, size: nat)
    requires x < size
    ensures (x + size) % size == x
  {
  }

  /** The way from one position forward to another. */
  function Ahead(to: nat, from: nat, size: nat): (d: nat)
    requires to < size && from < size
    ensures d < size
  {
    if to >= from then to - from else to - from + size
  }

  /** The bytes from position r up to position w. */
  function Between(b: Bytes, r: nat, w: nat): (c: Bytes)
    requires r < |b| && w < |b|
    ensures |c| == Ahead(w, r, |b|)
  {
    if w >= r then b[r..w] else b[r..] + b[..w]
  }

  /** Once around the buffer from a position on. */
  function Around(b: Bytes, w: nat): (t: Bytes)
    requires w < |b|
    ensures |t| == |b|
  {
    b[w..] + b[..w]
  }

  lemma AroundAt(b: Bytes, w: nat, k: nat)
    requires w < |b| && k < |b|
    ensures Around(b, w)[k] == b[Wrap(w + k, |b|)]
  {
  }

  /** The buffer with q over it from a position on. */
  function Over(b: Bytes, at: nat, q: Bytes): (r: Bytes)
    requires at + |q| <= |b|
    ensures |r| == |b|
  {
    b[..at] + q + b[at + |q|..]
  }

  lemma OverNext(b: Bytes, at: nat, q: Bytes, n: nat)
    requires n < |q| && at + |q| <= |b|
    ensures Over(b, at, q[..n + 1]) == Over(b, at, q[..n])[at + n := q[n]]
  {
  }

  lemma OverNothing(b: Bytes, at: nat, q: Bytes)
    requires at <= |b| && q == []
    ensures Over(b, at, q) == b
  {
  }

  lemma OverTwice(b: Bytes, p: Bytes, q: Bytes)
    requires |p| + |q| <= |b|
    ensures Over(Over(b, 0, p), |p|, q) == p + q + b[|p| + |q|..]
  {
  }

  /** The buffer after q is copied in from position w on, continuing at the start. */
  function Put(b: Bytes, w: nat, q: Bytes): (r: Bytes)
    requires w < |b| && |q| <= |b|
    ensures |r| == |b|
  {
    var first := if |b| - w > |q| then |q| else |b| - w;
    Over(Over(b, w, q[..first]), 0, q[first..])
  }

  lemma PutAt(b: Bytes, w: nat, q: Bytes, k: nat)
    requires w < |b| && |q| <= |b| && k < |b|
    ensures var j := Ahead(k, w, |b|); Put(b, w, q)[k] == if j < |q| then q[j] else b[k]
  {
  }

  /** How many bytes are left after n bytes are written beside a others. */
  function Left(size: nat, a: nat, n: nat): (left: nat)
    requires a < size && n <= size
    ensures left < size && left <= a + n
  {
    if a + n < size then a + n else if a + n == size then size - 1 else a + n - size
  }

  /** The part of a write that goes into the buffer. */
  function Tail(p: Bytes, size: nat): (q: Bytes)
    ensures |q| == Min(|p|, size)
  {
    p[|p| - Min(|p|, size)..]
  }

  /** The contents after a write, for a ring of the given size. */
  function Written(size: nat, c: Bytes, p: Bytes): (r: Bytes)
    requires |c| < size
    ensures |r| == Left(size, |c|, Min(|p|, size)) < size
  {
    (c + p)[|c| + |p| - Left(size, |c|, Min(|p|, size))..]
  }

  /** Where the reader stands after n bytes are written: one place further if it was caught up with. */
  function Reader(size: nat, r: nat, w: nat, n: nat): (r': nat)
    requires r < size && w < size && n <= size
    ensures r' < size
  {
    if Wrap(w + n, size) == r then Wrap(r + 1, size) else r
  }

  /** The contents of a ring never tell apart an empty and a full turn, so an empty write to an empty
      ring is the one case that the write law does not cover; a ring of one place has no contents. */
  predicate Regular(size: nat, c: Bytes, p: Bytes) { p != [] || c != [] || size == 1 }

  lemma LengthLaw(size: nat, r: nat, w: nat, n: nat)
    requires r < size && w < size && n <= size
    ensures Ahead(Wrap(w + n, size), Reader(size, r, w, n), size) ==
            if n == 0 && r == w && size > 1 then size - 1 else Left(size, Ahead(w, r, size), n)
  {
  }

  // ---- the ring and its steps ----------------------------------------------------------------

  datatype State = State(b: Bytes, r: nat, w: nat) {
    predicate Valid() { r < |b| && w < |b| }

    function Contents(): (c: Bytes)
      requires Valid()
      ensures |c| == Ahead(w, r, |b|)
    {
      Between(b, r, w)
    }

    /** The whole buffer in the order in which it was written, the oldest byte first. */
    function Turn(): (t: Bytes)
      requires Valid()
      ensures |t| == |b|
    {
      Around(b, w)
    }
  }

  /** The last n elements. */
  function Last(s: Bytes, n: nat): (r: Bytes)
    requires n <= |s|
    ensures |r| == n
  {
    s[|s| - n..]
  }

  datatype Op = Write(p: Bytes) | Read(room: nat)

  /** What the program does to the buffer and its two positions. */
  function Step(s: State, op: Op): (s': State)
    requires s.Valid()
    ensures s'.Valid() && |s'.b| == |s.b|
  {
    match op
    case Write(p) =>
      var n := Min(|p|, |s.b|);
      State(Put(s.b, s.w, Tail(p, |s.b|)), Reader(|s.b|, s.r, s.w, n), Wrap(s.w + n, |s.b|))
    case Read(room) => s.(r := Wrap(s.r + Min(room, |s.Contents()|), |s.b|))
  }

  /** What an operation hands to the reader. */
  function Out(s: State, op: Op): Bytes
    requires s.Valid()
  {
    if op.Read? then s.Contents()[..Min(op.room, |s.Contents()|)] else []
  }

  function In(op: Op): Bytes { if op.Write? then op.p else [] }

  /** How the length of the contents changes. */
  function Length(size: nat, a: nat, op: Op): (a': nat)
    requires a < size
    ensures a' < size
  {
    match op
    case Write(p) => if p == [] && a == 0 && size > 1 then size - 1 else Left(size, a, Min(|p|, size))
    case Read(room) => a - Min(room, a)
  }

  lemma StepLength(s: State, op: Op)
    requires s.Valid()
    ensures |Step(s, op).Contents()| == Length(|s.b|, |s.Contents()|, op)
  {
    hide Put, Left, Between, Wrap, Reader;
    match op
    case Write(p) => LengthLaw(|s.b|, s.r, s.w, Min(|p|, |s.b|));
    case Read(room) => LengthAfterRead(|s.b|, s.r, s.w, Min(room, |s.Contents()|));
  }

  lemma LengthAfterRead(size: nat, r: nat, w: nat, n: nat)
    requires r < size && w < size && n <= Ahead(w, r, size)
    ensures Ahead(w, Wrap(r + n, size), size) == Ahead(w, r, size) - n
  {
  }

  /** The contents are the youngest part of the buffer. */
  lemma ContentsAreLast(s: State)
    requires s.Valid()
    ensures s.Contents() == Last(s.Turn(), |s.Contents()|)
  {
  }

  /** Copying bytes in pushes as many out at the old end. */
  lemma PutTurns(b: Bytes, w: nat, q: Bytes)
    requires w < |b| && |q| <= |b|
    ensures Around(Put(b, w, q), Wrap(w + |q|, |b|)) == Last(Around(b, w) + q, |b|)
  {
    var b', w' := Put(b, w, q), Wrap(w + |q|, |b|);
    forall k: nat | k < |b| ensures Around(b', w')[k] == Last(Around(b, w) + q, |b|)[k] {
      PutTurnsAt(b, w, q, k);
    }
    hide *;
  }

  lemma PutTurnsAt(b: Bytes, w: nat, q: Bytes, k: nat)
    requires w < |b| && |q| <= |b| && k < |b|
    ensures Around(Put(b, w, q), Wrap(w + |q|, |b|))[k] == Last(Around(b, w) + q, |b|)[k]
  {
    hide *;
    var w', j := Onto(|b|, w, |q|, k);
    AroundAt(Put(b, w, q), w', k);
    PutAt(b, w, q, j);
    if k + |q| < |b| {
      AroundAt(b, w, k + |q|);
    }
    LastAt(Around(b, w), q, k);
  }

  lemma LastAt(t: Bytes, q: Bytes, k: nat)
    requires k < |t|
    ensures Last(t + q, |t|)[k] == if k + |q| < |t| then t[k + |q|] else q[k + |q| - |t|]
  {
  }

  /** Where the k-th oldest byte is after n bytes are copied in. */
  lemma Onto(size: nat, w: nat, n: nat, k: nat) returns (w': nat, j: nat)
    requires w < size && n <= size && k < size
    ensures w' == Wrap(w + n, size) && w' < size && j == Wrap(w' + k, size) && j < size
    ensures if k + n < size then Ahead(j, w, size) == k + n && Wrap(w + (k + n), size) == j
            else Ahead(j, w, size) == k + n - size
  {
    w' := Wrap(w + n, size);
    j := Wrap(w' + k, size);
  }

  /** After every step the buffer holds the last bytes that have come in. */
  lemma StepTurns(s: State, op: Op)
    requires s.Valid()
    ensures Step(s, op).Turn() == Last(s.Turn() + In(op), |s.b|)
  {
    hide Put, Tail, Around, Reader, Wrap, Last;
    match op
    case Write(p) =>
      PutTurns(s.b, s.w, Tail(p, |s.b|));
      TailIsEnough(s.Turn(), p);
    case Read(_) =>
      LastOfAll(s.Turn());
  }

  lemma LastOfAll(t: Bytes)
    ensures Last(t + [], |t|) == t
  {
    assert t + [] == t;
  }

  lemma TailIsEnough(t: Bytes, p: Bytes)
    ensures Last(t + Tail(p, |t|), |t|) == Last(t + p, |t|)
  {
    if |p| <= |t| {
      assert Tail(p, |t|) == p;
    }
  }

  // ---- one write -----------------------------------------------------------------------------

  /** How many bytes a write leaves, from the sizes alone: all of them while a place stays free, all
      places but one if they would fill the ring or if nothing is written to an empty one, and otherwise
      what goes beyond one turn. */
  lemma WriteLength(s: State, p: Bytes)
    requires s.Valid()
    ensures var a, n, size := |s.Contents()|, if |p| < |s.b| then |p| else |s.b|, |s.b|;
            |Step(s, Write(p)).Contents()| ==
            if a + n == size || (p == [] && a == 0) then size - 1 else if a + n < size then a + n else a + n - size
  {
    StepLength(s, Write(p));
    hide Step, State.Contents;
  }

  /** The write law: the contents are the last bytes of what was there followed by what was written,
      for every write but an empty one to an empty ring of more than one place.  That one makes the
      whole buffer but its oldest byte readable, whether it had been read or was never written. */
  lemma WriteLaw(s: State, p: Bytes)
    requires s.Valid()
    ensures var c, d := s.Contents(), Step(s, Write(p)).Contents();
            && (d == Written(|s.b|, c, p) <==> Regular(|s.b|, c, p))
            && (!Regular(|s.b|, c, p) ==> d == Last(s.Turn(), |s.b| - 1))
  {
    var c, s' := s.Contents(), Step(s, Write(p));
    StepLength(s, Write(p));
    StepTurns(s, Write(p));
    ContentsAreLast(s);
    ContentsAreLast(s');
    hide Step;
    LastOfLast(s.Turn() + p, |s.b|, |s'.Contents()|);
    if Regular(|s.b|, c, p) {
      SameEnd(s.Turn(), |c|, p, |s'.Contents()|);
    } else {
      assert s.Turn() + p == s.Turn();
    }
  }

  lemma LastOfLast(s: Bytes, m: nat, n: nat)
    requires n <= m <= |s|
    ensures Last(Last(s, m), n) == Last(s, n)
  {
  }

  lemma SameEnd(t: Bytes, a: nat, p: Bytes, n: nat)
    requires a <= |t| && n <= a + |p|
    ensures Last(t + p, n) == Last(Last(t, a) + p, n)
  {
    assert t == t[..|t| - a] + Last(t, a);
  }

  /** What a step takes in is what it hands out and holds afterwards, beside what it held. */
  ghost predicate Keeps(s: State, op: Op)
    requires s.Valid()
  {
    Out(s, op) + Step(s, op).Contents() == s.Contents() + In(op)
  }

  /** A write fits if it leaves a place free and is not the one that makes old bytes appear. */
  predicate Fits(size: nat, a: nat, op: Op) {
    op.Write? ==> a + |op.p| < size && (op.p != [] || a > 0 || size == 1)
  }

  /** No byte is lost, and none appears, exactly when what is written fits. */
  lemma NothingLostIffFits(s: State, op: Op)
    requires s.Valid()
    ensures Keeps(s, op) <==> Fits(|s.b|, |s.Contents()|, op)
  {
    match op
    case Write(p) =>
      WriteLaw(s, p);
      StepLength(s, op);
      hide Step, Written;
      WrittenIsAll(|s.b|, s.Contents(), p);
    case Read(room) =>
      ReadTakes(s, room);
      hide Step;
  }

  lemma WrittenIsAll(size: nat, c: Bytes, p: Bytes)
    requires |c| < size
    ensures Written(size, c, p) == c + p <==> |c| + |p| < size
  {
  }

  /** A read delivers the front of the contents and leaves the rest. */
  lemma ReadTakes(s: State, room: nat)
    requires s.Valid()
    ensures Out(s, Read(room)) == s.Contents()[..Min(room, |s.Contents()|)]
    ensures Step(s, Read(room)).Contents() == s.Contents()[Min(room, |s.Contents()|)..]
  {
    var s' := Step(s, Read(room));
    StepLength(s, Read(room));
    ContentsAreLast(s);
    ContentsAreLast(s');
    assert s'.Turn() == s.Turn();
  }

  // ---- runs ----------------------------------------------------------------------------------

  function Run(s: State, ops: seq<Op>): (r: State)
    requires s.Valid()
    ensures r.Valid() && |r.b| == |s.b|
    decreases |ops|
  {
    if ops == [] then s else Run(Step(s, ops[0]), ops[1..])
  }

  function AllIn(ops: seq<Op>): Bytes { if ops == [] then [] else In(ops[0]) + AllIn(ops[1..]) }

  function AllOut(s: State, ops: seq<Op>): Bytes
    requires s.Valid()
    decreases |ops|
  {
    if ops == [] then [] else Out(s, ops[0]) + AllOut(Step(s, ops[0]), ops[1..])
  }

  /** The length of the contents after a run. */
  function Lengths(size: nat, a: nat, ops: seq<Op>): (a': nat)
    requires a < size
    ensures a' < size
    decreases |ops|
  {
    if ops == [] then a else Lengths(size, Length(size, a, ops[0]), ops[1..])
  }

  /** Over every run, whatever is written: the ring holds the most recent bytes, contiguous and in
      order, of what the buffer held at first followed by all that was written, and the sizes of the
      operations alone say how many. */
  lemma {:induction false} ContentsAreLatest(s: State, ops: seq<Op>)
    requires s.Valid()
    ensures var all, end := s.Turn() + AllIn(ops), Run(s, ops);
            && end.Turn() == Last(all, |s.b|)
            && |end.Contents()| == Lengths(|s.b|, |s.Contents()|, ops)
            && end.Contents() == Last(all, |end.Contents()|)
    decreases |ops|
  {
    TurnIsLatest(s, ops);
    RunLength(s, ops);
    var end := Run(s, ops);
    ContentsAreLast(end);
    LastOfLast(s.Turn() + AllIn(ops), |s.b|, |end.Contents()|);
  }

  lemma {:induction false} TurnIsLatest(s: State, ops: seq<Op>)
    requires s.Valid()
    ensures Run(s, ops).Turn() == Last(s.Turn() + AllIn(ops), |s.b|)
    decreases |ops|
  {
    if ops == [] {
      assert s.Turn() + [] == s.Turn();
    } else {
      StepTurns(s, ops[0]);
      TurnIsLatest(Step(s, ops[0]), ops[1..]);
      hide Step, In, Last;
      Onward(s.Turn(), In(ops[0]), AllIn(ops[1..]));
    }
  }

  lemma Onward(t: Bytes, p: Bytes, q: Bytes)
    ensures Last(Last(t + p, |t|) + q, |t|) == Last(t + (p + q), |t|)
  {
    SameEnd(t + p, |t|, q, |t|);
    assert (t + p) + q == t + (p + q);
  }

  lemma {:induction false} RunLength(s: State, ops: seq<Op>)
    requires s.Valid()
    ensures |Run(s, ops).Contents()| == Lengths(|s.b|, |s.Contents()|, ops)
    decreases |ops|
  {
    if ops != [] {
      StepLength(s, ops[0]);
      RunLength(Step(s, ops[0]), ops[1..]);
    }
    hide Step, Length;
  }

  const ZERO: Byte := 0

  /** A new ring of so many places. */
  function New(size: nat): (s: State)
    requires size > 0
    ensures s.Valid() && |s.b| == size && s.Contents() == []
  {
    State(seq(size, _ => ZERO), 0, 0)
  }

  /** From new: what the ring holds is the end of the zeros it was made of and all that was written. */
  lemma {:induction false} NewHoldsLatest(size: nat, ops: seq<Op>)
    requires size > 0
    ensures var c := Run(New(size), ops).Contents();
            && |c| == Lengths(size, 0, ops)
            && c == Last(seq(size, _ => ZERO) + AllIn(ops), |c|)
  {
    ContentsAreLatest(New(size), ops);
    assert New(size).Turn() == seq(size, _ => ZERO);
  }

  /** All that ever came in ends with what the buffer holds. */
  ghost predicate IsHistory(s: State, all: Bytes)
    requires s.Valid()
  {
    |s.b| <= |all| && Last(all, |s.b|) == s.Turn()
  }

  /** One operation, with all that ever came in before it: a read delivers exactly the bytes that the
      reader moves over, and the reader never moves back, unless the write is the irregular one. */
  lemma OpMovesForward(s: State, all: Bytes, op: Op)
    requires s.Valid() && IsHistory(s, all)
    ensures var s', all' := Step(s, op), all + In(op);
            var at, at' := |all| - |s.Contents()|, |all'| - |s'.Contents()|;
            && IsHistory(s', all')
            && all[at..] == s.Contents() && all'[at'..] == s'.Contents()
            && (at <= at' <==> op.Read? || Regular(|s.b|, s.Contents(), op.p))
            && (op.Read? ==> Out(s, op) == all[at..at'])
  {
    hide Step, IsHistory, Out, State.Turn, State.Contents;
    var s' := Step(s, op);
    HistoryGoesOn(s, all, op);
    HistoryEnds(s, all);
    HistoryEnds(s', all + In(op));
    StepLength(s, op);
    if op.Read? {
      var c, c' := s.Contents(), s'.Contents();
      ReadTakes(s, op.room);
      assert all[|all| - |c|..][..Min(op.room, |c|)] == all[|all| - |c|..|all| - |c'|];
    }
  }

  lemma HistoryGoesOn(s: State, all: Bytes, op: Op)
    requires s.Valid() && IsHistory(s, all)
    ensures IsHistory(Step(s, op), all + In(op))
  {
    StepTurns(s, op);
    hide Step, In;
    SameEnd(all, |s.b|, In(op), |s.b|);
  }

  lemma HistoryEnds(s: State, all: Bytes)
    requires s.Valid() && IsHistory(s, all)
    ensures |s.Contents()| <= |all| && all[|all| - |s.Contents()|..] == s.Contents()
  {
    ContentsAreLast(s);
    LastOfLast(all, |s.b|, |s.Contents()|);
  }

  // ---- the ideal ring ------------------------------------------------------------------------

  /** A ring that remembers nothing but its contents. */
  function Ideal(size: nat, c: Bytes, op: Op): (r: Bytes)
    requires |c| < size
    ensures |r| < size
  {
    match op
    case Write(p) => Written(size, c, p)
    case Read(room) => c[Min(room, |c|)..]
  }

  /** At every step of a run the ring holds what the ideal one does. */
  ghost predicate Follows(s: State, c: Bytes, ops: seq<Op>)
    requires s.Valid() && |c| < |s.b|
    decreases |ops|
  {
    s.Contents() == c && (ops != [] ==> Follows(Step(s, ops[0]), Ideal(|s.b|, c, ops[0]), ops[1..]))
  }

  /** No write of the run is an empty one that comes when the ring is empty. */
  predicate AllRegular(size: nat, c: Bytes, ops: seq<Op>)
    requires |c| < size
    decreases |ops|
  {
    ops != [] ==>
      && (ops[0].Write? ==> Regular(size, c, ops[0].p))
      && AllRegular(size, Ideal(size, c, ops[0]), ops[1..])
  }

  /** The exact condition for a ring to be the ideal one. */
  lemma {:induction false} RunLaw(s: State, ops: seq<Op>)
    requires s.Valid()
    ensures Follows(s, s.Contents(), ops) <==> AllRegular(|s.b|, s.Contents(), ops)
    decreases |ops|
  {
    if ops != [] {
      var s', c' := Step(s, ops[0]), Ideal(|s.b|, s.Contents(), ops[0]);
      match ops[0] {
        case Write(p) => WriteLaw(s, p);
        case Read(room) => ReadTakes(s, room);
      }
      hide Step, Ideal, Regular;
      if s'.Contents() == c' {
        RunLaw(s', ops[1..]);
      }
    }
  }

  // ---- the queue -----------------------------------------------------------------------------

  /** Every write of the run fits when it comes. */
  predicate AllFit(size: nat, a: nat, ops: seq<Op>)
    requires a < size
    decreases |ops|
  {
    ops != [] ==> Fits(size, a, ops[0]) && AllFit(size, Length(size, a, ops[0]), ops[1..])
  }

  /** What has been read, followed by what is still there, is what was there at first followed by all
      that was written. */
  ghost predicate Queued(s: State, ops: seq<Op>)
    requires s.Valid()
  {
    AllOut(s, ops) + Run(s, ops).Contents() == s.Contents() + AllIn(ops)
  }

  lemma QueuedOn(s: State, ops: seq<Op>)
    requires s.Valid() && ops != [] && Keeps(s, ops[0])
    ensures Queued(s, ops) <==> Queued(Step(s, ops[0]), ops[1..])
  {
    var s' := Step(s, ops[0]);
    hide Step, Out, In;
    Shift(Out(s, ops[0]), AllOut(s', ops[1..]), Run(s', ops[1..]).Contents(), s'.Contents(), AllIn(ops[1..]),
          s.Contents(), In(ops[0]));
  }

  lemma Shift(out: Bytes, rest: Bytes, end: Bytes, d: Bytes, later: Bytes, c: Bytes, first: Bytes)
    requires out + d == c + first
    ensures (out + rest) + end == c + (first + later) <==> rest + end == d + later
  {
    assert (out + rest) + end == out + (rest + end);
    assert c + (first + later) == (c + first) + later == out + (d + later);
    Cancel(out, rest + end, d + later);
  }

  lemma Cancel(a: Bytes, b: Bytes, c: Bytes)
    ensures a + b == a + c <==> b == c
  {
    assert (a + b)[|a|..] == b && (a + c)[|a|..] == c;
  }

  lemma QueuedOne(s: State, op: Op)
    requires s.Valid()
    ensures Queued(s, [op]) <==> Keeps(s, op)
  {
    OutOfOne(s, op);
    RunOfOne(s, op);
    InOfOne(op);
    hide Run, AllOut, AllIn, Step, Out, In;
  }

  lemma OutOfOne(s: State, op: Op)
    requires s.Valid()
    ensures AllOut(s, [op]) == Out(s, op)
  {
    var ops := [op];
    hide Step, Out;
    assert ops[0] == op && ops[1..] == [];
    assert AllOut(s, ops) == Out(s, op) + AllOut(Step(s, op), ops[1..]);
  }

  lemma RunOfOne(s: State, op: Op)
    requires s.Valid()
    ensures Run(s, [op]) == Step(s, op)
  {
    var ops := [op];
    hide Step;
    assert ops[0] == op && ops[1..] == [];
    assert Run(s, ops) == Run(Step(s, op), ops[1..]);
  }

  lemma InOfOne(op: Op)
    ensures AllIn([op]) == In(op)
  {
    var ops := [op];
    hide In;
    assert ops[0] == op && ops[1..] == [];
    assert AllIn(ops) == In(op) + AllIn(ops[1..]);
  }

  /** The ring is a queue all through a run exactly when every write fits. */
  lemma {:induction false} QueueLaw(s: State, ops: seq<Op>)
    requires s.Valid()
    ensures (forall i | 0 <= i <= |ops| :: Queued(s, ops[..i])) <==> AllFit(|s.b|, |s.Contents()|, ops)
    decreases |ops|
  {
    hide Queued, Keeps, Step, Length, Fits;
    if ops == [] {
      QueuedNone(s);
    } else {
      var s', rest := Step(s, ops[0]), ops[1..];
      NothingLostIffFits(s, ops[0]);
      StepLength(s, ops[0]);
      QueuedOne(s, ops[0]);
      assert ops[..1] == [ops[0]];
      if Keeps(s, ops[0]) {
        QueueLaw(s', rest);
        QueuedNone(s);
        forall i: nat | i <= |rest| ensures Queued(s, ops[..i + 1]) <==> Queued(s', rest[..i]) {
          assert ops[..i + 1][0] == ops[0] && ops[..i + 1][1..] == rest[..i];
          QueuedOn(s, ops[..i + 1]);
        }
        forall i | 0 < i <= |ops| ensures Queued(s, ops[..i]) <==> Queued(s', rest[..i - 1]) {
          assert ops[..i] == ops[..(i - 1) + 1];
        }
      }
    }
  }

  lemma QueuedNone(s: State)
    requires s.Valid()
    ensures Queued(s, [])
  {
  }
}
