/**
  Reading a byte range by random access, on values: what the attempts at a read deliver, what the loop
  that serves the range makes of them, and exactly when the result is the range that was asked for.
 */
module RangeReads {
  import opened Arith
  import opened Types

  datatype Error = Fine | EOF | Failed

  /** What one call of a reader does: it takes as many bytes as it is willing to and reports an error. */
  datatype Attempt = Attempt(count: nat, error: Error)

  /** What a read delivers: n bytes from some place on. */
  datatype Delivery = Delivery(at: nat, n: nat, error: Error)

  const MAX_READ_RETRIES := 5

  /** How many bytes an attempt moves from a position into m places. */
  function Taken(a: Attempt, m: nat, pos: nat, length: nat): (n: nat)
    ensures n <= m && n <= a.count && (n > 0 ==> pos + n <= length)
  {
    Min(a.count, Min(m, if pos < length then length - pos else 0))
  }

  /** The next attempt; a reader that has nothing more to do is at the end of its file. */
  function Head(attempts: seq<Attempt>): Attempt { if attempts == [] then Attempt(0, EOF) else attempts[0] }

  function Tail(attempts: seq<Attempt>): seq<Attempt> { if attempts == [] then [] else attempts[1..] }

  /** retryRead: a failed attempt leaves the reader where it got to, and the next one goes on there. */
  function Retry(length: nat, pos: nat, m: nat, attempts: seq<Attempt>, tries: nat): (r: Delivery)
    requires tries > 0
    ensures r.n <= m && r.at >= pos && (r.n > 0 ==> r.at + r.n <= length)
    decreases tries
  {
    var a, n := Head(attempts), Taken(Head(attempts), m, pos, length);
    if a.error != Failed || tries == 1 then Delivery(pos, n, a.error)
    else Retry(length, pos + n, m, Tail(attempts), tries - 1)
  }

  /** One attempt, and what comes after. */
  lemma OneAttempt(length: nat, pos: nat, m: nat, attempts: seq<Attempt>, tries: nat)
    requires tries > 0
    ensures var a, n := Head(attempts), Taken(Head(attempts), m, pos, length);
            Retry(length, pos, m, attempts, tries) ==
            if a.error != Failed || tries == 1 then Delivery(pos, n, a.error)
            else Retry(length, pos + n, m, Tail(attempts), tries - 1)
  {
    hide Head, Taken, Tail;
  }

  /** No failed attempt that is tried again has taken bytes. */
  predicate Quiet(attempts: seq<Attempt>, tries: nat)
    decreases tries
  {
    Head(attempts).error == Failed && tries > 1 ==>
      Head(attempts).count == 0 && Quiet(Tail(attempts), tries - 1)
  }

  /** Bytes are delivered from the right place exactly when the attempts were quiet. */
  lemma {:induction false} PlaceLaw(length: nat, pos: nat, m: nat, attempts: seq<Attempt>, tries: nat)
    requires tries > 0
    ensures var r := Retry(length, pos, m, attempts, tries);
            r.n > 0 ==> (r.at == pos <==> Quiet(attempts, tries))
    decreases tries
  {
    if Head(attempts).error == Failed && tries > 1 {
      var n := Taken(Head(attempts), m, pos, length);
      PlaceLaw(length, pos + n, m, Tail(attempts), tries - 1);
    }
  }

  /** The bytes that were asked for are the bytes that come. */
  ghost predicate Delivers(content: Bytes, off: nat, r: Delivery) {
    r.n > 0 ==>
      && r.at + r.n <= |content| && off + r.n <= |content|
      && content[r.at..r.at + r.n] == content[off..off + r.n]
  }

  /** A file that is zero but for one byte. */
  function Marked(length: nat, at: nat): (content: Bytes)
    ensures |content| == length && forall i | 0 <= i < length :: content[i] == if i == at then 1 else 0
  {
    seq(length, i => if i == at then 1 else 0)
  }

  lemma MarkedDiffers(length: nat, off: nat, r: Delivery)
    requires r.n > 0 && r.at != off && r.at + r.n <= length
    ensures !Delivers(Marked(length, r.at), off, r)
  {
    var content := Marked(length, r.at);
    if off + r.n <= length {
      assert content[r.at..r.at + r.n][0] == 1 && content[off..off + r.n][0] == 0;
    }
  }

  /** The exact law of retryRead: what it delivers is what was asked for, whatever the file holds, if and
      only if it delivers nothing or no attempt before the one that counts has failed with bytes taken. */
  lemma {:induction false} RetryLaw(length: nat, off: nat, m: nat, attempts: seq<Attempt>)
    ensures var r := Retry(length, off, m, attempts, MAX_READ_RETRIES);
            (forall content: Bytes | |content| == length :: Delivers(content, off, r))
            <==> r.n == 0 || Quiet(attempts, MAX_READ_RETRIES)
  {
    var r := Retry(length, off, m, attempts, MAX_READ_RETRIES);
    PlaceLaw(length, off, m, attempts, MAX_READ_RETRIES);
    hide Retry, Quiet;
    if r.n > 0 && r.at != off {
      MarkedDiffers(length, off, r);
    }
  }

  /** One byte and a failure, then one byte: the second byte of the file is delivered for the first. */
  lemma FailedReadShifts()
    ensures var attempts := [Attempt(1, Failed), Attempt(1, Fine)];
            var r := Retry(2, 0, 1, attempts, MAX_READ_RETRIES);
            r == Delivery(1, 1, Fine) && !Delivers([0, 1], 0, r)
  {
    var attempts := [Attempt(1, Failed), Attempt(1, Fine)];
    assert Tail(attempts) == [Attempt(1, Fine)];
    var content: Bytes := [0, 1];
    assert content[1..2][0] != content[0..1][0];
  }

  // ---- the loop ------------------------------------------------------------------------------

  /** One turn of the loop: whether the reader can seek, what its attempts do, and whether the writer
      takes everything or gives up after a part. */
  datatype Round = Round(seekOk: bool, attempts: seq<Attempt>, writeOk: bool, accepted: nat)

  /** How the loop ends: with the range complete, with a read that delivered nothing, or in error. */
  datatype Outcome = Complete | Starved | Error(bad: Error)

  /** A part of the body: n bytes of the file from some place on. */
  datatype Piece = Piece(at: nat, n: nat)

  datatype Served = Served(pieces: seq<Piece>, outcome: Outcome)

  function First(rounds: seq<Round>): Round { if rounds == [] then Round(true, [], true, 0) else rounds[0] }

  function Rest(rounds: seq<Round>): seq<Round> { if rounds == [] then [] else rounds[1..] }

  /** ReadAt while nothing is buffered. */
  function ReadAtOnce(length: nat, m: nat, off: nat, seekOk: bool, attempts: seq<Attempt>): (r: Delivery)
    ensures r.n <= m && r.at >= off && (r.n > 0 ==> r.at + r.n <= length)
  {
    if seekOk then Retry(length, off, m, attempts, MAX_READ_RETRIES) else Delivery(off, 0, Failed)
  }

  /** The read of the first round, for as many bytes as the buffer holds or as are missing. */
  function ReadFirst(length: nat, end: nat, size: nat, off: nat, rounds: seq<Round>): (r: Delivery)
    requires off <= end
    ensures r.n <= end + 1 - off && r.at >= off && (r.n > 0 ==> r.at + r.n <= length)
  {
    ReadAtOnce(length, Min(size, end + 1 - off), off, First(rounds).seekOk, First(rounds).attempts)
  }

  function Loop(length: nat, end: nat, size: nat, off: nat, rounds: seq<Round>): Served
    decreases end + 1 - off
  {
    if off > end then Served([], Complete)
    else
      var r := ReadFirst(length, end, size, off, rounds);
      if !Sends(r) then Served([], if r.error == Failed then Error(Failed) else Starved)
      else if !First(rounds).writeOk then Served([Sent(r, First(rounds))], Error(Failed))
      else
        var later := Loop(length, end, size, off + r.n, Rest(rounds));
        Served([Sent(r, First(rounds))] + later.pieces, later.outcome)
  }

  /** What the writer takes of what was read. */
  function Sent(r: Delivery, q: Round): (p: Piece)
    ensures p.at == r.at && p.n <= r.n && (q.writeOk ==> p.n == r.n)
    ensures !q.writeOk && r.n > 0 ==> (p.n == 0 <==> q.accepted == 0)
  {
    Piece(r.at, if q.writeOk then r.n else Min(q.accepted, r.n))
  }

  /** Whether what was read goes to the writer. */
  predicate Sends(r: Delivery) { r.error != Failed && r.n > 0 }

  /** The loop starts if the buffer is open and one byte can be read at the start of the range. */
  function Opening(closed: bool, length: nat, start: nat, probe: Round): Error {
    if closed then EOF else ReadAtOnce(length, 1, start, probe.seekOk, probe.attempts).error
  }

  function Serving(closed: bool, length: nat, start: nat, end: nat, size: nat, probe: Round,
      rounds: seq<Round>): Served {
    if Opening(closed, length, start, probe) != Fine then Served([], Error(Opening(closed, length, start, probe)))
    else Loop(length, end, size, start, rounds)
  }

  lemma SendsSome(r: Delivery)
    requires Sends(r)
    ensures r.n > 0
  {
  }

  // ---- the body ------------------------------------------------------------------------------

  ghost predicate Inside(length: nat, pieces: seq<Piece>) {
    forall p | p in pieces :: p.n > 0 ==> p.at + p.n <= length
  }

  function PieceOf(content: Bytes, p: Piece): (b: Bytes)
    requires p.n > 0 ==> p.at + p.n <= |content|
    ensures |b| == p.n
  {
    if p.n == 0 then [] else content[p.at..p.at + p.n]
  }

  ghost function Body(content: Bytes, pieces: seq<Piece>): (b: Bytes)
    requires Inside(|content|, pieces)
    ensures |b| == Size(pieces)
  {
    if pieces == [] then [] else
      assert forall p | p in pieces[1..] :: p in pieces;
      PieceOf(content, pieces[0]) + Body(content, pieces[1..])
  }

  function Size(pieces: seq<Piece>): nat { if pieces == [] then 0 else pieces[0].n + Size(pieces[1..]) }

  /** The pieces lie inside the file and together are no longer than the range, and as long when the
      loop completes. */
  ghost predicate Fit(length: nat, end: nat, off: nat, s: Served) {
    && Inside(length, s.pieces) && Size(s.pieces) <= end + 1 - off
    && (s.outcome == Complete ==> Size(s.pieces) == end + 1 - off)
  }

  lemma {:induction false} LoopFits(length: nat, end: nat, size: nat, off: nat, rounds: seq<Round>)
    requires off <= end + 1
    ensures Fit(length, end, off, Loop(length, end, size, off, rounds))
    decreases end + 1 - off
  {
    hide *;
    if off > end || !Sends(ReadFirst(length, end, size, off, rounds)) {
      FitsAtEnd(length, end, size, off, rounds);
    } else if !First(rounds).writeOk {
      FitsOnLast(length, end, size, off, rounds);
    } else {
      var r := ReadFirst(length, end, size, off, rounds);
      SendsSome(r);
      LoopFits(length, end, size, off + r.n, Rest(rounds));
      FitsFurther(length, end, size, off, rounds);
    }
  }

  lemma {:induction false} FitsAtEnd(length: nat, end: nat, size: nat, off: nat, rounds: seq<Round>)
    requires off <= end + 1
    requires off > end || !Sends(ReadFirst(length, end, size, off, rounds))
    ensures Fit(length, end, off, Loop(length, end, size, off, rounds))
  {
    OneRound(length, end, size, off, rounds);
    NoPieces(length, off);
    hide Loop, ReadFirst;
  }

  lemma {:induction false} FitsOnLast(length: nat, end: nat, size: nat, off: nat, rounds: seq<Round>)
    requires off <= end && Sends(ReadFirst(length, end, size, off, rounds)) && !First(rounds).writeOk
    ensures Fit(length, end, off, Loop(length, end, size, off, rounds))
  {
    OneRound(length, end, size, off, rounds);
    NoPieces(length, off);
    var r := ReadFirst(length, end, size, off, rounds);
    hide Loop, ReadFirst, Size, Inside;
    MorePieces(length, Sent(r, First(rounds)), []);
  }

  lemma FitsFurther(length: nat, end: nat, size: nat, off: nat, rounds: seq<Round>)
    requires off <= end && Sends(ReadFirst(length, end, size, off, rounds)) && First(rounds).writeOk
    requires var n := ReadFirst(length, end, size, off, rounds).n;
             Fit(length, end, off + n, Loop(length, end, size, off + n, Rest(rounds)))
    ensures Fit(length, end, off, Loop(length, end, size, off, rounds))
  {
    OneRound(length, end, size, off, rounds);
    var r := ReadFirst(length, end, size, off, rounds);
    hide Loop, ReadFirst, Size, Inside;
    MorePieces(length, Sent(r, First(rounds)), Loop(length, end, size, off + r.n, Rest(rounds)).pieces);
  }

  /** One turn of the loop, and what comes after. */
  lemma OneRound(length: nat, end: nat, size: nat, off: nat, rounds: seq<Round>)
    ensures var s := Loop(length, end, size, off, rounds);
            if off > end then s == Served([], Complete)
            else
              var r, q := ReadFirst(length, end, size, off, rounds), First(rounds);
              if !Sends(r) then s == Served([], if r.error == Failed then Error(Failed) else Starved)
              else if !q.writeOk then s == Served([Sent(r, q)] + [], Error(Failed))
              else
                var later := Loop(length, end, size, off + r.n, Rest(rounds));
                s == Served([Sent(r, q)] + later.pieces, later.outcome)
  {
    hide ReadFirst, Retry;
  }

  lemma {:induction false} NoPieces(length: nat, off: nat)
    ensures InPlace(off, []) && Inside(length, []) && Size([]) == 0
  {
  }

  lemma {:induction false} MorePieces(length: nat, p: Piece, later: seq<Piece>)
    ensures var s := [p] + later;
            && Size(s) == p.n + Size(later)
            && (Inside(length, s) <==> Inside(length, later) && (p.n > 0 ==> p.at + p.n <= length))
  {
    var s := [p] + later;
    assert s[1..] == later && s[0] == p;
    assert forall x :: x in s <==> x == p || x in later;
  }

  lemma {:induction false} MoreInPlace(off: nat, p: Piece, later: seq<Piece>)
    ensures InPlace(off, [p] + later) <==> (p.n == 0 || p.at == off) && InPlace(off + p.n, later)
  {
    var s := [p] + later;
    assert s[1..] == later && s[0] == p;
  }

  lemma {:induction false} BodyOfOne(content: Bytes, p: Piece)
    requires p.n > 0 ==> p.at + p.n <= |content|
    ensures Inside(|content|, [p]) && Body(content, [p]) == PieceOf(content, p)
  {
    assert [p][1..] == [];
    assert Body(content, [p]) == PieceOf(content, p) + Body(content, []);
  }

  lemma {:induction false} BodyAppend(content: Bytes, a: seq<Piece>, b: seq<Piece>)
    requires Inside(|content|, a) && Inside(|content|, b)
    ensures Inside(|content|, a + b) && Body(content, a + b) == Body(content, a) + Body(content, b)
    decreases |a|
  {
    assert forall p | p in a + b :: p in a || p in b;
    if a == [] {
      assert a + b == b;
    } else {
      assert (a + b)[1..] == a[1..] + b;
      assert forall p | p in a[1..] :: p in a;
      BodyAppend(content, a[1..], b);
    }
  }

  /** Every piece comes from its own place in the range. */
  predicate InPlace(off: nat, pieces: seq<Piece>)
    decreases |pieces|
  {
    pieces != [] ==> (pieces[0].n == 0 || pieces[0].at == off) && InPlace(off + pieces[0].n, pieces[1..])
  }

  lemma {:induction false} InPlaceIsRange(content: Bytes, off: nat, pieces: seq<Piece>)
    requires Inside(|content|, pieces) && InPlace(off, pieces) && off + Size(pieces) <= |content|
    ensures Body(content, pieces) == content[off..off + Size(pieces)]
    decreases |pieces|
  {
    hide *;
    if pieces == [] {
      NothingInPlace(content, off);
    } else {
      FirstPiece(content, off, pieces);
      var mid, last := off + pieces[0].n, off + Size(pieces);
      InPlaceIsRange(content, mid, pieces[1..]);
      Adjoin(content, off, mid, last);
    }
  }

  lemma {:induction false} NothingInPlace(content: Bytes, off: nat)
    requires off <= |content|
    ensures Inside(|content|, []) && Size([]) == 0 && Body(content, []) == content[off..off]
  {
  }

  lemma FirstPiece(content: Bytes, off: nat, pieces: seq<Piece>)
    requires Inside(|content|, pieces) && InPlace(off, pieces) && off + Size(pieces) <= |content| && pieces != []
    ensures var mid, last := off + pieces[0].n, off + Size(pieces);
            && Inside(|content|, pieces[1..]) && InPlace(mid, pieces[1..])
            && last == mid + Size(pieces[1..]) <= |content|
            && Body(content, pieces) == content[off..mid] + Body(content, pieces[1..])
  {
    assert forall p | p in pieces[1..] :: p in pieces;
    assert pieces[0] in pieces;
    assert Size(pieces) == pieces[0].n + Size(pieces[1..]) && InPlace(off + pieces[0].n, pieces[1..]);
    assert Body(content, pieces) == PieceOf(content, pieces[0]) + Body(content, pieces[1..]);
    hide InPlace, Body, Size, PieceOf;
    PlacedPiece(content, pieces[0], off);
  }

  lemma PlacedPiece(content: Bytes, p: Piece, off: nat)
    requires (p.n > 0 ==> p.at + p.n <= |content|) && (p.n == 0 || p.at == off) && off + p.n <= |content|
    ensures PieceOf(content, p) == content[off..off + p.n]
  {
  }

  lemma Adjoin(content: Bytes, a: nat, b: nat, c: nat)
    requires a <= b <= c <= |content|
    ensures content[a..b] + content[b..c] == content[a..c]
  {
  }

  /** A piece from elsewhere shows in the body of some file. */
  lemma {:induction false} OutOfPlaceShows(length: nat, off: nat, end: nat, pieces: seq<Piece>) returns (content: Bytes)
    requires Inside(length, pieces) && !InPlace(off, pieces) && off + Size(pieces) <= end + 1 <= length
    ensures |content| == length && !(Body(content, pieces) <= content[off..end + 1])
    decreases |pieces|
  {
    assert forall p | p in pieces[1..] :: p in pieces;
    var p := pieces[0];
    if p.n > 0 && p.at != off {
      content := Marked(length, p.at);
      assert Body(content, pieces)[0] == PieceOf(content, p)[0] == 1 && content[off..end + 1][0] == 0;
    } else {
      content := OutOfPlaceShows(length, off + p.n, end, pieces[1..]);
      var first, later := PieceOf(content, p), Body(content, pieces[1..]);
      PrefixOfRest(first, later, content[off..end + 1]);
      assert content[off..end + 1][p.n..] == content[off + p.n..end + 1];
    }
  }

  lemma PrefixOfRest(a: Bytes, b: Bytes, c: Bytes)
    requires |a| <= |c|
    ensures a + b <= c ==> b <= c[|a|..]
  {
    if a + b <= c {
      assert c[|a|..][..|b|] == (a + b)[|a|..] == b;
    }
  }

  /** The delivering reads of the loop were quiet, as far as their bytes were written. */
  predicate Undisturbed(length: nat, end: nat, size: nat, off: nat, rounds: seq<Round>)
    decreases end + 1 - off
  {
    off <= end ==>
      var r := ReadFirst(length, end, size, off, rounds);
      Sends(r) ==>
        var q := First(rounds);
        if q.writeOk then
          Quiet(q.attempts, MAX_READ_RETRIES) && Undisturbed(length, end, size, off + r.n, Rest(rounds))
        else q.accepted == 0 || Quiet(q.attempts, MAX_READ_RETRIES)
  }

  lemma {:induction false} UndisturbedIsInPlace(length: nat, end: nat, size: nat, off: nat, rounds: seq<Round>)
    requires off <= end + 1
    ensures InPlace(off, Loop(length, end, size, off, rounds).pieces) <==> Undisturbed(length, end, size, off, rounds)
    decreases end + 1 - off
  {
    hide *;
    if off > end || !Sends(ReadFirst(length, end, size, off, rounds)) {
      AgreesAtEnd(length, end, size, off, rounds);
    } else if !First(rounds).writeOk {
      AgreesOnLast(length, end, size, off, rounds);
    } else {
      var r := ReadFirst(length, end, size, off, rounds);
      SendsSome(r);
      UndisturbedIsInPlace(length, end, size, off + r.n, Rest(rounds));
      AgreesFurther(length, end, size, off, rounds);
    }
  }

  lemma {:induction false} AgreesAtEnd(length: nat, end: nat, size: nat, off: nat, rounds: seq<Round>)
    requires off > end || !Sends(ReadFirst(length, end, size, off, rounds))
    ensures InPlace(off, Loop(length, end, size, off, rounds).pieces) <==> Undisturbed(length, end, size, off, rounds)
  {
    NoPieces(length, off);
  }

  lemma AgreesOnLast(length: nat, end: nat, size: nat, off: nat, rounds: seq<Round>)
    requires off <= end && Sends(ReadFirst(length, end, size, off, rounds)) && !First(rounds).writeOk
    ensures InPlace(off, Loop(length, end, size, off, rounds).pieces) <==> Undisturbed(length, end, size, off, rounds)
  {
    hide *;
    var r, q := ReadFirst(length, end, size, off, rounds), First(rounds);
    OneRound(length, end, size, off, rounds);
    FirstInPlace(length, end, size, off, rounds);
    OneUndisturbed(length, end, size, off, rounds);
    SendsSome(r);
    MoreInPlace(off, Sent(r, q), []);
    NoPieces(length, off + Sent(r, q).n);
  }

  lemma AgreesFurther(length: nat, end: nat, size: nat, off: nat, rounds: seq<Round>)
    requires off <= end && Sends(ReadFirst(length, end, size, off, rounds)) && First(rounds).writeOk
    requires var n := ReadFirst(length, end, size, off, rounds).n;
             InPlace(off + n, Loop(length, end, size, off + n, Rest(rounds)).pieces)
             <==> Undisturbed(length, end, size, off + n, Rest(rounds))
    ensures InPlace(off, Loop(length, end, size, off, rounds).pieces) <==> Undisturbed(length, end, size, off, rounds)
  {
    hide *;
    var r := ReadFirst(length, end, size, off, rounds);
    OneRound(length, end, size, off, rounds);
    FirstInPlace(length, end, size, off, rounds);
    OneUndisturbed(length, end, size, off, rounds);
    SendsSome(r);
    MoreInPlace(off, Sent(r, First(rounds)), Loop(length, end, size, off + r.n, Rest(rounds)).pieces);
  }

  lemma OneUndisturbed(length: nat, end: nat, size: nat, off: nat, rounds: seq<Round>)
    requires off <= end
    ensures var r, q := ReadFirst(length, end, size, off, rounds), First(rounds);
            Undisturbed(length, end, size, off, rounds) <==>
            if !Sends(r) then true
            else if q.writeOk then
              Quiet(q.attempts, MAX_READ_RETRIES) && Undisturbed(length, end, size, off + r.n, Rest(rounds))
            else q.accepted == 0 || Quiet(q.attempts, MAX_READ_RETRIES)
  {
    hide ReadFirst, Retry, Quiet;
  }

  lemma FirstInPlace(length: nat, end: nat, size: nat, off: nat, rounds: seq<Round>)
    requires off <= end
    ensures var r, q := ReadFirst(length, end, size, off, rounds), First(rounds);
            r.n > 0 ==> (r.at == off <==> Quiet(q.attempts, MAX_READ_RETRIES))
  {
    PlaceLaw(length, off, Min(size, end + 1 - off), First(rounds).attempts, MAX_READ_RETRIES);
    hide Retry, Quiet;
  }

  /** The exact law of the loop: the body is a first part of the range, whatever the file holds, if and
      only if it never starts or no read whose bytes were written had failed before with bytes taken.
      In any case a loop that completes has written as many bytes as the range has. */
  lemma {:induction false} RangeLaw(closed: bool, length: nat, start: nat, end: nat, size: nat, probe: Round,
      rounds: seq<Round>)
    requires start <= end < length
    ensures var s := Serving(closed, length, start, end, size, probe, rounds);
            && Inside(length, s.pieces)
            && (s.outcome == Complete ==> Size(s.pieces) == end - start + 1)
            && ((forall content: Bytes | |content| == length :: Body(content, s.pieces) <= content[start..end + 1])
                <==> Opening(closed, length, start, probe) != Fine || Undisturbed(length, end, size, start, rounds))
  {
    var s := Serving(closed, length, start, end, size, probe, rounds);
    LoopFits(length, end, size, start, rounds);
    UndisturbedIsInPlace(length, end, size, start, rounds);
    hide Loop, Undisturbed, InPlace, Body;
    if Opening(closed, length, start, probe) != Fine {
      forall content: Bytes | |content| == length ensures Body(content, s.pieces) <= content[start..end + 1] {
        assert |Body(content, s.pieces)| == 0;
      }
    } else if Undisturbed(length, end, size, start, rounds) {
      forall content: Bytes | |content| == length ensures Body(content, s.pieces) <= content[start..end + 1] {
        InPlaceIsRange(content, start, s.pieces);
      }
    } else {
      var content := OutOfPlaceShows(length, start, end, s.pieces);
    }
  }

  // ---- when it completes ---------------------------------------------------------------------

  /** All turns that the loop makes deliver, with an end of the file beside the bytes or without, and the
      writer takes what each delivers. */
  predicate AllDeliver(length: nat, end: nat, size: nat, off: nat, rounds: seq<Round>)
    decreases end + 1 - off
  {
    off <= end ==>
      var r := ReadFirst(length, end, size, off, rounds);
      && (r.error == Fine || r.error == EOF) && r.n > 0 && First(rounds).writeOk
      && AllDeliver(length, end, size, off + r.n, Rest(rounds))
  }

  /** The first turn that does not end so is one whose read brings nothing without having failed. */
  predicate RunsDry(length: nat, end: nat, size: nat, off: nat, rounds: seq<Round>)
    decreases end + 1 - off
  {
    off <= end &&
    var r := ReadFirst(length, end, size, off, rounds);
    if r.error == Failed then false
    else if r.n == 0 then true
    else First(rounds).writeOk && RunsDry(length, end, size, off + r.n, Rest(rounds))
  }

  lemma {:induction false} LoopCompletes(length: nat, end: nat, size: nat, off: nat, rounds: seq<Round>)
    ensures Loop(length, end, size, off, rounds).outcome == Complete <==> AllDeliver(length, end, size, off, rounds)
    ensures Loop(length, end, size, off, rounds).outcome == Starved <==> RunsDry(length, end, size, off, rounds)
    decreases end + 1 - off
  {
    hide Loop, ReadFirst, First, Rest, Sent;
    OneRound(length, end, size, off, rounds);
    if off <= end && ReadFirst(length, end, size, off, rounds).n > 0 {
      LoopCompletes(length, end, size, off + ReadFirst(length, end, size, off, rounds).n, Rest(rounds));
    }
  }

  /** The attempt that settles a read: the first of five that does not fail, or the fifth. */
  function Settling(attempts: seq<Attempt>, tries: nat): Attempt
    decreases tries
  {
    if Head(attempts).error != Failed || tries <= 1 then Head(attempts) else Settling(Tail(attempts), tries - 1)
  }

  /** A read fails if and only if its first five attempts do; a reader with nothing more to do is at the
      end of its file. */
  lemma RetryFails(length: nat, off: nat, m: nat, attempts: seq<Attempt>)
    ensures Retry(length, off, m, attempts, MAX_READ_RETRIES).error == Failed <==>
            |attempts| >= 5 && forall i | 0 <= i < 5 :: attempts[i].error == Failed
  {
    FailsAfter(length, off, m, attempts, 5);
  }

  lemma {:induction false} FailsAfter(length: nat, pos: nat, m: nat, attempts: seq<Attempt>, tries: nat)
    requires tries > 0
    ensures Retry(length, pos, m, attempts, tries).error == Failed <==>
            |attempts| >= tries && forall i | 0 <= i < tries :: attempts[i].error == Failed
    ensures Retry(length, pos, m, attempts, tries).error == Settling(attempts, tries).error
    decreases tries
  {
    OneAttempt(length, pos, m, attempts, tries);
    if Head(attempts).error == Failed && tries > 1 {
      FailsAfter(length, pos + Taken(Head(attempts), m, pos, length), m, Tail(attempts), tries - 1);
      assert forall i | 0 < i < |attempts| :: attempts[i] == Tail(attempts)[i - 1];
    }
    hide Retry, Taken;
  }

  /** How often a read is tried again. */
  function Failures(attempts: seq<Attempt>, tries: nat): (n: nat)
    ensures n <= tries
    decreases tries
  {
    if tries == 0 || Head(attempts).error != Failed then 0 else 1 + Failures(Tail(attempts), tries - 1)
  }

  /** The whole response, from the scripts alone: it is complete if and only if the buffer is open, one
      byte can be asked for at the start of the range without any error, and every turn delivers. */
  lemma ServingCompletes(closed: bool, length: nat, start: nat, end: nat, size: nat, probe: Round, rounds: seq<Round>)
    ensures var s := Serving(closed, length, start, end, size, probe, rounds);
            && (s.outcome == Complete <==>
                  && !closed && probe.seekOk && Settling(probe.attempts, 5).error == Fine
                  && AllDeliver(length, end, size, start, rounds))
            && (s.outcome == Starved <==>
                  && !closed && probe.seekOk && Settling(probe.attempts, 5).error == Fine
                  && RunsDry(length, end, size, start, rounds))
            && (closed ==> s == Served([], Error(EOF)))
  {
    FailsAfter(length, start, 1, probe.attempts, 5);
    LoopCompletes(length, end, size, start, rounds);
    hide Loop, AllDeliver, RunsDry, Retry, Settling;
  }

  /** A file of two bytes that comes with its end in one read: both bytes are sent. */
  lemma LastBytesComeWithEnd()
    ensures var all := Round(true, [Attempt(2, EOF)], true, 0);
            Serving(false, 2, 0, 1, 2, Round(true, [Attempt(1, Fine)], true, 0), [all])
            == Served([Piece(0, 2)], Complete)
  {
    var all := Round(true, [Attempt(2, EOF)], true, 0);
    OneRound(2, 1, 2, 0, [all]);
    OneRound(2, 1, 2, 2, Rest([all]));
    assert ReadFirst(2, 1, 2, 0, [all]) == Delivery(0, 2, EOF);
    assert [Piece(0, 2)] + [] == [Piece(0, 2)];
  }
}
