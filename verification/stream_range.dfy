/**
  Serving a byte range: the loop that reads the file in chunks through the session's buffer, with
  short reads, failing reads that are tried again, and writers that give up.  What the reader and the
  writer do is a parameter; what comes of it is defined in `RangeReads`.
 */
module StreamRange {
  import opened Arith
  import opened Types
  import opened Wrappers
  import opened Ranges
  import opened RangeReads

  /** The reader of a torrent's file. */
  class Source {
    const content: Bytes
    var position: nat

    constructor (content: Bytes)
      ensures this.content == content && position == 0
    {
      this.content, position := content, 0;
    }

    method Seek(offset: nat, ok: bool)
      modifies this
      ensures position == if ok then offset else old(position)
    {
      if ok {
        position := offset;
      }
    }

    /** Reads into the first m places of p. */
    method Read(p: array<Byte>, m: nat, a: Attempt) returns (n: nat, err: Error)
      requires m <= p.Length
      modifies this, p
      ensures n == Taken(a, m, old(position), |content|) && err == a.error && position == old(position) + n
      ensures n > 0 ==> p[..n] == content[old(position)..position]
    {
      n, err := Taken(a, m, position, |content|), a.error;
      if n > 0 {
        forall i | 0 <= i < n {
          p[i] := content[position + i];
        }
      }
      position := position + n;
    }
  }

  /** The part of the session's buffer that random access goes through. */
  class Buffer {
    const reader: Source
    const data: array<Byte>
    var readIndex: nat
    var writeIndex: nat
    var closed: bool

    /** Where the file starts within its torrent. */
    const offset: nat

    var cacheHits: nat
    var cacheMisses: nat
    var bytesRead: nat
    var readRetries: nat

    /** A read at this place is answered from the buffer. */
    predicate Buffered(off: int)
      reads `readIndex, `writeIndex
    {
      offset <= off < offset + writeIndex - readIndex
    }

    /** No read that starts in the range is. */
    predicate Bypassed(start: int, end: int)
      reads `readIndex, `writeIndex
    {
      forall off | start <= off <= end :: !Buffered(off)
    }

    constructor (reader: Source, data: array<Byte>, offset: nat)
      ensures this.reader == reader && this.data == data && !closed && forall start, end :: Bypassed(start, end)
    {
      this.reader, this.data, this.offset := reader, data, offset;
      readIndex, writeIndex, closed := 0, 0, false;
      cacheHits, cacheMisses, bytesRead, readRetries := 0, 0, 0, 0;
    }

    /** Tries a failing read again, at most five times in all. */
    method RetryRead(p: array<Byte>, m: nat, attempts: seq<Attempt>) returns (n: nat, err: Error)
      requires m <= p.Length && p != data
      modifies reader, p, `readRetries
      ensures var r := Retry(|reader.content|, old(reader.position), m, attempts, MAX_READ_RETRIES);
              && n == r.n && err == r.error
              && (n > 0 ==> p[..n] == reader.content[r.at..r.at + n])
      ensures readRetries == old(readRetries) + Failures(attempts, MAX_READ_RETRIES) <= old(readRetries) + 5
    {
      hide Retry, Taken;
      var rest := attempts;
      ghost var r := Retry(|reader.content|, reader.position, m, attempts, MAX_READ_RETRIES);
      n, err := 0, Fine;
      for i := 0 to MAX_READ_RETRIES
        invariant readRetries == old(readRetries) + i
        invariant i + Failures(rest, MAX_READ_RETRIES - i) == Failures(attempts, MAX_READ_RETRIES)
        invariant i < MAX_READ_RETRIES ==> Retry(|reader.content|, reader.position, m, rest, MAX_READ_RETRIES - i) == r
        invariant i == MAX_READ_RETRIES ==> n == r.n && err == r.error
        invariant i == MAX_READ_RETRIES && n > 0 ==> p[..n] == reader.content[r.at..r.at + n]
      {
        OneAttempt(|reader.content|, reader.position, m, rest, MAX_READ_RETRIES - i);
        n, err := reader.Read(p, m, Head(rest));
        if err == Fine || err == EOF {
          return;
        }
        rest := Tail(rest);
        readRetries := readRetries + 1;
      }
    }

    /** A hit copies what the buffer holds from the place on, however much of it was ever written; the
        program would stop if the place lay beyond the buffer. */
    method ReadAt(p: array<Byte>, m: nat, off: nat, seekOk: bool, attempts: seq<Attempt>) returns (n: nat, err: Error)
      requires m <= p.Length && p != data && (!closed && Buffered(off) ==> off - offset <= data.Length)
      modifies `cacheHits, `cacheMisses, `bytesRead, `readRetries, reader, p
      ensures n <= m
      ensures closed ==> n == 0 && err == EOF
      ensures !closed && Buffered(off) ==>
                && n == Min(m, data.Length - (off - offset)) && err == Fine
                && p[..n] == data[off - offset..off - offset + n]
                && reader.position == old(reader.position)
      ensures !closed && !Buffered(off) ==>
                var r := ReadAtOnce(|reader.content|, m, off, seekOk, attempts);
                && n == r.n && err == r.error
                && (n > 0 ==> p[..n] == reader.content[r.at..r.at + n])
      ensures cacheHits == old(cacheHits) + (if !closed && Buffered(off) then 1 else 0)
      ensures cacheMisses == old(cacheMisses) + (if !closed && !Buffered(off) then 1 else 0)
      ensures bytesRead == old(bytesRead) + n
    {
      hide Retry, Min;
      if closed {
        return 0, EOF;
      }
      var bufferStart := offset;
      var bufferEnd := bufferStart + writeIndex - readIndex;
      if bufferStart <= off < bufferEnd {
        var relativeOffset: nat := off - bufferStart;
        n := Min(m, data.Length - relativeOffset);
        forall i | 0 <= i < n {
          p[i] := data[relativeOffset + i];
        }
        cacheHits, bytesRead := cacheHits + 1, bytesRead + n;
        return n, Fine;
      }
      cacheMisses := cacheMisses + 1;
      reader.Seek(off, seekOk);
      if !seekOk {
        return 0, Failed;
      }
      n, err := RetryRead(p, m, attempts);
      bytesRead := bytesRead + n;
    }
  }

  // ---- the response --------------------------------------------------------------------------

  datatype Headers = Headers(contentRange: Option<(int, int, int)>, contentLength: Option<int>)

  class ResponseWriter {
    var status: int
    var headers: Headers
    var body: Bytes

    constructor ()
      ensures status == 0 && headers == Headers(Option.None, Option.None) && body == []
    {
      status, headers, body := 0, Headers(Option.None, Option.None), [];
    }

    /** Writes all of it, or fails having written a part. */
    method Write(p: Bytes, ok: bool, accepted: nat)
      modifies `body
      ensures body == old(body) + if ok then p else p[..Min(accepted, |p|)]
    {
      body := body + if ok then p else p[..Min(accepted, |p|)];
    }
  }

  /** One turn of the loop: reads the next chunk and hands it to the writer. */
  method ServeChunk(w: ResponseWriter, b: Buffer, chunk: array<Byte>, length: nat, offset: nat, q: Round)
    returns (n: nat, done: bool, r: Outcome)
    requires !b.Buffered(offset) && !b.closed && length <= chunk.Length && chunk != b.data
    modifies w`body, b`cacheHits, b`cacheMisses, b`bytesRead, b`readRetries, b.reader, chunk
    ensures var d := ReadAtOnce(|b.reader.content|, length, offset, q.seekOk, q.attempts);
            && done == !(Sends(d) && q.writeOk) && (!done ==> n == d.n)
            && (Sends(d) ==> w.body == old(w.body) + PieceOf(b.reader.content, Sent(d, q)))
            && (!Sends(d) ==> w.body == old(w.body))
            && (done ==> r == if Sends(d) || d.error == Failed then Outcome.Error(Failed) else Starved)
  {
    hide Retry;
    var err;
    n, err := b.ReadAt(chunk, length, offset, q.seekOk, q.attempts);
    done, r := true, Outcome.Error(Failed);
    if err != Fine && err != EOF {
      return;
    }
    if n == 0 {
      r := Starved;
      return;
    }
    ghost var d := ReadAtOnce(|b.reader.content|, length, offset, q.seekOk, q.attempts);
    w.Write(chunk[..n], q.writeOk, q.accepted);
    assert PieceOf(b.reader.content, Sent(d, q)) == chunk[..n][..Sent(d, q).n];
    assert chunk[..n][..n] == chunk[..n];
    done := !q.writeOk;
  }

  /** The loop of streamRange.  The chunk only ever gets shorter, and never has to get longer: at each
      read it is as long as the write buffer or as what is missing, whichever is less. */
  method ServeRange(w: ResponseWriter, b: Buffer, start: nat, end: nat, writeBufferSize: nat,
                    probe: Round, rounds: seq<Round>)
    returns (r: Outcome)
    requires b.Bypassed(start, end) && start <= end < |b.reader.content|
    modifies w`body, b`cacheHits, b`cacheMisses, b`bytesRead, b`readRetries, b.reader
    ensures var s := Serving(b.closed, |b.reader.content|, start, end, writeBufferSize, probe, rounds);
            && r == s.outcome
            && Inside(|b.reader.content|, s.pieces)
            && w.body == old(w.body) + Body(b.reader.content, s.pieces)
  {
    var first := new Byte[1];
    var _, probeErr := b.ReadAt(first, 1, start, probe.seekOk, probe.attempts);
    if probeErr != Fine {
      NoBody(b.reader.content);
      return Outcome.Error(probeErr);
    }
    r := ServeLoop(w, b, start, end, writeBufferSize, rounds);
  }

  /** What has been sent, and what the loop will make of the rest, is what it makes of everything. */
  ghost predicate Progress(length: nat, end: nat, size: nat, off: nat, rest: seq<Round>, sent: seq<Piece>, s: Served) {
    var later := Loop(length, end, size, off, rest);
    s == Served(sent + later.pieces, later.outcome)
  }

  lemma {:induction false} Begins(length: nat, end: nat, size: nat, off: nat, rounds: seq<Round>)
    ensures Progress(length, end, size, off, rounds, [], Loop(length, end, size, off, rounds))
  {
    hide Loop;
    assert [] + Loop(length, end, size, off, rounds).pieces == Loop(length, end, size, off, rounds).pieces;
  }

  lemma Progresses(length: nat, end: nat, size: nat, off: nat, rest: seq<Round>,
      sent: seq<Piece>, s: Served)
    requires off <= end && Progress(length, end, size, off, rest, sent, s)
    ensures var r, q := ReadFirst(length, end, size, off, rest), First(rest);
            && (!Sends(r) ==> s == Served(sent, if r.error == Failed then Outcome.Error(Failed) else Starved))
            && (Sends(r) && !q.writeOk ==> s == Served(sent + [Sent(r, q)], Outcome.Error(Failed)))
            && (Sends(r) && q.writeOk ==> Progress(length, end, size, off + r.n, Rest(rest), sent + [Sent(r, q)], s))
  {
    OneRound(length, end, size, off, rest);
    hide Loop, ReadFirst, First, Rest, Sends, Sent;
    var p := Sent(ReadFirst(length, end, size, off, rest), First(rest));
    assert sent + [] == sent && [p] + [] == [p];
    var later := Loop(length, end, size, off + ReadFirst(length, end, size, off, rest).n, Rest(rest)).pieces;
    assert sent + ([p] + later) == sent + [p] + later;
  }

  lemma Ends(length: nat, end: nat, size: nat, off: nat, rest: seq<Round>, sent: seq<Piece>,
      s: Served)
    requires off > end && Progress(length, end, size, off, rest, sent, s)
    ensures s == Served(sent, Complete)
  {
    assert sent + [] == sent;
  }

  method ServeLoop(w: ResponseWriter, b: Buffer, start: nat, end: nat, writeBufferSize: nat, rounds: seq<Round>)
    returns (r: Outcome)
    requires b.Bypassed(start, end) && !b.closed && start <= end < |b.reader.content|
    modifies w`body, b`cacheHits, b`cacheMisses, b`bytesRead, b`readRetries, b.reader
    ensures var s := Loop(|b.reader.content|, end, writeBufferSize, start, rounds);
            && r == s.outcome
            && Inside(|b.reader.content|, s.pieces)
            && w.body == old(w.body) + Body(b.reader.content, s.pieces)
  {
    hide Loop, Progress, ReadFirst, ReadAtOnce, Retry, Taken, Sends, Body, Inside, First, Rest, Sent, Min;
    ghost var content := b.reader.content;
    ghost var s := Loop(|content|, end, writeBufferSize, start, rounds);
    var chunk := new Byte[writeBufferSize];
    var length := writeBufferSize;
    var offset := start;
    var rest := rounds;
    ghost var sent: seq<Piece> := [];
    var done := false;
    NoBody(content);
    Begins(|content|, end, writeBufferSize, start, rounds);
    while offset <= end
      invariant start <= offset <= end + 1 && !b.closed && b.Bypassed(start, end)
      invariant Inside(|content|, sent) && w.body == old(w.body) + Body(content, sent)
      invariant Progress(|content|, end, writeBufferSize, offset, rest, sent, s)
      invariant length <= writeBufferSize == chunk.Length
      invariant length == writeBufferSize || length >= end - offset + 1
      decreases end + 1 - offset
    {
      var remaining := end - offset + 1;
      if remaining < length {
        length := remaining;
      }
      LeastIs(length, writeBufferSize, remaining);
      Progresses(|content|, end, writeBufferSize, offset, rest, sent, s);
      ChunkIsFirst(|content|, end, writeBufferSize, offset, rest);
      ghost var d, was := ReadFirst(|content|, end, writeBufferSize, offset, rest), w.body;
      var n, outcome;
      n, done, outcome := ServeChunk(w, b, chunk, length, offset, First(rest));
      if Sends(d) {
        ghost var p := Sent(d, First(rest));
        PieceWritten(content, sent, p, old(w.body), was, w.body);
        sent := sent + [p];
      }
      if done {
        return outcome;
      }
      offset := offset + n;
      rest := Rest(rest);
    }
    Ends(|content|, end, writeBufferSize, offset, rest, sent, s);
    r := Complete;
  }

  lemma {:induction false} NoBody(content: Bytes)
    ensures Inside(|content|, []) && Body(content, []) == []
  {
  }

  lemma LeastIs(length: nat, size: nat, remaining: nat)
    requires length <= remaining && length <= size && (length == size || length == remaining)
    ensures length == Min(size, remaining)
  {
  }

  lemma ChunkIsFirst(length: nat, end: nat, size: nat, off: nat, rounds: seq<Round>)
    requires off <= end
    ensures ReadFirst(length, end, size, off, rounds)
         == ReadAtOnce(length, Min(size, end - off + 1), off, First(rounds).seekOk, First(rounds).attempts)
    ensures Sends(ReadFirst(length, end, size, off, rounds)) ==> ReadFirst(length, end, size, off, rounds).n > 0
  {
    hide Retry;
  }

  /** What the writer takes of a chunk is one more piece of the body. */
  lemma {:induction false} PieceWritten(content: Bytes, sent: seq<Piece>, p: Piece, before: Bytes, was: Bytes,
      now: Bytes)
    requires Inside(|content|, sent) && (p.n > 0 ==> p.at + p.n <= |content|)
    requires was == before + Body(content, sent) && now == was + PieceOf(content, p)
    ensures Inside(|content|, sent + [p]) && now == before + Body(content, sent + [p])
  {
    hide *;
    BodyOfOne(content, p);
    BodyAppend(content, sent, [p]);
    Associative(before, Body(content, sent), PieceOf(content, p));
  }

  lemma Associative(a: Bytes, b: Bytes, c: Bytes)
    ensures (a + b) + c == a + (b + c)
  {
  }

  /** A range request from its header to its body.  A refusal writes nothing.  Otherwise the body is what
      the reads and writes make of it: a first part of the range that was parsed unless a read whose
      bytes were written had failed before with bytes taken, and of exactly the declared length if the
      loop completes. */
  method HandleStreamRange(w: ResponseWriter, header: string, b: Buffer, writeBufferSize: nat,
                           probe: Round, rounds: seq<Round>)
    returns (r: Option<Outcome>)
    requires w.body == [] && header != ""
    requires ParseRange(header, |b.reader.content|).Ok? ==>
               var (start, end) := ParseRange(header, |b.reader.content|).value; b.Bypassed(start, end)
    modifies w, b`cacheHits, b`cacheMisses, b`bytesRead, b`readRetries, b.reader
    ensures var fileSize := |b.reader.content|;
            match ParseRange(header, fileSize)
            case Err(_) => r == Option.None && w.body == [] && w.status == old(w.status)
            case Ok((start, end)) =>
              var s := Serving(b.closed, fileSize, start, end, writeBufferSize, probe, rounds);
              && 0 <= start <= end < fileSize
              && r == Some(s.outcome) && w.status == 206
              && w.headers == Headers(Some((start, end, fileSize)), Some(end - start + 1))
              && Inside(fileSize, s.pieces) && w.body == Body(b.reader.content, s.pieces)
              && (Undisturbed(fileSize, end, writeBufferSize, start, rounds) ==>
                    w.body <= b.reader.content[start..end + 1])
              && (r == Some(Complete) ==> |w.body| == w.headers.contentLength.value)
  {
    var fileSize := |b.reader.content|;
    match ParseRange(header, fileSize) {
      case Err(_) =>
        return Option.None;
      case Ok((start, end)) =>
        w.headers := Headers(Some((start, end, fileSize)), Some(end - start + 1));
        w.status := 206;
        var outcome := ServeRange(w, b, start, end, writeBufferSize, probe, rounds);
        RangeLaw(b.closed, fileSize, start, end, writeBufferSize, probe, rounds);
        r := Some(outcome);
    }
  }
}
