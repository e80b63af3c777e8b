/**
  Cutting a file into segments, and reading a segment piece by piece through a cache that may be
  cleaned up or emptied between any two reads.
 */
module Segments {
  import opened Arith
  import opened Types
  import opened Wrappers
  import opened Text
  import opened Playlist

  const DEFAULT_SEGMENT_SIZE := 10 * 1024 * 1024

  /** How many segments a file has: its length over the segment size, rounded up. */
  function CountFor(length: nat, size: nat): (n: nat)
    requires size > 0
  {
    (length + size - 1) / size
  }

  lemma CountCovers(length: nat, size: nat, i: nat)
    requires size > 0
    ensures i < CountFor(length, size) <==> i * size < length
  {
    var n := CountFor(length, size);
    var rest := (length + size - 1) % size;
    assert length + size - 1 == n * size + rest;
    if i < n {
      ProductOrder(i, n - 1, size);
      assert (n - 1) * size == n * size - size;
    } else {
      ProductOrder(n, i, size);
    }
  }

  lemma ProductOrder(a: nat, b: nat, c: nat)
    requires a <= b
    ensures a * c <= b * c
  {
  }

  /** The bytes of one segment. */
  function Segment(content: Bytes, size: nat, id: nat): Bytes
    requires size > 0 && id < CountFor(|content|, size)
  {
    CountCovers(|content|, size, id);
    content[id * size..Min(id * size + size, |content|)]
  }

  /** The first n segments, one after the other. */
  function FirstSegments(content: Bytes, size: nat, n: nat): Bytes
    requires size > 0 && n <= CountFor(|content|, size)
  {
    if n == 0 then [] else FirstSegments(content, size, n - 1) + Segment(content, size, n - 1)
  }

  lemma {:induction false} FirstSegmentsArePrefix(content: Bytes, size: nat, n: nat)
    requires size > 0 && n <= CountFor(|content|, size)
    ensures FirstSegments(content, size, n) == content[..Min(n * size, |content|)]
  {
    if n > 0 {
      FirstSegmentsArePrefix(content, size, n - 1);
      CountCovers(|content|, size, n - 1);
      assert n * size == (n - 1) * size + size;
      Adjoin(content, (n - 1) * size, Min((n - 1) * size + size, |content|));
    }
  }

  lemma Adjoin(content: Bytes, a: nat, b: nat)
    requires a <= b <= |content|
    ensures content[..a] + content[a..b] == content[..b]
  {
  }

  /** The segments of a file, one after the other, are the file; none of them is empty. */
  lemma {:induction false} SegmentsMakeTheFile(content: Bytes, size: nat)
    requires size > 0
    ensures FirstSegments(content, size, CountFor(|content|, size)) == content
    ensures forall id | 0 <= id < CountFor(|content|, size) :: 0 < |Segment(content, size, id)| <= size
  {
    var n := CountFor(|content|, size);
    FirstSegmentsArePrefix(content, size, n);
    CountCovers(|content|, size, n);
    assert content[..|content|] == content;
    forall id | 0 <= id < n ensures 0 < |Segment(content, size, id)| <= size {
      CountCovers(|content|, size, id);
    }
  }

  /** What a player puts together: the segments of the addresses it asks for, in order; nothing when
      one of them is refused. */
  function Fetch(content: Bytes, size: nat, ids: seq<Option<int>>): Option<Bytes>
    requires size > 0
  {
    if ids == [] then Some([])
    else
      var last := ids[|ids| - 1];
      if last.None? || last.value < 0 || last.value >= CountFor(|content|, size) then None
      else
        match Fetch(content, size, ids[..|ids| - 1])
        case None => None
        case Some(before) => Some(before + Segment(content, size, last.value))
  }

  lemma {:induction false} FetchAll(content: Bytes, size: nat, n: nat)
    requires size > 0 && n <= CountFor(|content|, size)
    ensures Fetch(content, size, seq(n, i => Some(i))) == Some(FirstSegments(content, size, n))
  {
    if n > 0 {
      var ids := seq(n, i => Some(i));
      assert ids[..n - 1] == seq(n - 1, i => Some(i));
      FetchAll(content, size, n - 1);
    }
  }

  /** End to end: a player that reads the playlist of a file and fetches every segment it names, in
      order, is refused none of them and ends up with exactly the file. */
  lemma {:induction false} PlaylistDeliversTheFile(content: Bytes, size: nat, duration: int)
    requires size > 0 && CountFor(|content|, size) <= MAX_INT64
    ensures var n := CountFor(|content|, size);
            Fetch(content, size, SegmentIds(Lines(Unlines(PlaylistLines(duration, n))))) == Some(content)
  {
    var n := CountFor(|content|, size);
    PlaylistNamesAllSegments(duration, n);
    FetchAll(content, size, n);
    SegmentsMakeTheFile(content, size);
  }

  // ---- the segmenter -------------------------------------------------------------------------

  datatype CachedSegment = CachedSegment(data: Bytes, lastAccess: int)

  const MAX_CACHE_SIZE := 100
  const MAX_CACHE_AGE := 300

  /** Leaving some segments aside, what is still cached is unchanged and what is gone was old. */
  ghost predicate OnlyOldGone(before: map<nat, CachedSegment>, after: map<nat, CachedSegment>, aside: set<nat>,
      now: int) {
    forall id | id in before && id !in aside ::
      if id in after then after[id] == before[id] else now - before[id].lastAccess > 300
  }

  class Segmenter {
    const content: Bytes
    const length: nat
    const segmentSize: nat
    const segmentCount: nat
    var cache: map<nat, CachedSegment>

    /** Whatever is cached is right. */
    ghost predicate Valid()
      reads this
    {
      && length == |content| && segmentSize > 0 && segmentCount == CountFor(length, segmentSize)
      && forall id | id in cache ::
           id < segmentCount && cache[id].data == Segment(content, segmentSize, id)
    }

    /** A size that is not positive means the default. */
    constructor (content: Bytes, segmentSize: int)
      ensures Valid() && this.content == content && cache == map[]
      ensures this.segmentSize == if segmentSize <= 0 then 10485760 else segmentSize
    {
      var size := if segmentSize <= 0 then DEFAULT_SEGMENT_SIZE else segmentSize;
      this.content := content;
      this.length := |content|;
      this.segmentSize := size;
      this.segmentCount := CountFor(|content|, size);
      cache := map[];
    }

    method GetSegment(segmentID: int) returns (r: Option<SegmentReader>)
      requires Valid()
      ensures r.Some? <==> 0 <= segmentID < segmentCount
      ensures r.Some? ==>
                && fresh(r.value) && r.value.segmenter == this
                && r.value.segmentID == segmentID && r.value.offset == 0
    {
      if segmentID < 0 || segmentID >= segmentCount {
        return None;
      }
      var reader := new SegmentReader(this, segmentID);
      return Some(reader);
    }

    /** Brings a segment into the cache, unless reading the file fails. */
    method CacheSegment(segmentID: nat, now: int, readOk: bool) returns (ok: bool)
      requires Valid() && segmentID < segmentCount
      modifies this
      ensures Valid() && ok == (readOk || segmentID in old(cache))
      ensures ok ==>
                && segmentID in cache && cache[segmentID].lastAccess == now
                && cache.Keys <= old(cache.Keys) + {segmentID}
      ensures segmentID in old(cache) ==>
                cache == old(cache)[segmentID := CachedSegment(old(cache)[segmentID].data, now)]
      ensures ok && segmentID !in old(cache) ==>
                && |cache| >= Min(100, |old(cache)| + 1)
                && (|cache| <= 100 || forall id | id in cache :: now - cache[id].lastAccess <= 300)
      ensures ok ==> OnlyOldGone(old(cache), cache, {segmentID}, now)
      ensures !ok ==> cache == old(cache)
    {
      hide CountFor, Segment;
      if segmentID in cache {
        cache := cache[segmentID := cache[segmentID].(lastAccess := now)];
        return true;
      }
      var data := ReadSegment(segmentID);
      if !readOk {
        return false;
      }
      cache := cache[segmentID := CachedSegment(data, now)];
      CleanupCache(now);
      ok := true;
    }

    /** The bytes of a segment, found by its place in the file. */
    method ReadSegment(segmentID: nat) returns (data: seq<Byte>)
      requires Valid() && segmentID < segmentCount
      ensures data == Segment(content, segmentSize, segmentID)
    {
      CountCovers(length, segmentSize, segmentID);
      var offset := segmentID * segmentSize;
      var remainingBytes := length - offset;
      var size := segmentSize;
      if remainingBytes < size {
        size := remainingBytes;
      }
      data := content[offset..offset + size];
    }

    /** Visits the cached segments in any order and removes old ones while there are too many. */
    method CleanupCache(now: int)
      requires Valid()
      modifies this
      ensures Valid() && cache.Keys <= old(cache.Keys) && OnlyOldGone(old(cache), cache, {}, now)
      ensures |cache| >= Min(100, |old(cache)|)
      ensures |cache| <= 100 || forall id | id in cache :: now - cache[id].lastAccess <= 300
    {
      if |cache| <= MAX_CACHE_SIZE {
        return;
      }
      var pending := cache.Keys;
      while pending != {}
        invariant Valid() && pending <= cache.Keys <= old(cache.Keys) && OnlyOldGone(old(cache), cache, {}, now)
        invariant forall id | id in cache && id !in pending :: now - cache[id].lastAccess <= MAX_CACHE_AGE
        invariant |cache| > MAX_CACHE_SIZE
      {
        var id :| id in pending;
        pending := pending - {id};
        if now - cache[id].lastAccess > MAX_CACHE_AGE {
          assert |cache.Keys - {id}| == |cache.Keys| - 1;
          cache := cache - {id};
        }
        if |cache| <= MAX_CACHE_SIZE {
          break;
        }
      }
    }

    method Close()
      requires Valid()
      modifies this
      ensures Valid() && cache == map[]
    {
      cache := map[];
    }
  }

  datatype ReadError = Nil | EOF | Failed

  datatype Whence = SeekStart | SeekCurrent | SeekEnd | Other

  /** Where a seek gets to, or how it fails; the last way is that of a program that stops. */
  datatype Sought = At(offset: nat) | Negative | InvalidWhence | Panic

  class SegmentReader {
    const segmenter: Segmenter
    const segmentID: nat
    var offset: nat

    constructor (segmenter: Segmenter, segmentID: nat)
      ensures this.segmenter == segmenter && this.segmentID == segmentID && offset == 0
    {
      this.segmenter, this.segmentID, offset := segmenter, segmentID, 0;
    }

    ghost predicate Valid()
      reads this, segmenter
    {
      segmenter.Valid() && segmentID < segmenter.segmentCount
    }

    ghost function Bytes(): Bytes
      requires Valid()
      reads this, segmenter
    {
      Segment(segmenter.content, segmenter.segmentSize, segmentID)
    }

    /** Delivers the next bytes of the segment, whatever the cache holds. */
    method Read(p: array<Byte>, now: int, readOk: bool) returns (n: nat, err: ReadError)
      requires Valid()
      modifies segmenter, `offset, p
      ensures Valid() && offset == old(offset) + n
      ensures err == Failed <==> !readOk && segmentID !in old(segmenter.cache)
      ensures err == Failed ==> n == 0 && segmenter.cache == old(segmenter.cache)
      ensures err != Failed ==>
                && segmentID in segmenter.cache && segmenter.cache[segmentID].lastAccess == now
                && OnlyOldGone(old(segmenter.cache), segmenter.cache, {segmentID}, now)
      ensures err == EOF <==> err != Failed && old(offset) >= |Bytes()|
      ensures err == EOF ==> n == 0
      ensures err == Nil ==>
                && old(offset) + n <= |Bytes()|
                && n == Min(p.Length, |Bytes()| - old(offset))
                && p[..n] == Bytes()[old(offset)..old(offset) + n]
    {
      hide CountFor, Segment, OnlyOldGone;
      var ok := segmenter.CacheSegment(segmentID, now, readOk);
      if !ok {
        return 0, Failed;
      }
      var segment := segmenter.cache[segmentID];
      if offset >= |segment.data| {
        return 0, EOF;
      }
      n := |segment.data| - offset;
      if p.Length < n {
        n := p.Length;
      }
      Copy(p, segment.data, offset, n);
      offset := offset + n;
      err := Nil;
    }

    /** Copies n bytes of the data, from one place on, to the front of p. */
    static method Copy(p: array<Byte>, data: seq<Byte>, from: nat, n: nat)
      requires n <= p.Length && from + n <= |data|
      modifies p
      ensures p[..n] == data[from..from + n]
    {
      forall i | 0 <= i < n {
        p[i] := data[from + i];
      }
    }

    /** Seeking from the end needs the length of the segment, which it looks for in the cache; without
        an entry there it panics. */
    method Seek(offset: int, whence: Whence) returns (r: Sought)
      requires Valid()
      modifies `offset
      ensures r == match whence
                   case SeekStart => Target(offset)
                   case SeekCurrent => Target(old(this.offset) + offset)
                   case SeekEnd => if segmentID in segmenter.cache then Target(|Bytes()| + offset) else Panic
                   case Other => InvalidWhence
      ensures this.offset == if r.At? then r.offset else old(this.offset)
    {
      var absoluteOffset;
      match whence {
        case SeekStart => absoluteOffset := offset;
        case SeekCurrent => absoluteOffset := this.offset + offset;
        case SeekEnd =>
          if segmentID !in segmenter.cache {
            return Panic;
          }
          absoluteOffset := |segmenter.cache[segmentID].data| + offset;
        case Other => return InvalidWhence;
      }
      if absoluteOffset < 0 {
        return Negative;
      }
      this.offset := absoluteOffset;
      r := At(absoluteOffset);
    }

    static function Target(absoluteOffset: int): Sought {
      if absoluteOffset < 0 then Negative else At(absoluteOffset)
    }

    /** Copying the rest of the segment with buffers of any length but zero, while between any two
        reads the cache may be cleaned up or the segmenter closed.  It only fails when reading the file
        does. */
    method Drain(reliable: bool) returns (out: seq<Byte>, ok: bool)
      requires Valid() && offset <= |Bytes()|
      modifies segmenter, `offset
      ensures Valid()
      ensures out <= Bytes()[old(offset)..]
      ensures ok ==> out == Bytes()[old(offset)..]
      ensures reliable ==> ok
    {
      hide CountFor, Segment, OnlyOldGone;
      ghost var all, start := Bytes(), offset;
      out, ok := [], false;
      while true
        invariant Valid() && Bytes() == all && start <= offset <= |all|
        invariant out == all[start..offset]
        decreases |all| - offset
      {
        if {
          case true => segmenter.Close();
          case true => var now := *; segmenter.CleanupCache(now);
          case true =>
        }
        var length: nat :| length > 0;
        var p := new Byte[length];
        var now, readOk := *, *;
        readOk := readOk || reliable;
        ghost var before := offset;
        var n, err := Read(p, now, readOk);
        if err == Failed {
          return;
        }
        if err == EOF {
          ok := true;
          return;
        }
        Extend(all, start, before, offset);
        out := out + p[..n];
      }
    }
  }

  lemma Extend(all: seq<Byte>, a: nat, b: nat, c: nat)
    requires a <= b <= c <= |all|
    ensures all[a..b] + all[b..c] == all[a..c]
  {
  }

  /** A player: reads the text of a playlist, gets a reader for every segment it names and drains it,
      while the cache may be cleaned up or emptied at any time.  It gives up where a segment is refused
      or reading the file fails, and otherwise ends up with what `Fetch` says. */
  method Play(segmenter: Segmenter, text: string, reliable: bool) returns (r: Option<seq<Byte>>)
    requires segmenter.Valid()
    modifies segmenter
    ensures segmenter.Valid()
    ensures reliable || r.Some? ==> r == Fetch(segmenter.content, segmenter.segmentSize, SegmentIds(Lines(text)))
  {
    var ids := SegmentIds(Lines(text));
    var out := [];
    for i := 0 to |ids|
      invariant segmenter.Valid()
      invariant Fetch(segmenter.content, segmenter.segmentSize, ids[..i]) == Some(out)
    {
      assert ids[..i + 1][..i] == ids[..i];
      var reader := None;
      if ids[i].Some? {
        reader := segmenter.GetSegment(ids[i].value);
      }
      if reader.None? {
        RefusedForGood(segmenter.content, segmenter.segmentSize, ids, i + 1);
        return None;
      }
      var bytes, ok := reader.value.Drain(reliable);
      if !ok {
        return None;
      }
      out := out + bytes;
    }
    assert ids[..|ids|] == ids;
    r := Some(out);
  }

  /** A segment that is refused spoils the whole file. */
  lemma {:induction false} RefusedForGood(content: Bytes, size: nat, ids: seq<Option<int>>, n: nat)
    requires size > 0 && n <= |ids| && Fetch(content, size, ids[..n]) == None
    ensures Fetch(content, size, ids) == None
    decreases |ids| - n
  {
    if n < |ids| {
      assert ids[..n + 1][..n] == ids[..n];
      RefusedForGood(content, size, ids, n + 1);
    } else {
      assert ids[..n] == ids;
    }
  }
}
