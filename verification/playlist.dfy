/**
  The media playlist of HTTP Live Streaming: the text that is written, line by line, and what a player
  gets when it reads the text back.
 */
module Playlist {
  import opened Wrappers
  import opened Text

  // ---- lines ---------------------------------------------------------------------------------

  function Unlines(lines: seq<string>): string {
    if lines == [] then "" else lines[0] + "\n" + Unlines(lines[1..])
  }

  function Lines(text: string): seq<string> { Split(text, '\n') }

  lemma {:induction false} UnlinesAppend(a: seq<string>, b: seq<string>)
    ensures Unlines(a + b) == Unlines(a) + Unlines(b)
  {
    if a == [] {
      assert a + b == b;
    } else {
      UnlinesAppend(a[1..], b);
      assert (a + b)[1..] == a[1..] + b;
    }
  }

  lemma OneMoreLine(lines: seq<string>, k: nat)
    requires k < |lines|
    ensures Unlines(lines[..k + 1]) == Unlines(lines[..k]) + (lines[k] + "\n")
  {
    UnlinesAppend(lines[..k], [lines[k]]);
    assert lines[..k] + [lines[k]] == lines[..k + 1];
  }

  lemma {:induction false} PrefixOfLines(lines: seq<string>, k: nat)
    requires k <= |lines|
    ensures Unlines(lines[..k]) <= Unlines(lines)
  {
    UnlinesAppend(lines[..k], lines[k..]);
    assert lines[..k] + lines[k..] == lines;
  }

  lemma {:induction false} SplitFirst(a: string, b: string, sep: char)
    requires sep !in a
    ensures Split(a + [sep] + b, sep) == [a] + Split(b, sep)
  {
    if a == "" {
      assert ("" + [sep] + b)[1..] == b;
    } else {
      SplitFirst(a[1..], b, sep);
      assert (a + [sep] + b)[1..] == a[1..] + [sep] + b;
      assert [a[0]] + a[1..] == a;
    }
  }

  /** Lines that are written come back, with nothing after the last line break. */
  lemma {:induction false} LinesOfUnlines(lines: seq<string>)
    requires forall l | l in lines :: '\n' !in l
    ensures Lines(Unlines(lines)) == lines + [""]
  {
    if lines != [] {
      LinesOfUnlines(lines[1..]);
      SplitFirst(lines[0], Unlines(lines[1..]), '\n');
    }
  }

  // ---- what is written -----------------------------------------------------------------------

  const EXTINF := "#EXTINF:"
  const TARGET := "#EXT-X-TARGETDURATION:"

  function Header(duration: int): seq<string> {
    ["#EXTM3U", "#EXT-X-VERSION:3", TARGET + DecimalInt(duration), "#EXT-X-MEDIA-SEQUENCE:0"]
  }

  function Entry(duration: int, i: nat): seq<string> {
    [EXTINF + DecimalInt(duration) + ".0,", Decimal(i) + ".ts"]
  }

  function Entries(duration: int, count: nat): seq<string> {
    if count == 0 then [] else Entries(duration, count - 1) + Entry(duration, count - 1)
  }

  function PlaylistLines(duration: int, count: nat): seq<string> {
    Header(duration) + Entries(duration, count) + ["#EXT-X-ENDLIST"]
  }

  /** Something that text is written to and that may fail at any time, having written a part. */
  class Writer {
    var output: string

    constructor ()
      ensures output == ""
    {
      output := "";
    }

    method Print(s: string) returns (ok: bool)
      modifies this
      ensures old(output) <= output <= old(output) + s
      ensures ok ==> output == old(output) + s
    {
      ok := *;
      var k: nat := |s|;
      if !ok {
        k :| 0 <= k <= |s|;
      }
      output := output + s[..k];
    }
  }

  class PlaylistGenerator {
    const segmentDuration: int

    constructor (segmentDuration: int)
      ensures this.segmentDuration == segmentDuration
    {
      this.segmentDuration := segmentDuration;
    }

    /** Writes the playlist, or its text up to where writing fails.  A count below zero is zero. */
    method Generate(w: Writer, segmentCount: int) returns (ok: bool)
      modifies w
      ensures var text := Unlines(PlaylistLines(segmentDuration, if segmentCount < 0 then 0 else segmentCount));
              && old(w.output) <= w.output <= old(w.output) + text
              && (ok ==> w.output == old(w.output) + text)
    {
      ghost var before := w.output;
      ghost var count := if segmentCount < 0 then 0 else segmentCount;
      ghost var lines := PlaylistLines(segmentDuration, count);
      EntriesSize(segmentDuration, count);
      assert lines[4 + 2 * count] == "#EXT-X-ENDLIST";
      assert lines[..4] == Header(segmentDuration) && lines[..|lines|] == lines;
      hide PlaylistLines, Unlines;
      ok := WriteHeader(w, lines);
      if !ok {
        return;
      }
      ok := WriteEntries(w, before, lines, segmentCount);
      if !ok {
        return;
      }
      ok := WriteLine(w, before, lines, 4 + 2 * count, "#EXT-X-ENDLIST");
    }

    method WriteEntries(w: Writer, ghost before: string, ghost lines: seq<string>, segmentCount: int) returns (ok: bool)
      requires lines == PlaylistLines(segmentDuration, if segmentCount < 0 then 0 else segmentCount)
      requires |lines| > 4 && w.output == before + Unlines(lines[..4])
      modifies w
      ensures before <= w.output <= before + Unlines(lines)
      ensures ok ==> w.output == before + Unlines(lines[..|lines| - 1])
    {
      ghost var count := if segmentCount < 0 then 0 else segmentCount;
      EntriesSize(segmentDuration, count);
      assert |lines| == 5 + 2 * count;
      PrefixOfLines(lines, 4);
      hide *;
      ok := true;
      var i := 0;
      while i < segmentCount
        invariant 0 <= i <= count && |lines| == 5 + 2 * count
        invariant before <= w.output <= before + Unlines(lines)
        invariant w.output == before + Unlines(lines[..4 + 2 * i])
      {
        ok := WriteEntry(w, before, lines, i, count);
        if !ok {
          return;
        }
        i := i + 1;
      }
      ok := true;
    }

    method WriteEntry(w: Writer, ghost before: string, ghost lines: seq<string>, i: nat, ghost count: nat)
      returns (ok: bool)
      requires i < count && lines == PlaylistLines(segmentDuration, count) && |lines| == 5 + 2 * count
      requires w.output == before + Unlines(lines[..4 + 2 * i])
      modifies w
      ensures before <= w.output <= before + Unlines(lines)
      ensures ok ==> w.output == before + Unlines(lines[..6 + 2 * i])
    {
      hide *;
      EntryPlace(segmentDuration, count, i);
      ok := WriteLine(w, before, lines, 4 + 2 * i, EXTINF + DecimalInt(segmentDuration) + ".0,");
      if !ok {
        return;
      }
      ok := WriteLine(w, before, lines, 5 + 2 * i, Decimal(i) + ".ts");
    }

    method WriteHeader(w: Writer, ghost lines: seq<string>) returns (ok: bool)
      requires |lines| > 4 && lines[..4] == Header(segmentDuration)
      modifies w
      ensures ok ==> w.output == old(w.output) + Unlines(lines[..4])
      ensures old(w.output) <= w.output <= old(w.output) + Unlines(lines)
    {
      ghost var before := w.output;
      assert forall k | 0 <= k < 4 :: lines[k] == lines[..4][k];
      ok := WriteLine(w, before, lines, 0, "#EXTM3U");
      if !ok { return; }
      ok := WriteLine(w, before, lines, 1, "#EXT-X-VERSION:3");
      if !ok { return; }
      ok := WriteLine(w, before, lines, 2, TARGET + DecimalInt(segmentDuration));
      if !ok { return; }
      ok := WriteLine(w, before, lines, 3, "#EXT-X-MEDIA-SEQUENCE:0");
    }

    /** One more line after the first k of them. */
    method WriteLine(w: Writer, ghost before: string, ghost lines: seq<string>, ghost k: nat, line: string)
      returns (ok: bool)
      requires k < |lines| && line == lines[k] && w.output == before + Unlines(lines[..k])
      modifies w
      ensures ok ==> w.output == before + Unlines(lines[..k + 1])
      ensures before <= w.output <= before + Unlines(lines)
    {
      ok := w.Print(line + "\n");
      OneMoreLine(lines, k);
      PrefixOfLines(lines, k + 1);
      hide Unlines;
    }
  }

  lemma {:induction false} EntriesPlace(duration: int, count: nat, i: nat)
    requires i < count
    ensures |Entries(duration, count)| == 2 * count
    ensures Entries(duration, count)[2 * i..2 * i + 2] == Entry(duration, i)
  {
    EntriesSize(duration, count - 1);
    if i < count - 1 {
      EntriesPlace(duration, count - 1, i);
    }
  }

  lemma {:induction false} EntriesSize(duration: int, count: nat)
    ensures |Entries(duration, count)| == 2 * count
  {
    if count > 0 {
      EntriesSize(duration, count - 1);
    }
  }

  lemma {:induction false} EntryPlace(duration: int, count: nat, i: nat)
    requires i < count
    ensures var lines := PlaylistLines(duration, count);
            && |lines| == 5 + 2 * count
            && lines[4 + 2 * i] == EXTINF + DecimalInt(duration) + ".0," && lines[5 + 2 * i] == Decimal(i) + ".ts"
  {
    EntriesPlace(duration, count, i);
    var e := Entries(duration, count);
    assert e[2 * i] == e[2 * i..2 * i + 2][0] && e[2 * i + 1] == e[2 * i..2 * i + 2][1];
  }

  /** Text that has a first part of every line, as a writer leaves it that fails now and then. */
  ghost predicate Pieced(text: string, lines: seq<string>)
    decreases |lines|
  {
    if lines == [] then text == ""
    else
      exists k | 0 <= k <= |text| ::
        text[k..] <= lines[|lines| - 1] + "\n" && Pieced(text[..k], lines[..|lines| - 1])
  }

  lemma {:induction false} OneMorePiece(text: string, lines: seq<string>, k: nat, piece: string)
    requires k < |lines| && Pieced(text, lines[..k]) && piece <= lines[k] + "\n"
    ensures Pieced(text + piece, lines[..k + 1])
  {
    var more := text + piece;
    assert more[|text|..] == piece && more[..|text|] == text;
    assert lines[..k + 1][..k] == lines[..k];
    hide *;
    ByPieces(more, lines[..k + 1], |text|);
  }

  lemma {:induction false} ByPieces(text: string, lines: seq<string>, k: nat)
    requires lines != [] && k <= |text|
    requires text[k..] <= lines[|lines| - 1] + "\n" && Pieced(text[..k], lines[..|lines| - 1])
    ensures Pieced(text, lines)
  {
  }

  /** What has been written after the first k lines: a first part of each, and all of them if nothing
      has failed. */
  ghost predicate Written(before: string, now: string, lines: seq<string>, k: nat, ok: bool)
    requires k <= |lines|
  {
    && before <= now && Pieced(now[|before|..], lines[..k])
    && (ok ==> now == before + Unlines(lines[..k]))
  }

  /** Prints one line after the first k, for a caller that goes on when printing fails. */
  method Emit(w: Writer, ghost before: string, ghost lines: seq<string>, ghost k: nat, line: string, sofar: bool)
    returns (ok: bool)
    requires k < |lines| && line == lines[k] && Written(before, w.output, lines, k, sofar)
    modifies w
    ensures Written(before, w.output, lines, k + 1, ok)
  {
    hide Pieced, Unlines;
    ghost var was := w.output;
    ok := w.Print(line + "\n");
    ok := ok && sofar;
    OneMoreLine(lines, k);
    PieceOf(was, w.output, line + "\n");
    OneMorePiece(was[|before|..], lines, k, w.output[|was|..]);
    assert w.output[|before|..] == was[|before|..] + w.output[|was|..];
  }

  lemma PieceOf(was: string, now: string, more: string)
    requires was <= now <= was + more
    ensures now == was + now[|was|..] && now[|was|..] <= more
  {
    var piece := now[|was|..];
    assert forall i | 0 <= i < |piece| :: piece[i] == (was + more)[|was| + i] == more[i];
  }

  /** The handler writes the same lines itself, with a duration of ten seconds, and goes on when writing
      one of them fails. */
  method HLSPlaylist(w: Writer, segmentCount: nat) returns (ok: bool)
    modifies w
    ensures old(w.output) <= w.output
    ensures Pieced(w.output[|old(w.output)|..], PlaylistLines(10, segmentCount))
    ensures ok ==> w.output == old(w.output) + Unlines(PlaylistLines(10, segmentCount))
  {
    ghost var lines := PlaylistLines(10, segmentCount);
    FixedLines(segmentCount);
    NoPieces(lines, w.output);
    assert lines[..|lines|] == lines;
    hide PlaylistLines, Pieced, Unlines;
    ok := EmitHeader(w, w.output, lines);
    ok := EmitEntries(w, old(w.output), lines, segmentCount, ok);
    ok := Emit(w, old(w.output), lines, 4 + 2 * segmentCount, "#EXT-X-ENDLIST", ok);
  }

  method EmitHeader(w: Writer, ghost before: string, ghost lines: seq<string>) returns (ok: bool)
    requires |lines| > 4 && Written(before, w.output, lines, 0, true)
    requires lines[0] == "#EXTM3U" && lines[1] == "#EXT-X-VERSION:3"
    requires lines[2] == "#EXT-X-TARGETDURATION:10" && lines[3] == "#EXT-X-MEDIA-SEQUENCE:0"
    modifies w
    ensures Written(before, w.output, lines, 4, ok)
  {
    hide *;
    ok := Emit(w, before, lines, 0, "#EXTM3U", true);
    ok := Emit(w, before, lines, 1, "#EXT-X-VERSION:3", ok);
    ok := Emit(w, before, lines, 2, "#EXT-X-TARGETDURATION:10", ok);
    ok := Emit(w, before, lines, 3, "#EXT-X-MEDIA-SEQUENCE:0", ok);
  }

  method EmitEntries(w: Writer, ghost before: string, ghost lines: seq<string>, segmentCount: nat, sofar: bool)
    returns (ok: bool)
    requires lines == PlaylistLines(10, segmentCount) && |lines| == 5 + 2 * segmentCount
    requires Written(before, w.output, lines, 4, sofar)
    modifies w
    ensures Written(before, w.output, lines, 4 + 2 * segmentCount, ok)
  {
    hide *;
    ok := sofar;
    for i := 0 to segmentCount
      invariant Written(before, w.output, lines, 4 + 2 * i, ok)
    {
      EntryPlace(10, segmentCount, i);
      TenSeconds();
      ok := Emit(w, before, lines, 4 + 2 * i, "#EXTINF:10.0,", ok);
      ok := Emit(w, before, lines, 5 + 2 * i, Decimal(i) + ".ts", ok);
    }
  }

  lemma NoPieces(lines: seq<string>, before: string)
    ensures Written(before, before, lines, 0, true)
  {
    assert lines[..0] == [] && before[|before|..] == "" && before + "" == before;
  }

  lemma TenSeconds()
    ensures EXTINF + DecimalInt(10) + ".0," == "#EXTINF:10.0,"
    ensures TARGET + DecimalInt(10) == "#EXT-X-TARGETDURATION:10"
  {
    assert Decimal(10) == Decimal(1) + [DigitOf(0)];
    assert DecimalInt(10) == "10";
  }

  lemma FixedLines(count: nat)
    ensures var lines := PlaylistLines(10, count);
            && |lines| == 5 + 2 * count
            && lines[0] == "#EXTM3U" && lines[1] == "#EXT-X-VERSION:3"
            && lines[2] == "#EXT-X-TARGETDURATION:10" && lines[3] == "#EXT-X-MEDIA-SEQUENCE:0"
            && lines[4 + 2 * count] == "#EXT-X-ENDLIST"
  {
    EntriesSize(10, count);
    TenSeconds();
  }

  /** The playlist of a file with one segment, line by line. */
  lemma PlaylistOfOne()
    ensures PlaylistLines(10, 1) ==
            ["#EXTM3U", "#EXT-X-VERSION:3", "#EXT-X-TARGETDURATION:10", "#EXT-X-MEDIA-SEQUENCE:0",
             "#EXTINF:10.0,", "0.ts", "#EXT-X-ENDLIST"]
  {
    TenSeconds();
    assert Decimal(0) == "0";
    assert Decimal(0) + ".ts" == "0.ts";
    assert Entry(10, 0) == ["#EXTINF:10.0,", "0.ts"];
    assert Entries(10, 0) == [] && Entries(10, 1) == Entries(10, 0) + Entry(10, 0);
    hide Decimal;
    assert Header(10) == ["#EXTM3U", "#EXT-X-VERSION:3", "#EXT-X-TARGETDURATION:10", "#EXT-X-MEDIA-SEQUENCE:0"];
  }

  // ---- what a player reads -------------------------------------------------------------------

  /** Lines that are blank or begin with # are not segments (section 4.1 of RFC 8216). */
  predicate IsUri(line: string) { line != "" && line[0] != '#' }

  const SUFFIX := ".ts"

  predicate HasSuffix(s: string, suffix: string) { |suffix| <= |s| && s[|s| - |suffix|..] == suffix }

  /** What the route for segments makes of an address: the part before the suffix, as a number. */
  function SegmentId(uri: string): Option<int> {
    if HasSuffix(uri, SUFFIX) then ParseInt(uri[..|uri| - |SUFFIX|]) else None
  }

  /** The segment that one line asks for, if any. */
  function LineId(line: string): seq<Option<int>> { if IsUri(line) then [SegmentId(line)] else [] }

  /** The segments a player asks for, in order. */
  function SegmentIds(lines: seq<string>): seq<Option<int>> {
    if lines == [] then [] else LineId(lines[0]) + SegmentIds(lines[1..])
  }

  lemma {:induction false} SegmentIdsAppend(a: seq<string>, b: seq<string>)
    ensures SegmentIds(a + b) == SegmentIds(a) + SegmentIds(b)
  {
    hide LineId;
    if a == [] {
      assert a + b == b;
    } else {
      assert (a + b)[0] == a[0] && (a + b)[1..] == a[1..] + b;
      SegmentIdsAppend(a[1..], b);
      assert SegmentIds(a + b) == LineId(a[0]) + (SegmentIds(a[1..]) + SegmentIds(b));
    }
  }

  lemma {:induction false} NoSegmentIds(lines: seq<string>)
    requires forall l | l in lines :: !IsUri(l)
    ensures SegmentIds(lines) == []
  {
    if lines != [] {
      NoSegmentIds(lines[1..]);
    }
  }

  lemma EntryId(duration: int, i: nat)
    requires i <= MAX_INT64
    ensures SegmentIds(Entry(duration, i)) == [Some(i)]
  {
    var e := Entry(duration, i);
    assert e[0][0] == EXTINF[0] == '#';
    assert e[1][..|e[1]| - 3] == Decimal(i) && e[1][|e[1]| - 3..] == SUFFIX;
    PrintThenParse(i);
    assert IsDigit(Decimal(i)[0]);
    assert e[1][0] == Decimal(i)[0];
    NoSegmentIds([e[0]]);
    SegmentIdsAppend([e[0]], [e[1]]);
    assert [e[0]] + [e[1]] == e;
    assert SegmentIds([e[1]]) == [SegmentId(e[1])] + SegmentIds([]);
  }

  lemma {:induction false} EntryIds(duration: int, count: nat)
    requires count <= MAX_INT64
    ensures SegmentIds(Entries(duration, count)) == seq(count, i => Some(i))
  {
    if count > 0 {
      EntryIds(duration, count - 1);
      EntryId(duration, count - 1);
      hide SegmentIds, Entry;
      SegmentIdsAppend(Entries(duration, count - 1), Entry(duration, count - 1));
    }
  }

  lemma DigitsHaveNoBreak(s: string)
    requires AllDigits(s)
    ensures '\n' !in s
  {
  }

  lemma {:induction false} EntriesHaveNoBreak(duration: int, count: nat)
    ensures forall l | l in Entries(duration, count) :: '\n' !in l
  {
    if count > 0 {
      EntriesHaveNoBreak(duration, count - 1);
      NumbersHaveNoBreak(duration);
      NumbersHaveNoBreak(count - 1);
      assert forall l | l in Entry(duration, count - 1) :: '\n' !in l;
    }
  }

  lemma NumbersHaveNoBreak(n: int)
    ensures '\n' !in DecimalInt(n)
  {
    DigitsHaveNoBreak(Decimal(if n < 0 then -n else n));
  }

  lemma PlaylistHasNoBreak(duration: int, count: nat)
    ensures forall l | l in PlaylistLines(duration, count) :: '\n' !in l
  {
    EntriesHaveNoBreak(duration, count);
    NumbersHaveNoBreak(duration);
    assert forall l | l in Header(duration) :: '\n' !in l;
  }

  /** Reading the playlist back gives the segments 0, 1, ..., count - 1, in this order and no others. */
  lemma PlaylistNamesAllSegments(duration: int, count: nat)
    requires count <= MAX_INT64
    ensures SegmentIds(Lines(Unlines(PlaylistLines(duration, count)))) == seq(count, i => Some(i))
  {
    PlaylistHasNoBreak(duration, count);
    LinesOfUnlines(PlaylistLines(duration, count));
    var header, entries, end := Header(duration), Entries(duration, count), ["#EXT-X-ENDLIST", ""];
    assert PlaylistLines(duration, count) + [""] == header + (entries + end);
    assert header[2][0] == TARGET[0];
    NoSegmentIds(header);
    NoSegmentIds(end);
    SegmentIdsAppend(header, entries + end);
    SegmentIdsAppend(entries, end);
    EntryIds(duration, count);
  }

  /** The duration that a line announces for a segment. */
  function SegmentDuration(line: string): Option<int> {
    if HasPrefix(line, EXTINF) && HasSuffix(line, ".0,") && |line| >= |EXTINF| + 3
    then ParseInt(line[|EXTINF|..|line| - 3]) else None
  }

  function TargetDuration(line: string): Option<int> {
    if HasPrefix(line, TARGET) then ParseInt(line[|TARGET|..]) else None
  }

  lemma {:induction false} EntryDurations(duration: int, count: nat)
    requires -MAX_INT64 - 1 <= duration <= MAX_INT64
    ensures forall l | l in Entries(duration, count) && HasPrefix(l, EXTINF) :: SegmentDuration(l) == Some(duration)
  {
    if count > 0 {
      EntryDurations(duration, count - 1);
      var e := Entry(duration, count - 1);
      assert e[0][|EXTINF|..|e[0]| - 3] == DecimalInt(duration) && e[0][|e[0]| - 3..] == ".0,";
      PrintThenParse(duration);
      assert IsDigit(Decimal(count - 1)[0]) && e[1][0] == Decimal(count - 1)[0];
      assert forall l | l in e :: l == e[0] || l == e[1];
    }
  }

  /** No segment announces more than the target duration (section 4.3.3.1 of RFC 8216): each announces
      exactly that. */
  lemma NoSegmentExceedsTarget(duration: int, count: nat)
    requires -MAX_INT64 - 1 <= duration <= MAX_INT64
    ensures var lines := PlaylistLines(duration, count);
            && TargetDuration(lines[2]) == Some(duration)
            && forall l | l in lines && HasPrefix(l, EXTINF) :: SegmentDuration(l) == Some(duration)
  {
    EntryDurations(duration, count);
    PrintThenParse(duration);
    OtherLines(duration);
    var lines := PlaylistLines(duration, count);
    assert lines[2] == Header(duration)[2] && lines[2][|TARGET|..] == DecimalInt(duration);
    hide SegmentDuration, HasPrefix;
    assert forall l | l in lines :: l in Header(duration) || l in Entries(duration, count) || l == "#EXT-X-ENDLIST";
    hide PlaylistLines;
  }

  /** The other lines do not announce a segment. */
  lemma OtherLines(duration: int)
    ensures forall l | l in Header(duration) :: !HasPrefix(l, EXTINF)
    ensures !HasPrefix("#EXT-X-ENDLIST", EXTINF)
    ensures HasPrefix(Header(duration)[2], TARGET)
  {
    var header := Header(duration);
    forall l | l in header ensures !HasPrefix(l, EXTINF) {
      assert EXTINF[4] == 'I' && TARGET[4] == header[2][4] == '-';
      assert header[0][4] == 'M' && header[1][4] == '-' && header[3][4] == '-';
      assert l[4] != 'I';
    }
    assert "#EXT-X-ENDLIST"[4] == '-';
  }
}
