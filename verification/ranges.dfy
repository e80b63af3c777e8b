/**
  The two parsers of the Range header.  The format is that of byte ranges, section 14.1.2 of RFC 9110,
  of which the program accepts a single range that lies inside the file.
 */
module Ranges {
  import opened Wrappers
  import opened Text

  const PREFIX := "bytes="

  datatype RangeError = InvalidRange | InvalidStart | InvalidEnd

  /** stream.go */
  function ParseRange(header: string, fileSize: int): Result<(int, int), RangeError> {
    if header == "" then Ok((0, fileSize - 1))
    else if !HasPrefix(header, PREFIX) then Err(InvalidRange)
    else
      var parts := Split(TrimPrefix(header, PREFIX), '-');
      if |parts| != 2 then Err(InvalidRange)
      else
        match ParseInt(parts[0])
        case None => Err(InvalidStart)
        case Some(start) =>
          match if parts[1] == "" then Some(fileSize - 1) else ParseInt(parts[1])
          case None => Err(InvalidEnd)
          case Some(end) =>
            if start < 0 || start > end || end >= fileSize then Err(InvalidRange) else Ok((start, end))
  }

  datatype Decision = NoHeader | Malformed | NotSatisfiable | Serve(start: int, end: int)

  /** range.go */
  function Decide(header: string, fileSize: int): Decision {
    if header == "" then NoHeader
    else
      var parts := Split(TrimPrefix(header, PREFIX), '-');
      if |parts| != 2 then Malformed
      else
        match ParseInt(parts[0])
        case None => Malformed
        case Some(start) =>
          match if parts[1] != "" then ParseInt(parts[1]) else Some(fileSize - 1)
          case None => Malformed
          case Some(end) =>
            if start >= fileSize || end >= fileSize || start > end then NotSatisfiable else Serve(start, end)
  }

  /** What a request gets: the same bytes, or a refusal. */
  predicate Agree(a: Result<(int, int), RangeError>, b: Decision) {
    match a
    case Ok((start, end)) => b == Serve(start, end)
    case Err(_) => !b.Serve?
  }

  /** Text without a minus sign never parses to a negative number. */
  lemma NoMinusNoNegative(s: string)
    requires '-' !in s && ParseInt(s).Some?
    ensures ParseInt(s).value >= 0
  {
  }

  lemma {:induction false} PartsAreNotNegative(s: string, i: nat)
    requires i < |Split(s, '-')| && ParseInt(Split(s, '-')[i]).Some?
    ensures ParseInt(Split(s, '-')[i]).value >= 0
  {
    SplitThenJoin(s, '-');
    NoMinusNoNegative(Split(s, '-')[i]);
  }

  /** For every header with the prefix and every file size the two parsers agree. */
  lemma ParsersAgree(header: string, fileSize: nat)
    requires HasPrefix(header, PREFIX)
    ensures Agree(ParseRange(header, fileSize), Decide(header, fileSize))
  {
    var s := TrimPrefix(header, PREFIX);
    var parts := Split(s, '-');
    if |parts| == 2 && ParseInt(parts[0]).Some? {
      PartsAreNotNegative(s, 0);
    }
  }

  /** A header written as a start, a minus sign and an end or nothing, for a range inside the file. */
  ghost predicate Writes(header: string, a: string, b: string, start: int, end: int, fileSize: nat) {
    && header == PREFIX + a + "-" + b && '-' !in a && '-' !in b
    && ParseInt(a) == Some(start)
    && (if b == "" then end == fileSize - 1 else ParseInt(b) == Some(end))
    && 0 <= start <= end < fileSize
  }

  lemma TrimWritten(a: string, b: string)
    requires '-' !in a && '-' !in b
    ensures var header := PREFIX + a + "-" + b;
            HasPrefix(header, PREFIX) && Split(TrimPrefix(header, PREFIX), '-') == [a, b]
  {
    assert TrimPrefix(PREFIX + a + "-" + b, PREFIX) == a + ['-'] + b;
    SplitPair(a, b, '-');
  }

  lemma WrittenIsAccepted(header: string, a: string, b: string, start: int, end: int, fileSize: nat)
    requires Writes(header, a, b, start, end, fileSize)
    ensures ParseRange(header, fileSize) == Ok((start, end))
  {
    TrimWritten(a, b);
    hide Split, TrimPrefix, HasPrefix, ParseInt;
  }

  lemma AcceptedIsWritten(header: string, start: int, end: int, fileSize: nat)
    returns (a: string, b: string)
    requires header != "" && ParseRange(header, fileSize) == Ok((start, end))
    ensures Writes(header, a, b, start, end, fileSize)
  {
    var s := TrimPrefix(header, PREFIX);
    var parts := Split(s, '-');
    SplitThenJoin(s, '-');
    a, b := parts[0], parts[1];
    assert Join(parts, '-') == a + ['-'] + b;
    assert header == PREFIX + s;
    hide Split, ParseInt;
  }

  /** The grammar of what is accepted, in both directions. */
  lemma Grammar(header: string, fileSize: nat, start: int, end: int)
    requires header != ""
    ensures ParseRange(header, fileSize) == Ok((start, end)) <==>
            exists a, b :: Writes(header, a, b, start, end, fileSize)
  {
    hide ParseRange, Writes;
    if ParseRange(header, fileSize) == Ok((start, end)) {
      var a, b := AcceptedIsWritten(header, start, end, fileSize);
    }
    if a, b :| Writes(header, a, b, start, end, fileSize) {
      WrittenIsAccepted(header, a, b, start, end, fileSize);
    }
  }

  /** Some range inside the file is written in the header. */
  ghost predicate WritesSome(header: string, fileSize: nat) {
    exists a, b, start, end :: Writes(header, a, b, start, end, fileSize)
  }

  /** The second parser serves exactly the headers in which, with or without the prefix, a range is
      written. */
  lemma DecideServes(header: string, fileSize: nat)
    requires header != ""
    ensures Decide(header, fileSize).Serve? <==>
            WritesSome(if HasPrefix(header, PREFIX) then header else PREFIX + header, fileSize)
  {
    var full := if HasPrefix(header, PREFIX) then header else PREFIX + header;
    assert TrimPrefix(full, PREFIX) == TrimPrefix(header, PREFIX) && HasPrefix(full, PREFIX);
    assert Decide(full, fileSize) == Decide(header, fileSize);
    ParsersAgree(full, fileSize);
    ParsedIsWritten(full, fileSize);
  }

  lemma ParsedIsWritten(header: string, fileSize: nat)
    requires header != ""
    ensures ParseRange(header, fileSize).Ok? <==> WritesSome(header, fileSize)
  {
    hide ParseRange, Writes;
    if ParseRange(header, fileSize).Ok? {
      var (start, end) := ParseRange(header, fileSize).value;
      var a, b := AcceptedIsWritten(header, start, end, fileSize);
    }
    if a, b, start, end :| Writes(header, a, b, start, end, fileSize) {
      WrittenIsAccepted(header, a, b, start, end, fileSize);
    }
  }

  /** Over all headers: they disagree on the empty one, which only the first serves, and on those that
      lack the prefix and in which a range is written all the same, which only the second serves. */
  lemma WhenParsersDisagree(header: string, fileSize: nat)
    ensures Agree(ParseRange(header, fileSize), Decide(header, fileSize)) <==>
            header != "" && (HasPrefix(header, PREFIX) || !WritesSome(PREFIX + header, fileSize))
  {
    if HasPrefix(header, PREFIX) {
      ParsersAgree(header, fileSize);
    } else if header != "" {
      DecideServes(header, fileSize);
    }
  }

  /** A header on which they disagree: the first byte of any file, asked for without the prefix. */
  lemma ParsersDisagree(fileSize: nat)
    requires fileSize > 0
    ensures ParseRange("0-0", fileSize) == Err(InvalidRange) && Decide("0-0", fileSize) == Serve(0, 0)
  {
    assert Decimal(0) == "0";
    PrintThenParse(0);
    SplitPair("0", "0", '-');
    assert "0" + ['-'] + "0" == "0-0";
    hide Split, ParseInt;
    assert "0-0"[0] != PREFIX[0];
  }

  lemma DigitsHaveNoMinus(s: string)
    requires AllDigits(s)
    ensures '-' !in s
  {
  }

  /** Printing any range inside the file and parsing it gives it back; an open end means the last
      byte. */
  lemma {:induction false} PrintedRangeParses(start: nat, end: nat, fileSize: nat)
    requires start <= end < fileSize <= MAX_INT64
    ensures ParseRange(PREFIX + Decimal(start) + "-" + Decimal(end), fileSize) == Ok((start, end))
    ensures ParseRange(PREFIX + Decimal(start) + "-", fileSize) == Ok((start, fileSize - 1))
  {
    ClosedIsWritten(start, end, fileSize);
    OpenIsWritten(start, fileSize);
    hide *;
    WrittenIsAccepted(PREFIX + Decimal(start) + "-" + Decimal(end), Decimal(start), Decimal(end), start, end, fileSize);
    WrittenIsAccepted(PREFIX + Decimal(start) + "-", Decimal(start), "", start, fileSize - 1, fileSize);
  }

  lemma {:induction false} ClosedIsWritten(start: nat, end: nat, fileSize: nat)
    requires start <= end < fileSize <= MAX_INT64
    ensures Writes(PREFIX + Decimal(start) + "-" + Decimal(end), Decimal(start), Decimal(end), start, end, fileSize)
  {
    PrintThenParse(start);
    PrintThenParse(end);
    DigitsHaveNoMinus(Decimal(start));
    DigitsHaveNoMinus(Decimal(end));
    hide Decimal, ParseInt;
  }

  lemma {:induction false} OpenIsWritten(start: nat, fileSize: nat)
    requires start < fileSize <= MAX_INT64
    ensures Writes(PREFIX + Decimal(start) + "-", Decimal(start), "", start, fileSize - 1, fileSize)
  {
    PrintThenParse(start);
    DigitsHaveNoMinus(Decimal(start));
    hide Decimal, ParseInt;
    assert PREFIX + Decimal(start) + "-" + "" == PREFIX + Decimal(start) + "-";
  }

  /** A suffix range, which the standard allows, is refused; so is one that ends past the file. */
  lemma {:induction false} RefusedRanges(n: nat, start: nat, end: nat, fileSize: nat)
    requires n <= MAX_INT64 && start <= MAX_INT64 && end <= MAX_INT64
    ensures ParseRange(PREFIX + "-" + Decimal(n), fileSize) == Err(InvalidStart)
    ensures end >= fileSize ==> ParseRange(PREFIX + Decimal(start) + "-" + Decimal(end), fileSize) == Err(InvalidRange)
  {
    DigitsHaveNoMinus(Decimal(n));
    DigitsHaveNoMinus(Decimal(start));
    DigitsHaveNoMinus(Decimal(end));
    TrimWritten("", Decimal(n));
    assert PREFIX + "" + "-" + Decimal(n) == PREFIX + "-" + Decimal(n);
    TrimWritten(Decimal(start), Decimal(end));
    PrintThenParse(start);
    PrintThenParse(end);
    hide Decimal, Split;
  }

  // ---- refusals ------------------------------------------------------------------------------

  /** The header has two parts around one minus sign, after the prefix. */
  ghost predicate HasParts(header: string, a: string, b: string) {
    header == PREFIX + a + "-" + b && '-' !in a && '-' !in b
  }

  lemma PartsAreUnique(header: string, a: string, b: string)
    requires HasParts(header, a, b)
    ensures HasPrefix(header, PREFIX) && Split(TrimPrefix(header, PREFIX), '-') == [a, b]
  {
    TrimWritten(a, b);
  }

  lemma PartsOf(header: string) returns (a: string, b: string)
    requires HasPrefix(header, PREFIX) && |Split(TrimPrefix(header, PREFIX), '-')| == 2
    ensures HasParts(header, a, b)
  {
    var s := TrimPrefix(header, PREFIX);
    var parts := Split(s, '-');
    SplitThenJoin(s, '-');
    a, b := parts[0], parts[1];
    assert Join(parts, '-') == a + ['-'] + b;
    assert header == PREFIX + s;
    hide Split;
  }

  /** How both parsers answer a header with the prefix and two parts: by the first part that is not a
      number, or by where the range lies.  An open end is the last byte. */
  lemma AnswersToParts(header: string, a: string, b: string, fileSize: nat)
    requires HasParts(header, a, b)
    ensures var start, end := ParseInt(a), if b == "" then Some(fileSize - 1) else ParseInt(b);
            && ParseRange(header, fileSize) ==
               (if start.None? then Err(InvalidStart)
                else if end.None? then Err(InvalidEnd)
                else if start.value <= end.value < fileSize then Ok((start.value, end.value)) else Err(InvalidRange))
            && Decide(header, fileSize) ==
               (if start.None? || end.None? then Malformed
                else if start.value <= end.value < fileSize then Serve(start.value, end.value) else NotSatisfiable)
  {
    PartsAreUnique(header, a, b);
    NotNegative(a);
    hide Split, ParseInt, TrimPrefix, HasPrefix;
  }

  lemma NotNegative(s: string)
    requires '-' !in s
    ensures ParseInt(s).Some? ==> ParseInt(s).value >= 0
  {
    if ParseInt(s).Some? {
      NoMinusNoNegative(s);
    }
  }

  /** All other headers with the prefix are refused as malformed by both, and an empty header asks for
      the whole file, or is no range request. */
  lemma OtherHeaders(header: string, fileSize: nat)
    requires header == "" || (HasPrefix(header, PREFIX) && !exists a, b :: HasParts(header, a, b))
    ensures if header == "" then ParseRange(header, fileSize) == Ok((0, fileSize - 1))
              && Decide(header, fileSize) == NoHeader
            else ParseRange(header, fileSize) == Err(InvalidRange) && Decide(header, fileSize) == Malformed
  {
    if header != "" && |Split(TrimPrefix(header, PREFIX), '-')| == 2 {
      var a, b := PartsOf(header);
    }
    hide Split, TrimPrefix;
  }

  /** Without the prefix the first parser refuses, and the second answers as if it were there. */
  lemma WithoutPrefix(header: string, fileSize: nat)
    requires header != "" && !HasPrefix(header, PREFIX)
    ensures ParseRange(header, fileSize) == Err(InvalidRange)
    ensures Decide(header, fileSize) == Decide(PREFIX + header, fileSize)
  {
    assert TrimPrefix(PREFIX + header, PREFIX) == header;
    hide Split, ParseInt;
  }
}
