/** The bounded scan of runtime logs, admin/apis/log.go: budgets on files, bytes, lines and
    matches, when a result is complete, and when it holds a fragment of a line. */
module LogScan {
  import opened Text

  const MAX_FILES := 32
  const MAX_FILE_BYTES := 16 * 1024 * 1024
  const MAX_SCAN_BYTES := 64 * 1024 * 1024
  const MAX_LINES := 100_000
  const MAX_MATCHES := 10_000
  const MAX_SCANNER_BYTES := 1024 * 1024

  type Line = seq<nat>

  /** A file as inventoried (name, size, modification time) and as it is when opened: it may
      have changed, fail to open or to seek, or fail when reading comes to a certain byte. */
  datatype File = File(name: string, size: nat, modTime: int, content: seq<nat>, opens: bool, seeks: bool, fault: Option<nat>)

  datatype DirEntry = DirEntry(file: File, isDir: bool, isLink: bool, isLog: bool, hasInfo: bool, isRegular: bool)

  // ----- lines

  const NEWLINE := 10
  const RETURN := 13

  /** The bytes of a line, without the newline that ends it. */
  datatype Span = Span(from: nat, to: nat)

  /** The first newline, or the end. */
  function LineEnd(data: seq<nat>, from: nat, end: nat): (to: nat)
    requires from <= end <= |data|
    ensures from <= to <= end && (to < end ==> data[to] == NEWLINE)
    ensures forall k :: from <= k < to ==> data[k] != NEWLINE
    decreases end - from
  {
    if from == end || data[from] == NEWLINE then from else LineEnd(data, from + 1, end)
  }

  /** The lines between two positions, as bufio.ScanLines splits them. */
  function Lines(data: seq<nat>, from: nat, end: nat): (lines: seq<Span>)
    requires end <= |data|
    ensures forall i :: 0 <= i < |lines| ==> from <= lines[i].from <= lines[i].to <= end
    decreases end - from
  {
    if from >= end then []
    else
      var to := LineEnd(data, from, end);
      [Span(from, to)] + Lines(data, to + 1, end)
  }

  /** A whole line of the first `end` bytes: what lies between two line ends. */
  ghost predicate IsLine(data: seq<nat>, end: nat, s: Span)
    requires end <= |data|
  {
    && s.from <= s.to <= end && s.from < end
    && (s.from == 0 || data[s.from - 1] == NEWLINE) && (s.to == end || data[s.to] == NEWLINE)
    && forall k :: s.from <= k < s.to ==> data[k] != NEWLINE
  }

  function DropReturn(line: Line): Line {
    if line != [] && line[|line| - 1] == RETURN then line[..|line| - 1] else line
  }

  /** What the scanner returns as the text of a line. */
  function LineText(data: seq<nat>, s: Span): Line
    requires s.from <= s.to <= |data|
  {
    DropReturn(data[s.from..s.to])
  }

  /** The text of a line is its bytes, without a carriage return at their end. */
  lemma TextExactly(data: seq<nat>, s: Span)
    requires s.from <= s.to <= |data|
    ensures if s.to > s.from && data[s.to - 1] == 13 then LineText(data, s) + [13] == data[s.from..s.to]
            else LineText(data, s) == data[s.from..s.to]
  {
  }

  predicate Inside(data: seq<nat>, lines: seq<Span>) {
    forall i :: 0 <= i < |lines| ==> lines[i].from <= lines[i].to <= |data|
  }

  predicate TooLong(s: Span) {
    s.to >= s.from + MAX_SCANNER_BYTES
  }

  /** The lines before the first one too long for the scanner. */
  function Delivered(lines: seq<Span>): (delivered: seq<Span>)
    ensures |delivered| <= |lines| && delivered == lines[..|delivered|]
  {
    if lines == [] || TooLong(lines[0]) then [] else [lines[0]] + Delivered(lines[1..])
  }

  function Min(a: nat, b: nat): nat {
    if a <= b then a else b
  }

  /** Where the inventoried part of a file ends. */
  function Size(f: File): nat {
    Min(|f.content|, f.size)
  }

  function LinesOf(f: File): seq<Span> {
    Lines(f.content, 0, Size(f))
  }

  ghost predicate Whole(f: File, s: Span) {
    IsLine(f.content, Size(f), s)
  }

  /** The lines found by splitting are exactly the whole lines. */
  lemma {:induction false} LinesAreWhole(data: seq<nat>, from: nat, end: nat, s: Span)
    requires from <= end <= |data| && (from == 0 || data[from - 1] == NEWLINE)
    ensures s in Lines(data, from, end) <==> IsLine(data, end, s) && from <= s.from
    decreases end - from
  {
    if from < end {
      var to := LineEnd(data, from, end);
      if to < end {
        LinesAreWhole(data, to + 1, end, s);
      }
      if IsLine(data, end, s) && from <= s.from {
        if s.from == from {
          assert s.to == to;
        } else {
          assert data[s.from - 1] == NEWLINE;
          assert s.from - 1 >= to;
        }
      }
    }
  }

  // ----- what a complete result is

  /** Parsing, redacting and filtering one line: its entry if it matches the request. */
  type Matcher<!Entry> = Line -> Option<Entry>

  function Hits<Entry>(data: seq<nat>, lines: seq<Span>, matcher: Matcher<Entry>): seq<Entry>
    requires Inside(data, lines)
  {
    if lines == [] then []
    else
      var hit := matcher(LineText(data, lines[|lines| - 1]));
      Hits(data, lines[..|lines| - 1], matcher) + if hit.Some? then [hit.value] else []
  }

  function AllHits<Entry>(files: seq<File>, matcher: Matcher<Entry>): seq<Entry> {
    if files == [] then []
    else AllHits(files[..|files| - 1], matcher) + Hits(files[|files| - 1].content, LinesOf(files[|files| - 1]), matcher)
  }

  function Bytes(files: seq<File>): nat {
    if files == [] then 0 else Bytes(files[..|files| - 1]) + files[|files| - 1].size
  }

  function LineCount(files: seq<File>): nat {
    if files == [] then 0 else LineCount(files[..|files| - 1]) + |LinesOf(files[|files| - 1])|
  }

  predicate Clean(f: File) {
    f.size <= MAX_FILE_BYTES && f.opens && !ReadFails(f, 0) && Delivered(LinesOf(f)) == LinesOf(f)
  }

  /** Whether a budget is left when the next file comes up. */
  predicate BudgetLeft(files: seq<File>) {
    Bytes(files) < MAX_SCAN_BYTES && LineCount(files) < MAX_LINES
  }

  /** Whether the first n files are scanned completely. */
  ghost predicate Complete<Entry>(files: seq<File>, n: nat, matcher: Matcher<Entry>)
    requires n <= |files|
  {
    && (forall k :: 0 <= k < n ==> Clean(files[k]) && BudgetLeft(files[..k]))
    && Bytes(files[..n]) <= MAX_SCAN_BYTES
    && LineCount(files[..n]) <= MAX_LINES
    && |AllHits(files[..n], matcher)| < MAX_MATCHES
  }

  // ----- what is read of a file

  /** The part of a file to read: its end where a budget is short. */
  function StartAt(f: File, remaining: nat): (start: nat)
    ensures start <= f.size
    ensures f.size - start <= MAX_FILE_BYTES && f.size - start <= remaining
    ensures start == 0 <==> f.size <= MAX_FILE_BYTES && f.size <= remaining
    ensures f.size - start == f.size || f.size - start == MAX_FILE_BYTES || f.size - start == remaining
  {
    var start := if f.size > MAX_FILE_BYTES then f.size - MAX_FILE_BYTES else 0;
    if f.size - start > remaining then f.size - remaining else start
  }

  /** Reading comes to the byte that cannot be read. */
  predicate ReadFails(f: File, start: nat) {
    f.fault.Some? && start <= f.fault.value < f.size && f.fault.value <= |f.content|
  }

  /** Where reading ends, with an error or without. */
  function ReadEnd(f: File, start: nat): (end: nat)
    ensures end <= Size(f)
  {
    if ReadFails(f, start) then f.fault.value else Size(f)
  }

  /** The lines found by reading from a position on. */
  function Read(f: File, start: nat): (lines: seq<Span>)
    ensures Inside(f.content, lines)
  {
    Lines(f.content, start, ReadEnd(f, start))
  }

  /** The lines the loop comes to. At the end of a file the first line is skipped; but if it
      is too long for the scanner, the skipping call fails with it still in the buffer, and
      the loop is handed the full buffer as a line. */
  function Scanned(f: File, start: nat): (lines: seq<Span>)
    ensures Inside(f.content, lines)
  {
    var lines := Read(f, start);
    if start == 0 then Delivered(lines)
    else if lines == [] then []
    else if TooLong(lines[0]) then [Span(start, start + MAX_SCANNER_BYTES)]
    else Delivered(lines[1..])
  }

  /** A line too long for the scanner comes up. */
  predicate ScannerStops(f: File, start: nat) {
    Delivered(Read(f, start)) != Read(f, start)
  }

  // ----- when a fragment is scanned

  /** The first line of the part that is read fills the scanner's buffer, and that is not by
      chance a whole line. */
  predicate FullBuffer(f: File, start: nat) {
    && start > 0 && start + MAX_SCANNER_BYTES <= ReadEnd(f, start)
    && (forall k :: start <= k < start + MAX_SCANNER_BYTES ==> f.content[k] != NEWLINE)
    && !(f.content[start - 1] == NEWLINE
         && (start + MAX_SCANNER_BYTES == Size(f) || f.content[start + MAX_SCANNER_BYTES] == NEWLINE))
  }

  /** Reading fails inside a line that the loop comes to. */
  predicate Interrupted(f: File, start: nat) {
    && ReadFails(f, start) && start < f.fault.value < Size(f)
    && f.content[f.fault.value - 1] != NEWLINE && f.content[f.fault.value] != NEWLINE
    && (start > 0 ==> exists k :: start <= k < f.fault.value && f.content[k] == NEWLINE)
    && !ScannerStops(f, start)
  }

  predicate Fragmented(f: File, start: nat) {
    FullBuffer(f, start) || Interrupted(f, start)
  }

  lemma {:induction false} LinesShape(data: seq<nat>, from: nat, end: nat, i: nat)
    requires end <= |data| && i < |Lines(data, from, end)|
    ensures var s := Lines(data, from, end)[i];
            && s.from < end && (s.to == end || data[s.to] == NEWLINE) && (forall k :: s.from <= k < s.to ==> data[k] != NEWLINE)
            && (i == 0 ==> s.from == from) && (i > 0 ==> s.from > from && data[s.from - 1] == NEWLINE)
            && (s.to == end ==> i == |Lines(data, from, end)| - 1)
    decreases end - from
  {
    var to := LineEnd(data, from, end);
    if i > 0 {
      LinesShape(data, to + 1, end, i - 1);
    }
  }

  /** The first of the lines between two positions. */
  lemma FirstLine(data: seq<nat>, from: nat, end: nat)
    requires end <= |data|
    ensures from >= end ==> Lines(data, from, end) == []
    ensures from < end ==>
      var to := LineEnd(data, from, end);
      && Lines(data, from, end) == [Span(from, to)] + Lines(data, to + 1, end)
      && Delivered(Lines(data, from, end)) == (if TooLong(Span(from, to)) then [] else [Span(from, to)] + Delivered(Lines(data, to + 1, end)))
    ensures Delivered([]) == [] && Lines(data, end + 1, end) == []
  {
  }

  /** The lines of the end of some bytes, but for the first, are the last lines of all. */
  ghost predicate EndsWith(lines: seq<Span>, end: seq<Span>) {
    |end| <= |lines| && lines[|lines| - |end|..] == end
  }

  lemma EndsWithMore(s: Span, lines: seq<Span>, end: seq<Span>)
    ensures EndsWith(lines, end) ==> EndsWith([s] + lines, end)
    ensures EndsWith(lines, lines)
  {
  }

  lemma RestOf(s: Span, lines: seq<Span>)
    ensures ([s] + lines)[1..] == lines
  {
  }

  /** From within a line on: the rest of that line, and then the same lines. */
  lemma TailOfLine(data: seq<nat>, before: nat, from: nat, end: nat)
    requires before <= from < end <= |data| && from <= LineEnd(data, before, end)
    ensures Lines(data, from, end)[1..] == Lines(data, LineEnd(data, before, end) + 1, end)
  {
    hide Lines, Delivered, LineEnd;
    FirstLine(data, from, end);
    SameEnd(data, before, from, end);
    RestOf(Span(from, LineEnd(data, from, end)), Lines(data, LineEnd(data, before, end) + 1, end));
  }

  lemma {:induction false} TailLines(data: seq<nat>, before: nat, from: nat, end: nat)
    requires before <= from < end <= |data|
    ensures EndsWith(Lines(data, before, end), Lines(data, from, end)[1..])
    decreases end - before
  {
    hide Lines, Delivered, EndsWith, LineEnd;
    var to := LineEnd(data, before, end);
    FirstLine(data, before, end);
    FirstLine(data, from, end);
    var tail := Lines(data, from, end)[1..];
    if from <= to {
      TailOfLine(data, before, from, end);
    } else {
      TailLines(data, to + 1, from, end);
    }
    EndsWithMore(Span(before, to), Lines(data, to + 1, end), tail);
  }

  lemma {:induction false} SameEnd(data: seq<nat>, before: nat, from: nat, end: nat)
    requires before <= end <= |data| && before <= from <= LineEnd(data, before, end)
    ensures LineEnd(data, from, end) == LineEnd(data, before, end)
  {
  }

  lemma {:induction false} LastLine(data: seq<nat>, from: nat, end: nat)
    requires from < end <= |data|
    ensures var lines := Lines(data, from, end); lines != [] && lines[|lines| - 1].to >= end - 1
    decreases end - from
  {
    var to := LineEnd(data, from, end);
    if to + 1 < end {
      LastLine(data, to + 1, end);
    }
  }

  predicate Overflows(f: File, start: nat) {
    start > 0 && Read(f, start) != [] && TooLong(Read(f, start)[0])
  }

  /** A line that starts at a line end is whole unless reading ends inside it. */
  lemma CutOff(f: File, start: nat, j: nat)
    requires j < |Read(f, start)| && (j == 0 ==> start == 0)
    ensures var s, end := Read(f, start)[j], ReadEnd(f, start);
            Whole(f, s) <==> s.to < end || end == Size(f) || f.content[end] == NEWLINE
    ensures !Whole(f, Read(f, start)[j]) ==> j == |Read(f, start)| - 1
  {
    LinesShape(f.content, start, ReadEnd(f, start), j);
  }

  lemma FullBufferExactly(f: File, start: nat)
    ensures Overflows(f, start) ==> (Whole(f, Span(start, start + MAX_SCANNER_BYTES)) <==> !FullBuffer(f, start)) && !Interrupted(f, start)
    ensures !Overflows(f, start) ==> !FullBuffer(f, start)
  {
    if Read(f, start) != [] {
      LinesShape(f.content, start, ReadEnd(f, start), 0);
    }
  }

  lemma InterruptedWithin(f: File, start: nat)
    requires Interrupted(f, start)
    ensures !Overflows(f, start) && Scanned(f, start) != [] && !Whole(f, Scanned(f, start)[|Scanned(f, start)| - 1])
  {
    var lines, end := Read(f, start), ReadEnd(f, start);
    LastLine(f.content, start, end);
    var n := |lines| - 1;
    LinesShape(f.content, start, end, n);
    LinesShape(f.content, start, end, 0);
    assert lines[n].to == end;
    CutOff(f, start, n);
  }

  /** The j-th line, if it is scanned and not whole, is where reading fails. */
  lemma CutIsInterrupted(f: File, start: nat, j: nat)
    requires !Overflows(f, start) && j < |Read(f, start)| && (j == 0 ==> start == 0) && !Whole(f, Read(f, start)[j])
    requires Delivered(Read(f, start)) == Read(f, start)
    ensures Interrupted(f, start)
  {
    CutOff(f, start, j);
    LinesShape(f.content, start, ReadEnd(f, start), j);
  }

  /** Every line the loop comes to is whole, but for the last one if the part is fragmented. */
  lemma OnlyLastCut(f: File, start: nat, i: nat)
    requires i < |Scanned(f, start)| && !Whole(f, Scanned(f, start)[i])
    ensures i == |Scanned(f, start)| - 1 && Fragmented(f, start)
  {
    hide Whole, Interrupted, FullBuffer, ReadEnd;
    FullBufferExactly(f, start);
    if !Overflows(f, start) {
      var j := if start == 0 then i else i + 1;
      assert Scanned(f, start)[i] == Read(f, start)[j];
      CutOff(f, start, j);
      assert Delivered(Read(f, start)) == Read(f, start);
      CutIsInterrupted(f, start, j);
    }
  }

  /** All lines the loop comes to are whole lines of the file if and only if neither does the
      skipped line fill the buffer nor reading fail inside a line. */
  lemma ScannedWhole(f: File, start: nat)
    ensures (forall i :: 0 <= i < |Scanned(f, start)| ==> Whole(f, Scanned(f, start)[i])) <==> !Fragmented(f, start)
  {
    hide Whole, Interrupted, FullBuffer, ReadEnd;
    forall i | 0 <= i < |Scanned(f, start)| && !Whole(f, Scanned(f, start)[i]) ensures Fragmented(f, start) {
      OnlyLastCut(f, start, i);
    }
    FullBufferExactly(f, start);
    if Interrupted(f, start) {
      InterruptedWithin(f, start);
    } else if FullBuffer(f, start) {
      assert Scanned(f, start)[0] == Span(start, start + MAX_SCANNER_BYTES);
    }
  }

  lemma {:induction false} NoLineEnd(data: seq<nat>, from: nat, end: nat)
    requires from <= end <= |data| && forall k :: from <= k < end ==> data[k] != NEWLINE
    ensures LineEnd(data, from, end) == end
  {
  }

  /** A file of which a fragment is scanned although nothing fails: one line of 17 MiB. */
  lemma LongLineIsCut(f: File)
    requires f.size == |f.content| == 17 * 1024 * 1024 && f.fault == None && forall k :: 0 <= k < |f.content| ==> f.content[k] != NEWLINE
    ensures LinesOf(f) == [Span(0, f.size)]
    ensures var start := StartAt(f, MAX_SCAN_BYTES);
            start == 1024 * 1024 && Fragmented(f, start) && Scanned(f, start) == [Span(start, start + MAX_SCANNER_BYTES)]
  {
    NoLineEnd(f.content, 1024 * 1024, f.size);
    NoLineEnd(f.content, 0, f.size);
  }

  /** And one where reading fails between two letters. */
  lemma ErrorCuts(f: File)
    requires f.size == 2 && f.content == [97, 98] && f.fault == Some(1)
    ensures Fragmented(f, 0) && Scanned(f, 0) == [Span(0, 1)] && LinesOf(f) == [Span(0, 2)]
  {
    NoLineEnd(f.content, 0, 1);
    NoLineEnd(f.content, 0, 2);
  }

  // ----- the scanner

  /** The search of bufio.ScanLines. */
  method NextEnd(data: seq<nat>, from: nat, end: nat) returns (to: nat)
    requires from <= end <= |data|
    ensures to == LineEnd(data, from, end)
  {
    to := from;
    while to < end && data[to] != NEWLINE
      invariant from <= to <= end
      invariant LineEnd(data, to, end) == LineEnd(data, from, end)
    {
      to := to + 1;
    }
  }

  /** bufio.Scanner, reading from a position of some bytes: the next line starts at `at`, and
      what can still be looked at ends at `limit`. */
  class Scanner {
    const data: seq<nat>
    const fails: bool
    var at: nat
    var limit: nat
    var tooLong: bool

    ghost predicate Valid()
      reads this
    {
      limit <= |data| && (tooLong ==> at >= limit || (limit == at + MAX_SCANNER_BYTES && LineEnd(data, at, limit) == limit))
    }

    /** The lines that calls of Scan return before the next call that returns none. */
    ghost function Pending(): (pending: seq<Span>)
      requires Valid()
      reads this
      ensures Inside(data, pending)
    {
      var lines := Lines(data, at, limit);
      if tooLong then lines else Delivered(lines)
    }

    /** Scanning has stopped at a line too long, or will. */
    ghost predicate Stops()
      requires Valid()
      reads this
    {
      tooLong || Delivered(Lines(data, at, limit)) != Lines(data, at, limit)
    }

    constructor (data: seq<nat>, start: nat, end: nat, fails: bool)
      requires end <= |data|
      ensures Valid() && this.data == data && this.fails == fails && at == start && limit == end && !tooLong
    {
      this.data, this.fails, at, limit, tooLong := data, fails, start, end, false;
    }

    /** Scan. A line that fills the buffer ends the scan with ErrTooLong; after that the
        buffer is handed out as if the input ended with it. */
    method Scan() returns (line: Option<Span>)
      requires Valid()
      modifies this
      ensures Valid() && Stops() == old(Stops())
      ensures old(Pending()) != [] ==> line == Some(old(Pending())[0]) && Pending() == old(Pending())[1..] && tooLong == old(tooLong)
      ensures old(Pending()) == [] ==> line == None && (tooLong <==> Stops()) && (tooLong || at >= limit)
      ensures tooLong && !old(tooLong) ==> Pending() == [Span(old(at), old(at) + MAX_SCANNER_BYTES)]
      ensures !tooLong && old(Pending()) == [] ==> Pending() == []
    {
      hide Lines, Delivered, LineEnd;
      FirstLine(data, at, limit);
      if at >= limit {
        return None;
      }
      var to := NextEnd(data, at, limit);
      if !tooLong && to - at >= MAX_SCANNER_BYTES {
        tooLong, limit := true, at + MAX_SCANNER_BYTES;
        NoLineEnd(data, at, limit);
        FirstLine(data, at, limit);
        return None;
      }
      line, at := Some(Span(at, to)), to + 1;
    }

    /** Err, once Scan has returned no line. */
    predicate Err()
      reads this
    {
      tooLong || (fails && at >= limit)
    }
  }

  // ----- scanning

  lemma HitsGrow<Entry>(data: seq<nat>, lines: seq<Span>, n: nat, matcher: Matcher<Entry>)
    requires Inside(data, lines) && n < |lines|
    ensures var hit := matcher(LineText(data, lines[n]));
            Hits(data, lines[..n + 1], matcher) == Hits(data, lines[..n], matcher) + if hit.Some? then [hit.value] else []
  {
    assert lines[..n + 1][..n] == lines[..n];
  }

  ghost predicate Ascending(indices: seq<nat>) {
    forall k, l :: 0 <= k < l < |indices| ==> indices[k] < indices[l]
  }

  /** The hits are the entries of exactly the lines that match, in their order. */
  lemma {:induction false} HitsExactly<Entry>(data: seq<nat>, lines: seq<Span>, matcher: Matcher<Entry>) returns (indices: seq<nat>)
    requires Inside(data, lines)
    ensures Ascending(indices) && |indices| == |Hits(data, lines, matcher)|
    ensures forall k :: 0 <= k < |indices| ==> indices[k] < |lines| && matcher(LineText(data, lines[indices[k]])) == Some(Hits(data, lines, matcher)[k])
    ensures forall i: nat :: i < |lines| && matcher(LineText(data, lines[i])).Some? ==> i in indices
  {
    if lines == [] {
      indices := [];
    } else {
      var n := |lines| - 1;
      var before := HitsExactly(data, lines[..n], matcher);
      indices := before + if matcher(LineText(data, lines[n])).Some? then [n] else [];
      hide LineText;
      forall i: nat | i < |lines| && matcher(LineText(data, lines[i])).Some? ensures i in indices {
        if i < n { assert lines[..n][i] == lines[i]; }
      }
    }
  }

  lemma NoHits<Entry>(data: seq<nat>, matcher: Matcher<Entry>)
    ensures Inside(data, []) && Hits(data, [], matcher) == []
  {
  }

  lemma PrefixInside(data: seq<nat>, lines: seq<Span>)
    requires Inside(data, lines)
    ensures forall n :: 0 <= n <= |lines| ==> Inside(data, lines[..n])
    ensures forall i :: 0 <= i < |lines| ==> lines[i].from <= lines[i].to <= |data|
  {
  }

  lemma {:induction false} HitsMonotone<Entry>(data: seq<nat>, lines: seq<Span>, n: nat, matcher: Matcher<Entry>)
    requires Inside(data, lines) && n <= |lines|
    ensures |Hits(data, lines[..n], matcher)| <= |Hits(data, lines, matcher)|
    decreases |lines|
  {
    if n < |lines| {
      HitsMonotone(data, lines[..|lines| - 1], n, matcher);
      assert lines[..|lines| - 1][..n] == lines[..n];
    } else {
      assert lines[..n] == lines;
    }
  }

  /** The loop over the lines of one file. It stops at the line and the match limits;
      `inspected` of the pending lines were looked at. */
  method ScanLines<Entry>(scanner: Scanner, lineCount: nat, entries: seq<Entry>, matcher: Matcher<Entry>)
      returns (newCount: nat, newEntries: seq<Entry>, stopped: bool, ghost inspected: nat)
    requires scanner.Valid() && |entries| < MAX_MATCHES && lineCount < MAX_LINES
    modifies scanner
    ensures var lines := old(scanner.Pending());
            && inspected <= |lines| && lineCount + inspected <= MAX_LINES
            && newEntries == entries + Hits(scanner.data, lines[..inspected], matcher) && |newEntries| <= MAX_MATCHES
            && (stopped <==> lineCount + |lines| > MAX_LINES || |entries| + |Hits(scanner.data, lines, matcher)| >= MAX_MATCHES)
            && (!stopped ==> inspected == |lines| && newCount == lineCount + |lines| && |newEntries| < MAX_MATCHES)
            && newCount >= lineCount + inspected
    ensures !stopped ==> (scanner.Err() <==> scanner.fails || old(scanner.Stops()))
  {
    hide Scanner.Pending, Scanner.Stops, Scanner.Valid, Inside, Hits, LineText;
    ghost var lines := scanner.Pending();
    NoHits(scanner.data, matcher);
    PrefixInside(scanner.data, lines);
    assert lines[..0] == [];
    newCount, newEntries, stopped, inspected := lineCount, entries, false, 0;
    while true
      invariant scanner.Valid() && inspected <= |lines| && scanner.Pending() == lines[inspected..]
      invariant newCount == lineCount + inspected <= MAX_LINES && scanner.Stops() == old(scanner.Stops())
      invariant newEntries == entries + Hits(scanner.data, lines[..inspected], matcher) && |newEntries| < MAX_MATCHES
      decreases |lines| - inspected
    {
      var line := scanner.Scan();
      if line == None {
        break;
      }
      newCount := newCount + 1;
      if newCount > MAX_LINES {
        return newCount, newEntries, true, inspected;
      }
      HitsGrow(scanner.data, lines, inspected, matcher);
      inspected := inspected + 1;
      var hit := matcher(LineText(scanner.data, line.value));
      if hit.Some? {
        newEntries := newEntries + [hit.value];
        if |newEntries| >= MAX_MATCHES {
          HitsMonotone(scanner.data, lines, inspected, matcher);
          return newCount, newEntries, true, inspected;
        }
      }
    }
    assert lines[..|lines|] == lines;
  }

  /** The entry of a whole line of one of the files. */
  ghost predicate Genuine<Entry>(e: Entry, files: seq<File>, matcher: Matcher<Entry>) {
    exists f, s :: 0 <= f < |files| && Whole(files[f], s) && matcher(LineText(files[f].content, s)) == Some(e)
  }

  /** No part of one of the files that may be read is fragmented. */
  ghost predicate Unfragmented(files: seq<File>) {
    forall f, remaining: nat :: 0 <= f < |files| ==> !Fragmented(files[f], StartAt(files[f], remaining))
  }

  /** The entry of the last line that the loop comes to in one of the files, a fragment. */
  ghost predicate Partial<Entry>(e: Entry, files: seq<File>, matcher: Matcher<Entry>) {
    exists f, remaining: nat :: 0 <= f < |files| && OfFragment(e, files[f], Scanned(files[f], StartAt(files[f], remaining)), matcher)
  }

  ghost predicate OfFragment<Entry>(e: Entry, f: File, lines: seq<Span>, matcher: Matcher<Entry>)
    requires Inside(f.content, lines)
  {
    lines != [] && !Whole(f, lines[|lines| - 1]) && matcher(LineText(f.content, lines[|lines| - 1])) == Some(e)
  }

  ghost predicate Found<Entry>(e: Entry, files: seq<File>, matcher: Matcher<Entry>) {
    Genuine(e, files, matcher) || Partial(e, files, matcher)
  }

  ghost predicate AllFound<Entry>(entries: seq<Entry>, files: seq<File>, matcher: Matcher<Entry>) {
    forall i :: 0 <= i < |entries| ==> Found(entries[i], files, matcher)
  }

  lemma NothingPartial<Entry>(e: Entry, files: seq<File>, matcher: Matcher<Entry>)
    requires Unfragmented(files)
    ensures !Partial(e, files, matcher)
  {
    hide Whole, Fragmented, Scanned, StartAt;
    if Partial(e, files, matcher) {
      var f, remaining: nat :| 0 <= f < |files| && OfFragment(e, files[f], Scanned(files[f], StartAt(files[f], remaining)), matcher);
      OnlyLastCut(files[f], StartAt(files[f], remaining), |Scanned(files[f], StartAt(files[f], remaining))| - 1);
    }
  }

  /** The hits of the first n lines that the loop comes to in a file. */
  lemma {:induction false} HitsFound<Entry>(files: seq<File>, f: nat, remaining: nat, n: nat, matcher: Matcher<Entry>)
    requires f < |files| && n <= |Scanned(files[f], StartAt(files[f], remaining))|
    ensures AllFound(Hits(files[f].content, Scanned(files[f], StartAt(files[f], remaining))[..n], matcher), files, matcher)
  {
    hide Whole, Fragmented, Scanned, StartAt;
    var lines, data := Scanned(files[f], StartAt(files[f], remaining)), files[f].content;
    if n > 0 {
      HitsFound(files, f, remaining, n - 1, matcher);
      HitsGrow(data, lines, n - 1, matcher);
      var hit := matcher(LineText(data, lines[n - 1]));
      if hit.Some? && !Whole(files[f], lines[n - 1]) {
        OnlyLastCut(files[f], StartAt(files[f], remaining), n - 1);
        assert OfFragment(hit.value, files[f], lines, matcher);
        assert Partial(hit.value, files, matcher);
      } else if hit.Some? {
        assert Genuine(hit.value, files, matcher);
      }
    }
  }

  lemma ScannedClean(f: File)
    ensures Clean(f) ==> Scanned(f, 0) == LinesOf(f) && !ReadFails(f, 0) && !ScannerStops(f, 0)
    ensures f.size <= MAX_FILE_BYTES && f.opens && !ReadFails(f, 0) && !ScannerStops(f, 0) ==> Clean(f)
  {
  }

  /** Opening the scanner; at the end of a file one call of Scan skips what may be the end of
      a line. */
  method OpenScanner(f: File, start: nat) returns (scanner: Scanner)
    ensures fresh(scanner) && scanner.Valid() && scanner.data == f.content && scanner.fails == ReadFails(f, start)
    ensures scanner.Pending() == Scanned(f, start) && scanner.Stops() == ScannerStops(f, start)
  {
    scanner := new Scanner(f.content, start, ReadEnd(f, start), ReadFails(f, start));
    if start > 0 {
      var _ := scanner.Scan();
    }
  }

  /** One file, within what the budgets leave. Reports whether anything was left out. */
  method ScanFile<Entry>(f: File, remaining: nat, lineCount: nat, entries: seq<Entry>, matcher: Matcher<Entry>)
      returns (read: nat, newCount: nat, newEntries: seq<Entry>, truncated: bool, ghost scanned: seq<Span>)
    requires |entries| < MAX_MATCHES && lineCount < MAX_LINES
    ensures read <= MAX_FILE_BYTES && read <= remaining && read <= f.size
    ensures |newEntries| <= MAX_MATCHES && lineCount + |scanned| <= MAX_LINES && newCount >= lineCount + |scanned|
    ensures Inside(f.content, scanned) && newEntries == entries + Hits(f.content, scanned, matcher)
    ensures scanned <= Scanned(f, StartAt(f, remaining))
    ensures !truncated <==> Clean(f) && f.size <= remaining && lineCount + |LinesOf(f)| <= MAX_LINES
                            && |entries| + |Hits(f.content, LinesOf(f), matcher)| < MAX_MATCHES
    ensures !truncated ==> read == f.size && newCount == lineCount + |LinesOf(f)| && scanned == LinesOf(f)
  {
    hide Lines, Delivered, ScannerStops, Scanned;
    var start := StartAt(f, remaining);
    ScannedClean(f);
    truncated, read := start > 0, f.size - start;
    newCount, newEntries, scanned := lineCount, entries, [];
    if !f.opens {
      return read, newCount, newEntries, true, [];
    }
    if start > 0 && !f.seeks {
      return read, newCount, newEntries, true, [];
    }
    var scanner := OpenScanner(f, start);
    var stopped: bool;
    ghost var inspected: nat;
    newCount, newEntries, stopped, inspected := ScanLines(scanner, lineCount, entries, matcher);
    scanned := Scanned(f, start)[..inspected];
    truncated := truncated || stopped || scanner.Err();
  }

  // ----- all files

  lemma FilesGrow<Entry>(files: seq<File>, n: nat, matcher: Matcher<Entry>)
    requires n < |files|
    ensures Bytes(files[..n + 1]) == Bytes(files[..n]) + files[n].size
    ensures LineCount(files[..n + 1]) == LineCount(files[..n]) + |LinesOf(files[n])|
    ensures AllHits(files[..n + 1], matcher) == AllHits(files[..n], matcher) + Hits(files[n].content, LinesOf(files[n]), matcher)
  {
    assert files[..n + 1][..n] == files[..n];
  }

  lemma {:induction false} CompleteMonotone<Entry>(files: seq<File>, m: nat, n: nat, matcher: Matcher<Entry>)
    requires m <= n <= |files| && Complete(files, n, matcher)
    ensures Complete(files, m, matcher)
    decreases n - m
  {
    if m < n {
      FilesGrow(files, n - 1, matcher);
      CompleteMonotone(files, m, n - 1, matcher);
    }
  }

  lemma CompleteGrows<Entry>(files: seq<File>, n: nat, matcher: Matcher<Entry>)
    requires n < |files| && Complete(files, n, matcher)
    ensures Complete(files, n + 1, matcher)
       <==> (BudgetLeft(files[..n]) && Clean(files[n])
            && Bytes(files[..n]) + files[n].size <= MAX_SCAN_BYTES && LineCount(files[..n]) + |LinesOf(files[n])| <= MAX_LINES
            && |AllHits(files[..n], matcher)| + |Hits(files[n].content, LinesOf(files[n]), matcher)| < MAX_MATCHES)
  {
    FilesGrow(files, n, matcher);
    hide Clean, BudgetLeft;
  }

  lemma FoundAppended<Entry>(a: seq<Entry>, b: seq<Entry>, files: seq<File>, matcher: Matcher<Entry>)
    requires AllFound(a, files, matcher) && AllFound(b, files, matcher)
    ensures AllFound(a + b, files, matcher)
  {
    hide Found;
  }

  lemma EmptyComplete<Entry>(files: seq<File>, matcher: Matcher<Entry>)
    ensures Complete(files, 0, matcher) && Bytes(files[..0]) == 0 && LineCount(files[..0]) == 0 && AllHits(files[..0], matcher) == []
  {
  }

  lemma CompleteLeaves<Entry>(files: seq<File>, n: nat, matcher: Matcher<Entry>)
    requires n < |files| && Complete(files, |files|, matcher)
    ensures Complete(files, n, matcher) && BudgetLeft(files[..n])
  {
    CompleteMonotone(files, n, |files|, matcher);
  }

  /** With a file left and a budget used up, the files are not scanned completely. */
  lemma NotComplete<Entry>(files: seq<File>, n: nat, matcher: Matcher<Entry>)
    requires n < |files|
    requires Complete(files, n, matcher) ==>
      Bytes(files[..n]) >= MAX_SCAN_BYTES || LineCount(files[..n]) >= MAX_LINES || |AllHits(files[..n], matcher)| >= MAX_MATCHES
    ensures !Complete(files, |files|, matcher)
  {
    if Complete(files, |files|, matcher) {
      CompleteLeaves(files, n, matcher);
    }
  }

  type Comparator<!Entry> = (Entry, Entry) -> bool

  ghost predicate StrictWeak<Entry(!new)>(after: Comparator<Entry>) {
    && (forall x, y :: after(x, y) ==> !after(y, x))
    && forall x, y, z :: !after(x, y) && !after(y, z) ==> !after(x, z)
  }

  /** Where each element of a rearrangement came from. */
  ghost predicate Places<Entry(!new)>(entries: seq<Entry>, sorted: seq<Entry>, places: seq<nat>) {
    && |sorted| == |entries| == |places|
    && (forall k :: 0 <= k < |places| ==> places[k] < |entries| && sorted[k] == entries[places[k]])
    && forall i, j :: 0 <= i < j < |places| ==> places[i] != places[j]
  }

  /** In order, and elements of which neither comes first in the order they came in. */
  ghost predicate Stable<Entry(!new)>(sorted: seq<Entry>, places: seq<nat>, after: Comparator<Entry>) {
    |places| == |sorted| &&
    forall i, j :: 0 <= i < j < |sorted| ==> !after(sorted[j], sorted[i]) && (after(sorted[i], sorted[j]) || places[i] < places[j])
  }

  ghost predicate StablySorted<Entry(!new)>(entries: seq<Entry>, sorted: seq<Entry>, after: Comparator<Entry>) {
    exists places :: Places(entries, sorted, places) && Stable(sorted, places, after)
  }

  /** An entry goes behind all it does not precede, into a stable arrangement: any two places. */
  lemma InsertedPair<Entry(!new)>(sorted: seq<Entry>, places: seq<nat>, e: Entry, n: nat, i: nat, after: Comparator<Entry>, a: nat, b: nat)
    requires StrictWeak(after) && Stable(sorted, places, after) && i <= |sorted| && a < b <= |sorted|
    requires forall k :: 0 <= k < |places| ==> places[k] < n
    requires i > 0 ==> !after(e, sorted[i - 1])
    requires forall k :: i <= k < |sorted| ==> after(e, sorted[k])
    ensures var more, from := sorted[..i] + [e] + sorted[i..], places[..i] + [n] + places[i..];
            !after(more[b], more[a]) && (after(more[a], more[b]) || from[a] < from[b])
  {
    if b < i {
      assert !after(sorted[b], sorted[a]);
    } else if b == i {
      assert a < i - 1 ==> !after(sorted[i - 1], sorted[a]);
    } else if a == i {
      assert after(e, sorted[b - 1]);
    } else {
      assert !after(sorted[b - 1], sorted[if a < i then a else a - 1]);
    }
  }

  lemma InsertedStable<Entry(!new)>(sorted: seq<Entry>, places: seq<nat>, e: Entry, n: nat, i: nat, after: Comparator<Entry>)
    requires StrictWeak(after) && Stable(sorted, places, after) && i <= |sorted|
    requires forall k :: 0 <= k < |places| ==> places[k] < n
    requires i > 0 ==> !after(e, sorted[i - 1])
    requires forall k :: i <= k < |sorted| ==> after(e, sorted[k])
    ensures Stable(sorted[..i] + [e] + sorted[i..], places[..i] + [n] + places[i..], after)
  {
    var more, from := sorted[..i] + [e] + sorted[i..], places[..i] + [n] + places[i..];
    hide StrictWeak;
    assert |from| == |more|;
    forall a, b | 0 <= a < b < |more| ensures !after(more[b], more[a]) && (after(more[a], more[b]) || from[a] < from[b]) {
      InsertedPair(sorted, places, e, n, i, after, a, b);
    }
  }

  lemma InsertedPlaces<Entry(!new)>(entries: seq<Entry>, sorted: seq<Entry>, places: seq<nat>, n: nat, i: nat)
    requires n < |entries| && Places(entries[..n], sorted, places) && i <= |sorted|
    ensures Places(entries[..n + 1], sorted[..i] + [entries[n]] + sorted[i..], places[..i] + [n] + places[i..])
    ensures forall k :: 0 <= k < |places| ==> places[k] < n
  {
  }

  lemma InsertedMultiset<Entry(!new)>(entries: seq<Entry>, sorted: seq<Entry>, n: nat, i: nat)
    requires n < |entries| && multiset(sorted) == multiset(entries[..n]) && i <= |sorted|
    ensures multiset(sorted[..i] + [entries[n]] + sorted[i..]) == multiset(entries[..n + 1])
  {
    assert sorted == sorted[..i] + sorted[i..];
    assert entries[..n + 1] == entries[..n] + [entries[n]];
  }

  /** Where an entry goes: behind everything that it does not precede. */
  method Position<Entry(!new)>(sorted: seq<Entry>, e: Entry, after: Comparator<Entry>) returns (i: nat)
    ensures i <= |sorted| && (i > 0 ==> !after(e, sorted[i - 1])) && forall k :: i <= k < |sorted| ==> after(e, sorted[k])
  {
    i := |sorted|;
    while i > 0 && after(e, sorted[i - 1])
      invariant 0 <= i <= |sorted|
      invariant forall k :: i <= k < |sorted| ==> after(e, sorted[k])
    {
      i := i - 1;
    }
  }

  /** The first n entries are sorted. */
  ghost predicate SortedUpTo<Entry(!new)>(entries: seq<Entry>, n: nat, sorted: seq<Entry>, places: seq<nat>, after: Comparator<Entry>)
    requires n <= |entries|
  {
    multiset(sorted) == multiset(entries[..n]) && Places(entries[..n], sorted, places) && (StrictWeak(after) ==> Stable(sorted, places, after))
  }

  lemma NothingSorted<Entry(!new)>(entries: seq<Entry>, after: Comparator<Entry>)
    ensures SortedUpTo(entries, 0, [], [], after)
  {
  }

  lemma SortStep<Entry(!new)>(entries: seq<Entry>, sorted: seq<Entry>, places: seq<nat>, n: nat, i: nat, after: Comparator<Entry>)
    requires n < |entries| && SortedUpTo(entries, n, sorted, places, after)
    requires i <= |sorted| && (i > 0 ==> !after(entries[n], sorted[i - 1])) && forall k :: i <= k < |sorted| ==> after(entries[n], sorted[k])
    ensures |places| == |sorted|
    ensures SortedUpTo(entries, n + 1, sorted[..i] + [entries[n]] + sorted[i..], places[..i] + [n] + places[i..], after)
  {
    InsertedPlaces(entries, sorted, places, n, i);
    InsertedMultiset(entries, sorted, n, i);
    hide Stable, StrictWeak;
    if StrictWeak(after) { InsertedStable(sorted, places, entries[n], n, i, after); }
  }

  lemma AllSorted<Entry(!new)>(entries: seq<Entry>, sorted: seq<Entry>, places: seq<nat>, after: Comparator<Entry>)
    requires SortedUpTo(entries, |entries|, sorted, places, after)
    ensures multiset(sorted) == multiset(entries) && (StrictWeak(after) ==> StablySorted(entries, sorted, after))
  {
    hide StrictWeak, Stable, Places;
    assert entries[..|entries|] == entries;
  }

  /** sort.SliceStable: some rearrangement, and the stable one if the comparator is a strict
      weak order. */
  method SortEntries<Entry(!new)>(entries: seq<Entry>, after: Comparator<Entry>) returns (sorted: seq<Entry>)
    ensures multiset(sorted) == multiset(entries)
    ensures StrictWeak(after) ==> StablySorted(entries, sorted, after)
  {
    hide SortedUpTo, StrictWeak, StablySorted;
    sorted := [];
    ghost var places: seq<nat> := [];
    NothingSorted(entries, after);
    for n := 0 to |entries|
      invariant SortedUpTo(entries, n, sorted, places, after)
    {
      var i := Position(sorted, entries[n], after);
      SortStep(entries, sorted, places, n, i, after);
      sorted, places := sorted[..i] + [entries[n]] + sorted[i..], places[..i] + [n] + places[i..];
    }
    AllSorted(entries, sorted, places, after);
  }

  /** readLogs over the inventoried files. Nothing was left out exactly when every file was
      scanned completely; then the entries are those of all matching lines. */
  method ReadLogs<Entry(!new)>(files: seq<File>, cut: bool, matcher: Matcher<Entry>, after: Comparator<Entry>)
      returns (entries: seq<Entry>, truncated: bool, ghost bytesRead: nat, ghost linesRead: nat)
    ensures bytesRead <= MAX_SCAN_BYTES && linesRead <= MAX_LINES && |entries| <= MAX_MATCHES
    ensures !truncated <==> !cut && Complete(files, |files|, matcher)
    ensures !truncated ==> multiset(entries) == multiset(AllHits(files, matcher))
    ensures !truncated && StrictWeak(after) ==> StablySorted(AllHits(files, matcher), entries, after)
    ensures forall e :: e in entries ==> Genuine(e, files, matcher) || Partial(e, files, matcher)
    ensures Unfragmented(files) ==> forall e :: e in entries ==> Genuine(e, files, matcher)
  {
    hide Complete, Clean, Hits, LinesOf, Scanned, Genuine, Partial, Unfragmented, StablySorted;
    entries, truncated := [], cut;
    var remaining: nat, lineCount: nat := MAX_SCAN_BYTES, 0;
    bytesRead, linesRead := 0, 0;
    var i := 0;
    EmptyComplete(files, matcher);
    while i < |files|
      invariant 0 <= i <= |files|
      invariant bytesRead + remaining == MAX_SCAN_BYTES && linesRead <= MAX_LINES && linesRead <= lineCount
      invariant |entries| <= MAX_MATCHES && AllFound(entries, files, matcher)
      invariant !truncated <==> !cut && Complete(files, i, matcher)
      invariant !truncated ==> remaining == MAX_SCAN_BYTES - Bytes(files[..i]) && lineCount == LineCount(files[..i])
                               && entries == AllHits(files[..i], matcher)
    {
      if remaining <= 0 || lineCount >= MAX_LINES || |entries| >= MAX_MATCHES {
        if !cut { NotComplete(files, i, matcher); }
        truncated := true;
        break;
      }
      if Complete(files, i, matcher) { CompleteGrows(files, i, matcher); }
      if Complete(files, i + 1, matcher) { CompleteMonotone(files, i, i + 1, matcher); }
      FilesGrow(files, i, matcher);
      var read, left: bool;
      ghost var before, scanned := entries, [];
      read, lineCount, entries, left, scanned := ScanFile(files[i], remaining, lineCount, entries, matcher);
      HitsFound(files, i, remaining, |scanned|, matcher);
      assert scanned == Scanned(files[i], StartAt(files[i], remaining))[..|scanned|];
      FoundAppended(before, Hits(files[i].content, scanned, matcher), files, matcher);
      remaining := remaining - read;
      bytesRead, linesRead := bytesRead + read, linesRead + |scanned|;
      truncated := truncated || left;
      i := i + 1;
    }
    assert files[..|files|] == files;
    ghost var found := entries;
    entries := SortEntries(entries, after);
    assert |multiset(entries)| == |multiset(found)|;
    forall e | e in entries
      ensures Genuine(e, files, matcher) || Partial(e, files, matcher)
      ensures Unfragmented(files) ==> Genuine(e, files, matcher)
    {
      assert e in multiset(found);
      if Unfragmented(files) { NothingPartial(e, files, matcher); }
    }
  }

  // ----- the inventory

  /** The order of the inventory: newest first, then by name downwards. */
  predicate Newer(a: File, b: File) {
    if a.modTime == b.modTime then StringLess(b.name, a.name) else a.modTime > b.modTime
  }

  predicate IsLogFile(d: DirEntry) {
    !d.isDir && !d.isLink && d.isLog && d.hasInfo && d.isRegular
  }

  function LogFiles(entries: seq<DirEntry>): seq<File> {
    if entries == [] then []
    else LogFiles(entries[..|entries| - 1]) + if IsLogFile(entries[|entries| - 1]) then [entries[|entries| - 1].file] else []
  }

  /** The log files are those of exactly the entries that are regular files named *.log, neither
      directories nor links, and whose size can be read; in the order of the entries. */
  lemma {:induction false} LogFilesExactly(entries: seq<DirEntry>) returns (indices: seq<nat>)
    ensures Ascending(indices) && |indices| == |LogFiles(entries)|
    ensures forall k :: 0 <= k < |indices| ==> indices[k] < |entries| && LogFiles(entries)[k] == entries[indices[k]].file
    ensures forall i: nat :: i < |entries| ==> (i in indices <==>
      !entries[i].isDir && !entries[i].isLink && entries[i].isLog && entries[i].hasInfo && entries[i].isRegular)
  {
    if entries == [] {
      indices := [];
    } else {
      var n := |entries| - 1;
      var before := LogFilesExactly(entries[..n]);
      indices := before + if IsLogFile(entries[n]) then [n] else [];
      forall i: nat | i < |entries| ensures i in indices <==> IsLogFile(entries[i]) {
        if i < n {
          assert entries[..n][i] == entries[i] && (i in before <==> IsLogFile(entries[i]));
        } else {
          assert n !in before;
        }
      }
    }
  }

  /** Newest first, and of the same time the later name first. */
  lemma NewestFirst(files: seq<File>)
    requires Ordered(files)
    ensures forall i, j :: 0 <= i < j < |files| ==>
      files[i].modTime > files[j].modTime || (files[i].modTime == files[j].modTime && !StringLess(files[i].name, files[j].name))
  {
    forall i, j | 0 <= i < j < |files|
      ensures files[i].modTime > files[j].modTime || (files[i].modTime == files[j].modTime && !StringLess(files[i].name, files[j].name))
    {
      assert !Newer(files[j], files[i]);
    }
  }

  ghost predicate Ordered(files: seq<File>) {
    forall i, j :: 0 <= i < j < |files| ==> !Newer(files[j], files[i])
  }

  lemma NewerTransitive(a: File, b: File, c: File)
    requires !Newer(b, a) && !Newer(c, b)
    ensures !Newer(c, a)
  {
    StringLessTotal(a.name, b.name);
    StringLessTotal(b.name, c.name);
    StringLessTotal(a.name, c.name);
    if StringLess(c.name, b.name) && StringLess(b.name, a.name) { StringLessTransitive(c.name, b.name, a.name); }
  }

  /** Puts a file behind those it does not precede. */
  method InsertFile(sorted: seq<File>, f: File) returns (r: seq<File>)
    requires Ordered(sorted)
    ensures Ordered(r) && multiset(r) == multiset(sorted + [f])
  {
    var i := |sorted|;
    while i > 0 && Newer(f, sorted[i - 1])
      invariant 0 <= i <= |sorted|
      invariant forall k :: i <= k < |sorted| ==> Newer(f, sorted[k])
    {
      i := i - 1;
    }
    r := sorted[..i] + [f] + sorted[i..];
    assert sorted == sorted[..i] + sorted[i..];
    forall a, b | 0 <= a < b < |r| ensures !Newer(r[b], r[a]) {
      OrderedInserted(sorted, f, i, a, b);
    }
  }

  lemma OrderedInserted(sorted: seq<File>, f: File, i: nat, a: nat, b: nat)
    requires Ordered(sorted) && i <= |sorted| && a < b < |sorted| + 1
    requires i > 0 ==> !Newer(f, sorted[i - 1])
    requires forall k :: i <= k < |sorted| ==> Newer(f, sorted[k])
    ensures var r := sorted[..i] + [f] + sorted[i..]; !Newer(r[b], r[a])
  {
    if a == i {
      NewerAsymmetric(f, sorted[b - 1]);
    } else if b == i && a < i - 1 {
      NewerTransitive(sorted[a], sorted[i - 1], f);
    }
  }

  lemma NewerAsymmetric(a: File, b: File)
    requires Newer(a, b)
    ensures !Newer(b, a)
  {
    StringLessTotal(a.name, b.name);
  }

  /** collectRuntimeLogFiles: of the regular log files the newest 32, and whether others
      were cut off. */
  method CollectRuntimeLogFiles(entries: seq<DirEntry>) returns (files: seq<File>, truncated: bool, ghost others: seq<File>)
    ensures |files| <= MAX_FILES && (truncated <==> others != []) && (others != [] ==> |files| == MAX_FILES)
    ensures multiset(files + others) == multiset(LogFiles(entries))
    ensures Ordered(files + others)
  {
    files := [];
    for n := 0 to |entries|
      invariant Ordered(files) && multiset(files) == multiset(LogFiles(entries[..n]))
    {
      assert entries[..n + 1][..n] == entries[..n];
      if IsLogFile(entries[n]) {
        files := InsertFile(files, entries[n].file);
      }
    }
    assert entries[..|entries|] == entries;
    truncated, others := |files| > MAX_FILES, [];
    if truncated {
      assert files == files[..MAX_FILES] + files[MAX_FILES..];
      others, files := files[MAX_FILES..], files[..MAX_FILES];
    } else {
      assert files + others == files;
    }
  }

  /** Opening, scanning and sorting in one: the whole of a request. */
  method ReadDirectory<Entry(!new)>(directory: seq<DirEntry>, matcher: Matcher<Entry>, after: Comparator<Entry>)
      returns (entries: seq<Entry>, truncated: bool, ghost files: seq<File>, ghost others: seq<File>)
    ensures multiset(files + others) == multiset(LogFiles(directory)) && Ordered(files + others) && |files| <= MAX_FILES
    ensures !truncated <==> |LogFiles(directory)| <= MAX_FILES && Complete(files, |files|, matcher)
    ensures !truncated ==> others == [] && multiset(entries) == multiset(AllHits(files, matcher))
    ensures !truncated && StrictWeak(after) ==> StablySorted(AllHits(files, matcher), entries, after)
    ensures |entries| <= MAX_MATCHES && forall e :: e in entries ==> Genuine(e, files, matcher) || Partial(e, files, matcher)
    ensures Unfragmented(files) ==> forall e :: e in entries ==> Genuine(e, files, matcher)
  {
    hide Complete, Genuine, Partial, Unfragmented, StablySorted, StrictWeak;
    var inventory, cut;
    ghost var bytesRead, linesRead;
    inventory, cut, others := CollectRuntimeLogFiles(directory);
    assert |multiset(inventory + others)| == |inventory| + |others|;
    entries, truncated, bytesRead, linesRead := ReadLogs(inventory, cut, matcher, after);
    files := inventory;
  }

  // ----- pages

  const MAX_PAGE := 10_000
  const MAX_PAGE_SIZE := 100

  /** validateRuntimeLogRequest on the two page fields. */
  function Pagination(page: int, pageSize: int): (r: Option<(nat, nat)>)
    ensures r.Some? ==> 1 <= r.value.0 <= MAX_PAGE && 1 <= r.value.1 <= MAX_PAGE_SIZE
    ensures r == None <==> page > MAX_PAGE || pageSize > MAX_PAGE_SIZE
  {
    var p, size := if page <= 0 then 1 else page, if pageSize <= 0 then MAX_PAGE_SIZE else pageSize;
    if p > MAX_PAGE || size > MAX_PAGE_SIZE then None else Some((p, size))
  }

  function PageOf<Entry>(entries: seq<Entry>, page: nat, pageSize: nat): seq<Entry>
    requires page >= 1
  {
    var start := Min((page - 1) * pageSize, |entries|);
    entries[start..Min(start + pageSize, |entries|)]
  }

  method List<Entry>(entries: seq<Entry>, page: nat, pageSize: nat) returns (list: seq<Entry>, total: nat)
    requires page >= 1
    ensures list == PageOf(entries, page, pageSize) && total == |entries|
  {
    total := |entries|;
    var start := (page - 1) * pageSize;
    if start > total {
      start := total;
    }
    var end := start + pageSize;
    if end > total {
      end := total;
    }
    list := entries[start..end];
  }

  function Pages<Entry>(entries: seq<Entry>, pages: nat, pageSize: nat): seq<Entry> {
    if pages == 0 then [] else Pages(entries, pages - 1, pageSize) + PageOf(entries, pages, pageSize)
  }

  /** The first pages one after another are the beginning of the list. */
  lemma {:induction false} PagesAreBeginning<Entry>(entries: seq<Entry>, pages: nat, pageSize: nat)
    ensures Pages(entries, pages, pageSize) == entries[..Min(pages * pageSize, |entries|)]
  {
    if pages > 0 {
      PagesAreBeginning(entries, pages - 1, pageSize);
      var start := Min((pages - 1) * pageSize, |entries|);
      var end := Min(start + pageSize, |entries|);
      assert pages * pageSize == (pages - 1) * pageSize + pageSize;
      assert end == Min(pages * pageSize, |entries|);
      assert entries[..start] + entries[start..end] == entries[..end];
    }
  }

  /** With any page size the permitted pages together are exactly the whole result. */
  lemma PagesPartition<Entry>(entries: seq<Entry>, pageSize: nat)
    requires |entries| <= MAX_MATCHES && 1 <= pageSize <= MAX_PAGE_SIZE
    ensures Pages(entries, MAX_PAGE, pageSize) == entries
  {
    PagesAreBeginning(entries, MAX_PAGE, pageSize);
    assert MAX_PAGE * pageSize >= MAX_MATCHES;
  }
}
