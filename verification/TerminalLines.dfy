/** Whole streams of lines through the decoder and onto the screen: a line ended by a lone CR leaves no
    trace, and every other byte passes through. */
module TerminalLines {
  import opened TerminalDecode
  import opened TerminalErase

  // ---------- What the decoder emits ----------

  lemma {:induction false} WithoutCrPasses(l: Line, bytes: seq<Byte>, columns: int)
    requires CR !in bytes
    ensures Run(Decoder(false, l), bytes, columns) == Result(Decoder(false, TrackAll(l, bytes)), bytes)
    decreases |bytes|
  {
    if bytes != [] {
      assert bytes == [bytes[0]] + bytes[1..];
      WithoutCrPasses(Track(l, bytes[0]), bytes[1..], columns);
    }
  }

  /** CR LF passes through and begins a fresh line. */
  lemma CrLfPasses(l: Line, rest: seq<Byte>, columns: int)
    ensures Run(Decoder(false, l), [CR, LF] + rest, columns) == Prepend([CR, LF], Run(Decoder(false, FRESH), rest, columns))
  {
    var all := [CR, LF] + rest;
    assert all[1..] == [LF] + rest && ([LF] + rest)[1..] == rest;
    assert Run(Decoder(true, l), [LF] + rest, columns) == Prepend([CR, LF], Run(Decoder(false, FRESH), rest, columns));
  }

  /** A CR that something other than LF follows is replaced by the erase of the line so far. */
  lemma LoneCrIsReplaced(l: Line, rest: seq<Byte>, columns: int)
    requires rest != [] && rest[0] != LF
    ensures Run(Decoder(false, l), [CR] + rest, columns) ==
            Prepend(EraseBytes(WrappedRowCount(l.width, columns)), Run(Decoder(false, FRESH), rest, columns))
  {
    assert ([CR] + rest)[1..] == rest;
    LoneCrErases(l, rest, columns);
  }

  // ---------- Lines and streams ----------

  /** A line that is kept ends with CR LF, one to be overwritten with a lone CR. */
  datatype Segment = Segment(line: seq<Item>, kept: bool)

  function EndOf(x: Segment): seq<Byte> {
    if x.kept then [CR, LF] else [CR]
  }

  function Stream(segments: seq<Segment>, last: seq<Item>): seq<Byte> {
    if segments == [] then Bytes(last)
    else Bytes(segments[0].line) + EndOf(segments[0]) + Stream(segments[1..], last)
  }

  function KeptOnly(segments: seq<Segment>): seq<Segment> {
    if segments == [] then []
    else (if segments[0].kept then [segments[0]] else []) + KeptOnly(segments[1..])
  }

  /** Well-formed lines, none taller than the screen. */
  ghost predicate StreamOk(segments: seq<Segment>, columns: int, height: nat) {
    forall x | x in segments :: LineOk(x.line) && WrappedRowCount(Cells(x.line), columns) <= height
  }

  lemma ItemStarts(x: Item)
    requires ItemOk(x)
    ensures ItemBytes(x) != [] && ItemBytes(x)[0] != CR && (!x.Tab? && !x.Back? ==> ItemBytes(x)[0] != LF)
    ensures CR !in ItemBytes(x)
  {}

  lemma {:induction false} LineBytes(line: seq<Item>)
    requires LineOk(line)
    ensures CR !in Bytes(line) && (line != [] ==> Bytes(line) != [] && Bytes(line)[0] != LF)
  {
    if line != [] {
      var n := |line| - 1;
      assert line[n] in line;
      assert forall x | x in line[..n] :: x in line;
      LineBytes(line[..n]);
      ItemStarts(line[n]);
    }
  }

  /** What follows a lone CR is never a LF. */
  lemma StreamStarts(segments: seq<Segment>, last: seq<Item>)
    requires LineOk(last) && (segments == [] ==> last != []) && forall x | x in segments :: LineOk(x.line)
    ensures Stream(segments, last) != [] && Stream(segments, last)[0] != LF
  {
    if segments == [] {
      LineBytes(last);
    } else {
      assert segments[0] in segments;
      LineBytes(segments[0].line);
      var line := Bytes(segments[0].line);
      if line == [] { assert Stream(segments, last)[0] == CR; }
    }
  }

  /** What the screen gets in place of the end of a segment. */
  function EndShown(x: Segment, columns: int): seq<Byte> {
    if x.kept then [CR, LF] else EraseBytes(WrappedRowCount(TrackAll(FRESH, Bytes(x.line)).width, columns))
  }

  lemma LineThen(line: seq<Byte>, rest: seq<Byte>, columns: int)
    requires CR !in line
    ensures Run(Decoder(false, FRESH), line + rest, columns).output ==
            line + Run(Decoder(false, TrackAll(FRESH, line)), rest, columns).output
  {
    RunOfTwo(Decoder(false, FRESH), line, rest, columns);
    WithoutCrPasses(FRESH, line, columns);
  }

  lemma EndThen(x: Segment, rest: seq<Byte>, columns: int)
    requires !x.kept ==> rest != [] && rest[0] != LF
    ensures Run(Decoder(false, TrackAll(FRESH, Bytes(x.line))), EndOf(x) + rest, columns).output ==
            EndShown(x, columns) + Run(Decoder(false, FRESH), rest, columns).output
  {
    var l := TrackAll(FRESH, Bytes(x.line));
    if x.kept { CrLfPasses(l, rest, columns); } else { LoneCrIsReplaced(l, rest, columns); }
  }

  /** The decoder's output for one segment and the rest. */
  lemma SegmentDecodes(x: Segment, rest: seq<Byte>, columns: int)
    requires LineOk(x.line) && (!x.kept ==> rest != [] && rest[0] != LF)
    ensures Run(Decoder(false, FRESH), Bytes(x.line) + EndOf(x) + rest, columns).output ==
            Bytes(x.line) + EndShown(x, columns) + Run(Decoder(false, FRESH), rest, columns).output
  {
    LineBytes(x.line);
    InThreeParts(Bytes(x.line), EndOf(x), rest);
    LineThen(Bytes(x.line), EndOf(x) + rest, columns);
    EndThen(x, rest, columns);
    InThreeParts(Bytes(x.line), EndShown(x, columns), Run(Decoder(false, FRESH), rest, columns).output);
  }

  // ---------- Two screens with the same text ----------

  /** The same cells and cursor; one may have scrolled further. */
  ghost predicate SameText(a: Screen, b: Screen) {
    && a.written == b.written && a.row == b.row && a.col == b.col && a.escape == b.escape == Ground
    && a.cols == b.cols && a.height == b.height && ScreenOk(a) && ScreenOk(b)
  }

  /** At the start of a row with nothing written there or below. */
  ghost predicate AtFreshRow(s: Screen) {
    s.col == 0 && forall c | c in s.written :: c.0 < s.row
  }

  lemma ItemKeepsSame(a: Screen, b: Screen, x: Item)
    requires SameText(a, b) && ItemOk(x)
    ensures SameText(FeedAll(a, ItemBytes(x)), FeedAll(b, ItemBytes(x)))
  {
    ItemFeeds(a, FRESH, x);
    ItemFeeds(b, FRESH, x);
  }

  lemma {:induction false} LineKeepsSame(a: Screen, b: Screen, line: seq<Item>)
    requires SameText(a, b) && ItemsOk(line)
    ensures SameText(FeedAll(a, Bytes(line)), FeedAll(b, Bytes(line)))
  {
    if line != [] {
      var n := |line| - 1;
      assert line[n] in line;
      assert forall x | x in line[..n] :: x in line;
      LineKeepsSame(a, b, line[..n]);
      BytesThen(a, line);
      BytesThen(b, line);
      ItemKeepsSame(FeedAll(a, Bytes(line[..n])), FeedAll(b, Bytes(line[..n])), line[n]);
    }
  }

  lemma CrLfFeeds(s: Screen)
    requires s.height >= 1 && s.escape == Ground
    ensures FeedAll(s, [CR, LF]) == DownOne(s.(col := 0))
  {
    TwoBytes(s, FRESH, CR, LF);
  }

  lemma KeptLineKeepsSame(a: Screen, b: Screen, line: seq<Item>)
    requires SameText(a, b) && AtFreshRow(a) && LineOk(line)
    ensures var a', b' := FeedAll(FeedAll(a, Bytes(line)), [CR, LF]), FeedAll(FeedAll(b, Bytes(line)), [CR, LF]);
            SameText(a', b') && AtFreshRow(a')
  {
    LineKeepsSame(a, b, line);
    LinePrints(a, line);
    CrLfFeeds(FeedAll(a, Bytes(line)));
    CrLfFeeds(FeedAll(b, Bytes(line)));
  }

  lemma OverwrittenLineLeavesNothing(a: Screen, b: Screen, line: seq<Item>, columns: int)
    requires SameText(a, b) && AtFreshRow(a) && LineOk(line) && SafeColumns(columns) == a.cols
    requires WrappedRowCount(Cells(line), columns) <= a.height
    ensures var a' := FeedAll(FeedAll(a, Bytes(line)), EndShown(Segment(line, false), columns));
            SameText(a', b) && AtFreshRow(a')
  {
    var s := FeedAll(a, Bytes(line));
    LinePrints(a, line);
    StillVisible(a, line, columns);
    LoneCrEraseIsRight(a, line, columns);
    var a' := FeedAll(s, EraseLine(TrackAll(FRESH, Bytes(line)), columns));
    assert a'.row == a.row && a'.written == a.written;
  }

  // ---------- The whole stream ----------

  function Decoded(segments: seq<Segment>, last: seq<Item>, columns: int): seq<Byte> {
    Run(Decoder(false, FRESH), Stream(segments, last), columns).output
  }

  lemma KeptFirst(segments: seq<Segment>, last: seq<Item>)
    requires segments != []
    ensures Stream(KeptOnly(segments), last) ==
            (if segments[0].kept then Bytes(segments[0].line) + [CR, LF] else []) + Stream(KeptOnly(segments[1..]), last)
  {
    var k, rest := KeptOnly(segments), KeptOnly(segments[1..]);
    if segments[0].kept {
      assert k[0] == segments[0] && k[1..] == rest;
    } else {
      assert k == rest;
    }
  }

  lemma FeedThree(s: Screen, a: seq<Byte>, b: seq<Byte>, c: seq<Byte>)
    requires s.height >= 1
    ensures FeedAll(s, a + b + c) == FeedAll(FeedAll(FeedAll(s, a), b), c)
  {
    FeedTwo(s, a + b, c);
    FeedTwo(s, a, b);
  }

  /** The first segment on both screens: kept on both, or erased on one and never sent to the other. */
  lemma SegmentShows(a: Screen, b: Screen, x: Segment, columns: int)
    requires SameText(a, b) && AtFreshRow(a) && SafeColumns(columns) == a.cols && StreamOk([x], columns, a.height)
    ensures var a' := FeedAll(FeedAll(a, Bytes(x.line)), EndShown(x, columns));
            var b' := if x.kept then FeedAll(FeedAll(b, Bytes(x.line)), [CR, LF]) else b;
            SameText(a', b') && AtFreshRow(a')
  {
    assert x in [x];
    if x.kept {
      KeptLineKeepsSame(a, b, x.line);
    } else {
      OverwrittenLineLeavesNothing(a, b, x.line, columns);
      assert Segment(x.line, false) == x;
    }
  }

  lemma ShownInParts(a: Screen, b: Screen, segments: seq<Segment>, last: seq<Item>, columns: int)
    requires a.height >= 1 && b.height >= 1 && segments != [] && LineOk(last) && last != []
    requires forall y | y in segments :: LineOk(y.line)
    ensures var x, rest := segments[0], segments[1..];
            && FeedAll(a, Decoded(segments, last, columns)) ==
               FeedAll(FeedAll(FeedAll(a, Bytes(x.line)), EndShown(x, columns)), Decoded(rest, last, columns))
            && FeedAll(b, Stream(KeptOnly(segments), last)) ==
               FeedAll(if x.kept then FeedAll(FeedAll(b, Bytes(x.line)), [CR, LF]) else b, Stream(KeptOnly(rest), last))
  {
    var x, rest := segments[0], segments[1..];
    assert x in segments && forall y | y in rest :: y in segments;
    StreamStarts(rest, last);
    SegmentDecodes(x, Stream(rest, last), columns);
    FeedThree(a, Bytes(x.line), EndShown(x, columns), Decoded(rest, last, columns));
    KeptFirst(segments, last);
    var tail := Stream(KeptOnly(rest), last);
    if x.kept { FeedThree(b, Bytes(x.line), [CR, LF], tail); } else { assert [] + tail == tail; }
  }

  /** Both screens after the first segment, from which the rest goes on. */
  lemma AfterFirst(a: Screen, b: Screen, segments: seq<Segment>, last: seq<Item>, columns: int) returns (a': Screen, b': Screen)
    requires SameText(a, b) && AtFreshRow(a) && SafeColumns(columns) == a.cols && segments != []
    requires LineOk(last) && last != [] && StreamOk(segments, columns, a.height)
    ensures SameText(a', b') && AtFreshRow(a') && a'.cols == a.cols && a'.height == a.height
    ensures FeedAll(a, Decoded(segments, last, columns)) == FeedAll(a', Decoded(segments[1..], last, columns))
    ensures FeedAll(b, Stream(KeptOnly(segments), last)) == FeedAll(b', Stream(KeptOnly(segments[1..]), last))
  {
    var x := segments[0];
    assert x in segments;
    a', b' := FeedAll(FeedAll(a, Bytes(x.line)), EndShown(x, columns)), b;
    if x.kept { b' := FeedAll(FeedAll(b, Bytes(x.line)), [CR, LF]); }
    SegmentShows(a, b, x, columns);
    ShownInParts(a, b, segments, last, columns);
  }

  /** On the screen, the decoded stream shows the same text, with the cursor in the same place, as if the lines
      that ended with a lone CR had never been sent: they are overwritten, whatever came before and whatever
      follows. */
  lemma {:induction false} OverwrittenLinesLeaveNoTrace(a: Screen, b: Screen, segments: seq<Segment>, last: seq<Item>,
                                                        columns: int)
    requires SameText(a, b) && AtFreshRow(a) && SafeColumns(columns) == a.cols
    requires LineOk(last) && last != [] && StreamOk(segments, columns, a.height)
    ensures SameText(FeedAll(a, Decoded(segments, last, columns)), FeedAll(b, Stream(KeptOnly(segments), last)))
    decreases |segments|
  {
    if segments == [] {
      LastLineShows(a, b, last, columns);
    } else {
      var a', b' := AfterFirst(a, b, segments, last, columns);
      assert forall y | y in segments[1..] :: y in segments;
      OverwrittenLinesLeaveNoTrace(a', b', segments[1..], last, columns);
    }
  }

  lemma LastLineShows(a: Screen, b: Screen, last: seq<Item>, columns: int)
    requires SameText(a, b) && LineOk(last)
    ensures SameText(FeedAll(a, Decoded([], last, columns)), FeedAll(b, Stream(KeptOnly([]), last)))
  {
    LineBytes(last);
    WithoutCrPasses(FRESH, Bytes(last), columns);
    LineKeepsSame(a, b, last);
  }

  // ---------- Lines that begin elsewhere ----------

  /** After a CR LF a line begins in column 0, wherever the cursor was; after a LF alone it begins in the
      column where the cursor was, and either way the tracked width begins at 0. */
  lemma LineBegins(s: Screen, width: nat)
    requires ScreenOk(s) && s.escape == Ground
    ensures var t := FeedAll(s, [CR, LF]); ScreenOk(t) && t.escape == Ground && t.col == 0 && t.row == s.row + 1
    ensures var t := FeedAll(s, [LF]); ScreenOk(t) && t.escape == Ground && t.col == s.col && t.row == s.row + 1
    ensures TrackAll(Line(width, Normal), [LF]) == FRESH
  {
    CrLfFeeds(s);
    OneByte(s, Line(width, Normal), LF);
  }

  /** So a line after a lone LF is erased exactly while its first row is visible and, begun in that column, it
      needs no row more than it would need in column 0. */
  lemma EraseAfterLineFeed(s: Screen, line: seq<Item>, columns: int)
    requires ScreenOk(s) && s.escape == Ground && LineOk(line) && SafeColumns(columns) == s.cols
    ensures var printed := FeedAll(FeedAll(s, [LF]), Bytes(line));
            var e := FeedAll(printed, EraseLine(TrackAll(FRESH, Bytes(line)), columns));
            e.row == s.row + 1 <==> printed.top <= s.row + 1 && Fits(s.col, Cells(line), s.cols)
  {
    LineBegins(s, 0);
    LoneCrEraseIsRight(FeedAll(s, [LF]), line, columns);
  }

  // ---------- Tabs and backspaces ----------

  function Width(line: seq<Item>): nat {
    if line == [] then 0 else Widened(Width(line[..|line| - 1]), line[|line| - 1])
  }

  /** A tab or a backspace is tracked as four columns more or one fewer. */
  lemma {:induction false} WidthIsTracked(start: Screen, line: seq<Item>)
    requires ScreenOk(start) && start.escape == Ground && ItemsOk(line)
    ensures TrackAll(FRESH, Bytes(line)) == Line(Width(line), Normal)
    ensures var s := FeedAll(start, Bytes(line));
            ScreenOk(s) && s.escape == Ground && s.row >= start.row && s.cols == start.cols && s.height == start.height
  {
    if line != [] {
      var n := |line| - 1;
      assert line[n] in line;
      assert forall x | x in line[..n] :: x in line;
      WidthIsTracked(start, line[..n]);
      BytesThen(start, line);
      ItemFeeds(FeedAll(start, Bytes(line[..n])), Line(Width(line[..n]), Normal), line[n]);
    }
  }

  /** The erase of any line, tabs and backspaces included, returns to the row where the line began exactly if
      that row is visible and the erase counts as many rows as the line occupies, or more with nothing above. */
  lemma AnyEraseIsExact(start: Screen, line: seq<Item>, columns: int)
    requires ScreenOk(start) && start.escape == Ground && ItemsOk(line) && SafeColumns(columns) == start.cols
    ensures var s := FeedAll(start, Bytes(line));
            var e, counted := FeedAll(s, EraseLine(TrackAll(FRESH, Bytes(line)), columns)), WrappedRowCount(Width(line), columns);
            && (e.row == start.row <==>
                  && s.top <= start.row
                  && (counted == s.row - start.row + 1 || (counted > s.row - start.row + 1 && s.top == start.row)))
            && (e.row == start.row ==> e.written == set c | c in s.written && !(start.row <= c.0 <= s.row))
  {
    WidthIsTracked(start, line);
    var s, counted := FeedAll(start, Bytes(line)), WrappedRowCount(Width(line), columns);
    EraseFeeds(s, counted);
    ErasedUpIs(s, counted);
  }

  lemma OneRowCounted(width: nat, columns: int)
    ensures WrappedRowCount(width, columns) == 1 <==> width <= SafeColumns(columns)
  {
    var c := SafeColumns(columns);
    var w := if width < 1 then 0 else width - 1;
    if w >= c {
      assert w / c >= 1;
    }
  }

  /** A line that stays in one row is erased rightly exactly if its tracked width is at most the number of
      columns, or its row is the top one. */
  lemma OneRowErase(start: Screen, line: seq<Item>, columns: int)
    requires ScreenOk(start) && start.escape == Ground && ItemsOk(line) && SafeColumns(columns) == start.cols
    requires FeedAll(start, Bytes(line)).row == start.row
    ensures var s := FeedAll(start, Bytes(line));
            var e := FeedAll(s, EraseLine(TrackAll(FRESH, Bytes(line)), columns));
            e.row == start.row <==> Width(line) <= start.cols || s.top == start.row
  {
    WidthIsTracked(start, line);
    AnyEraseIsExact(start, line, columns);
    OneRowCounted(Width(line), columns);
  }

  function Tabs(n: nat): seq<Item> {
    if n == 0 then [] else Tabs(n - 1) + [Tab]
  }

  /** Tabs never leave the row, but each is tracked as four columns. */
  lemma {:induction false} TabsStay(start: Screen, n: nat)
    requires ScreenOk(start) && start.escape == Ground
    ensures ItemsOk(Tabs(n)) && Width(Tabs(n)) == 4 * n
    ensures var s := FeedAll(start, Bytes(Tabs(n))); s.row == start.row && s.top == start.top
  {
    if n > 0 {
      var m := n - 1;
      TabsStay(start, m);
      assert Tabs(n)[..|Tabs(n)| - 1] == Tabs(m);
      OneMoreItem(start, Tabs(n));
    }
  }

  lemma OneMoreItem(start: Screen, line: seq<Item>)
    requires ScreenOk(start) && start.escape == Ground && ItemsOk(line) && line != []
    ensures FeedAll(start, Bytes(line)) == Shown(FeedAll(start, Bytes(line[..|line| - 1])), line[|line| - 1])
  {
    var n := |line| - 1;
    assert line[n] in line && forall x | x in line[..n] :: x in line;
    WidthIsTracked(start, line[..n]);
    BytesThen(start, line);
    ItemFeeds(FeedAll(start, Bytes(line[..n])), Line(Width(line[..n]), Normal), line[n]);
  }

  /** So on every screen enough tabs below its top row make the erase climb too far. */
  lemma TabsEraseTooMuch(start: Screen, n: nat, columns: int)
    requires ScreenOk(start) && start.escape == Ground && SafeColumns(columns) == start.cols
    requires 4 * n > start.cols && start.top < start.row
    ensures FeedAll(FeedAll(start, Bytes(Tabs(n))), EraseLine(TrackAll(FRESH, Bytes(Tabs(n))), columns)).row != start.row
  {
    TabsStay(start, n);
    OneRowErase(start, Tabs(n), columns);
  }
}
