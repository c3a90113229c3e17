/** A small auto-wrapping screen, and the proof that the bytes emitted for a lone CR erase exactly
    the rows of the line printed so far. Rows are numbered from the start of the scroll-back, so
    scrolling moves the top of the visible screen and no text. */
module TerminalErase {
  import opened TerminalDecode

  datatype Escape = Ground | AfterEsc | Params(bytes: seq<Byte>) | InTitle | TitleEsc

  /** col == cols is the pending wrap after the last column has been printed. */
  datatype Screen = Screen(
    cols: nat, height: nat, top: nat, row: nat, col: nat, written: set<(nat, nat)>, escape: Escape)

  ghost predicate ScreenOk(s: Screen) {
    s.cols >= 1 && s.height >= 1 && s.col <= s.cols && s.top <= s.row < s.top + s.height
  }

  // ---------- The screen ----------

  function DownOne(s: Screen): Screen {
    s.(row := s.row + 1, top := if s.row + 1 < s.top + s.height then s.top else s.row + 2 - s.height)
  }

  function PrintCell(s: Screen): Screen
    requires s.height >= 1
  {
    var w := if s.col >= s.cols then DownOne(s).(col := 0) else s;
    w.(col := w.col + 1, written := w.written + {(w.row, w.col)})
  }

  /** To the next multiple of 8, at most the last column; nothing while a wrap is pending. */
  function TabOver(s: Screen): Screen {
    if s.col >= s.cols then s
    else
      var stop := (s.col / 8 + 1) * 8;
      s.(col := if stop < s.cols then stop else s.cols - 1)
  }

  /** One column back within the row. */
  function BackOne(s: Screen): Screen {
    var at := if s.col >= s.cols && s.cols > 0 then s.cols - 1 else s.col;
    s.(col := if at == 0 then 0 else at - 1)
  }

  predicate Prints(b: Byte) {
    b >= 32 && b != 127 && (b < 128 || b >= 192)
  }

  function EraseRow(s: Screen): Screen {
    s.(written := set c | c in s.written && c.0 != s.row)
  }

  /** CUU by one and EL of the whole line; SGR and every other sequence leave cells and cursor alone. */
  function Execute(s: Screen, params: seq<Byte>, final: Byte): Screen {
    if final == 65 && params == [49] then s.(row := if s.row > s.top then s.row - 1 else s.row)
    else if final == 75 && params == [50] then EraseRow(s)
    else s
  }

  function Feed(s: Screen, b: Byte): Screen
    requires s.height >= 1
  {
    match s.escape
    case AfterEsc => s.(escape := if b == 91 then Params([]) else if b == 93 then InTitle else Ground)
    case InTitle => s.(escape := if b == 7 then Ground else if b == ESC then TitleEsc else InTitle)
    case TitleEsc => s.(escape := if b == 92 then Ground else InTitle)
    case Params(p) => if 64 <= b <= 126 then Execute(s.(escape := Ground), p, b) else s.(escape := Params(p + [b]))
    case Ground =>
      if b == ESC then s.(escape := AfterEsc)
      else if b == CR then s.(col := 0)
      else if b == LF then DownOne(s)
      else if b == 9 then TabOver(s)
      else if b == 8 then BackOne(s)
      else if Prints(b) then PrintCell(s)
      else s
  }

  function FeedAll(s: Screen, bytes: seq<Byte>): (r: Screen)
    requires s.height >= 1
    ensures r.height == s.height && r.cols == s.cols
    decreases |bytes|
  {
    if bytes == [] then s else FeedAll(Feed(s, bytes[0]), bytes[1..])
  }

  lemma {:induction false} FeedTwo(s: Screen, a: seq<Byte>, b: seq<Byte>)
    requires s.height >= 1
    ensures FeedAll(s, a + b) == FeedAll(FeedAll(s, a), b)
    decreases |a|
  {
    if a == [] {
      assert a + b == b;
    } else {
      assert (a + b)[1..] == a[1..] + b;
      FeedTwo(Feed(s, a[0]), a[1..], b);
    }
  }

  function TrackAll(l: Line, bytes: seq<Byte>): Line
    decreases |bytes|
  {
    if bytes == [] then l else TrackAll(Track(l, bytes[0]), bytes[1..])
  }

  lemma {:induction false} TrackTwo(l: Line, a: seq<Byte>, b: seq<Byte>)
    ensures TrackAll(l, a + b) == TrackAll(TrackAll(l, a), b)
    decreases |a|
  {
    if a == [] {
      assert a + b == b;
    } else {
      assert (a + b)[1..] == a[1..] + b;
      TrackTwo(Track(l, a[0]), a[1..], b);
    }
  }

  // ---------- A line of text ----------

  /** A single-cell character (its first byte and any UTF-8 continuation bytes), a complete colour sequence,
      a complete title sequence ended by BEL or by ESC and a backslash, a tab, or a backspace. */
  datatype Item =
    | Cell(lead: Byte, more: seq<Byte>)
    | Colour(params: seq<Byte>)
    | Title(text: seq<Byte>, bell: bool)
    | Tab
    | Back

  ghost predicate ItemOk(x: Item) {
    match x
    case Cell(lead, more) => Prints(lead) && forall b | b in more :: 128 <= b < 192
    case Colour(params) => forall b | b in params :: 48 <= b < 64
    case Title(text, _) => forall b | b in text :: b >= 32
    case Tab => true
    case Back => true
  }

  function ItemBytes(x: Item): seq<Byte> {
    match x
    case Cell(lead, more) => [lead] + more
    case Colour(params) => [27, 91] + params + [109]
    case Title(text, bell) => [27, 93] + text + if bell then [7] else [27, 92]
    case Tab => [9]
    case Back => [8]
  }

  function Bytes(line: seq<Item>): seq<Byte> {
    if line == [] then [] else Bytes(line[..|line| - 1]) + ItemBytes(line[|line| - 1])
  }

  function Cells(line: seq<Item>): nat {
    if line == [] then 0 else Cells(line[..|line| - 1]) + if line[|line| - 1].Cell? then 1 else 0
  }

  ghost predicate ItemsOk(line: seq<Item>) {
    forall x | x in line :: ItemOk(x)
  }

  /** No tabs and no backspaces. */
  ghost predicate LineOk(line: seq<Item>) {
    forall x | x in line :: ItemOk(x) && !x.Tab? && !x.Back?
  }

  /** What an item does to the screen. */
  function Shown(s: Screen, x: Item): Screen
    requires s.height >= 1
  {
    match x
    case Cell(_, _) => PrintCell(s)
    case Tab => TabOver(s)
    case Back => BackOne(s)
    case _ => s
  }

  /** What an item adds to the width that is kept track of. */
  function Widened(width: nat, x: Item): nat {
    match x
    case Cell(_, _) => width + 1
    case Tab => width + 4
    case Back => if width > 0 then width - 1 else 0
    case _ => width
  }

  lemma {:induction false} Continuations(s: Screen, l: Line, more: seq<Byte>)
    requires s.height >= 1 && s.escape == Ground && l.ansi == Normal
    requires forall b | b in more :: 128 <= b < 192
    ensures FeedAll(s, more) == s && TrackAll(l, more) == l
    decreases |more|
  {
    if more != [] {
      assert more[0] in more;
      assert forall b | b in more[1..] :: b in more;
      Continuations(s, l, more[1..]);
    }
  }

  lemma {:induction false} Parameters(s: Screen, l: Line, p: seq<Byte>, params: seq<Byte>)
    requires s.height >= 1 && s.escape == Params(p) && l.ansi == Csi
    requires forall b | b in params :: 48 <= b < 64
    ensures FeedAll(s, params) == s.(escape := Params(p + params)) && TrackAll(l, params) == l
    decreases |params|
  {
    if params == [] {
      assert p + params == p;
    } else {
      assert params[0] in params;
      assert forall b | b in params[1..] :: b in params;
      assert p + [params[0]] + params[1..] == p + params;
      Parameters(Feed(s, params[0]), l, p + [params[0]], params[1..]);
    }
  }

  lemma {:induction false} TitleText(s: Screen, l: Line, text: seq<Byte>)
    requires s.height >= 1 && s.escape == InTitle && l.ansi == Osc
    requires forall b | b in text :: b >= 32
    ensures FeedAll(s, text) == s && TrackAll(l, text) == l
    decreases |text|
  {
    if text != [] {
      assert text[0] in text;
      assert forall b | b in text[1..] :: b in text;
      TitleText(s, l, text[1..]);
    }
  }

  lemma TwoBytes(s: Screen, l: Line, a: Byte, b: Byte)
    requires s.height >= 1
    ensures FeedAll(s, [a, b]) == Feed(Feed(s, a), b) && TrackAll(l, [a, b]) == Track(Track(l, a), b)
  {
    assert [a, b][1..] == [b] && [b][1..] == [];
    assert FeedAll(s, [a, b]) == FeedAll(Feed(s, a), [b]);
    assert TrackAll(l, [a, b]) == TrackAll(Track(l, a), [b]);
  }

  lemma OneByte(s: Screen, l: Line, a: Byte)
    requires s.height >= 1
    ensures FeedAll(s, [a]) == Feed(s, a) && TrackAll(l, [a]) == Track(l, a)
  {
    assert [a][1..] == [];
  }

  lemma ColourFeeds(s: Screen, l: Line, params: seq<Byte>)
    requires s.height >= 1 && s.escape == Ground && l.ansi == Normal && ItemOk(Colour(params))
    ensures FeedAll(s, ItemBytes(Colour(params))) == s && TrackAll(l, ItemBytes(Colour(params))) == l
  {
    var open: seq<Byte> := [27, 91];
    var close: seq<Byte> := [109];
    var s', l' := s.(escape := Params([])), l.(ansi := Csi);
    assert ItemBytes(Colour(params)) == open + (params + close);
    FeedTwo(s, open, params + close);
    TrackTwo(l, open, params + close);
    TwoBytes(s, l, 27, 91);
    FeedTwo(s', params, close);
    TrackTwo(l', params, close);
    Parameters(s', l', [], params);
    assert [] + params == params;
    OneByte(s.(escape := Params(params)), l', 109);
  }

  lemma TitleFeeds(s: Screen, l: Line, text: seq<Byte>, bell: bool)
    requires s.height >= 1 && s.escape == Ground && l.ansi == Normal && ItemOk(Title(text, bell))
    ensures FeedAll(s, ItemBytes(Title(text, bell))) == s && TrackAll(l, ItemBytes(Title(text, bell))) == l
  {
    var open: seq<Byte> := [27, 93];
    var close: seq<Byte> := if bell then [7] else [27, 92];
    var s', l' := s.(escape := InTitle), l.(ansi := Osc);
    assert ItemBytes(Title(text, bell)) == open + (text + close);
    FeedTwo(s, open, text + close);
    TrackTwo(l, open, text + close);
    TwoBytes(s, l, 27, 93);
    FeedTwo(s', text, close);
    TrackTwo(l', text, close);
    TitleText(s', l', text);
    if bell { OneByte(s', l', 7); } else { TwoBytes(s', l', 27, 92); }
  }

  lemma ItemFeeds(s: Screen, l: Line, x: Item)
    requires s.height >= 1 && s.escape == Ground && l.ansi == Normal && ItemOk(x)
    ensures FeedAll(s, ItemBytes(x)) == Shown(s, x)
    ensures TrackAll(l, ItemBytes(x)) == l.(width := Widened(l.width, x))
  {
    match x
    case Cell(lead, more) =>
      assert ItemBytes(x)[1..] == more;
      Continuations(Feed(s, lead), Track(l, lead), more);
    case Colour(params) => ColourFeeds(s, l, params);
    case Title(text, bell) => TitleFeeds(s, l, text, bell);
    case Tab => OneByte(s, l, 9);
    case Back => OneByte(s, l, 8);
  }

  /** After n cells from the cursor of start: the cursor, the scroll position and the cells written. */
  ghost predicate PrintedFrom(start: Screen, s: Screen, n: nat) {
    && s.cols == start.cols && s.height == start.height && s.escape == Ground
    && start.row <= s.row && (s.row - start.row) * start.cols + s.col == start.col + n
    && (if n == 0 then s.row == start.row && s.col == start.col else 1 <= s.col <= s.cols)
    && s.top == (if s.row < start.top + s.height then start.top else s.row + 1 - s.height)
    && start.written <= s.written
    && (forall c | c in s.written :: c in start.written || start.row <= c.0 <= s.row)
  }

  /** One more item of a line. */
  lemma BytesThen(s: Screen, line: seq<Item>)
    requires s.height >= 1 && line != []
    ensures var n := |line| - 1;
            && FeedAll(s, Bytes(line)) == FeedAll(FeedAll(s, Bytes(line[..n])), ItemBytes(line[n]))
            && TrackAll(FRESH, Bytes(line)) == TrackAll(TrackAll(FRESH, Bytes(line[..n])), ItemBytes(line[n]))
  {
    var n := |line| - 1;
    FeedTwo(s, Bytes(line[..n]), ItemBytes(line[n]));
    TrackTwo(FRESH, Bytes(line[..n]), ItemBytes(line[n]));
  }

  /** The tracked width is the cell count, and the screen has wrapped accordingly. */
  lemma {:induction false} LinePrints(start: Screen, line: seq<Item>)
    requires ScreenOk(start) && start.escape == Ground && LineOk(line)
    ensures TrackAll(FRESH, Bytes(line)) == Line(Cells(line), Normal)
    ensures PrintedFrom(start, FeedAll(start, Bytes(line)), Cells(line))
  {
    if line != [] {
      var n := |line| - 1;
      assert line[n] in line;
      assert forall x | x in line[..n] :: x in line;
      LinePrints(start, line[..n]);
      BytesThen(start, line);
      ItemPrints(start, FeedAll(start, Bytes(line[..n])), Cells(line[..n]), line[n]);
    }
  }

  lemma ItemPrints(start: Screen, s: Screen, n: nat, x: Item)
    requires ScreenOk(start) && PrintedFrom(start, s, n) && ItemOk(x) && !x.Tab? && !x.Back?
    ensures PrintedFrom(start, FeedAll(s, ItemBytes(x)), if x.Cell? then n + 1 else n)
    ensures TrackAll(Line(n, Normal), ItemBytes(x)) == Line(if x.Cell? then n + 1 else n, Normal)
  {
    ItemFeeds(s, Line(n, Normal), x);
    if x.Cell? { CellPrints(start, s, n); }
  }

  lemma CellPrints(start: Screen, s: Screen, n: nat)
    requires ScreenOk(start) && PrintedFrom(start, s, n)
    ensures PrintedFrom(start, PrintCell(s), n + 1)
  {
    assert (s.row + 1 - start.row) * start.cols == (s.row - start.row) * start.cols + start.cols;
  }

  lemma AtLeastOnce(x: int, c: nat)
    requires x >= 1
    ensures x * c >= c
  {}

  lemma QuotientUnique(n: nat, q: int, r: nat, d: int, m: nat, c: nat)
    requires n == q * c + r && n == d * c + m && r < c && m < c
    ensures d == q
  {
    assert (q - d) * c == q * c - d * c;
    assert (d - q) * c == d * c - q * c;
    if q > d { AtLeastOnce(q - d, c); }
    if d > q { AtLeastOnce(d - q, c); }
  }

  /** A line of n cells that begins in column c ends in the row in which it would end if it began in
      column 0. */
  predicate Fits(c: nat, n: nat, cols: nat)
    requires cols >= 1
  {
    n == 0 || c + (n - 1) % cols < cols
  }

  /** The row count used for erasing is the number of rows the line occupies exactly if the line fits so; it
      is one too few if not. */
  lemma RowCountIsRows(start: Screen, s: Screen, n: nat, columns: int)
    requires ScreenOk(start) && PrintedFrom(start, s, n) && SafeColumns(columns) == start.cols
    ensures WrappedRowCount(n, columns) == s.row - start.row + if Fits(start.col, n, start.cols) then 1 else 0
  {
    if n > 0 {
      var cols, rows := start.cols, s.row - start.row;
      var q, r := (n - 1) / cols, (n - 1) % cols;
      assert n - 1 == q * cols + r;
      assert rows * cols + (s.col - 1) == q * cols + (start.col + r);
      if start.col + r < cols {
        QuotientUnique(rows * cols + (s.col - 1), rows, s.col - 1, q, start.col + r, cols);
      } else {
        assert (q + 1) * cols == q * cols + cols;
        QuotientUnique(rows * cols + (s.col - 1), rows, s.col - 1, q + 1, start.col + r - cols, cols);
      }
    }
  }

  // ---------- Erasing ----------

  function ErasedUp(s: Screen, rows: nat): Screen
    requires rows >= 1
  {
    if rows == 1 then EraseRow(s).(col := 0)
    else
      var t := ErasedUp(s, rows - 1);
      EraseRow(t.(row := if t.row > t.top then t.row - 1 else t.row))
  }

  lemma {:induction false} EraseFeeds(s: Screen, rows: nat)
    requires s.height >= 1 && s.escape == Ground && rows >= 1
    ensures FeedAll(s, EraseBytes(rows)) == ErasedUp(s, rows)
    ensures ErasedUp(s, rows).escape == Ground && ErasedUp(s, rows).col == 0 && ErasedUp(s, rows).height == s.height
  {
    var wipe := [CR] + ERASE_LINE;
    if rows == 1 {
      WipeFeeds(s);
    } else {
      EraseFeeds(s, rows - 1);
      var t := ErasedUp(s, rows - 1);
      assert EraseBytes(rows) == EraseBytes(rows - 1) + (CURSOR_UP + wipe);
      FeedTwo(s, EraseBytes(rows - 1), CURSOR_UP + wipe);
      FeedTwo(t, CURSOR_UP, wipe);
      UpFeeds(t);
      WipeFeeds(FeedAll(t, CURSOR_UP));
    }
  }

  lemma UpFeeds(s: Screen)
    requires s.height >= 1 && s.escape == Ground
    ensures FeedAll(s, CURSOR_UP) == s.(row := if s.row > s.top then s.row - 1 else s.row)
  {
    FourFeeds(s, CURSOR_UP);
  }

  lemma WipeFeeds(s: Screen)
    requires s.height >= 1 && s.escape == Ground
    ensures FeedAll(s, [CR] + ERASE_LINE) == EraseRow(s).(col := 0)
  {
    FeedTwo(s, [CR], ERASE_LINE);
    assert FeedAll(s, [CR]) == s.(col := 0);
    FourFeeds(s.(col := 0), ERASE_LINE);
  }

  lemma FourFeeds(s: Screen, b: seq<Byte>)
    requires s.height >= 1 && |b| == 4
    ensures FeedAll(s, b) == Feed(Feed(Feed(Feed(s, b[0]), b[1]), b[2]), b[3])
  {
    var s1 := Feed(s, b[0]);
    var s2 := Feed(s1, b[1]);
    var s3 := Feed(s2, b[2]);
    assert b[1..][1..] == b[2..] && b[2..][1..] == b[3..] && b[3..][1..] == [];
    assert FeedAll(s, b) == FeedAll(s1, b[1..]);
    assert FeedAll(s1, b[1..]) == FeedAll(s2, b[2..]);
    assert FeedAll(s2, b[2..]) == FeedAll(s3, b[3..]);
    assert FeedAll(s3, b[3..]) == FeedAll(Feed(s3, b[3]), []);
  }

  /** The cursor climbs one row at a time, but never above the top of the screen. */
  lemma {:induction false} ErasedUpIs(s: Screen, rows: nat)
    requires ScreenOk(s) && rows >= 1
    ensures var e := ErasedUp(s, rows);
            && e.top == s.top && e.cols == s.cols && e.height == s.height
            && e.row == (if s.row - s.top >= rows - 1 then s.row - (rows - 1) else s.top)
            && e.written == set c | c in s.written && !(e.row <= c.0 <= s.row)
  {
    if rows > 1 {
      ErasedUpIs(s, rows - 1);
    }
  }

  /** The erase puts the cursor back at column 0 of the row where the line began exactly when that row is
      still visible and the line fits; then it has cleared the rows of the line and nothing else. Where the
      cursor stands after a CR LF, every line fits. */
  lemma LoneCrEraseIsRight(start: Screen, line: seq<Item>, columns: int)
    requires ScreenOk(start) && start.escape == Ground && LineOk(line) && SafeColumns(columns) == start.cols
    ensures var s := FeedAll(start, Bytes(line));
            var e := FeedAll(s, EraseLine(TrackAll(FRESH, Bytes(line)), columns));
            && e.col == 0 && e.top == s.top && e.escape == Ground
            && (e.row == start.row <==> s.top <= start.row && Fits(start.col, Cells(line), start.cols))
            && (e.row == start.row ==> e.written == set c | c in start.written && !(start.row <= c.0 <= s.row))
    ensures start.col == 0 ==> Fits(start.col, Cells(line), start.cols)
  {
    LinePrints(start, line);
    ErasesPrinted(start, FeedAll(start, Bytes(line)), Cells(line), columns);
  }

  lemma ErasesPrinted(start: Screen, s: Screen, n: nat, columns: int)
    requires ScreenOk(start) && PrintedFrom(start, s, n) && SafeColumns(columns) == start.cols
    ensures var e := FeedAll(s, EraseLine(Line(n, Normal), columns));
            && e.col == 0 && e.top == s.top && e.escape == Ground
            && (e.row == start.row <==> s.top <= start.row && Fits(start.col, n, start.cols))
            && (e.row == start.row ==> e.written == set c | c in start.written && !(start.row <= c.0 <= s.row))
  {
    RowCountIsRows(start, s, n, columns);
    var rows := WrappedRowCount(n, columns);
    EraseFeeds(s, rows);
    ErasedUpIs(s, rows);
  }

  /** The line is still wholly visible exactly when it is no taller than the screen. */
  lemma StillVisible(start: Screen, line: seq<Item>, columns: int)
    requires ScreenOk(start) && start.col == 0 && start.escape == Ground && LineOk(line)
    requires SafeColumns(columns) == start.cols
    ensures FeedAll(start, Bytes(line)).top <= start.row <==>
            WrappedRowCount(Cells(line), columns) <= start.height
  {
    LinePrints(start, line);
    RowCountIsRows(start, FeedAll(start, Bytes(line)), Cells(line), columns);
  }
}
