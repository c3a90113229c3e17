/** The streaming normaliser of terminal output: CR LF passes through, a lone CR erases the line,
    and the state that spans chunks is a pending CR, a cell width and an escape-sequence state. */
module TerminalDecode {

  type Byte = b: nat | b < 256

  const CR: Byte := 13
  const LF: Byte := 10
  const ESC: Byte := 27
  const DEFAULT_COLUMNS := 160
  const ERASE_LINE: seq<Byte> := [27, 91, 50, 75]
  const CURSOR_UP: seq<Byte> := [27, 91, 49, 65]

  datatype Ansi = Normal | Escape | Csi | Osc | OscEscape

  datatype Line = Line(width: nat, ansi: Ansi)

  /** The state kept between chunks. */
  datatype Decoder = Decoder(pendingCr: bool, line: Line)

  const FRESH := Line(0, Normal)

  function SafeColumns(columns: int): (c: nat)
    ensures c >= 1
  {
    var chosen := if columns == 0 then DEFAULT_COLUMNS else columns;
    if chosen < 1 then 1 else chosen
  }

  function WrappedRowCount(width: nat, columns: int): (rows: nat)
    ensures rows >= 1
  {
    ((if width < 1 then 1 else width) - 1) / SafeColumns(columns) + 1
  }

  function EraseBytes(rows: nat): seq<Byte>
    requires rows >= 1
  {
    if rows == 1 then [CR] + ERASE_LINE else EraseBytes(rows - 1) + CURSOR_UP + [CR] + ERASE_LINE
  }

  function Track(l: Line, b: Byte): Line {
    match l.ansi
    case Escape => l.(ansi := if b == 91 then Csi else if b == 93 then Osc else Normal)
    case Csi => if 64 <= b <= 126 then l.(ansi := Normal) else l
    case Osc => if b == 7 then l.(ansi := Normal) else if b == ESC then l.(ansi := OscEscape) else l
    case OscEscape => l.(ansi := if b == 92 then Normal else Osc)
    case Normal =>
      if b == ESC then l.(ansi := Escape)
      else if b == LF then l.(width := 0)
      else if b == 9 then l.(width := l.width + 4)
      else if b == 8 then l.(width := if l.width == 0 then 0 else l.width - 1)
      else if b >= 32 && b != 127 && (b < 128 || b >= 192) then l.(width := l.width + 1)
      else l
  }

  // ---------- One byte at a time ----------

  datatype Result = Result(state: Decoder, output: seq<Byte>)

  /** What the erase of a lone CR emits. */
  function EraseLine(l: Line, columns: int): seq<Byte> {
    EraseBytes(WrappedRowCount(l.width, columns))
  }

  /** A CR is held back until the next byte says whether it is the first half of a CR LF. */
  function Step(d: Decoder, b: Byte, columns: int): Result {
    if d.pendingCr && b == LF then Result(Decoder(false, FRESH), [CR, LF])
    else
      var erased := if d.pendingCr then EraseLine(d.line, columns) else [];
      var line := if d.pendingCr then FRESH else d.line;
      if b == CR then Result(Decoder(true, line), erased)
      else Result(Decoder(false, Track(line, b)), erased + [b])
  }

  function Run(d: Decoder, bytes: seq<Byte>, columns: int): Result
    decreases |bytes|
  {
    if bytes == [] then Result(d, [])
    else
      var first := Step(d, bytes[0], columns);
      var rest := Run(first.state, bytes[1..], columns);
      Result(rest.state, first.output + rest.output)
  }

  function Prepend(output: seq<Byte>, r: Result): Result {
    Result(r.state, output + r.output)
  }

  /** Erasing at once and erasing on the next byte come to the same. */
  lemma LoneCrErases(l: Line, bytes: seq<Byte>, columns: int)
    requires bytes != [] && bytes[0] != LF
    ensures Run(Decoder(true, l), bytes, columns) ==
            Prepend(EraseLine(l, columns), Run(Decoder(false, FRESH), bytes, columns))
  {}

  /** The four cases of the chunk loop at one byte, with what is left afterwards. */
  lemma LookAhead(l: Line, output: seq<Byte>, bytes: seq<Byte>, i: nat, columns: int)
    requires i < |bytes|
    ensures var r := Prepend(output, Run(Decoder(false, l), bytes[i..], columns));
            if bytes[i] != CR then
              r == Prepend(output + [bytes[i]], Run(Decoder(false, Track(l, bytes[i])), bytes[i + 1..], columns))
            else if i + 1 == |bytes| then r == Prepend(output, Run(Decoder(true, l), bytes[i + 1..], columns))
            else if bytes[i + 1] == LF then
              r == Prepend(output + [CR, LF], Run(Decoder(false, FRESH), bytes[i + 2..], columns))
            else r == Prepend(output + EraseLine(l, columns), Run(Decoder(false, FRESH), bytes[i + 1..], columns))
  {
    var rest, next := bytes[i..], bytes[i + 1..];
    assert rest[1..] == next;
    if bytes[i] == CR {
      assert Run(Decoder(false, l), rest, columns) == Prepend([], Run(Decoder(true, l), next, columns));
      if i + 1 < |bytes| {
        if next[0] == LF {
          assert next[1..] == bytes[i + 2..];
        } else {
          LoneCrErases(l, next, columns);
        }
      }
    }
  }

  // ---------- The chunk decoder ----------

  class Stream {
    var pendingCarriageReturn: bool
    var line: Line

    function State(): Decoder
      reads this
    {
      Decoder(pendingCarriageReturn, line)
    }

    constructor ()
      ensures State() == Decoder(false, FRESH)
    {
      pendingCarriageReturn, line := false, FRESH;
    }

    method PushEraseWrappedLine(output: seq<Byte>, rows: nat) returns (r: seq<Byte>)
      requires rows >= 1
      ensures r == output + EraseBytes(rows)
    {
      var pushed: seq<Byte> := [CR] + ERASE_LINE;
      for row := 1 to rows
        invariant pushed == EraseBytes(row)
      {
        pushed := pushed + CURSOR_UP + [CR] + ERASE_LINE;
      }
      r := output + pushed;
    }

    /** A CR held back from the previous chunk, at the start of this one. */
    method Resume(bytes: seq<Byte>, columns: int) returns (output: seq<Byte>, index: nat)
      requires bytes != []
      modifies this
      ensures !pendingCarriageReturn && index <= |bytes|
      ensures Run(old(State()), bytes, columns) == Prepend(output, Run(State(), bytes[index..], columns))
    {
      output, index := [], 0;
      if pendingCarriageReturn {
        pendingCarriageReturn := false;
        if bytes[0] == LF {
          output := [CR, LF];
          line := FRESH;
          index := 1;
        } else {
          output := PushEraseWrappedLine(output, WrappedRowCount(line.width, columns));
          line := FRESH;
          LoneCrErases(old(line), bytes, columns);
        }
      }
    }

    /** One chunk, looking one byte ahead of every CR. */
    method Decode(bytes: seq<Byte>, columns: int) returns (output: seq<Byte>)
      modifies this
      ensures Result(State(), output) == Run(old(State()), bytes, columns)
    {
      if bytes == [] {
        return [];
      }
      var index;
      output, index := Resume(bytes, columns);
      while index < |bytes|
        invariant index <= |bytes|
        invariant pendingCarriageReturn ==> index == |bytes|
        invariant Run(old(State()), bytes, columns) == Prepend(output, Run(State(), bytes[index..], columns))
      {
        var b := bytes[index];
        LookAhead(line, output, bytes, index, columns);
        if b != CR {
          output := output + [b];
          line := Track(line, b);
        } else if index + 1 >= |bytes| {
          pendingCarriageReturn := true;
        } else if bytes[index + 1] == LF {
          output := output + [CR, LF];
          line := FRESH;
          index := index + 1;
        } else {
          output := PushEraseWrappedLine(output, WrappedRowCount(line.width, columns));
          line := FRESH;
        }
        index := index + 1;
      }
    }
  }

  // ---------- Chunking does not matter ----------

  lemma {:induction false} RunOfTwo(d: Decoder, a: seq<Byte>, b: seq<Byte>, columns: int)
    ensures Run(d, a + b, columns) == Prepend(Run(d, a, columns).output, Run(Run(d, a, columns).state, b, columns))
    decreases |a|
  {
    if a == [] {
      assert a + b == b;
    } else {
      var first := Step(d, a[0], columns);
      assert (a + b)[1..] == a[1..] + b;
      RunOfTwo(first.state, a[1..], b, columns);
    }
  }

  lemma InThreeParts(a: seq<Byte>, b: seq<Byte>, c: seq<Byte>)
    ensures a + (b + c) == (a + b) + c
  {}

  function Join(chunks: seq<seq<Byte>>): seq<Byte> {
    if chunks == [] then [] else chunks[0] + Join(chunks[1..])
  }

  /** Decoding the pieces one after another. */
  function RunChunks(d: Decoder, chunks: seq<seq<Byte>>, columns: int): Result
    decreases |chunks|
  {
    if chunks == [] then Result(d, [])
    else
      var first := Run(d, chunks[0], columns);
      Prepend(first.output, RunChunks(first.state, chunks[1..], columns))
  }

  /** However a byte string is cut, decoding the pieces in order gives the output and the final
      state of decoding the whole. */
  lemma {:induction false} ChunkingDoesNotMatter(d: Decoder, chunks: seq<seq<Byte>>, columns: int)
    ensures RunChunks(d, chunks, columns) == Run(d, Join(chunks), columns)
    decreases |chunks|
  {
    if chunks != [] {
      ChunkingDoesNotMatter(Run(d, chunks[0], columns).state, chunks[1..], columns);
      RunOfTwo(d, chunks[0], Join(chunks[1..]), columns);
    }
  }
}
