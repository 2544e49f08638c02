/**
 The development backend's terminal: an escape-sequence state machine over a grid that scrolls.
 The functions say what one character does; TerminalBuffer works on the grid in place.
 */
module Terminal {
  import opened Bytes

  datatype Mode = Normal | Escape | Csi | CsiDiscard | Osc | OscEscape

  datatype Pen = Pen(foreground: nat, background: nat, bold: bool, blink: bool)

  datatype Screen = Screen(
    columns: nat,
    rows: nat,
    chars: seq<string>,
    attrs: seq<seq<nat>>,
    row: nat,
    column: nat,
    visible: bool,
    generation: nat,
    pen: Pen,
    mode: Mode,
    sequence: string)

  const PLAIN := Pen(7, 0, false, false)

  function Attribute(pen: Pen): nat {
    // The parts do not overlap: three bits of colour, one of intensity, three of colour, one of blinking.
    pen.foreground + (if pen.bold then 8 else 0) + 16 * pen.background + (if pen.blink then 128 else 0)
  }

  function Fill<T>(value: T, n: nat): (r: seq<T>)
    ensures |r| == n && forall i :: 0 <= i < n ==> r[i] == value
  {
    seq(n, i => value)
  }

  function Blank(columns: nat, rows: nat): Screen {
    Screen(columns, rows, Fill(Fill(' ', columns), rows), Fill(Fill(7, columns), rows),
           0, 0, true, 0, PLAIN, Normal, "")
  }

  // --- The invariant ---

  ghost predicate Grid<T>(g: seq<seq<T>>, columns: nat, rows: nat) {
    |g| == rows && forall i :: 0 <= i < rows ==> |g[i]| == columns
  }

  ghost predicate ByteAttrs(attrs: seq<seq<nat>>) {
    forall i, j :: 0 <= i < |attrs| && 0 <= j < |attrs[i]| ==> attrs[i][j] <= 255
  }

  ghost predicate PenInRange(pen: Pen) {
    pen.foreground < 8 && pen.background < 8
  }

  ghost predicate Valid(s: Screen) {
    && s.columns >= 1 && s.rows >= 1
    && Grid(s.chars, s.columns, s.rows) && Grid(s.attrs, s.columns, s.rows) && ByteAttrs(s.attrs)
    && s.row < s.rows && s.column < s.columns
    && PenInRange(s.pen) && |s.sequence| <= 64
  }

  // --- Cells ---

  function LineFeed(s: Screen): Screen
    requires |s.chars| > 0 && |s.attrs| > 0
  {
    if s.row + 1 >= s.rows then
      s.(chars := s.chars[1..] + [Fill(' ', s.columns)],
         attrs := s.attrs[1..] + [Fill(Attribute(s.pen), s.columns)],
         row := Max(0, s.rows - 1), generation := s.generation + 1)
    else
      s.(row := s.row + 1, generation := s.generation + 1)
  }

  function WithCell<T>(grid: seq<seq<T>>, row: nat, column: nat, value: T): (r: seq<seq<T>>)
    requires row < |grid| && column < |grid[row]|
    ensures |r| == |grid| && forall i :: 0 <= i < |r| ==> |r[i]| == |grid[i]|
  {
    grid[row := grid[row][column := value]]
  }

  predicate CursorOnGrid(s: Screen) {
    s.row < |s.chars| && s.row < |s.attrs| && s.column < |s.chars[s.row]| && s.column < |s.attrs[s.row]|
  }

  // The character in the cell of the cursor.
  function Drawn(s: Screen, c: char): Screen
    requires CursorOnGrid(s)
  {
    s.(chars := WithCell(s.chars, s.row, s.column, c),
       attrs := WithCell(s.attrs, s.row, s.column, Attribute(s.pen)),
       generation := s.generation + 1)
  }

  function Put(s: Screen, c: char): Screen
    requires CursorOnGrid(s)
  {
    var drawn := Drawn(s, c);
    if s.column + 1 >= s.columns then LineFeed(drawn.(column := 0)) else drawn.(column := s.column + 1)
  }

  // A row with the columns from `start` to `end` set to one value.
  function Overwritten<T>(line: seq<T>, start: nat, end: nat, value: T): (r: seq<T>)
    requires start <= end <= |line|
    ensures |r| == |line|
  {
    line[..start] + Fill(value, end - start) + line[end..]
  }

  function EraseCells(s: Screen, row: nat, start: nat, end: nat): Screen
    requires row < |s.chars| && row < |s.attrs| && start <= end <= |s.chars[row]| && end <= |s.attrs[row]|
  {
    s.(chars := s.chars[row := Overwritten(s.chars[row], start, end, ' ')],
       attrs := s.attrs[row := Overwritten(s.attrs[row], start, end, Attribute(s.pen))],
       generation := s.generation + 1)
  }

  function EraseLine(s: Screen, mode: nat): Screen
    requires Valid(s)
  {
    if mode == 2 then EraseCells(s, s.row, 0, s.columns)
    else if mode == 1 then EraseCells(s, s.row, 0, s.column + 1)
    else EraseCells(s, s.row, s.column, s.columns)
  }

  // Whole rows from `first` to `last` erased, one after the other.
  function EraseRows(s: Screen, first: nat, last: nat): (r: Screen)
    requires Valid(s) && first <= last <= s.rows
    ensures Valid(r) && r == s.(chars := r.chars, attrs := r.attrs, generation := r.generation)
    decreases last - first
  {
    if first == last then s
    else
      EraseKeeps(s, first, 0, s.columns);
      EraseRows(EraseCells(s, first, 0, s.columns), first + 1, last)
  }

  function EraseDisplay(s: Screen, mode: nat): Screen
    requires Valid(s)
  {
    if mode == 2 then EraseRows(s, 0, s.rows)
    else if mode == 1 then EraseCells(EraseRows(s, 0, s.row), s.row, 0, s.column + 1)
    else
      EraseKeeps(s, s.row, s.column, s.columns);
      EraseRows(EraseCells(s, s.row, s.column, s.columns), s.row + 1, s.rows)
  }

  // --- Parameters and colours ---

  predicate Digit(c: char) {
    '0' <= c <= '9'
  }

  predicate Digits(part: string) {
    part != "" && forall c | c in part :: Digit(c)
  }

  function Number(part: string): nat {
    if part == "" then 0
    else
      var c := part[|part| - 1];
      10 * Number(part[..|part| - 1]) + (if Digit(c) then c as int - '0' as int else 0)
  }

  function Parameter(part: string): nat {
    if Digits(part) then Number(part) else 0
  }

  // `split(";")`, each part as a number; the part being read is `part`.
  function Parameters(part: string, rest: string): (r: seq<nat>)
    ensures r != []
    decreases |rest|
  {
    if rest == "" then [Parameter(part)]
    else if rest[0] == ';' then [Parameter(part)] + Parameters("", rest[1..])
    else Parameters(part + [rest[0]], rest[1..])
  }

  const ANSI_TO_DOS: seq<nat> := [0, 4, 2, 6, 1, 5, 3, 7]

  function Colour(pen: Pen, code: nat): Pen {
    if code == 0 then PLAIN
    else if code == 1 then pen.(bold := true)
    else if code == 5 then pen.(blink := true)
    else if code == 22 then pen.(bold := false)
    else if code == 25 then pen.(blink := false)
    else if 30 <= code <= 37 then pen.(foreground := ANSI_TO_DOS[code - 30])
    else if 40 <= code <= 47 then pen.(background := ANSI_TO_DOS[code - 40])
    else pen
  }

  function Colours(pen: Pen, codes: seq<nat>): Pen {
    if codes == [] then pen else Colour(Colours(pen, codes[..|codes| - 1]), codes[|codes| - 1])
  }

  // --- Control sequences ---

  function OrOne(n: nat): nat {
    if n == 0 then 1 else n
  }

  // Where the cursor goes, for the finals that move it within the grid.
  function NewRow(row: nat, rows: nat, final: char, n: nat): nat
    requires n >= 1 && rows >= 1
  {
    if final == 'H' || final == 'f' || final == 'd' then Min(n - 1, rows - 1)
    else if final == 'A' then Max(0, row - n)
    else if final == 'B' then Min(rows - 1, row + n)
    else row
  }

  function NewColumn(column: nat, columns: nat, final: char, params: seq<nat>): nat
    requires params != [] && columns >= 1
  {
    var n := OrOne(params[0]);
    if final == 'H' || final == 'f' then
      var given: int := if |params| > 1 then params[1] else 1;
      Min(Max(given - 1, 0), columns - 1)
    else if final == 'C' then Min(columns - 1, column + n)
    else if final == 'D' then Max(0, column - n)
    else if final == 'G' then Min(columns - 1, n - 1)
    else column
  }

  function Moved(s: Screen, final: char, params: seq<nat>): Screen
    requires params != [] && s.rows >= 1 && s.columns >= 1
  {
    s.(row := NewRow(s.row, s.rows, final, OrOne(params[0])), column := NewColumn(s.column, s.columns, final, params))
  }

  function ApplyCsi(s: Screen, raw: string, final: char): Screen
    requires Valid(s)
  {
    var hidden := raw != "" && raw[0] == '?';
    var params := Parameters("", if hidden then raw[1..] else raw);
    if final == 'J' then EraseDisplay(s, params[0])
    else if final == 'K' then EraseLine(s, params[0])
    else if final == 'm' then s.(pen := Colours(s.pen, params))
    else if (final == 'h' || final == 'l') && hidden && 25 in params then s.(visible := final == 'h')
    else Moved(s, final, params)
  }

  predicate Final(c: char) {
    '@' <= c <= '~'
  }

  function NormalStep(s: Screen, c: char): Screen
    requires Valid(s)
  {
    var code := c as int;
    if code == 0x1B then s.(mode := Escape)
    else if code == 0x0D then s.(column := 0)
    else if code == 0x0A || code == 0x0B || code == 0x0C then LineFeed(s)
    else if code == 0x08 then s.(column := Max(0, s.column - 1))
    else if code == 0x09 then s.(column := Min(s.columns - 1, (s.column / 8 + 1) * 8))
    else if code < 0x20 || code == 0x7F then s
    else Put(s, c)
  }

  function CsiStep(s: Screen, c: char): Screen
    requires Valid(s)
  {
    if Final(c) then ApplyCsi(s.(sequence := "", mode := Normal), s.sequence, c)
    else if |s.sequence| < 64 then s.(sequence := s.sequence + [c])
    else s.(sequence := "", mode := CsiDiscard)
  }

  function EscapeStep(s: Screen, c: char): Screen {
    if c == '[' then s.(mode := Csi, sequence := "")
    else if c == ']' then s.(mode := Osc, sequence := "")
    else s.(mode := Normal)
  }

  /** One character. */
  function Step(s: Screen, c: char): Screen
    requires Valid(s)
  {
    match s.mode
    case Normal => NormalStep(s, c)
    case Escape => EscapeStep(s, c)
    case Csi => CsiStep(s, c)
    case CsiDiscard => if Final(c) then s.(mode := Normal) else s
    case Osc =>
      if c as int == 0x07 then s.(mode := Normal) else if c as int == 0x1B then s.(mode := OscEscape) else s
    case OscEscape => s.(mode := if c == '\\' then Normal else Osc)
  }

  // --- The invariant is kept ---

  lemma EraseKeeps(s: Screen, row: nat, start: nat, end: nat)
    requires Valid(s) && row < s.rows && start <= end <= s.columns
    ensures Valid(EraseCells(s, row, start, end))
  {
    assert Attribute(s.pen) <= 255;
  }

  lemma LineFeedKeeps(s: Screen)
    requires Valid(s)
    ensures Valid(LineFeed(s))
  {
    assert Attribute(s.pen) <= 255;
  }

  lemma DrawnKeeps(s: Screen, c: char)
    requires Valid(s)
    ensures Valid(Drawn(s, c))
  {
    assert Attribute(s.pen) <= 255;
  }

  lemma PutKeeps(s: Screen, c: char)
    requires Valid(s)
    ensures Valid(Put(s, c))
  {
    hide LineFeed, WithCell;
    DrawnKeeps(s, c);
    if s.column + 1 >= s.columns {
      LineFeedKeeps(Drawn(s, c).(column := 0));
    }
  }

  lemma {:induction false} ColoursInRange(pen: Pen, codes: seq<nat>)
    requires PenInRange(pen)
    ensures PenInRange(Colours(pen, codes))
  {
    if codes != [] {
      ColoursInRange(pen, codes[..|codes| - 1]);
    }
  }

  lemma ErasingKeeps(s: Screen, how: nat)
    requires Valid(s)
    ensures Valid(EraseDisplay(s, how)) && Valid(EraseLine(s, how))
  {
    hide EraseRows, EraseCells;
    EraseKeeps(s, s.row, 0, s.columns);
    EraseKeeps(s, s.row, 0, s.column + 1);
    EraseKeeps(s, s.row, s.column, s.columns);
    EraseKeeps(EraseRows(s, 0, s.row), s.row, 0, s.column + 1);
  }

  lemma MovingKeeps(s: Screen, final: char, params: seq<nat>)
    requires Valid(s) && params != []
    ensures Valid(Moved(s, final, params))
  {
    hide Grid, ByteAttrs, PenInRange;
  }

  lemma ApplyCsiKeeps(s: Screen, raw: string, final: char)
    requires Valid(s)
    ensures Valid(ApplyCsi(s, raw, final))
  {
    hide Parameters, Colours, EraseDisplay, EraseLine, Moved, Grid, ByteAttrs;
    var params := Parameters("", if raw != "" && raw[0] == '?' then raw[1..] else raw);
    ColoursInRange(s.pen, params);
    ErasingKeeps(s, params[0]);
    MovingKeeps(s, final, params);
  }

  /** After every character the grid has its size, the cursor is inside it and attributes are bytes. */
  lemma StepKeeps(s: Screen, c: char)
    requires Valid(s)
    ensures Valid(Step(s, c))
  {
    hide ApplyCsi, Put, LineFeed;
    LineFeedKeeps(s);
    PutKeeps(s, c);
    ApplyCsiKeeps(s.(sequence := "", mode := Normal), s.sequence, c);
  }

  // --- Feeding ---

  function Steps(s: Screen, text: string): (r: Screen)
    requires Valid(s)
    ensures Valid(r)
    decreases |text|
  {
    hide Step, Valid;
    if text == "" then s
    else
      StepKeeps(Steps(s, text[..|text| - 1]), text[|text| - 1]);
      Step(Steps(s, text[..|text| - 1]), text[|text| - 1])
  }

  /** `feed`: every character, and a new generation even when nothing was drawn. */
  function Fed(s: Screen, text: string): (r: Screen)
    requires Valid(s)
    ensures Valid(r)
  {
    hide Steps;
    var r := Steps(s, text);
    if text != "" && r.generation == s.generation then r.(generation := r.generation + 1) else r
  }

  lemma StepGrows(s: Screen, c: char)
    requires Valid(s)
    ensures Step(s, c).generation >= s.generation
  {
    hide Parameters, Colours;
    if s.mode == Csi && Final(c) && c == 'J' {
      var t := s.(sequence := "", mode := Normal);
      var raw := s.sequence;
      DisplayGrows(t, Parameters("", if raw != "" && raw[0] == '?' then raw[1..] else raw)[0]);
    }
  }

  lemma {:induction false} RowsGrow(s: Screen, first: nat, last: nat)
    requires Valid(s) && first <= last <= s.rows
    ensures EraseRows(s, first, last).generation == s.generation + (last - first)
    decreases last - first
  {
    if first < last {
      EraseKeeps(s, first, 0, s.columns);
      RowsGrow(EraseCells(s, first, 0, s.columns), first + 1, last);
    }
  }

  lemma DisplayGrows(s: Screen, mode: nat)
    requires Valid(s)
    ensures EraseDisplay(s, mode).generation > s.generation
  {
    RowsGrow(s, 0, s.rows);
    RowsGrow(s, 0, s.row);
    EraseKeeps(s, s.row, s.column, s.columns);
    RowsGrow(EraseCells(s, s.row, s.column, s.columns), s.row + 1, s.rows);
  }

  lemma {:induction false} StepsGrow(s: Screen, text: string)
    requires Valid(s)
    ensures Steps(s, text).generation >= s.generation
    decreases |text|
  {
    hide Step, Valid;
    if text != "" {
      StepsGrow(s, text[..|text| - 1]);
      StepGrows(Steps(s, text[..|text| - 1]), text[|text| - 1]);
    }
  }

  /** Every feed of some characters makes a strictly newer generation; an empty one changes nothing. */
  lemma FeedGrows(s: Screen, text: string)
    requires Valid(s)
    ensures text != "" ==> Fed(s, text).generation > s.generation
    ensures text == "" ==> Fed(s, text) == s
  {
    hide Step, Valid;
    StepsGrow(s, text);
  }

  // --- Splitting the input ---

  // Everything but the generation.
  ghost predicate Alike(s: Screen, t: Screen) {
    s == t.(generation := s.generation)
  }

  lemma {:induction false} RowsAlike(s: Screen, t: Screen, first: nat, last: nat)
    requires Valid(s) && Valid(t) && Alike(s, t) && first <= last <= s.rows
    ensures Alike(EraseRows(s, first, last), EraseRows(t, first, last))
    decreases last - first
  {
    if first < last {
      EraseKeeps(s, first, 0, s.columns);
      EraseKeeps(t, first, 0, s.columns);
      RowsAlike(EraseCells(s, first, 0, s.columns), EraseCells(t, first, 0, s.columns), first + 1, last);
    }
  }

  lemma DisplayAlike(s: Screen, t: Screen, mode: nat)
    requires Valid(s) && Valid(t) && Alike(s, t)
    ensures Alike(EraseDisplay(s, mode), EraseDisplay(t, mode))
  {
    RowsAlike(s, t, 0, s.rows);
    RowsAlike(s, t, 0, s.row);
    EraseKeeps(s, s.row, s.column, s.columns);
    EraseKeeps(t, s.row, s.column, s.columns);
    RowsAlike(EraseCells(s, s.row, s.column, s.columns), EraseCells(t, s.row, s.column, s.columns), s.row + 1, s.rows);
  }

  lemma CellsAlike(s: Screen, t: Screen, c: char)
    requires Valid(s) && Valid(t) && Alike(s, t)
    ensures Alike(LineFeed(s), LineFeed(t)) && Alike(Put(s, c), Put(t, c))
  {
    hide WithCell;
  }

  lemma LinesAlike(s: Screen, t: Screen, mode: nat)
    requires Valid(s) && Valid(t) && Alike(s, t)
    ensures Alike(EraseLine(s, mode), EraseLine(t, mode))
  {
    hide Overwritten;
  }

  lemma CsiAlike(s: Screen, t: Screen, raw: string, final: char)
    requires Valid(s) && Valid(t) && Alike(s, t)
    ensures Alike(ApplyCsi(s, raw, final), ApplyCsi(t, raw, final))
  {
    hide Parameters, Colours, EraseDisplay, EraseLine, NewRow, NewColumn, Grid, ByteAttrs;
    var params := Parameters("", if raw != "" && raw[0] == '?' then raw[1..] else raw);
    DisplayAlike(s, t, params[0]);
    LinesAlike(s, t, params[0]);
  }

  lemma StepAlike(s: Screen, t: Screen, c: char)
    requires Valid(s) && Valid(t) && Alike(s, t)
    ensures Alike(Step(s, c), Step(t, c))
  {
    hide ApplyCsi, Put, LineFeed;
    CellsAlike(s, t, c);
    CsiAlike(s.(sequence := "", mode := Normal), t.(sequence := "", mode := Normal), s.sequence, c);
  }

  lemma {:induction false} StepsAlike(s: Screen, t: Screen, text: string)
    requires Valid(s) && Valid(t) && Alike(s, t)
    ensures Alike(Steps(s, text), Steps(t, text))
    decreases |text|
  {
    hide Step, Valid, Alike;
    if text != "" {
      StepsAlike(s, t, text[..|text| - 1]);
      StepAlike(Steps(s, text[..|text| - 1]), Steps(t, text[..|text| - 1]), text[|text| - 1]);
    }
  }

  lemma {:induction false} StepsAppend(s: Screen, a: string, b: string)
    requires Valid(s)
    ensures Steps(s, a + b) == Steps(Steps(s, a), b)
    decreases |b|
  {
    hide Step, Valid;
    if b == "" {
      assert a + b == a;
    } else {
      StepsAppend(s, a, b[..|b| - 1]);
      assert (a + b)[..|a + b| - 1] == a + b[..|b| - 1];
    }
  }

  function FedAll(s: Screen, pieces: seq<string>): (r: Screen)
    requires Valid(s)
    ensures Valid(r)
  {
    if pieces == [] then s else Fed(FedAll(s, pieces[..|pieces| - 1]), pieces[|pieces| - 1])
  }

  function Whole(pieces: seq<string>): string {
    if pieces == [] then "" else Whole(pieces[..|pieces| - 1]) + pieces[|pieces| - 1]
  }

  // No character beyond ASCII inside a control sequence: other digits have values of their own.
  ghost predicate AsciiControls(s: Screen, text: string)
    requires Valid(s)
  {
    forall n :: 0 <= n < |text| && Steps(s, text[..n]).mode == Csi ==> text[n] as int < 0x80
  }

  lemma AsciiPrefix(s: Screen, text: string, more: string)
    requires Valid(s) && AsciiControls(s, text + more)
    ensures AsciiControls(s, text)
  {
    hide Steps, Valid;
    forall n | 0 <= n < |text| && Steps(s, text[..n]).mode == Csi
      ensures text[n] as int < 0x80
    {
      assert (text + more)[..n] == text[..n];
    }
  }

  /** However the input is split, cells, attributes, cursor and parser state come out the same. */
  lemma {:induction false} SplittingIsInvisible(s: Screen, pieces: seq<string>)
    requires Valid(s) && AsciiControls(s, Whole(pieces))
    ensures Alike(FedAll(s, pieces), Fed(s, Whole(pieces)))
    decreases |pieces|
  {
    hide Steps, Valid, AsciiControls;
    if pieces == [] {
      assert Steps(s, "") == s by {
        StepsOfNothing(s);
      }
    } else {
      var init, last := pieces[..|pieces| - 1], pieces[|pieces| - 1];
      AsciiPrefix(s, Whole(init), last);
      SplittingIsInvisible(s, init);
      StepsAppend(s, Whole(init), last);
      StepsAlike(FedAll(s, init), Steps(s, Whole(init)), last);
    }
  }

  lemma StepsOfNothing(s: Screen)
    requires Valid(s)
    ensures Steps(s, "") == s
  {
  }
}
