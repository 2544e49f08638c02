/**
 What input does to the terminal, in the terms of its user: where a control sequence written with
 decimal numbers puts the cursor, which cells it blanks, and what it does to the colours.
 */
module TerminalControls {
  import opened Bytes
  import opened Terminal

  const ESCAPE: char := 0x1B as char

  // --- Numbers as they are written ---

  function DigitOf(n: nat): char
    requires n < 10
  {
    "0123456789"[n]
  }

  // The decimal numeral of a number.
  function Decimal(n: nat): (r: string)
    ensures r != ""
  {
    if n < 10 then [DigitOf(n)] else Decimal(n / 10) + [DigitOf(n % 10)]
  }

  // A parameter may be left out.
  datatype Given = Nothing | Just(n: nat)

  function Written(given: Given): string {
    match given
    case Nothing => ""
    case Just(n) => Decimal(n)
  }

  // Parameters are written one after the other, separated by semicolons.
  function Listed(given: seq<Given>): string
    requires given != []
  {
    if |given| == 1 then Written(given[0]) else Listed(given[..|given| - 1]) + ";" + Written(given[|given| - 1])
  }

  // A control sequence: escape, bracket, parameters, final.
  function Control(params: string, final: char): string {
    [ESCAPE, '['] + params + [final]
  }

  // What a parameter counts for: one when it is left out or zero.
  function Count(given: Given): (n: nat)
    ensures n >= 1
  {
    if given == Nothing || given == Just(0) then 1 else given.n
  }

  lemma {:induction false} DecimalDigits(n: nat)
    ensures forall c :: c in Decimal(n) ==> '0' <= c <= '9'
  {
    if n >= 10 {
      DecimalDigits(n / 10);
    }
  }

  lemma {:induction false} DecimalNumber(n: nat)
    ensures Number(Decimal(n)) == n
  {
    if n >= 10 {
      DecimalNumber(n / 10);
      var r := Decimal(n);
      assert r[..|r| - 1] == Decimal(n / 10) && r[|r| - 1] == DigitOf(n % 10);
    } else {
      assert Decimal(n)[..0] == "";
    }
  }

  function Meant(given: Given): nat {
    if given.Just? then given.n else 0
  }

  lemma ParameterOf(given: Given)
    ensures Parameter(Written(given)) == Meant(given)
    ensures forall c :: c in Written(given) ==> '0' <= c <= '9'
  {
    if given.Just? {
      DecimalDigits(given.n);
      DecimalNumber(given.n);
    }
  }

  // Reading on in a part that holds no semicolon.
  lemma {:induction false} PartRead(part: string, more: string, rest: string)
    requires ';' !in more
    ensures Parameters(part, more + rest) == Parameters(part + more, rest)
    decreases |more|
  {
    if more == "" {
      assert more + rest == rest && part + more == part;
    } else {
      assert (more + rest)[0] == more[0] && (more + rest)[1..] == more[1..] + rest;
      PartRead(part + [more[0]], more[1..], rest);
      assert part + [more[0]] + more[1..] == part + more;
    }
  }

  // A list after a first part.
  lemma {:induction false} ListRead(a: string, b: string)
    requires ';' !in b
    ensures Parameters("", a + ";" + b) == Parameters("", a) + [Parameter(b)]
  {
    ListReadFrom("", a, b);
  }

  lemma {:induction false} ListReadFrom(part: string, a: string, b: string)
    requires ';' !in b
    ensures Parameters(part, a + ";" + b) == Parameters(part, a) + [Parameter(b)]
    decreases |a|
  {
    var all := a + ";" + b;
    if a == "" {
      assert all[0] == ';' && all[1..] == b && b == b + "";
      PartRead("", b, "");
      assert "" + b == b;
    } else {
      assert all[0] == a[0] && all[1..] == a[1..] + ";" + b;
      if a[0] == ';' {
        ListReadFrom("", a[1..], b);
      } else {
        ListReadFrom(part + [a[0]], a[1..], b);
      }
    }
  }

  lemma {:induction false} ParametersListed(given: seq<Given>)
    requires given != []
    ensures |Parameters("", Listed(given))| == |given|
    ensures forall i :: 0 <= i < |given| ==> Parameters("", Listed(given))[i] == Meant(given[i])
    ensures forall c :: c in Listed(given) ==> '0' <= c <= '9' || c == ';'
    decreases |given|
  {
    hide Parameter, Written, Meant;
    var last := given[|given| - 1];
    ParameterOf(last);
    if |given| == 1 {
      OnePart(Written(last));
    } else {
      hide Parameters;
      var init := given[..|given| - 1];
      ParametersListed(init);
      ListRead(Listed(init), Written(last));
    }
  }

  lemma OnePart(w: string)
    requires ';' !in w
    ensures Parameters("", w) == [Parameter(w)]
  {
    assert w == w + "";
    PartRead("", w, "");
    assert "" + w == w;
  }

  // --- A control sequence is applied to the screen it finds ---

  lemma OneStep(s: Screen, text: string, c: char)
    requires Valid(s)
    ensures Steps(s, text + [c]) == Step(Steps(s, text), c)
  {
    hide Step, Valid;
    assert (text + [c])[..|text|] == text;
  }

  lemma {:induction false} ParametersKept(s: Screen, raw: string)
    requires Valid(s) && s.mode == Csi && s.sequence == "" && |raw| <= 64
    requires forall c :: c in raw ==> !Final(c)
    ensures Steps(s, raw) == s.(sequence := raw)
    decreases |raw|
  {
    hide Valid, ApplyCsi;
    if raw != "" {
      var init, c := raw[..|raw| - 1], raw[|raw| - 1];
      assert raw == init + [c];
      ParametersKept(s, init);
      OneStep(s, init, c);
    }
  }

  lemma ControlApplies(s: Screen, raw: string, final: char)
    requires Valid(s) && s.mode == Normal && |raw| <= 64 && Final(final)
    requires forall c :: c in raw ==> !Final(c)
    ensures Steps(s, Control(raw, final)) == ApplyCsi(s.(sequence := "", mode := Normal), raw, final)
  {
    hide Valid, ApplyCsi;
    var intro: string := [ESCAPE, '['];
    SequenceStarts(s);
    var at := Steps(s, intro);
    assert at == s.(mode := Csi, sequence := "");
    StepsAppend(s, intro, raw);
    ParametersKept(at, raw);
    StepsAppend(s, intro + raw, [final]);
    OneStep(s, intro + raw, final);
    assert intro + raw + [final] == Control(raw, final);
  }

  lemma SequenceStarts(s: Screen)
    requires Valid(s) && s.mode == Normal
    ensures Steps(s, [ESCAPE, '[']) == s.(mode := Csi, sequence := "")
  {
    hide Valid;
    var intro: string := [ESCAPE, '['];
    assert intro == [ESCAPE] + ['['] && [ESCAPE] == "" + [ESCAPE];
    OneStep(s, "", ESCAPE);
    OneStep(s, [ESCAPE], '[');
    StepsOfNothing(s);
  }

  // --- Where the cursor goes ---

  // The sequence leaves everything but the cursor.
  function Placed(s: Screen, row: nat, column: nat): Screen {
    s.(row := row, column := column, sequence := "")
  }

  // The first parameter, and what the second one of a position counts for.
  function First(given: seq<Given>): Given
    requires given != []
  {
    given[0]
  }

  function Second(given: seq<Given>): nat {
    if |given| > 1 then Meant(given[1]) else 1
  }

  lemma CursorMoved(s: Screen, given: seq<Given>, final: char)
    requires Valid(s) && s.mode == Normal && given != [] && |Listed(given)| <= 64
    requires final in {'A', 'B', 'C', 'D', 'G', 'H', 'd', 'f'}
    ensures var params := Parameters("", Listed(given));
      && |params| == |given| && params[0] == Meant(First(given)) && (|given| > 1 ==> params[1] == Second(given))
      && Steps(s, Control(Listed(given), final)) == Moved(s.(sequence := ""), final, params)
  {
    hide Valid, Parameters, Listed, EraseDisplay, EraseLine, Colours, Control, Steps, Moved;
    ParametersListed(given);
    ControlApplies(s, Listed(given), final);
    NotPrivate(given);
    assert s.(sequence := "", mode := Normal) == s.(sequence := "");
  }

  /**
   Every final that moves the cursor, in any screen and for any numbers: how far, or where to, and
   that it stops at the edges. A first number that is zero or left out counts for one.
   */
  lemma CursorMoves(s: Screen, given: seq<Given>, final: char)
    requires Valid(s) && s.mode == Normal && given != [] && |Listed(given)| <= 64
    ensures var t, n := Steps(s, Control(Listed(given), final)), Count(First(given));
      && (final == 'A' ==> t == Placed(s, if n <= s.row then s.row - n else 0, s.column))
      && (final == 'B' ==> t == Placed(s, if s.row + n < s.rows then s.row + n else s.rows - 1, s.column))
      && (final == 'C' ==> t == Placed(s, s.row, if s.column + n < s.columns then s.column + n else s.columns - 1))
      && (final == 'D' ==> t == Placed(s, s.row, if n <= s.column then s.column - n else 0))
      && (final == 'G' ==> t == Placed(s, s.row, if n <= s.columns then n - 1 else s.columns - 1))
      && (final == 'd' ==> t == Placed(s, if n <= s.rows then n - 1 else s.rows - 1, s.column))
      && (final == 'H' || final == 'f' ==>
            var c := Second(given);
            t == Placed(s, if n <= s.rows then n - 1 else s.rows - 1,
                        if c == 0 then 0 else if c <= s.columns then c - 1 else s.columns - 1))
  {
    hide Parameters, Listed, Control, Steps, NewRow, NewColumn, Valid, OrOne, Count, Second;
    if final in {'A', 'B', 'C', 'D', 'G', 'H', 'd', 'f'} {
      CursorMoved(s, given, final);
      OnGrid(s);
      CountsOne(given);
      RowMoves(s.row, s.rows, final, Count(First(given)));
      ColumnMoves(s.column, s.columns, final, Parameters("", Listed(given)), Count(First(given)), Second(given));
    }
  }

  lemma OnGrid(s: Screen)
    requires Valid(s)
    ensures s.row < s.rows && s.column < s.columns
  {
  }

  lemma CountsOne(given: seq<Given>)
    requires given != []
    ensures Count(First(given)) == OrOne(Meant(First(given)))
    ensures |given| == 1 ==> Second(given) == 1
  {
  }

  lemma RowMoves(row: nat, rows: nat, final: char, n: nat)
    requires row < rows && n >= 1
    ensures NewRow(row, rows, final, n)
      == if final == 'A' then (if n <= row then row - n else 0)
         else if final == 'B' then (if row + n < rows then row + n else rows - 1)
         else if final in {'H', 'd', 'f'} then (if n <= rows then n - 1 else rows - 1)
         else row
  {
  }

  lemma ColumnMoves(column: nat, columns: nat, final: char, params: seq<nat>, n: nat, second: nat)
    requires column < columns && params != [] && OrOne(params[0]) == n >= 1
    requires second == if |params| > 1 then params[1] else 1
    ensures NewColumn(column, columns, final, params)
      == if final == 'C' then (if column + n < columns then column + n else columns - 1)
         else if final == 'D' then (if n <= column then column - n else 0)
         else if final == 'G' then (if n <= columns then n - 1 else columns - 1)
         else if final in {'H', 'f'} then (if second == 0 then 0 else if second <= columns then second - 1 else columns - 1)
         else column
  {
  }

  lemma NotPrivate(given: seq<Given>)
    requires given != []
    ensures Listed(given) == "" || Listed(given)[0] != '?'
  {
    hide Listed;
    ParametersListed(given);
    if Listed(given) != "" {
      assert Listed(given)[0] in Listed(given);
    }
  }

  // --- Which cells are blanked ---

  datatype Cell = Cell(c: char, attribute: nat)

  function CellAt(s: Screen, i: nat, j: nat): Cell
    requires Valid(s) && i < s.rows && j < s.columns
  {
    Cell(s.chars[i][j], s.attrs[i][j])
  }

  // The cells from the cursor on, in reading order, those up to it, or all of them.
  predicate InDisplay(s: Screen, how: nat, i: nat, j: nat) {
    if how == 2 then true
    else if how == 1 then i < s.row || (i == s.row && j <= s.column)
    else i > s.row || (i == s.row && j >= s.column)
  }

  // The same, of the cursor's row.
  predicate InLine(s: Screen, how: nat, i: nat, j: nat) {
    i == s.row && (how == 2 || (how == 1 && j <= s.column) || (how != 1 && how != 2 && j >= s.column))
  }

  // Nothing but cells changes: those named become blanks of the current colours.
  ghost predicate Blanks(s: Screen, t: Screen, named: (nat, nat) -> bool)
    requires Valid(s) && Valid(t)
  {
    && t == s.(chars := t.chars, attrs := t.attrs, generation := t.generation)
    && forall i: nat, j: nat :: i < s.rows && j < s.columns ==>
         CellAt(t, i, j) == if named(i, j) then Cell(' ', Attribute(s.pen)) else CellAt(s, i, j)
  }

  lemma CellsBlank(s: Screen, row: nat, start: nat, end: nat)
    requires Valid(s) && row < s.rows && start <= end <= s.columns
    ensures Valid(EraseCells(s, row, start, end))
    ensures Blanks(s, EraseCells(s, row, start, end), (i: nat, j: nat) => i == row && start <= j < end)
  {
    EraseKeeps(s, row, start, end);
  }

  lemma {:induction false} RowsBlank(s: Screen, first: nat, last: nat)
    requires Valid(s) && first <= last <= s.rows
    ensures Blanks(s, EraseRows(s, first, last), (i: nat, j: nat) => first <= i < last)
    decreases last - first
  {
    hide EraseCells, ByteAttrs, PenInRange;
    if first < last {
      CellsBlank(s, first, 0, s.columns);
      RowsBlank(EraseCells(s, first, 0, s.columns), first + 1, last);
    }
  }

  lemma DisplayBlanks(s: Screen, how: nat)
    requires Valid(s)
    ensures Valid(EraseDisplay(s, how)) && Blanks(s, EraseDisplay(s, how), (i: nat, j: nat) => InDisplay(s, how, i, j))
  {
    ErasingKeeps(s, how);
    OnGrid(s);
    hide EraseCells, EraseRows, Valid;
    if how == 2 {
      RowsBlank(s, 0, s.rows);
    } else if how == 1 {
      RowsBlank(s, 0, s.row);
      CellsBlank(EraseRows(s, 0, s.row), s.row, 0, s.column + 1);
    } else {
      CellsBlank(s, s.row, s.column, s.columns);
      RowsBlank(EraseCells(s, s.row, s.column, s.columns), s.row + 1, s.rows);
    }
  }

  lemma LineBlanks(s: Screen, how: nat)
    requires Valid(s)
    ensures Valid(EraseLine(s, how)) && Blanks(s, EraseLine(s, how), (i: nat, j: nat) => InLine(s, how, i, j))
  {
    ErasingKeeps(s, how);
    OnGrid(s);
    hide EraseCells, Valid;
    CellsBlank(s, s.row, 0, s.columns);
    CellsBlank(s, s.row, 0, s.column + 1);
    CellsBlank(s, s.row, s.column, s.columns);
  }

  lemma BlanksElsewhere(s: Screen, given: seq<Given>, final: char)
    requires Valid(s) && s.mode == Normal && given != [] && |Listed(given)| <= 64 && (final == 'J' || final == 'K')
    ensures Steps(s, Control(Listed(given), final))
      == if final == 'J' then EraseDisplay(s.(sequence := ""), Meant(First(given)))
         else EraseLine(s.(sequence := ""), Meant(First(given)))
  {
    hide Valid, Parameters, Listed, EraseDisplay, EraseLine, Colours, Control, Steps, Moved;
    ParametersListed(given);
    ControlApplies(s, Listed(given), final);
    NotPrivate(given);
    assert s.(sequence := "", mode := Normal) == s.(sequence := "");
  }

  /**
   Erasing, cell by cell: 2 takes the whole screen or line, 1 everything up to the cursor with its
   cell, any other number everything from the cursor on. The cursor stays.
   */
  lemma EraseBlanks(s: Screen, given: seq<Given>, final: char)
    requires Valid(s) && s.mode == Normal && given != [] && |Listed(given)| <= 64 && (final == 'J' || final == 'K')
    ensures var how := Meant(First(given));
      Blanks(s.(sequence := ""), Steps(s, Control(Listed(given), final)),
             (i: nat, j: nat) => if final == 'J' then InDisplay(s, how, i, j) else InLine(s, how, i, j))
  {
    hide Listed, Control, Steps, EraseDisplay, EraseLine;
    var u := s.(sequence := "");
    BlanksElsewhere(s, given, final);
    DisplayBlanks(u, Meant(First(given)));
    LineBlanks(u, Meant(First(given)));
  }

  // --- Colours ---

  // Red is the lowest bit of an ANSI colour and the highest of a DOS colour.
  function Mirrored(colour: nat): nat
    requires colour < 8
  {
    4 * (colour % 2) + 2 * (colour / 2 % 2) + colour / 4
  }

  // The colours after one code, by its number.
  function Coloured(pen: Pen, code: nat): Pen {
    match code
    case 0 => Pen(7, 0, false, false)
    case 1 => pen.(bold := true)
    case 5 => pen.(blink := true)
    case 22 => pen.(bold := false)
    case 25 => pen.(blink := false)
    case _ =>
      if 30 <= code < 38 then pen.(foreground := Mirrored(code - 30))
      else if 40 <= code < 48 then pen.(background := Mirrored(code - 40))
      else pen
  }

  lemma ColourMirrors(pen: Pen, code: nat)
    ensures Colour(pen, code) == Coloured(pen, code)
  {
    if 30 <= code <= 37 {
      MirroredTable(code - 30);
    } else if 40 <= code <= 47 {
      MirroredTable(code - 40);
    }
  }

  lemma MirroredTable(colour: nat)
    requires colour < 8
    ensures ANSI_TO_DOS[colour] == Mirrored(colour)
  {
  }

  // One code after the other.
  function ColouredBy(pen: Pen, given: seq<Given>): Pen
    decreases |given|
  {
    if given == [] then pen else ColouredBy(Coloured(pen, Meant(given[0])), given[1..])
  }

  lemma {:induction false} ColoursInOrder(pen: Pen, codes: seq<nat>)
    requires codes != []
    ensures Colours(pen, codes) == Colours(Colour(pen, codes[0]), codes[1..])
  {
    hide Colour;
    var init, last := codes[..|codes| - 1], codes[|codes| - 1];
    if |codes| == 1 {
      assert codes[1..] == [] && init == [];
    } else {
      ColoursInOrder(pen, init);
      assert codes[1..][..|codes[1..]| - 1] == init[1..] && codes[1..][|codes[1..]| - 1] == last;
    }
  }

  lemma {:induction false} ColoursBy(pen: Pen, given: seq<Given>, codes: seq<nat>)
    requires |codes| == |given| && forall i :: 0 <= i < |given| ==> codes[i] == Meant(given[i])
    ensures Colours(pen, codes) == ColouredBy(pen, given)
    decreases |given|
  {
    hide Colour, Coloured;
    if given != [] {
      ColoursInOrder(pen, codes);
      ColourMirrors(pen, codes[0]);
      ColoursBy(Colour(pen, codes[0]), given[1..], codes[1..]);
    }
  }

  /**
   Colours: every code of a list in turn, by its number, and nothing else changes. A code left out
   is zero, which resets them.
   */
  lemma ColoursSet(s: Screen, given: seq<Given>)
    requires Valid(s) && s.mode == Normal && given != [] && |Listed(given)| <= 64
    ensures Steps(s, Control(Listed(given), 'm')) == s.(pen := ColouredBy(s.pen, given), sequence := "")
  {
    hide Valid, Parameters, Listed, Colours, Control, Steps, ColouredBy;
    ParametersListed(given);
    ControlApplies(s, Listed(given), 'm');
    NotPrivate(given);
    ColoursBy(s.pen, given, Parameters("", Listed(given)));
  }

  /** What a cell's attribute says: the colours and flags it was drawn with, each in its bits. */
  lemma AttributeFields(pen: Pen)
    requires PenInRange(pen)
    ensures var a := Attribute(pen);
      && a <= 255 && a % 8 == pen.foreground && (a / 8 % 2 == 1 <==> pen.bold)
      && a / 16 % 8 == pen.background && (a / 128 == 1 <==> pen.blink)
  {
    var bold, blink := if pen.bold then 1 else 0, if pen.blink then 1 else 0;
    assert Attribute(pen) == pen.foreground + 8 * bold + 16 * pen.background + 128 * blink;
    Fields(pen.foreground, bold, pen.background, blink);
  }

  // Three bits, one, three and one.
  lemma Fields(a: nat, b: nat, c: nat, d: nat)
    requires a < 8 && b < 2 && c < 8 && d < 2
    ensures var n := a + 8 * b + 16 * c + 128 * d;
      n <= 255 && n % 8 == a && n / 8 % 2 == b && n / 16 % 8 == c && n / 128 == d
  {
    var n := a + 8 * b + 16 * c + 128 * d;
    assert n / 8 == b + 2 * c + 16 * d;
    assert n / 16 == c + 8 * d;
  }

  /** The cursor is shown and hidden by the private mode 25 alone. */
  lemma CursorShown(s: Screen, given: seq<Given>, final: char)
    requires Valid(s) && s.mode == Normal && given != [] && |Listed(given)| < 64 && (final == 'h' || final == 'l')
    ensures Steps(s, Control("?" + Listed(given), final))
      == s.(visible := if Just(25) in given then final == 'h' else s.visible, sequence := "")
    ensures Steps(s, Control(Listed(given), final)) == s.(sequence := "")
  {
    hide Valid, Parameters, Listed, Colours, Control, Steps;
    ParametersListed(given);
    NotPrivate(given);
    var params := Parameters("", Listed(given));
    assert ("?" + Listed(given))[1..] == Listed(given);
    assert 25 in params <==> Just(25) in given by {
      if 25 in params {
        var i :| 0 <= i < |params| && params[i] == 25;
        assert given[i] in given && given[i] == Just(25);
      }
      if Just(25) in given {
        var i :| 0 <= i < |given| && given[i] == Just(25);
        assert params[i] in params;
      }
    }
    ControlApplies(s, "?" + Listed(given), final);
    ControlApplies(s, Listed(given), final);
  }

  // --- Single characters ---

  /**
   The controls outside sequences: carriage return, the three line feeds, backspace and tabulator
   move the cursor as they say, and the rest of them do nothing.
   */
  lemma ControlsMove(s: Screen, c: char)
    requires Valid(s) && s.mode == Normal && (c as int < 0x20 || c as int == 0x7F) && c != ESCAPE
    ensures Valid(Step(s, c)) && Step(s, c).rows == s.rows && Step(s, c).columns == s.columns
    ensures var t, code := Step(s, c), c as int;
      && (code == 0x0D ==> t == s.(column := 0))
      && (code == 0x08 ==> t == s.(column := if s.column == 0 then 0 else s.column - 1))
      && (code == 0x09 ==>
            && t == s.(column := t.column)
            && (t.column == s.columns - 1 || (t.column % 8 == 0 && s.column < t.column <= s.column + 8)))
      && (0x0A <= code <= 0x0C ==>
            t == s.(chars := t.chars, attrs := t.attrs, row := t.row, generation := s.generation + 1) && MovedDown(s, t))
      && (code !in {0x08, 0x09, 0x0A, 0x0B, 0x0C, 0x0D} ==> t == s)
  {
    hide LineFeed, Put, MovedDown;
    LineFeedKeeps(s);
    LineMoves(s);
  }

  // A line further down: on the last row the lines move up instead, and a blank one comes.
  ghost predicate MovedDown(s: Screen, t: Screen)
    requires Valid(s) && Valid(t) && t.rows == s.rows && t.columns == s.columns
  {
    && t.row == (if s.row + 1 < s.rows then s.row + 1 else s.row)
    && forall i: nat, j: nat :: i < s.rows && j < s.columns ==>
         && (s.row + 1 < s.rows ==> CellAt(t, i, j) == CellAt(s, i, j))
         && (s.row + 1 >= s.rows && i + 1 < s.rows ==> CellAt(t, i, j) == CellAt(s, i + 1, j))
         && (s.row + 1 >= s.rows && i + 1 == s.rows ==> CellAt(t, i, j) == Cell(' ', Attribute(s.pen)))
  }

  lemma LineMoves(s: Screen)
    requires Valid(s)
    ensures Valid(LineFeed(s)) && LineFeed(s).rows == s.rows && LineFeed(s).columns == s.columns
    ensures MovedDown(s, LineFeed(s))
    ensures var t := LineFeed(s);
      t == s.(chars := t.chars, attrs := t.attrs, row := t.row, generation := s.generation + 1)
  {
    LineFeedKeeps(s);
    hide ByteAttrs, PenInRange, Attribute;
    var t := LineFeed(s);
    if s.row + 1 >= s.rows {
      assert forall i :: 0 <= i < s.rows - 1 ==> t.chars[i] == s.chars[i + 1] && t.attrs[i] == s.attrs[i + 1];
    }
  }

  lemma {:induction false} TitleRead(s: Screen, text: string)
    requires Valid(s) && s.mode == Osc && forall c :: c in text ==> c as int != 0x07 && c != ESCAPE
    ensures Steps(s, text) == s
    decreases |text|
  {
    hide Valid, ApplyCsi;
    if text == "" {
      StepsOfNothing(s);
    } else {
      var init, c := text[..|text| - 1], text[|text| - 1];
      assert text == init + [c];
      assert c in text && forall d :: d in init ==> d in text;
      TitleRead(s, init);
      OneStep(s, init, c);
    }
  }

  /** An operating system command, of any length, shows nothing and moves nothing. */
  lemma TitleIsSilent(s: Screen, text: string)
    requires Valid(s) && s.mode == Normal && forall c :: c in text ==> c as int != 0x07 && c != ESCAPE
    ensures Steps(s, [ESCAPE, ']'] + text + [0x07 as char]) == s.(sequence := "")
  {
    hide Valid, ApplyCsi;
    var start: string := [ESCAPE, ']'];
    assert start == [ESCAPE] + [']'] && [ESCAPE] == "" + [ESCAPE];
    StepsOfNothing(s);
    OneStep(s, "", ESCAPE);
    OneStep(s, [ESCAPE], ']');
    StepsAppend(s, start, text);
    TitleRead(s.(mode := Osc, sequence := ""), text);
    OneStep(s, start + text, 0x07 as char);
  }

  lemma {:induction false} Discarded(s: Screen, raw: string)
    requires Valid(s) && s.mode == CsiDiscard && forall c :: c in raw ==> !Final(c)
    ensures Steps(s, raw) == s
    decreases |raw|
  {
    hide Valid, ApplyCsi;
    if raw == "" {
      StepsOfNothing(s);
    } else {
      var init, c := raw[..|raw| - 1], raw[|raw| - 1];
      assert raw == init + [c];
      assert c in raw && forall d :: d in init ==> d in raw;
      Discarded(s, init);
      OneStep(s, init, c);
    }
  }

  /** A control sequence of more than 64 characters is dropped as a whole. */
  lemma LongIsDropped(s: Screen, raw: string, final: char)
    requires Valid(s) && s.mode == Normal && |raw| > 64 && Final(final)
    requires forall c :: c in raw ==> !Final(c)
    ensures Steps(s, Control(raw, final)) == s.(sequence := "")
  {
    hide Valid, ApplyCsi;
    var start: string, kept, rest := [ESCAPE, '['], raw[..64], raw[65..];
    var csi, drop := s.(mode := Csi, sequence := ""), s.(mode := CsiDiscard, sequence := "");
    assert raw == kept + [raw[64]] + rest && forall c :: c in kept || c in rest ==> c in raw;
    assert raw[64] in raw;
    SequenceStarts(s);
    ParametersKept(csi, kept);
    OneStep(csi, kept, raw[64]);
    StepsAppend(csi, kept + [raw[64]], rest);
    Discarded(drop, rest);
    StepsAppend(s, start, raw);
    OneStep(s, start + raw, final);
    assert start + raw + [final] == Control(raw, final);
  }
}
