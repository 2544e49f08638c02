/** The terminal's object: its fields change in place, one character at a time, as Terminal says. */
module TerminalBuffer {
  import opened Bytes
  import opened Terminal
  import opened Wrappers

  // --- The snapshot ---

  datatype TextScreen = TextScreen(
    columns: int,
    rows: int,
    text: seq<string>,
    attributes: seq<seq<nat>>,
    cursorRow: int,
    cursorColumn: int,
    visible: bool,
    generation: nat)

  /** The checks of the constructor of `TextScreen`, in their order. */
  function MakeTextScreen(v: TextScreen): Result<TextScreen, string> {
    if v.columns < 1 || v.rows < 1 then Err("screen dimensions must be positive")
    else if |v.text| != v.rows then Err("screen row count does not match metadata")
    else if |v.attributes| != v.rows then Err("attribute row count does not match metadata")
    else if exists i | 0 <= i < |v.text| :: |v.text[i]| != v.columns then
      Err("text rows must retain exactly columns characters")
    else if exists i | 0 <= i < |v.attributes| :: |v.attributes[i]| != v.columns then
      Err("attribute rows must contain exactly columns cells")
    else if !(0 <= v.cursorRow < v.rows) then Err("cursor row is outside the screen")
    else if !(0 <= v.cursorColumn < v.columns) then Err("cursor column is outside the screen")
    else if exists i | 0 <= i < |v.attributes| :: exists j | 0 <= j < |v.attributes[i]| :: v.attributes[i][j] > 0xFF then
      Err("cell attributes must be bytes")
    else Ok(v)
  }

  function SnapshotOf(s: Screen): TextScreen {
    TextScreen(s.columns, s.rows, s.chars, s.attrs, s.row, s.column, s.visible, s.generation)
  }

  /** A snapshot taken after any input always constructs. */
  lemma SnapshotConstructs(columns: nat, rows: nat, pieces: seq<string>)
    requires columns >= 1 && rows >= 1
    requires (BlankIsValid(columns, rows); AsciiControls(Blank(columns, rows), Whole(pieces)))
    ensures Valid(Blank(columns, rows))
    ensures var s := FedAll(Blank(columns, rows), pieces); MakeTextScreen(SnapshotOf(s)) == Ok(SnapshotOf(s))
  {
    hide FedAll, AsciiControls;
    BlankIsValid(columns, rows);
    var s := FedAll(Blank(columns, rows), pieces);
    assert Valid(s);
  }

  lemma BlankIsValid(columns: nat, rows: nat)
    requires columns >= 1 && rows >= 1
    ensures Valid(Blank(columns, rows))
  {
  }

  class Buffer {
    const columns: nat
    const rows: nat
    var chars: seq<string>
    var attrs: seq<seq<nat>>
    var row: nat
    var column: nat
    var visible: bool
    var generation: nat
    var foreground: nat
    var background: nat
    var bold: bool
    var blink: bool
    var mode: Mode
    var sequence: string

    ghost function State(): Screen
      reads this
    {
      Screen(columns, rows, chars, attrs, row, column, visible, generation,
             Pen(foreground, background, bold, blink), mode, sequence)
    }

    ghost predicate Sound()
      reads this
    {
      Valid(State())
    }

    constructor (columns: nat, rows: nat)
      requires columns >= 1 && rows >= 1
      ensures Sound() && State() == Blank(columns, rows)
    {
      this.columns, this.rows := columns, rows;
      chars, attrs := Fill(Fill(' ', columns), rows), Fill(Fill(7, columns), rows);
      row, column, visible, generation := 0, 0, true, 0;
      foreground, background, bold, blink := 7, 0, false, false;
      mode, sequence := Normal, "";
    }

    // `attribute`
    function CurrentAttribute(): (a: nat)
      reads this
      ensures a == Attribute(State().pen)
    {
      foreground + (if bold then 8 else 0) + 16 * background + (if blink then 128 else 0)
    }

    // `_line_feed`: at the bottom the top row goes and a fresh one comes.
    method AdvanceLine()
      requires Sound()
      modifies this`chars, this`attrs, this`row, this`generation
      ensures Sound() && State() == LineFeed(old(State()))
    {
      LineFeedKeeps(State());
      row := row + 1;
      if row >= rows {
        chars := chars[1..];
        chars := chars + [Fill(' ', columns)];
        attrs := attrs[1..];
        attrs := attrs + [Fill(CurrentAttribute(), columns)];
        row := rows - 1;
      }
      generation := generation + 1;
    }

    // `_put`
    method PutCharacter(c: char)
      requires Sound()
      modifies this`chars, this`attrs, this`row, this`column, this`generation
      ensures Sound() && State() == Put(old(State()), c)
    {
      hide WithCell, LineFeed;
      PutKeeps(State(), c);
      DrawnKeeps(State(), c);
      chars := WithCell(chars, row, column, c);
      attrs := WithCell(attrs, row, column, CurrentAttribute());
      generation := generation + 1;
      column := column + 1;
      if column >= columns {
        column := 0;
        AdvanceLine();
      }
    }

    // `_erase_cells`: cell by cell.
    method Erase(line: nat, start: nat, end: nat)
      requires Sound() && line < rows && start <= end <= columns
      modifies this`chars, this`attrs, this`generation
      ensures Sound() && State() == EraseCells(old(State()), line, start, end)
    {
      EraseKeeps(State(), line, start, end);
      ghost var text, colours := chars[line], attrs[line];
      NoCells(text, start, ' ');
      NoCells(colours, start, CurrentAttribute());
      for at := start to end
        invariant |chars| == rows && |attrs| == rows && generation == old(generation)
        invariant chars == old(chars)[line := Overwritten(text, start, at, ' ')]
        invariant attrs == old(attrs)[line := Overwritten(colours, start, at, Attribute(old(State()).pen))]
      {
        chars := WithCell(chars, line, at, ' ');
        attrs := WithCell(attrs, line, at, CurrentAttribute());
        OneMoreCell(text, start, at, ' ');
        OneMoreCell(colours, start, at, CurrentAttribute());
      }
      generation := generation + 1;
    }

    method EraseWholeRows(first: nat, last: nat)
      requires Sound() && first <= last <= rows
      modifies this`chars, this`attrs, this`generation
      ensures Sound() && State() == EraseRows(old(State()), first, last)
    {
      hide EraseCells;
      for line := first to last
        invariant Sound()
        invariant State() == old(State()).(chars := chars, attrs := attrs, generation := generation)
        invariant EraseRows(old(State()), first, last) == EraseRows(State(), line, last)
      {
        Erase(line, 0, columns);
      }
    }

    // `_erase_display`
    method EraseScreen(how: nat)
      requires Sound()
      modifies this`chars, this`attrs, this`generation
      ensures Sound() && State() == EraseDisplay(old(State()), how)
    {
      hide EraseCells, EraseRows;
      if how == 2 {
        EraseWholeRows(0, rows);
      } else if how == 1 {
        EraseWholeRows(0, row);
        Erase(row, 0, column + 1);
      } else {
        Erase(row, column, columns);
        EraseWholeRows(row + 1, rows);
      }
    }

    // `_erase_line`
    method EraseInLine(how: nat)
      requires Sound()
      modifies this`chars, this`attrs, this`generation
      ensures Sound() && State() == EraseLine(old(State()), how)
    {
      hide EraseCells;
      if how == 2 {
        Erase(row, 0, columns);
      } else if how == 1 {
        Erase(row, 0, column + 1);
      } else {
        Erase(row, column, columns);
      }
    }

    // `_sgr`
    method SetColours(codes: seq<nat>)
      requires Sound()
      modifies this`foreground, this`background, this`bold, this`blink
      ensures Sound() && State() == old(State()).(pen := Colours(old(State()).pen, codes))
    {
      ColoursInRange(State().pen, codes);
      for i := 0 to |codes|
        invariant State() == old(State()).(pen := Colours(old(State()).pen, codes[..i]))
      {
        var code := codes[i];
        if code == 0 {
          foreground, background, bold, blink := 7, 0, false, false;
        } else if code == 1 {
          bold := true;
        } else if code == 5 {
          blink := true;
        } else if code == 22 {
          bold := false;
        } else if code == 25 {
          blink := false;
        } else if 30 <= code <= 37 {
          foreground := ANSI_TO_DOS[code - 30];
        } else if 40 <= code <= 47 {
          background := ANSI_TO_DOS[code - 40];
        }
        assert codes[..i + 1][..i] == codes[..i];
      }
      assert codes[..|codes|] == codes;
    }

    // `_apply_csi`
    method Apply(raw: string, final: char)
      requires Sound()
      modifies this`chars, this`attrs, this`row, this`column, this`visible, this`generation,
        this`foreground, this`background, this`bold, this`blink
      ensures Sound() && State() == ApplyCsi(old(State()), raw, final)
    {
      hide Parameters, Colours, EraseDisplay, EraseLine, Attribute, Moved;
      ApplyCsiKeeps(State(), raw, final);
      var hidden := raw != "" && raw[0] == '?';
      var params := Parameters("", if hidden then raw[1..] else raw);
      if final == 'J' {
        EraseScreen(params[0]);
      } else if final == 'K' {
        EraseInLine(params[0]);
      } else if final == 'm' {
        SetColours(params);
      } else if hidden && (final == 'h' || final == 'l') && 25 in params {
        visible := final == 'h';
      } else {
        MoveCursor(final, params);
      }
    }

    // The finals of `_apply_csi` that move the cursor.
    method MoveCursor(final: char, params: seq<nat>)
      requires Sound() && params != []
      modifies this`row, this`column
      ensures State() == Moved(old(State()), final, params)
    {
      var n := OrOne(params[0]);
      if final == 'H' || final == 'f' {
        var given: int := if |params| > 1 then params[1] else 1;
        row := Min(n - 1, rows - 1);
        column := Min(Max(given - 1, 0), columns - 1);
      } else if final == 'A' {
        row := Max(0, row - n);
      } else if final == 'B' {
        row := Min(rows - 1, row + n);
      } else if final == 'C' {
        column := Min(columns - 1, column + n);
      } else if final == 'D' {
        column := Max(0, column - n);
      } else if final == 'G' {
        column := Min(columns - 1, n - 1);
      } else if final == 'd' {
        row := Min(rows - 1, n - 1);
      }
    }

    // One character of `feed`.
    method Take(c: char)
      requires Sound()
      modifies this
      ensures Sound() && State() == Step(old(State()), c)
    {
      hide LineFeed, Put, ApplyCsi;
      StepKeeps(State(), c);
      match mode
      case Normal =>
        var code := c as int;
        if code == 0x1B {
          mode := Escape;
        } else if code == 0x0D {
          column := 0;
        } else if code == 0x0A || code == 0x0B || code == 0x0C {
          AdvanceLine();
        } else if code == 0x08 {
          column := Max(0, column - 1);
        } else if code == 0x09 {
          column := Min(columns - 1, (column / 8 + 1) * 8);
        } else if code >= 0x20 && code != 0x7F {
          PutCharacter(c);
        }
      case Escape =>
        if c == '[' {
          mode, sequence := Csi, "";
        } else if c == ']' {
          mode, sequence := Osc, "";
        } else {
          mode := Normal;
        }
      case Csi =>
        if Final(c) {
          var raw := sequence;
          sequence, mode := "", Normal;
          Apply(raw, c);
        } else if |sequence| < 64 {
          sequence := sequence + [c];
        } else {
          sequence, mode := "", CsiDiscard;
        }
      case CsiDiscard =>
        if Final(c) {
          mode := Normal;
        }
      case Osc =>
        if c as int == 0x07 {
          mode := Normal;
        } else if c as int == 0x1B {
          mode := OscEscape;
        }
      case OscEscape =>
        mode := if c == '\\' then Normal else Osc;
    }

    /** `feed` */
    method Feed(text: string)
      requires Sound() && AsciiControls(State(), text)
      modifies this
      ensures Sound() && State() == Fed(old(State()), text)
    {
      hide Step, Valid;
      if text == "" {
        return;
      }
      var before := generation;
      for i := 0 to |text|
        invariant Sound() && State() == Steps(old(State()), text[..i])
      {
        Take(text[i]);
        assert text[..i + 1][..i] == text[..i];
      }
      assert text[..|text|] == text;
      if generation == before {
        generation := generation + 1;
      }
      assert State() == Fed(old(State()), text);
    }

    /** `snapshot`: it never raises. */
    method Snapshot() returns (r: Result<TextScreen, string>)
      requires Sound()
      ensures r == Ok(SnapshotOf(State()))
    {
      r := MakeTextScreen(TextScreen(columns, rows, chars, attrs, row, column, visible, generation));
    }
  }

  lemma NoCells<T>(line: seq<T>, start: nat, value: T)
    requires start <= |line|
    ensures Overwritten(line, start, start, value) == line
  {
  }

  lemma OneMoreCell<T>(line: seq<T>, start: nat, at: nat, value: T)
    requires start <= at < |line|
    ensures Overwritten(line, start, at + 1, value) == Overwritten(line, start, at, value)[at := value]
  {
  }
}
