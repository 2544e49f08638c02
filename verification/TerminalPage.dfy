/**
 Scrolling, seen against a page that never scrolls: the same characters laid out by the same
 rules on as many lines as they need. The screen is a window on that page.
 */
module TerminalPage {
  import opened Bytes
  import opened Terminal

  datatype Page = Page(
    columns: nat,
    lines: seq<string>,
    colours: seq<seq<nat>>,
    row: nat,
    column: nat,
    visible: bool,
    pen: Pen,
    mode: Mode,
    sequence: string)

  ghost predicate Sound(p: Page) {
    && p.columns >= 1 && |p.lines| == |p.colours|
    && Grid(p.lines, p.columns, |p.lines|) && Grid(p.colours, p.columns, |p.colours|)
    && p.row < |p.lines| && p.column < p.columns && |p.sequence| <= 64
  }

  function BlankPage(columns: nat, rows: nat): Page {
    Page(columns, Fill(Fill(' ', columns), rows), Fill(Fill(7, columns), rows), 0, 0, true, PLAIN, Normal, "")
  }

  // --- The rules on a page ---

  // Past the last line there is always another.
  function NextLine(p: Page): Page {
    if p.row + 1 < |p.lines| then p.(row := p.row + 1)
    else
      p.(lines := p.lines + [Fill(' ', p.columns)], colours := p.colours + [Fill(Attribute(p.pen), p.columns)],
         row := p.row + 1)
  }

  function DrawnOn(p: Page, c: char): Page
    requires Sound(p)
  {
    p.(lines := WithCell(p.lines, p.row, p.column, c),
       colours := WithCell(p.colours, p.row, p.column, Attribute(p.pen)))
  }

  function PutOn(p: Page, c: char): Page
    requires Sound(p)
  {
    var drawn := DrawnOn(p, c);
    if p.column + 1 >= p.columns then NextLine(drawn.(column := 0)) else drawn.(column := p.column + 1)
  }

  function EraseOn(p: Page, mode: nat): Page
    requires Sound(p)
  {
    var start := if mode == 2 || mode == 1 then 0 else p.column;
    var end := if mode == 1 then p.column + 1 else p.columns;
    p.(lines := p.lines[p.row := Overwritten(p.lines[p.row], start, end, ' ')],
       colours := p.colours[p.row := Overwritten(p.colours[p.row], start, end, Attribute(p.pen))])
  }

  // The finals that name a row of the screen, or erase it.
  predicate NamesRows(final: char) {
    final in {'H', 'f', 'A', 'B', 'd', 'J'}
  }

  function ApplyOn(p: Page, raw: string, final: char): Page
    requires Sound(p) && !NamesRows(final)
  {
    var hidden := raw != "" && raw[0] == '?';
    var params := Parameters("", if hidden then raw[1..] else raw);
    var n := OrOne(params[0]);
    if final == 'K' then EraseOn(p, params[0])
    else if final == 'm' then p.(pen := Colours(p.pen, params))
    else if (final == 'h' || final == 'l') && hidden && 25 in params then p.(visible := final == 'h')
    else if final == 'C' then p.(column := Min(p.columns - 1, p.column + n))
    else if final == 'D' then p.(column := Max(0, p.column - n))
    else if final == 'G' then p.(column := Min(p.columns - 1, n - 1))
    else p
  }

  predicate Relative(mode: Mode, c: char) {
    !(mode == Csi && NamesRows(c))
  }

  function NormalOn(p: Page, c: char): Page
    requires Sound(p)
  {
    var code := c as int;
    if code == 0x1B then p.(mode := Escape)
    else if code == 0x0D then p.(column := 0)
    else if code == 0x0A || code == 0x0B || code == 0x0C then NextLine(p)
    else if code == 0x08 then p.(column := Max(0, p.column - 1))
    else if code == 0x09 then p.(column := Min(p.columns - 1, (p.column / 8 + 1) * 8))
    else if code < 0x20 || code == 0x7F then p
    else PutOn(p, c)
  }

  function StepOn(p: Page, c: char): Page
    requires Sound(p) && Relative(p.mode, c)
  {
    match p.mode
    case Normal => NormalOn(p, c)
    case Escape =>
      if c == '[' then p.(mode := Csi, sequence := "")
      else if c == ']' then p.(mode := Osc, sequence := "")
      else p.(mode := Normal)
    case Csi =>
      if Final(c) then ApplyOn(p.(sequence := "", mode := Normal), p.sequence, c)
      else if |p.sequence| < 64 then p.(sequence := p.sequence + [c])
      else p.(sequence := "", mode := CsiDiscard)
    case CsiDiscard => if Final(c) then p.(mode := Normal) else p
    case Osc =>
      if c as int == 0x07 then p.(mode := Normal) else if c as int == 0x1B then p.(mode := OscEscape) else p
    case OscEscape => p.(mode := if c == '\\' then Normal else Osc)
  }

  // --- The screen is a window on the page ---

  // The lines that have scrolled off.
  function Off(s: Screen, p: Page): int {
    |p.lines| - s.rows
  }

  ghost predicate Shows(s: Screen, p: Page) {
    && Sound(p) && Off(s, p) >= 0 && p.columns == s.columns
    && s.chars == p.lines[Off(s, p)..] && s.attrs == p.colours[Off(s, p)..]
    && p.row == s.row + Off(s, p) && p.column == s.column
    && p.visible == s.visible && p.pen == s.pen && p.mode == s.mode && p.sequence == s.sequence
  }

  lemma LineFeedShows(s: Screen, p: Page)
    requires Valid(s) && Shows(s, p)
    ensures Shows(LineFeed(s), NextLine(p))
  {
    var d := Off(s, p);
    if s.row + 1 >= s.rows {
      var q := NextLine(p);
      assert q.lines[d + 1..] == p.lines[d..][1..] + [Fill(' ', p.columns)];
      assert q.colours[d + 1..] == p.colours[d..][1..] + [Fill(Attribute(p.pen), p.columns)];
    }
  }

  lemma CellShown<T>(all: seq<seq<T>>, d: nat, row: nat, column: nat, value: T)
    requires d <= row < |all| && column < |all[row]|
    ensures WithCell(all, row, column, value)[d..] == WithCell(all[d..], row - d, column, value)
  {
  }

  lemma DrawnShows(s: Screen, p: Page, c: char)
    requires Valid(s) && Shows(s, p)
    ensures Shows(Drawn(s, c), DrawnOn(p, c))
  {
    var d := Off(s, p);
    CellShown(p.lines, d, p.row, p.column, c);
    CellShown(p.colours, d, p.row, p.column, Attribute(p.pen));
    hide WithCell;
  }

  lemma PutShows(s: Screen, p: Page, c: char)
    requires Valid(s) && Shows(s, p)
    ensures Shows(Put(s, c), PutOn(p, c))
  {
    hide LineFeed, NextLine, WithCell;
    DrawnShows(s, p, c);
    if s.column + 1 >= s.columns {
      DrawnKeeps(s, c);
      LineFeedShows(Drawn(s, c).(column := 0), DrawnOn(p, c).(column := 0));
    }
  }

  lemma RowShown<T>(all: seq<seq<T>>, d: nat, row: nat, line: seq<T>)
    requires d <= row < |all|
    ensures all[row := line][d..] == all[d..][row - d := line]
  {
  }

  lemma EraseShows(s: Screen, p: Page, mode: nat)
    requires Valid(s) && Shows(s, p)
    ensures Shows(EraseLine(s, mode), EraseOn(p, mode))
  {
    var q := EraseOn(p, mode);
    RowShown(p.lines, Off(s, p), p.row, q.lines[p.row]);
    RowShown(p.colours, Off(s, p), p.row, q.colours[p.row]);
  }

  lemma ApplyShows(s: Screen, p: Page, raw: string, final: char)
    requires Valid(s) && Shows(s, p) && !NamesRows(final)
    ensures Shows(ApplyCsi(s, raw, final), ApplyOn(p, raw, final))
  {
    hide Parameters, Colours, EraseLine, EraseOn, EraseDisplay, Valid;
    var params := Parameters("", if raw != "" && raw[0] == '?' then raw[1..] else raw);
    EraseShows(s, p, params[0]);
    ColumnsShow(s, p, final, params);
  }

  lemma ColumnsShow(s: Screen, p: Page, final: char, params: seq<nat>)
    requires Valid(s) && Shows(s, p) && !NamesRows(final) && params != []
    ensures var n := OrOne(params[0]);
      var q := if final == 'C' then p.(column := Min(p.columns - 1, p.column + n))
               else if final == 'D' then p.(column := Max(0, p.column - n))
               else if final == 'G' then p.(column := Min(p.columns - 1, n - 1))
               else p;
      Shows(Moved(s, final, params), q)
  {
  }

  lemma NormalShows(s: Screen, p: Page, c: char)
    requires Valid(s) && Shows(s, p)
    ensures Shows(NormalStep(s, c), NormalOn(p, c))
  {
    hide Put, PutOn, LineFeed, NextLine;
    PutShows(s, p, c);
    LineFeedShows(s, p);
  }

  lemma CsiShows(s: Screen, p: Page, c: char)
    requires Valid(s) && Shows(s, p) && Relative(s.mode, c) && s.mode == Csi
    ensures Shows(Step(s, c), StepOn(p, c))
  {
    hide ApplyCsi, ApplyOn, NormalStep, NormalOn, Grid, ByteAttrs;
    if Final(c) {
      ApplyShows(s.(sequence := "", mode := Normal), p.(sequence := "", mode := Normal), s.sequence, c);
    }
  }

  lemma StepShows(s: Screen, p: Page, c: char)
    requires Valid(s) && Shows(s, p) && Relative(s.mode, c)
    ensures Shows(Step(s, c), StepOn(p, c))
  {
    hide NormalStep, NormalOn, CsiStep, ApplyOn, Grid, ByteAttrs;
    if s.mode == Normal {
      NormalShows(s, p, c);
    } else if s.mode == Csi {
      CsiShows(s, p, c);
    }
  }

  // No character of the text ends a sequence that names rows.
  ghost predicate RelativeText(s: Screen, text: string)
    requires Valid(s)
  {
    forall n :: 0 <= n < |text| ==> Relative(Steps(s, text[..n]).mode, text[n])
  }

  // The page after a text that the screen takes without naming rows.
  ghost function PageAfter(s: Screen, p: Page, text: string): (q: Page)
    requires Valid(s) && Shows(s, p) && RelativeText(s, text)
    ensures Shows(Steps(s, text), q)
    decreases |text|
  {
    hide Step, StepOn, Valid, Shows, Relative;
    if text == "" then p
    else
      var n := |text| - 1;
      assert forall k :: 0 <= k < n ==> text[..n][..k] == text[..k];
      StepShows(Steps(s, text[..n]), PageAfter(s, p, text[..n]), text[n]);
      SoundAndModes(Steps(s, text[..n]), PageAfter(s, p, text[..n]));
      StepOn(PageAfter(s, p, text[..n]), text[n])
  }

  lemma SoundAndModes(s: Screen, p: Page)
    requires Shows(s, p)
    ensures Sound(p) && p.mode == s.mode
  {
  }

  /**
   For every input that does not address rows of the screen, the screen is the first or the last
   lines of the page, and the cursor is the page's, up by the lines that have scrolled off.
   */
  lemma ScreenIsWindow(columns: nat, rows: nat, text: string)
    requires columns >= 1 && rows >= 1
    ensures Valid(Blank(columns, rows)) && Shows(Blank(columns, rows), BlankPage(columns, rows))
    ensures var s, p := Blank(columns, rows), BlankPage(columns, rows);
      RelativeText(s, text) ==>
        var screen, page := Steps(s, text), PageAfter(s, p, text);
        && |page.lines| >= rows
        && screen.chars == page.lines[|page.lines| - rows..] && screen.attrs == page.colours[|page.lines| - rows..]
        && screen.row == page.row - (|page.lines| - rows) && screen.column == page.column
  {
    hide Steps, PageAfter;
    var s, p := Blank(columns, rows), BlankPage(columns, rows);
    if RelativeText(s, text) {
      var page := PageAfter(s, p, text);
      StepsSize(s, text);
      assert Shows(Steps(s, text), page);
    }
  }

  lemma StepSize(s: Screen, c: char)
    requires Valid(s)
    ensures Step(s, c).rows == s.rows && Step(s, c).columns == s.columns
  {
    hide EraseRows, Parameters, Colours, Attribute, WithCell, Overwritten;
  }

  lemma {:induction false} StepsSize(s: Screen, text: string)
    requires Valid(s)
    ensures Steps(s, text).rows == s.rows && Steps(s, text).columns == s.columns
    decreases |text|
  {
    hide Step, Valid;
    if text != "" {
      StepsSize(s, text[..|text| - 1]);
      StepSize(Steps(s, text[..|text| - 1]), text[|text| - 1]);
    }
  }

  // --- What the page of plain text is ---

  predicate Printable(c: char) {
    c as int >= 0x20 && c as int != 0x7F
  }

  // The cells of text cut into lines of `columns` characters.
  ghost predicate Wrapped(lines: seq<string>, columns: nat, text: string) {
    forall i, j :: 0 <= i < |lines| && 0 <= j < |lines[i]| ==>
      lines[i][j] == CellOf(text, i * columns + j)
  }

  function CellOf(text: string, k: int): char {
    if 0 <= k < |text| then text[k] else ' '
  }

  lemma EarlierRow(columns: nat, i: nat, j: nat, row: nat)
    requires j < columns && i < row
    ensures i * columns + j < row * columns
  {
    assert (i + 1) * columns <= row * columns;
  }

  lemma CellIsUnique(columns: nat, i: nat, j: nat, row: nat, column: nat)
    requires j < columns && column < columns && i * columns + j == row * columns + column
    ensures i == row && j == column
  {
    if i < row {
      EarlierRow(columns, i, j, row);
    } else if row < i {
      EarlierRow(columns, row, column, i);
    }
  }

  ghost predicate LaidOut(p: Page, rows: nat, text: string) {
    && Sound(p) && p.mode == Normal && p.row * p.columns + p.column == |text|
    && |p.lines| == Max(rows, p.row + 1) && Wrapped(p.lines, p.columns, text)
  }

  lemma WrapOneMore(p: Page, text: string, c: char)
    requires Sound(p) && p.row * p.columns + p.column == |text| && Wrapped(p.lines, p.columns, text)
    ensures Wrapped(WithCell(p.lines, p.row, p.column, c), p.columns, text + [c])
  {
    var lines := WithCell(p.lines, p.row, p.column, c);
    forall i, j | 0 <= i < |lines| && 0 <= j < |lines[i]|
      ensures lines[i][j] == CellOf(text + [c], i * p.columns + j)
    {
      assert p.lines[i][j] == CellOf(text, i * p.columns + j) || (i == p.row && j == p.column);
      if i * p.columns + j == |text| {
        CellIsUnique(p.columns, i, j, p.row, p.column);
      }
    }
  }

  lemma WrapBlankLine(lines: seq<string>, columns: nat, text: string)
    requires Wrapped(lines, columns, text) && |text| <= |lines| * columns
    ensures Wrapped(lines + [Fill(' ', columns)], columns, text)
  {
    var more := lines + [Fill(' ', columns)];
    forall i, j | 0 <= i < |more| && 0 <= j < |more[i]|
      ensures more[i][j] == CellOf(text, i * columns + j)
    {
      if i < |lines| {
        assert lines[i][j] == CellOf(text, i * columns + j);
      }
    }
  }

  lemma PutLaysOut(p: Page, rows: nat, text: string, c: char)
    requires LaidOut(p, rows, text) && rows >= 1
    ensures LaidOut(PutOn(p, c), rows, text + [c])
  {
    hide WithCell, Wrapped;
    WrapOneMore(p, text, c);
    var drawn := DrawnOn(p, c);
    if p.column + 1 >= p.columns {
      assert (p.row + 1) * p.columns == |text| + 1;
      if p.row + 1 == |p.lines| {
        WrapBlankLine(drawn.lines, p.columns, text + [c]);
      }
    }
  }

  lemma {:induction false} PrintableText(columns: nat, rows: nat, text: string)
    requires columns >= 1 && rows >= 1 && forall c :: c in text ==> Printable(c)
    ensures Valid(Blank(columns, rows)) && Shows(Blank(columns, rows), BlankPage(columns, rows))
    ensures var s, p := Blank(columns, rows), BlankPage(columns, rows);
      RelativeText(s, text) && LaidOut(PageAfter(s, p, text), rows, text)
    decreases |text|
  {
    hide PutOn, StepOn, Step, Wrapped;
    var s, p := Blank(columns, rows), BlankPage(columns, rows);
    if text == "" {
      BlankIsLaidOut(columns, rows);
    } else {
      var n := |text| - 1;
      PrintableText(columns, rows, text[..n]);
      var q := PageAfter(s, p, text[..n]);
      assert Printable(text[n]) && text == text[..n] + [text[n]];
      forall k | 0 <= k < |text|
        ensures Relative(Steps(s, text[..k]).mode, text[k])
      {
        if k < n {
          assert text[..n][..k] == text[..k];
          assert Relative(Steps(s, text[..n][..k]).mode, text[..n][k]);
        } else {
          assert Steps(s, text[..n]).mode == q.mode;
        }
      }
      PutLaysOut(q, rows, text[..n], text[n]);
      StepOnPuts(q, text[n]);
    }
  }

  lemma StepOnPuts(p: Page, c: char)
    requires Sound(p) && p.mode == Normal && Printable(c)
    ensures StepOn(p, c) == PutOn(p, c)
  {
    hide PutOn;
  }

  lemma BlankIsLaidOut(columns: nat, rows: nat)
    requires columns >= 1 && rows >= 1
    ensures LaidOut(BlankPage(columns, rows), rows, "")
  {
  }

  lemma WindowOfWrapped(s: Screen, page: Page, columns: nat, rows: nat, text: string, i: nat, j: nat)
    requires columns >= 1 && rows >= 1 && page.columns == columns && LaidOut(page, rows, text)
    requires s.chars == page.lines[|page.lines| - rows..] && i < rows && j < columns
    requires s.row == page.row - (|page.lines| - rows) && s.column == page.column
    ensures var off := Max(0, |text| / columns + 1 - rows);
      && i < |s.chars| && j < |s.chars[i]|
      && s.chars[i][j] == CellOf(text, (off + i) * columns + j)
      && s.row == |text| / columns - off && s.column == |text| % columns
  {
    CellIsUnique(columns, page.row, page.column, |text| / columns, |text| % columns);
    var off := |page.lines| - rows;
    assert s.chars[i] == page.lines[off + i];
  }

  /**
   Text of printable characters on a fresh terminal: once it is longer than the screen, row by row
   the screen shows its last lines, cut every `columns` characters.
   */
  lemma TextIsWrapped(columns: nat, rows: nat, text: string, i: nat, j: nat)
    requires columns >= 1 && rows >= 1 && (forall c :: c in text ==> Printable(c)) && i < rows && j < columns
    ensures Valid(Blank(columns, rows))
    ensures var s := Steps(Blank(columns, rows), text);
      var off := Max(0, |text| / columns + 1 - rows);
      && i < |s.chars| && j < |s.chars[i]|
      && s.chars[i][j] == CellOf(text, (off + i) * columns + j)
      && s.row == |text| / columns - off && s.column == |text| % columns
  {
    hide PageAfter, Steps, LaidOut, Shows, Valid, RelativeText;
    PrintableText(columns, rows, text);
    ScreenIsWindow(columns, rows, text);
    var page := PageAfter(Blank(columns, rows), BlankPage(columns, rows), text);
    PageColumns(Blank(columns, rows), BlankPage(columns, rows), text);
    WindowOfWrapped(Steps(Blank(columns, rows), text), page, columns, rows, text, i, j);
  }

  lemma PageColumns(s: Screen, p: Page, text: string)
    requires Valid(s) && Shows(s, p) && RelativeText(s, text)
    ensures PageAfter(s, p, text).columns == s.columns
  {
    hide PageAfter, Steps;
    StepsSize(s, text);
  }
}
