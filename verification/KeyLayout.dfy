/**
 The words the agent puts into the keyboard ring, by the keys of the keyboard they stand for: the
 scan code of a key is its place, and the low byte is the character it types.
 */
module KeyLayout {
  import opened BiosKeys
  import opened Bytes

  // The four rows of character keys, each with the scan code of its first key.
  const ROWS: seq<(string, nat)> := [
    ("1234567890-=", 0x02),
    ("qwertyuiop[]", 0x10),
    ("asdfghjkl;'`", 0x1E),
    ("\\zxcvbnm,./", 0x2B)]

  predicate Letter(value: nat) {
    0x61 <= value <= 0x7A
  }

  // A character on a key of one of the rows.
  ghost predicate OnKey(value: nat, row: nat, place: nat) {
    row < 4 && place < |ROWS[row].0| && value == ROWS[row].0[place] as int
  }

  lemma TopRow(place: nat)
    requires place < 12
    ensures |ROWS[0].0| == 12 && AsciiScan(ROWS[0].0[place] as int) == 0x02 + place
  {
    match place
    case 0 => case 1 => case 2 => case 3 => case 4 => case 5 => case 6 => case 7 => case 8 => case 9 =>
    case 10 => case 11 =>
  }

  lemma UpperRow(place: nat)
    requires place < 12
    ensures |ROWS[1].0| == 12 && AsciiScan(ROWS[1].0[place] as int) == 0x10 + place
  {
    match place
    case 0 => case 1 => case 2 => case 3 => case 4 => case 5 => case 6 => case 7 => case 8 => case 9 =>
    case 10 => case 11 =>
  }

  lemma HomeRow(place: nat)
    requires place < 12
    ensures |ROWS[2].0| == 12 && AsciiScan(ROWS[2].0[place] as int) == 0x1E + place
  {
    match place
    case 0 => case 1 => case 2 => case 3 => case 4 => case 5 => case 6 => case 7 => case 8 => case 9 =>
    case 10 => case 11 =>
  }

  lemma LowerRow(place: nat)
    requires place < 11
    ensures |ROWS[3].0| == 11 && AsciiScan(ROWS[3].0[place] as int) == 0x2B + place
  {
    match place
    case 0 => case 1 => case 2 => case 3 => case 4 => case 5 => case 6 => case 7 => case 8 => case 9 => case 10 =>
  }

  /** A character is typed by the key it is on; a capital by its letter's key, a space by the space bar. */
  lemma CharactersByPlace(value: nat, row: nat, place: nat)
    requires OnKey(value, row, place)
    ensures AsciiScan(value) == ROWS[row].1 + place
    ensures Letter(value) ==> AsciiScan(value - 0x20) == ROWS[row].1 + place
    ensures AsciiScan(0x20) == 0x39
  {
    hide AsciiScan;
    match row {
      case 0 => TopRow(place);
      case 1 => UpperRow(place);
      case 2 => HomeRow(place);
      case 3 => LowerRow(place);
    }
    if Letter(value) {
      Capital(value);
    }
    SpaceBar();
  }

  lemma Capital(value: nat)
    requires Letter(value)
    ensures AsciiScan(value - 0x20) == AsciiScan(value)
  {
  }

  lemma SpaceBar()
    ensures AsciiScan(0x20) == 0x39
  {
  }

  // --- Keys with names ---

  // `KeyCode` of the bridge, in its order from 1 on.
  datatype KeyCode =
    | ENTER | ESC | TAB | BACKSPACE | UP | DOWN | RIGHT | LEFT | HOME | END | DELETE | PAGE_UP | PAGE_DOWN
    | F1 | F2 | F3 | F4 | F5 | F6 | F7 | F8 | F9 | F10 | F11 | F12 | CTRL_C | CTRL_D

  function Number(key: KeyCode): nat {
    match key
    case ENTER => 1 case ESC => 2 case TAB => 3 case BACKSPACE => 4
    case UP => 5 case DOWN => 6 case RIGHT => 7 case LEFT => 8
    case HOME => 9 case END => 10 case DELETE => 11 case PAGE_UP => 12 case PAGE_DOWN => 13
    case F1 => 14 case F2 => 15 case F3 => 16 case F4 => 17 case F5 => 18 case F6 => 19
    case F7 => 20 case F8 => 21 case F9 => 22 case F10 => 23 case F11 => 24 case F12 => 25
    case CTRL_C => 26 case CTRL_D => 27
  }

  // A key of the numeric pad: three columns, and four scan codes from one row to the next.
  function Pad(row: nat, column: nat): nat {
    0x47 + 4 * row + column
  }

  function Scan(key: KeyCode): nat {
    match key
    case ENTER => 0x1C case ESC => 0x01 case TAB => 0x0F case BACKSPACE => 0x0E
    case HOME => Pad(0, 0) case UP => Pad(0, 1) case PAGE_UP => Pad(0, 2)
    case LEFT => Pad(1, 0) case RIGHT => Pad(1, 2)
    case END => Pad(2, 0) case DOWN => Pad(2, 1) case PAGE_DOWN => Pad(2, 2)
    case DELETE => 0x53
    case F11 => 0x85 case F12 => 0x86
    case CTRL_C => AsciiScan('c' as int) case CTRL_D => AsciiScan('d' as int)
    case _ => 0x3B + (Number(key) - Number(F1))
  }

  // The control character a key types, or none.
  function Typed(key: KeyCode): nat {
    match key
    case ENTER => 13 case ESC => 27 case TAB => 9 case BACKSPACE => 8 case CTRL_C => 3 case CTRL_D => 4
    case _ => 0
  }

  lemma EditingWord(key: KeyCode)
    requires Number(key) <= 13
    ensures Number(key) < |NAMED_KEYS| && NAMED_KEYS[Number(key)] == 256 * Scan(key) + Typed(key)
  {
    match key
    case ENTER => case ESC => case TAB => case BACKSPACE => case UP => case DOWN => case RIGHT => case LEFT =>
    case HOME => case END => case DELETE => case PAGE_UP => case PAGE_DOWN =>
  }

  lemma FunctionWord(key: KeyCode)
    requires Number(key) > 13
    ensures Number(key) < |NAMED_KEYS| && NAMED_KEYS[Number(key)] == 256 * Scan(key) + Typed(key)
  {
    match key
    case F1 => case F2 => case F3 => case F4 => case F5 => case F6 => case F7 => case F8 => case F9 => case F10 =>
    case F11 => case F12 => case CTRL_C => case CTRL_D =>
  }

  /** Every key the bridge has a name for has its own word; no other number has one. */
  lemma NamedByPlace(key: KeyCode, b: byte)
    ensures Value(b) == Number(key) ==> NamedKeyWord(b) == 256 * Scan(key) + Typed(key)
    ensures NamedKeyWord(b) == 0 <==> Value(b) == 0 || Value(b) > 27
  {
    hide Value, Scan, Number, Typed;
    if Number(key) <= 13 {
      EditingWord(key);
    } else {
      FunctionWord(key);
    }
    NamedBelow(Value(b));
  }

  lemma NamedBelow(n: nat)
    ensures n >= |NAMED_KEYS| <==> n > 27
    ensures n <= 27 ==> (NAMED_KEYS[n] == 0 <==> n == 0)
  {
    if n <= 27 {
      match n
      case 0 => case 1 => case 2 => case 3 => case 4 => case 5 => case 6 => case 7 => case 8 => case 9 => case 10 =>
      case 11 => case 12 => case 13 => case 14 => case 15 => case 16 => case 17 => case 18 => case 19 => case 20 =>
      case 21 => case 22 => case 23 => case 24 => case 25 => case 26 => case 27 =>
    }
  }
}
