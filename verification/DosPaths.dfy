/**
 The file names the agent accepts and the full names it makes of them: inside one directory, or
 anywhere on a drive when the agent was installed for all drives.
 */
module DosPaths {
  import opened Bytes
  import opened DosFiles
  import opened Wrappers

  const TSR_PATH_MAX := 127
  const BACKSLASH: byte := 0x5C
  const SLASH: byte := 0x2F
  const COLON: byte := 0x3A
  const DOT: byte := 0x2E

  datatype Config = Config(allowRead: bool, allowWrite: bool, unrestricted: bool, root: Path)

  predicate Separator(c: byte) {
    c == BACKSLASH || c == SLASH
  }

  predicate Letter(c: byte) {
    (0x41 <= c && c <= 0x5A) || (0x61 <= c && c <= 0x7A)
  }

  // As DOS compares names: upper case, one kind of separator.
  function Folded(c: byte): byte {
    if 0x61 <= c && c <= 0x7A then c - 0x20 else if c == SLASH then BACKSLASH else c
  }

  function Fold(s: bytes): (r: bytes)
    ensures |r| == |s|
  {
    seq(|s|, i requires 0 <= i < |s| => Folded(s[i]))
  }

  // A C string ends at the first zero byte.
  function CString(s: bytes): (r: bytes)
    ensures |r| <= |s|
  {
    if s == [] || s[0] == 0 then [] else [s[0]] + CString(s[1..])
  }

  // The characters no component may hold: the forbidden punctuation, and controls.
  predicate Plain(c: byte) {
    c >= 32 && c !in Ascii("\":*+,;<=>?[|]")
  }

  predicate GoodComponent(s: bytes) {
    0 < |s| <= 12 && s != [DOT] && s != [DOT, DOT] && forall c | c in s :: Plain(c)
  }

  // The component being read is `s`; what follows is `rest`.
  predicate GoodComponents(s: bytes, rest: bytes)
    decreases rest
  {
    if rest == [] then GoodComponent(s)
    else if Separator(rest[0]) then GoodComponent(s) && GoodComponents([], rest[1..])
    else GoodComponents(s + [rest[0]], rest[1..])
  }

  // `safe_relative_path`
  predicate SafeRelative(s: bytes) {
    s != [] && !Separator(s[0]) && COLON !in s && GoodComponents([], s)
  }

  // `safe_absolute_path`
  predicate SafeAbsolute(s: bytes) {
    |s| >= 4 && Letter(s[0]) && s[1] == COLON && Separator(s[2]) && SafeRelative(s[3..])
  }

  function WithSeparator(s: bytes): bytes {
    if s != [] && !Separator(s[|s| - 1]) then s + [BACKSLASH] else s
  }

  /** `build_sandbox_path` */
  function BuildPath(config: Config, value: bytes): Option<Path> {
    var relative := CString(value);
    if |value| == 0 || |value| > 80 then None
    else if config.unrestricted then
      if SafeAbsolute(relative) then Some(Fold(relative)) else None
    else if |config.root| + 1 + |value| > TSR_PATH_MAX || !SafeRelative(relative) then None
    else Some(Fold(WithSeparator(config.root) + relative))
  }

  // The length of a name up to and with its last separator.
  function LastSeparator(s: bytes): (n: nat)
    ensures n <= |s|
  {
    if s == [] then 0 else if Separator(s[|s| - 1]) then |s| else LastSeparator(s[..|s| - 1])
  }

  // Where a temporary file for this destination goes.
  function TempPrefix(config: Config, path: Path): Option<bytes> {
    var prefix := if config.unrestricted then path[..LastSeparator(path)] else Fold(WithSeparator(config.root));
    if (config.unrestricted && prefix == []) || |prefix| + 12 > TSR_PATH_MAX + 1 then None else Some(prefix)
  }

  function HexDigit(n: nat): byte {
    Low(if n < 10 then 48 + n else 55 + n)
  }

  // `DM%04X%X.TMP`
  function TempName(prefix: bytes, id: Word, attempt: nat): Path {
    prefix + Ascii("DM") + [HexDigit(id / 4096), HexDigit(id / 256 % 16), HexDigit(id / 16 % 16), HexDigit(id % 16)]
    + [HexDigit(attempt)] + Ascii(".TMP")
  }
}
