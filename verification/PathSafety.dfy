/**
 Which names the agent accepts and where the files they name lie: told by positions in the name,
 and by what a walk along its parts reaches.
 */
module PathSafety {
  import opened Bytes
  import opened DosFiles
  import opened DosPaths
  import opened Wrappers

  // --- The parts of a name ---

  // A stretch between two separators, or between one and an end of the name.
  ghost predicate Part(s: bytes, i: nat, j: nat) {
    && i <= j <= |s|
    && (i == 0 || Separator(s[i - 1])) && (j == |s| || Separator(s[j]))
    && forall k :: i <= k < j ==> !Separator(s[k])
  }

  // Controls, and the punctuation with a meaning of its own: " * + , : ; < = > ? [ ] and the bar.
  predicate Forbidden(c: byte) {
    c < 0x20 || c == 0x22 || (0x2A <= c && c <= 0x2C) || (0x3A <= c && c <= 0x3F) || c == 0x5B || c == 0x5D || c == 0x7C
  }

  // One to twelve characters, none of them forbidden, and neither the directory nor its parent.
  ghost predicate Proper(s: bytes, i: nat, j: nat)
    requires i <= j <= |s|
  {
    && 1 <= j - i <= 12
    && !(j - i == 1 && s[i] == DOT) && !(j - i == 2 && s[i] == DOT && s[i + 1] == DOT)
    && forall k :: i <= k < j ==> !Forbidden(s[k])
  }

  ghost predicate ProperParts(s: bytes) {
    forall i: nat, j: nat :: Part(s, i, j) ==> Proper(s, i, j)
  }

  lemma PlainOrForbidden(c: byte)
    ensures Plain(c) <==> !Forbidden(c)
  {
    hide Ascii;
    Punctuation();
  }

  lemma LowIs(n: nat, b: byte)
    requires Value(b) == n
    ensures Low(n) == b
  {
    hide Low, Value;
    ByteInverse(b, 0);
  }

  lemma Punctuation()
    ensures Ascii("\":*+,;<=>?[|]")
      == [0x22, 0x3A, 0x2A, 0x2B, 0x2C, 0x3B, 0x3C, 0x3D, 0x3E, 0x3F, 0x5B, 0x7C, 0x5D]
  {
    hide Low;
    LowIs(0x22, 0x22);
    LowIs(0x3A, 0x3A);
    LowIs(0x2A, 0x2A);
    LowIs(0x2B, 0x2B);
    LowIs(0x2C, 0x2C);
    LowIs(0x3B, 0x3B);
    LowIs(0x3C, 0x3C);
    LowIs(0x3D, 0x3D);
    LowIs(0x3E, 0x3E);
    LowIs(0x3F, 0x3F);
    LowIs(0x5B, 0x5B);
    LowIs(0x7C, 0x7C);
    LowIs(0x5D, 0x5D);
  }

  ghost predicate NoSeparator(s: bytes) {
    forall k :: 0 <= k < |s| ==> !Separator(s[k])
  }

  lemma GoodIsProper(s: bytes)
    ensures GoodComponent(s) <==> Proper(s, 0, |s|)
  {
    hide Plain, Forbidden;
    forall k | 0 <= k < |s|
      ensures Plain(s[k]) <==> !Forbidden(s[k])
    {
      PlainOrForbidden(s[k]);
    }
    assert forall c :: c in s <==> exists k :: 0 <= k < |s| && s[k] == c;
  }

  lemma WholeIsPart(s: bytes)
    requires NoSeparator(s)
    ensures ProperParts(s) <==> Proper(s, 0, |s|)
  {
    hide Forbidden, Separator;
    assert Part(s, 0, |s|);
    forall i: nat, j: nat | Part(s, i, j)
      ensures i == 0 && j == |s|
    {
    }
  }

  // A separator ends the part before it, and what follows has parts of its own.
  lemma PartsAfter(a: bytes, c: byte, b: bytes)
    requires NoSeparator(a) && Separator(c)
    ensures ProperParts(a + [c] + b) <==> Proper(a, 0, |a|) && ProperParts(b)
  {
    hide Forbidden, Separator;
    var s, n := a + [c] + b, |a| + 1;
    assert Part(s, 0, |a|);
    ProperFront(a, [c] + b);
    assert a + ([c] + b) == s;
    forall i: nat, j: nat | Part(b, i, j)
      ensures Part(s, i + n, j + n) && (Proper(s, i + n, j + n) <==> Proper(b, i, j))
    {
      ShiftedPart(a + [c], b, i, j);
      ShiftedProper(a + [c], b, i, j);
    }
    forall i: nat, j: nat | Part(s, i, j)
      ensures (i == 0 && j == |a|) || (i >= n && Part(b, i - n, j - n))
    {
      if i >= n {
        PartBack(a + [c], b, i, j);
      }
    }
  }

  lemma ProperFront(a: bytes, b: bytes)
    ensures Proper(a + b, 0, |a|) <==> Proper(a, 0, |a|)
  {
    hide Forbidden;
    assert forall k :: 0 <= k < |a| ==> (a + b)[k] == a[k];
  }

  lemma ShiftedPart(a: bytes, b: bytes, i: nat, j: nat)
    requires a != [] && Separator(a[|a| - 1]) && Part(b, i, j)
    ensures Part(a + b, i + |a|, j + |a|)
  {
    hide Separator;
  }

  lemma ShiftedProper(a: bytes, b: bytes, i: nat, j: nat)
    requires i <= j <= |b|
    ensures Proper(a + b, i + |a|, j + |a|) <==> Proper(b, i, j)
  {
    hide Forbidden;
    var s, n := a + b, |a|;
    assert forall k :: i <= k < j ==> s[k + n] == b[k];
    assert (forall k :: i + n <= k < j + n ==> !Forbidden(s[k])) <==> (forall k :: i <= k < j ==> !Forbidden(b[k])) by {
      if forall k :: i + n <= k < j + n ==> !Forbidden(s[k]) {
        forall k | i <= k < j
          ensures !Forbidden(b[k])
        {
          assert !Forbidden(s[k + n]);
        }
      }
    }
  }

  lemma PartBack(a: bytes, b: bytes, i: nat, j: nat)
    requires a != [] && |a| <= i && Part(a + b, i, j)
    ensures Part(b, i - |a|, j - |a|)
  {
    hide Separator;
    var s, n := a + b, |a|;
    assert forall k :: 0 <= k < |b| ==> s[k + n] == b[k];
    forall k | i - n <= k < j - n
      ensures !Separator(b[k])
    {
      assert !Separator(s[k + n]);
    }
  }

  lemma {:induction false} ComponentsAreParts(part: bytes, rest: bytes)
    requires NoSeparator(part)
    ensures GoodComponents(part, rest) <==> ProperParts(part + rest)
    decreases rest
  {
    hide ProperParts, Proper, GoodComponent, Separator;
    if rest == [] {
      assert part + rest == part;
      GoodIsProper(part);
      WholeIsPart(part);
    } else if Separator(rest[0]) {
      assert part + rest == part + [rest[0]] + rest[1..];
      GoodIsProper(part);
      PartsAfter(part, rest[0], rest[1..]);
      ComponentsAreParts([], rest[1..]);
      assert [] + rest[1..] == rest[1..];
    } else {
      ComponentsAreParts(part + [rest[0]], rest[1..]);
      assert part + [rest[0]] + rest[1..] == part + rest;
    }
  }

  // Every character that is no separator is in a part.
  lemma PartAround(s: bytes, k: nat) returns (i: nat, j: nat)
    requires k < |s| && !Separator(s[k])
    ensures i <= k < j && Part(s, i, j)
  {
    hide Separator;
    i, j := k, k + 1;
    while i > 0 && !Separator(s[i - 1])
      invariant i <= k && forall m :: i <= m <= k ==> !Separator(s[m])
    {
      i := i - 1;
    }
    while j < |s| && !Separator(s[j])
      invariant k < j <= |s| && forall m :: i <= m < j ==> !Separator(s[m])
    {
      j := j + 1;
    }
  }

  // A name below some directory, by its parts.
  ghost predicate Inner(s: bytes) {
    s != [] && ProperParts(s)
  }

  lemma InnerIsRelative(s: bytes)
    ensures SafeRelative(s) <==> Inner(s)
  {
    hide GoodComponents;
    ComponentsAreParts([], s);
    assert [] + s == s;
    if Inner(s) {
      assert Separator(s[0]) ==> Part(s, 0, 0);
      forall k | 0 <= k < |s|
        ensures s[k] != COLON
      {
        if !Separator(s[k]) {
          var i, j := PartAround(s, k);
          assert Proper(s, i, j);
        }
      }
    }
  }

  // --- What is accepted ---

  // The name a request holds: its bytes up to the first zero.
  ghost predicate NameOf(value: bytes, n: nat) {
    n <= |value| && (forall k :: 0 <= k < n ==> value[k] != 0) && (n < |value| ==> value[n] == 0)
  }

  lemma {:induction false} CStringIsName(value: bytes)
    ensures NameOf(value, |CString(value)|) && CString(value) == value[..|CString(value)|]
  {
    if value != [] && value[0] != 0 {
      CStringIsName(value[1..]);
      var n := |CString(value[1..])|;
      assert forall k :: 1 <= k < n + 1 ==> value[k] == value[1..][k - 1];
      assert value[..n + 1] == [value[0]] + value[1..][..n];
    }
  }

  lemma NameIsUnique(value: bytes, n: nat)
    requires NameOf(value, n)
    ensures n == |CString(value)|
  {
    CStringIsName(value);
  }

  // Drive, colon, separator, and a name below.
  ghost predicate Absolute(s: bytes) {
    && |s| >= 4
    && ((0x41 <= s[0] && s[0] <= 0x5A) || (0x61 <= s[0] && s[0] <= 0x7A)) && s[1] == 0x3A && Separator(s[2])
    && Inner(s[3..])
  }

  /**
   Exactly which names are accepted: of 1 to 80 bytes as sent, up to the first zero; inside one
   directory, all of whose parts are proper and that fit behind it; or on any drive, absolute, with
   proper parts.
   */
  lemma AcceptedExactly(config: Config, value: bytes, n: nat)
    requires NameOf(value, n)
    ensures BuildPath(config, value).Some? <==>
      && 1 <= |value| <= 80
      && if config.unrestricted then Absolute(value[..n])
         else |config.root| + 1 + |value| <= 127 && Inner(value[..n])
  {
    hide SafeRelative, Inner, Fold, CString;
    CStringIsName(value);
    NameIsUnique(value, n);
    InnerIsRelative(value[..n]);
    if n >= 4 {
      InnerIsRelative(value[..n][3..]);
    }
  }

  // --- Where an accepted name lies ---

  // As DOS compares names: upper case, and one kind of separator.
  ghost predicate SameName(c: byte, folded: byte) {
    && (0x61 <= c && c <= 0x7A ==> folded == c - 0x20)
    && (c == 0x2F ==> folded == 0x5C)
    && (!(0x61 <= c && c <= 0x7A) && c != 0x2F ==> folded == c)
  }

  ghost predicate SameNames(s: bytes, folded: bytes) {
    |folded| == |s| && forall k :: 0 <= k < |s| ==> SameName(s[k], folded[k])
  }

  lemma FoldIsSame(s: bytes)
    ensures SameNames(s, Fold(s))
  {
  }

  // A proper part stays one when its letters are raised.
  lemma FoldedParts(s: bytes)
    requires ProperParts(s)
    ensures ProperParts(Fold(s))
  {
    var f := Fold(s);
    forall k | 0 <= k < |s|
      ensures (Separator(f[k]) <==> Separator(s[k])) && (Forbidden(f[k]) <==> Forbidden(s[k])) && (f[k] == DOT <==> s[k] == DOT)
    {
      FoldedByte(s[k]);
    }
    hide Separator, Forbidden, Fold;
    forall i: nat, j: nat | Part(f, i, j)
      ensures Proper(f, i, j)
    {
      assert Part(s, i, j);
      assert Proper(s, i, j);
    }
  }

  lemma FoldedByte(c: byte)
    ensures var f := Folded(c);
      (Separator(f) <==> Separator(c)) && (Forbidden(f) <==> Forbidden(c)) && (f == DOT <==> c == DOT)
  {
  }

  // The directory of the installation as a prefix: ending in a separator, or empty.
  ghost predicate Prefixes(prefix: bytes, root: bytes) {
    && |root| <= |prefix| <= |root| + 1 && SameNames(root, prefix[..|root|])
    && (|prefix| == |root| ==> root == [] || Separator(root[|root| - 1]))
    && (|prefix| == |root| + 1 ==> prefix[|root|] == BACKSLASH && root != [] && !Separator(root[|root| - 1]))
  }

  /**
   A name accepted inside one directory names a file below it: the directory, one separator, and
   the name as it was sent, of proper parts.
   */
  lemma InsideLiesBelow(config: Config, value: bytes, n: nat) returns (prefix: bytes, below: bytes)
    requires NameOf(value, n) && !config.unrestricted && BuildPath(config, value).Some?
    ensures BuildPath(config, value).value == prefix + below && |prefix + below| <= 127
    ensures Prefixes(prefix, config.root) && SameNames(value[..n], below) && Inner(below)
  {
    hide Inner, Forbidden, SafeRelative, CString;
    AcceptedExactly(config, value, n);
    CStringIsName(value);
    NameIsUnique(value, n);
    var name := value[..n];
    prefix, below := Fold(WithSeparator(config.root)), Fold(name);
    assert Inner(below) by { InnerFolded(name); }
    FoldIsSame(name);
    RootPrefixes(config.root);
    assert Fold(WithSeparator(config.root) + name) == prefix + below;
  }

  lemma RootPrefixes(root: bytes)
    ensures Prefixes(Fold(WithSeparator(root)), root)
  {
    FoldIsSame(root);
    assert Fold(WithSeparator(root))[..|root|] == Fold(root);
  }

  lemma InnerFolded(s: bytes)
    requires Inner(s)
    ensures Inner(Fold(s))
  {
    FoldedParts(s);
  }

  /** A name accepted on any drive is that name. */
  lemma AbsoluteIsItself(config: Config, value: bytes, n: nat)
    requires NameOf(value, n) && config.unrestricted && BuildPath(config, value).Some?
    ensures SameNames(value[..n], BuildPath(config, value).value) && Absolute(value[..n])
  {
    hide Absolute, SafeAbsolute, CString;
    AcceptedExactly(config, value, n);
    CStringIsName(value);
    NameIsUnique(value, n);
    FoldIsSame(value[..n]);
  }

  // --- A walk along a name ---

  // The parts of a name, from the first.
  function Names(s: bytes, from: nat): (names: seq<bytes>)
    requires from <= |s|
    ensures names != []
    decreases |s| - from
  {
    var to := NextSeparator(s, from);
    [s[from..to]] + (if to < |s| then Names(s, to + 1) else [])
  }

  function NextSeparator(s: bytes, from: nat): (to: nat)
    requires from <= |s|
    ensures from <= to <= |s| && (to < |s| ==> Separator(s[to]))
    ensures forall k :: from <= k < to ==> !Separator(s[k])
    decreases |s| - from
  {
    if from == |s| || Separator(s[from]) then from else NextSeparator(s, from + 1)
  }

  // Where DOS gets from a directory along these names: a dot stays, two go up, any other goes down.
  function Walk(directory: seq<bytes>, names: seq<bytes>): seq<bytes>
    decreases |names|
  {
    if names == [] then directory
    else if names[0] == [] || names[0] == [DOT] then Walk(directory, names[1..])
    else if names[0] == [DOT, DOT] then
      Walk(if directory == [] then [] else directory[..|directory| - 1], names[1..])
    else Walk(directory + [names[0]], names[1..])
  }

  ghost predicate Downward(names: seq<bytes>) {
    forall name :: name in names ==> name != [] && name != [DOT] && name != [DOT, DOT]
  }

  lemma {:induction false} NamesGoDown(s: bytes, from: nat)
    requires ProperParts(s) && from <= |s| && (from == 0 || Separator(s[from - 1]))
    ensures Downward(Names(s, from))
    decreases |s| - from
  {
    hide Separator, Proper, ProperParts;
    var to := NextSeparator(s, from);
    assert Part(s, from, to);
    PartGoesDown(s, from, to);
    if to < |s| {
      NamesGoDown(s, to + 1);
    }
  }

  lemma PartGoesDown(s: bytes, i: nat, j: nat)
    requires ProperParts(s) && Part(s, i, j)
    ensures s[i..j] != [] && s[i..j] != [DOT] && s[i..j] != [DOT, DOT]
  {
    hide Separator, Forbidden;
    assert Proper(s, i, j);
    assert j - i == 1 ==> s[i..j][0] == s[i];
    assert j - i == 2 ==> s[i..j][0] == s[i] && s[i..j][1] == s[i + 1];
  }

  lemma {:induction false} WalkDown(directory: seq<bytes>, names: seq<bytes>)
    requires Downward(names)
    ensures Walk(directory, names) == directory + names
    decreases |names|
  {
    if names == [] {
      assert directory + names == directory;
    } else {
      assert names[0] in names && forall name :: name in names[1..] ==> name in names;
      WalkDown(directory + [names[0]], names[1..]);
      assert directory + [names[0]] + names[1..] == directory + names;
    }
  }

  /** From whatever directory, the walk along an accepted name only goes down, and by at least one step. */
  lemma NeverClimbs(directory: seq<bytes>, below: bytes)
    requires Inner(below)
    ensures Walk(directory, Names(below, 0)) == directory + Names(below, 0)
  {
    hide Separator, Forbidden, ProperParts, Walk, Names;
    NamesGoDown(below, 0);
    WalkDown(directory, Names(below, 0));
  }

  // --- Names of temporaries ---

  lemma HexDigitValue(n: nat)
    requires n < 16
    ensures Value(HexDigit(n)) == if n < 10 then 0x30 + n else 0x41 + (n - 10)
  {
    hide Low, Value;
    LowInverse(if n < 10 then 48 + n else 55 + n);
  }

  lemma HexDigitsDiffer(m: nat, n: nat)
    requires m < 16 && n < 16 && HexDigit(m) == HexDigit(n)
    ensures m == n
  {
    hide HexDigit, Value;
    HexDigitValue(m);
    HexDigitValue(n);
  }

  // The digits of a name, by their places.
  lemma TempDigits(prefix: bytes, id: Word, attempt: nat)
    requires attempt < 16
    ensures var (s, at) := (TempName(prefix, id, attempt), |prefix|);
      && |s| == at + 11 && s[..at] == prefix && s[at..at + 2] == Ascii("DM") && s[at + 7..] == Ascii(".TMP")
      && s[at + 2] == HexDigit(id / 4096) && s[at + 3] == HexDigit(id / 256 % 16)
      && s[at + 4] == HexDigit(id / 16 % 16) && s[at + 5] == HexDigit(id % 16) && s[at + 6] == HexDigit(attempt)
  {
    hide HexDigit, Ascii;
  }

  lemma FourDigits(id: Word) returns (a: nat, b: nat, c: nat, d: nat)
    ensures id / 4096 == a && id / 256 % 16 == b && id / 16 % 16 == c && id % 16 == d
    ensures a < 16 && b < 16 && c < 16 && d < 16 && id == 4096 * a + 256 * b + 16 * c + d
  {
    a, b, c, d := id / 4096, id / 256 % 16, id / 16 % 16, id % 16;
    assert id / 16 == 16 * (id / 16 / 16) + c && id / 16 / 16 == id / 256;
    assert id / 256 == 16 * (id / 256 / 16) + b && id / 256 / 16 == id / 4096;
  }

  /** The temporaries of different transfers, and of different attempts at one, have different names. */
  lemma TempNamesDiffer(prefix: bytes, id: Word, attempt: nat, id': Word, attempt': nat)
    requires attempt < 16 && attempt' < 16
    ensures TempName(prefix, id, attempt) == TempName(prefix, id', attempt') <==> id == id' && attempt == attempt'
  {
    hide HexDigit, TempName;
    if TempName(prefix, id, attempt) == TempName(prefix, id', attempt') {
      TempDigits(prefix, id, attempt);
      TempDigits(prefix, id', attempt');
      var a, b, c, d := FourDigits(id);
      var a', b', c', d' := FourDigits(id');
      HexDigitsDiffer(a, a');
      HexDigitsDiffer(b, b');
      HexDigitsDiffer(c, c');
      HexDigitsDiffer(d, d');
      HexDigitsDiffer(attempt, attempt');
    }
  }
}
