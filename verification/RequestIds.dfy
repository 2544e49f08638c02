/**
 Request identifiers: sixteen bits, advanced by the bridge past zero, and compared
 by the targets over half the range.
 */
module RequestIds {
  import opened Bytes

  /** The identifier the bridge gives to its next request. */
  function NextId(id: Word): Word {
    var n := (id + 1) % 0x1_0000;
    if n == 0 then 1 else n
  }

  /** `request_is_newer`: ahead of the previous identifier by less than half the range. */
  predicate RequestIsNewer(candidate: Word, previous: Word) {
    var distance := (candidate - previous) % 0x1_0000;
    0 < distance < 0x8000
  }

  // The identifier of the n-th request after `base`.
  function WireId(base: Word, n: nat): Word {
    if n == 0 then base else NextId(WireId(base, n - 1))
  }

  lemma ResidueUnique(x: int, q: int, r: int)
    requires 0 <= r < 65535 && x == q * 65535 + r
    ensures x % 65535 == r
  {
    assert (x / 65535 - q) * 65535 == r - x % 65535;
  }

  lemma ResidueStep(x: int, d: nat)
    requires 0 <= d < 65535
    ensures (x + d) % 65535 == if x % 65535 + d < 65535 then x % 65535 + d else x % 65535 + d - 65535
  {
    var q := x / 65535;
    if x % 65535 + d < 65535 {
      ResidueUnique(x + d, q, x % 65535 + d);
    } else {
      ResidueUnique(x + d, q + 1, x % 65535 + d - 65535);
    }
  }

  lemma NextIdClosedForm(id: Word)
    requires id != 0
    ensures NextId(id) == if id == 65535 then 1 else id + 1
  {
  }

  lemma {:induction false} WireIdClosedForm(base: Word, n: nat)
    requires base != 0
    ensures WireId(base, n) == (base - 1 + n) % 65535 + 1
  {
    if n > 0 {
      WireIdClosedForm(base, n - 1);
      ResidueStep(base - 1 + (n - 1), 1);
      NextIdClosedForm(WireId(base, n - 1));
    }
  }

  /** Identifiers repeat exactly every 65535 requests. */
  lemma SameIdExactly(base: Word, m: nat, n: nat)
    requires base != 0
    ensures WireId(base, m) == WireId(base, n) <==> (n - m) % 65535 == 0
  {
    WireIdClosedForm(base, m);
    WireIdClosedForm(base, n);
    var d := (n - m) % 65535;
    var q := (n - m) / 65535;
    var x := base - 1 + m;
    ResidueStep(x, d);
    ResidueUnique(base - 1 + n, (x + d) / 65535 + q, (x + d) % 65535);
  }

  lemma NearIdsDiffer(base: Word, m: nat, n: nat)
    requires base != 0 && m < n < m + 65535
    ensures WireId(base, m) != WireId(base, n)
  {
    SameIdExactly(base, m, n);
  }

  /**
   Exactly when a later request looks newer: the skipped zero makes the distance one longer
   when the identifiers wrap in between.
   */
  lemma NewerExactly(base: Word, m: nat, n: nat)
    requires base != 0 && m < n < m + 65535
    ensures RequestIsNewer(WireId(base, n), WireId(base, m))
      <==> n - m + (if WireId(base, n) < WireId(base, m) then 1 else 0) < 0x8000
  {
    WireIdClosedForm(base, m);
    WireIdClosedForm(base, n);
    ResidueStep(base - 1 + m, n - m);
    Distance(WireId(base, n), WireId(base, m));
  }

  lemma Distance(a: Word, b: Word)
    ensures (a - b) % 0x1_0000 == if a < b then a - b + 0x1_0000 else a - b
  {
  }

  /** Every later request within 0x7FFE looks newer, and 0x7FFE is the largest such distance. */
  lemma NewerWithinHalfRange(base: Word, m: nat, n: nat)
    requires base != 0 && m < n <= m + 0x7FFE
    ensures RequestIsNewer(WireId(base, n), WireId(base, m))
  {
    NewerExactly(base, m, n);
  }

  // One further, a request is refused exactly when the identifiers wrap in between.
  lemma HalfRangeIsTight(base: Word, m: nat, n: nat)
    requires base != 0 && n == m + 0x7FFF
    ensures RequestIsNewer(WireId(base, n), WireId(base, m)) <==> WireId(base, m) < WireId(base, n)
  {
    NewerExactly(base, m, n);
    NearIdsDiffer(base, m, n);
  }
}
