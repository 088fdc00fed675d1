/** The order of versions and the verdict on a reported one (core-versions.ts:427-439, 524-550). */
module CoreVersions {
  import opened Common
  import opened VersionText

  /** How a run of digits is read as a number; the lemmas hold for every reading, rounding ones included. */
  type Reading = string -> nat

  datatype Order = Less | Equal | Greater | CannotSay

  function Seg(v: Version, i: nat, num: Reading): nat {
    if i < |v.nums| then num(v.nums[i]) else 0
  }

  ghost predicate TieTo(a: Version, b: Version, num: Reading, n: nat) {
    forall j: nat :: j < n ==> Seg(a, j, num) == Seg(b, j, num)
  }

  ghost predicate BelowAt(a: Version, b: Version, num: Reading, i: nat) {
    Seg(a, i, num) < Seg(b, i, num) && TieTo(a, b, num, i)
  }

  ghost predicate Below(a: Version, b: Version, num: Reading) {
    exists i: nat :: BelowAt(a, b, num, i)
  }

  ghost predicate Tie(a: Version, b: Version, num: Reading) {
    forall j: nat :: Seg(a, j, num) == Seg(b, j, num)
  }

  /** The order, said without the loop: what the two texts are, then their numbers, then their suffixes. */
  ghost predicate Ordered(a: string, b: string, num: Reading, r: Order) {
    if Parse(a).None? || Parse(b).None? then r == CannotSay
    else
      var va, vb := Parse(a).value, Parse(b).value;
      match r
      case Less => Below(va, vb, num)
      case Greater => Below(vb, va, num)
      case Equal => Tie(va, vb, num) && va.suffix == vb.suffix
      case CannotSay => Tie(va, vb, num) && va.suffix != vb.suffix
  }

  /** compareCoreVersions. */
  method Compare(a: string, b: string, num: Reading) returns (r: Order)
    ensures Ordered(a, b, num, r)
  {
    var ma, mb := Parse(a), Parse(b);
    if ma.None? || mb.None? {
      return CannotSay;
    }
    var va, vb := ma.value, mb.value;
    var n := if |va.nums| > |vb.nums| then |va.nums| else |vb.nums|;
    for i := 0 to n
      invariant TieTo(va, vb, num, i)
    {
      var x, y := Seg(va, i, num), Seg(vb, i, num);
      if x != y {
        if x < y {
          assert BelowAt(va, vb, num, i);
          return Less;
        }
        assert BelowAt(vb, va, num, i);
        return Greater;
      }
    }
    assert Tie(va, vb, num);
    r := if va.suffix == vb.suffix then Equal else CannotSay;
  }

  lemma BelowExcludes(a: Version, b: Version, num: Reading)
    ensures Below(a, b, num) ==> !Below(b, a, num) && !Tie(a, b, num) && !Tie(b, a, num)
  {
    forall i: nat, j: nat | BelowAt(a, b, num, i)
      ensures !BelowAt(b, a, num, j)
    {
    }
  }

  /** The answer is settled by the two texts: no two answers fit. */
  lemma OneAnswer(a: string, b: string, num: Reading, r: Order, q: Order)
    requires Ordered(a, b, num, r) && Ordered(a, b, num, q)
    ensures r == q
  {
    if Parse(a).Some? && Parse(b).Some? {
      BelowExcludes(Parse(a).value, Parse(b).value, num);
      BelowExcludes(Parse(b).value, Parse(a).value, num);
    }
  }

  function Opposite(r: Order): Order {
    match r
    case Less => Greater
    case Greater => Less
    case Equal => Equal
    case CannotSay => CannotSay
  }

  lemma Antisymmetric(a: string, b: string, num: Reading, r: Order)
    ensures Ordered(a, b, num, r) <==> Ordered(b, a, num, Opposite(r))
  {
  }

  lemma BelowTransitive(a: Version, b: Version, c: Version, num: Reading)
    requires Below(a, b, num) || Tie(a, b, num)
    requires Below(b, c, num) || Tie(b, c, num)
    ensures if Tie(a, b, num) && Tie(b, c, num) then Tie(a, c, num) else Below(a, c, num)
  {
    if Tie(a, b, num) {
      if !Tie(b, c, num) {
        var j: nat :| BelowAt(b, c, num, j);
        assert BelowAt(a, c, num, j);
      }
    } else {
      var i: nat :| BelowAt(a, b, num, i);
      if Tie(b, c, num) {
        assert BelowAt(a, c, num, i);
      } else {
        var j: nat :| BelowAt(b, c, num, j);
        assert BelowAt(a, c, num, if i < j then i else j);
      }
    }
  }

  /** "At most" is transitive, and strict as soon as one step is. */
  lemma Transitive(a: string, b: string, c: string, num: Reading, r: Order, q: Order)
    requires Ordered(a, b, num, r) && (r == Less || r == Equal)
    requires Ordered(b, c, num, q) && (q == Less || q == Equal)
    ensures Ordered(a, c, num, if r == Equal && q == Equal then Equal else Less)
  {
    if Parse(a).Some? && Parse(b).Some? && Parse(c).Some? {
      BelowTransitive(Parse(a).value, Parse(b).value, Parse(c).value, num);
      if r == Less {
        BelowExcludes(Parse(a).value, Parse(b).value, num);
      }
      if q == Less {
        BelowExcludes(Parse(b).value, Parse(c).value, num);
      }
    }
  }

  /** A missing segment is a zero: "1.0" and "1.0.0" tie, and so do any two that differ in trailing zeros only. */
  lemma MissingIsZero(v: Version, zeros: seq<string>, num: Reading)
    requires forall i :: 0 <= i < |zeros| ==> num(zeros[i]) == 0
    ensures Tie(v, Version(v.nums + zeros, v.suffix), num)
  {
  }

  lemma TieOrBelow(a: Version, b: Version, num: Reading)
    ensures Tie(a, b, num) || Below(a, b, num) || Below(b, a, num)
  {
    var n := if |a.nums| > |b.nums| then |a.nums| else |b.nums|;
    var i := 0;
    while i < n && Seg(a, i, num) == Seg(b, i, num)
      invariant i <= n && TieTo(a, b, num, i)
    {
      i := i + 1;
    }
    if i < n {
      assert BelowAt(a, b, num, i) || BelowAt(b, a, num, i);
    } else {
      assert Tie(a, b, num);
    }
  }

  /** On two versions the answer is withheld exactly when the numbers tie and the suffixes differ. */
  lemma WithheldIff(a: string, b: string, num: Reading)
    requires Parse(a).Some? && Parse(b).Some?
    ensures Ordered(a, b, num, CannotSay) <==>
            !Below(Parse(a).value, Parse(b).value, num) && !Below(Parse(b).value, Parse(a).value, num) &&
            Parse(a).value.suffix != Parse(b).value.suffix
  {
    var va, vb := Parse(a).value, Parse(b).value;
    if Tie(va, vb, num) {
    } else {
      TieOrBelow(va, vb, num);
    }
    if Below(va, vb, num) { BelowExcludes(va, vb, num); }
    if Below(vb, va, num) { BelowExcludes(vb, va, num); }
  }

  /** Comparing normalised texts is comparing the texts. */
  lemma NormalizeKeepsOrder(a: string, b: string, num: Reading, r: Order)
    requires Normalize(a).Some? && Normalize(b).Some?
    ensures Ordered(a, b, num, r) <==> Ordered(Normalize(a).value, Normalize(b).value, num, r)
    ensures Ordered(a, b, num, r) <==> Ordered(Normalize(a).value, b, num, r)
  {
    NormalizeKeepsVersion(a);
    NormalizeKeepsVersion(b);
  }

  // ------------------------------------------------------------------- the verdict

  datatype KnownBad = KnownBad(from: Option<string>, before: Option<string>)

  datatype Marks = Marks(knownBad: seq<KnownBad>, ceiling: Option<string>, pinned: Option<string>)

  datatype Verdict =
    | Unknown
    | IsKnownBad(index: nat)
    | AboveCeiling(max: string)
    | Unpinned
    | Intended(isPin: bool)
    | Drift(meant: string)

  /** The order certainly puts the version in the range. */
  ghost predicate Inside(v: string, bad: KnownBad, num: Reading) {
    && (bad.from.Some? ==> Ordered(v, bad.from.value, num, Equal) || Ordered(v, bad.from.value, num, Greater))
    && (bad.before.Some? ==> Ordered(v, bad.before.value, num, Less))
  }

  function Meant(m: Marks, intent: Option<string>): Option<string> {
    if intent.Some? then intent else m.pinned
  }

  /** The verdicts in the order they are asked for, each only when no earlier one holds. */
  ghost predicate Judged(m: Marks, reported: Option<string>, intent: Option<string>, num: Reading, r: Verdict) {
    if reported.None? || Normalize(reported.value).None? then r == Unknown
    else
      var v := Normalize(reported.value).value;
      if exists k :: 0 <= k < |m.knownBad| && Inside(v, m.knownBad[k], num) then
        r.IsKnownBad? && r.index < |m.knownBad| && Inside(v, m.knownBad[r.index], num) &&
        forall k :: 0 <= k < r.index ==> !Inside(v, m.knownBad[k], num)
      else if m.ceiling.Some? && Ordered(v, m.ceiling.value, num, Greater) then
        r == AboveCeiling(m.ceiling.value)
      else if Meant(m, intent).None? then r == Unpinned
      else if Ordered(v, Meant(m, intent).value, num, Equal) then
        r == Intended(m.pinned == Meant(m, intent))
      else r == Drift(Meant(m, intent).value)
  }

  method CompareOnce(a: string, b: string, num: Reading) returns (r: Order)
    ensures forall q :: Ordered(a, b, num, q) <==> q == r
  {
    r := Compare(a, b, num);
    forall q | Ordered(a, b, num, q)
      ensures q == r
    {
      OneAnswer(a, b, num, r, q);
    }
  }

  method IsInside(v: string, bad: KnownBad, num: Reading) returns (inside: bool)
    ensures inside <==> Inside(v, bad, num)
  {
    var fromOk, beforeOk := true, true;
    if bad.from.Some? {
      var c := CompareOnce(v, bad.from.value, num);
      fromOk := c == Equal || c == Greater;
    }
    if bad.before.Some? {
      var c := CompareOnce(v, bad.before.value, num);
      beforeOk := c == Less;
    }
    inside := fromOk && beforeOk;
  }

  /** judgeCoreVersion. */
  method Judge(m: Marks, reported: Option<string>, intent: Option<string>, num: Reading) returns (r: Verdict)
    ensures Judged(m, reported, intent, num, r)
  {
    if reported.None? || Normalize(reported.value).None? {
      return Unknown;
    }
    var v := Normalize(reported.value).value;
    for k := 0 to |m.knownBad|
      invariant forall j :: 0 <= j < k ==> !Inside(v, m.knownBad[j], num)
    {
      var inside := IsInside(v, m.knownBad[k], num);
      if inside {
        return IsKnownBad(k);
      }
    }
    if m.ceiling.Some? {
      var c := CompareOnce(v, m.ceiling.value, num);
      if c == Greater {
        return AboveCeiling(m.ceiling.value);
      }
    }
    var meant := Meant(m, intent);
    if meant.None? {
      return Unpinned;
    }
    var c := CompareOnce(v, meant.value, num);
    r := if c == Equal then Intended(meant == m.pinned) else Drift(meant.value);
  }

  ghost predicate CertainlyBelow(a: string, b: string, num: Reading) {
    Parse(a).Some? && Parse(b).Some? && Below(Parse(a).value, Parse(b).value, num)
  }

  /** Below the open end; and at or above the closed one. */
  ghost predicate CertainlyIn(v: string, bad: KnownBad, num: Reading) {
    && (bad.before.Some? ==> CertainlyBelow(v, bad.before.value, num))
    && (bad.from.Some? ==> Parse(v).Some? && Parse(bad.from.value).Some? && !CertainlyBelow(v, bad.from.value, num))
  }

  lemma InsideIsCertain(text: string, bad: KnownBad, num: Reading)
    requires Normalize(text).Some? && Inside(Normalize(text).value, bad, num)
    ensures CertainlyIn(text, bad, num)
  {
    NormalizeKeepsVersion(text);
    if bad.from.Some? {
      BelowExcludes(Parse(text).value, Parse(bad.from.value).value, num);
    }
  }

  /**
    A version is called bad or too new only when its numbers say so: one that
    ties with the open end of a range, or with the ceiling, is called neither
    on that account, whatever its suffix.
  */
  lemma OnlyWhenCertain(m: Marks, text: string, intent: Option<string>, num: Reading, r: Verdict)
    requires Judged(m, Some(text), intent, num, r)
    ensures r.IsKnownBad? ==> r.index < |m.knownBad| && CertainlyIn(text, m.knownBad[r.index], num)
    ensures r.AboveCeiling? ==> m.ceiling == Some(r.max) && CertainlyBelow(r.max, text, num)
  {
    NormalizeKeepsVersion(text);
    if r.IsKnownBad? {
      InsideIsCertain(text, m.knownBad[r.index], num);
    }
  }

  /** What is meant is what was asked for, and the pin where nothing was. */
  lemma MeantIs(m: Marks, asked: string)
    ensures Meant(m, Some(asked)) == Some(asked) && Meant(m, None) == m.pinned
  {
  }
}
