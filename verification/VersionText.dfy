/** Version texts of the cores: VERSION_SHAPE and normalizeCoreVersion (core-versions.ts:406-415). */
module VersionText {
  import opened Common
  import opened Text

  /** The parts VERSION_SHAPE captures: the numbers, as written, and the suffix ("" for none). */
  datatype Version = Version(nums: seq<string>, suffix: string)

  predicate IsSuffixChar(c: char) {
    IsDigit(c) || 'A' <= c <= 'Z' || 'a' <= c <= 'z' || c == '.'
  }

  predicate Digits(s: string) {
    s != "" && forall i :: 0 <= i < |s| ==> IsDigit(s[i])
  }

  predicate AllDigits(parts: seq<string>) {
    forall i :: 0 <= i < |parts| ==> Digits(parts[i])
  }

  predicate SuffixText(s: string) {
    s != "" && forall i :: 0 <= i < |s| ==> IsSuffixChar(s[i])
  }

  function Match(s: string): Option<Version> {
    var body := if s != "" && s[0] == 'v' then s[1..] else s;
    var (main, rest) := Cut(body, '-');
    var nums := Split(main, '.');
    if AllDigits(nums) && (rest.Some? ==> SuffixText(rest.value))
    then Some(Version(nums, if rest.Some? then rest.value else ""))
    else None
  }

  /** A reported text read as a version, or not one. */
  function Parse(s: string): Option<Version> {
    Match(Trim(s))
  }

  predicate WellFormed(v: Version) {
    v.nums != [] && AllDigits(v.nums) && (v.suffix == "" || SuffixText(v.suffix))
  }

  function Print(v: Version): string {
    Join(v.nums, '.') + if v.suffix == "" then "" else "-" + v.suffix
  }

  /** normalizeCoreVersion. */
  function Normalize(s: string): Option<string> {
    var v := Parse(s);
    if v.Some? then Some(Print(v.value)) else None
  }

  // ------------------------------------------------------------------- round trip

  lemma {:induction false} JoinChars(parts: seq<string>, i: nat)
    requires AllDigits(parts) && i < |Join(parts, '.')|
    ensures IsDigit(Join(parts, '.')[i]) || Join(parts, '.')[i] == '.'
  {
    if |parts| > 1 {
      var head := |parts[0]|;
      if i > head {
        JoinChars(parts[1..], i - head - 1);
      }
    }
  }

  lemma JoinStart(parts: seq<string>)
    requires parts != [] && AllDigits(parts)
    ensures Join(parts, '.') != "" && IsDigit(Join(parts, '.')[0]) && Lacks(Join(parts, '.'), '-')
  {
    assert Digits(parts[0]);
    forall i | 0 <= i < |Join(parts, '.')|
      ensures Join(parts, '.')[i] != '-'
    {
      JoinChars(parts, i);
    }
  }

  lemma ParsedIsWellFormed(s: string)
    ensures Parse(s).Some? ==> WellFormed(Parse(s).value)
  {
    var t := Trim(s);
    var body := if t != "" && t[0] == 'v' then t[1..] else t;
    var nums := Split(Cut(body, '-').0, '.');
    SplitNotEmpty(Cut(body, '-').0, '.');
    if Parse(s).Some? {
      assert Match(t).value.nums == nums;
    }
  }

  lemma PrintEdges(v: Version)
    requires WellFormed(v)
    ensures Print(v) != "" && IsDigit(Print(v)[0]) && !IsBlank(Print(v)[|Print(v)| - 1])
  {
    JoinStart(v.nums);
    var main := Join(v.nums, '.');
    if v.suffix == "" {
      assert Print(v) == main;
      JoinChars(v.nums, |main| - 1);
    } else {
      assert Print(v)[|Print(v)| - 1] == v.suffix[|v.suffix| - 1];
    }
  }

  /** A printed version reads back as itself. */
  lemma ParsePrint(v: Version)
    requires WellFormed(v)
    ensures Parse(Print(v)) == Some(v)
  {
    PrintEdges(v);
    TrimNothing(Print(v));
    var main := Join(v.nums, '.');
    JoinStart(v.nums);
    forall i | 0 <= i < |v.nums|
      ensures Lacks(v.nums[i], '.')
    {
      assert Digits(v.nums[i]);
    }
    SplitJoin(v.nums, '.');
    if v.suffix == "" {
      assert Print(v) == main;
      CutLacks(main, '-');
    } else {
      assert Print(v) == main + ['-'] + v.suffix;
      CutAt(main, '-', v.suffix);
    }
  }

  /** Normalising changes how a version is written and never what it is. */
  lemma NormalizeKeepsVersion(s: string)
    ensures Parse(s).Some? ==> Normalize(s).Some? && Parse(Normalize(s).value) == Parse(s)
    ensures Normalize(s).Some? ==> Normalize(Normalize(s).value) == Normalize(s)
    ensures Normalize(s).None? <==> Parse(s).None?
  {
    ParsedIsWellFormed(s);
    if Parse(s).Some? {
      ParsePrint(Parse(s).value);
    }
  }

  /** The characters of a suffix, which has at least one. */
  lemma SuffixIff(s: string)
    ensures SuffixText(s) <==>
              && |s| > 0
              && forall i :: 0 <= i < |s| ==>
                    s[i] in "0123456789." || 'a' <= s[i] <= 'z' || 'A' <= s[i] <= 'Z'
  {
  }
}
