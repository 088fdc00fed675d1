/** Texts as the agent and the panel read them: trimming, cutting, splitting. */
module Text {
  import opened Common

  /** What trimming takes away, of the characters these texts can hold. */
  predicate IsBlank(c: char) {
    c == ' ' || c == '\t' || c == '\n' || c == '\r' || c == '\U{0B}' || c == '\U{0C}'
  }

  predicate IsDigit(c: char) { '0' <= c <= '9' }

  function TrimLeft(s: string): string {
    if s != "" && IsBlank(s[0]) then TrimLeft(s[1..]) else s
  }

  function TrimRight(s: string): string {
    if s != "" && IsBlank(s[|s| - 1]) then TrimRight(s[..|s| - 1]) else s
  }

  function Trim(s: string): string {
    TrimRight(TrimLeft(s))
  }

  /** The text before the first `c`, and what follows it. */
  function Cut(s: string, c: char): (string, Option<string>) {
    if s == "" then ("", None)
    else if s[0] == c then ("", Some(s[1..]))
    else var (head, tail) := Cut(s[1..], c); ([s[0]] + head, tail)
  }

  lemma {:induction false} CutShorter(s: string, c: char)
    ensures Cut(s, c).1.Some? ==> |Cut(s, c).1.value| < |s|
  {
    if s != "" && s[0] != c {
      CutShorter(s[1..], c);
    }
  }

  function Split(s: string, c: char): seq<string>
    decreases |s|
  {
    CutShorter(s, c);
    var (head, tail) := Cut(s, c);
    if tail.None? then [head] else [head] + Split(tail.value, c)
  }

  function Join(parts: seq<string>, c: char): string {
    if parts == [] then ""
    else if |parts| == 1 then parts[0]
    else parts[0] + [c] + Join(parts[1..], c)
  }

  predicate Lacks(s: string, c: char) {
    forall i :: 0 <= i < |s| ==> s[i] != c
  }

  lemma {:induction false} CutLacks(s: string, c: char)
    requires Lacks(s, c)
    ensures Cut(s, c) == (s, None)
  {
    if s != "" {
      CutLacks(s[1..], c);
      assert s == [s[0]] + s[1..];
    }
  }

  lemma {:induction false} CutAt(a: string, c: char, b: string)
    requires Lacks(a, c)
    ensures Cut(a + [c] + b, c) == (a, Some(b))
  {
    if a == "" {
      assert a + [c] + b == [c] + b;
    } else {
      assert (a + [c] + b)[1..] == a[1..] + [c] + b;
      CutAt(a[1..], c, b);
      assert a == [a[0]] + a[1..];
    }
  }

  lemma {:induction false} CutParts(s: string, c: char)
    ensures Lacks(Cut(s, c).0, c)
    ensures s == Cut(s, c).0 + if Cut(s, c).1.Some? then [c] + Cut(s, c).1.value else ""
  {
    if s != "" && s[0] != c {
      CutParts(s[1..], c);
    }
  }

  lemma {:induction false} SplitJoin(parts: seq<string>, c: char)
    requires parts != [] && forall i :: 0 <= i < |parts| ==> Lacks(parts[i], c)
    ensures Split(Join(parts, c), c) == parts
  {
    if |parts| == 1 {
      CutLacks(parts[0], c);
    } else {
      CutAt(parts[0], c, Join(parts[1..], c));
      SplitJoin(parts[1..], c);
    }
  }

  lemma SplitNotEmpty(s: string, c: char)
    ensures Split(s, c) != []
  {
  }

  lemma TrimNothing(s: string)
    requires s != "" && !IsBlank(s[0]) && !IsBlank(s[|s| - 1])
    ensures Trim(s) == s
  {
  }

  /** A text put together from its parts again. */
  lemma {:induction false} JoinSplit(s: string, c: char)
    ensures Join(Split(s, c), c) == s
    decreases |s|
  {
    CutShorter(s, c);
    CutParts(s, c);
    var (head, tail) := Cut(s, c);
    if tail.Some? {
      SplitNotEmpty(tail.value, c);
      JoinSplit(tail.value, c);
      assert Split(s, c) == [head] + Split(tail.value, c);
      assert Split(s, c)[1..] == Split(tail.value, c);
      assert s == head + ([c] + tail.value);
    }
  }
}
