/** Numbers as the agent prints and reads them, in decimal and in hexadecimal. */
module Numbers {
  import opened Common
  import opened Text

  datatype Base = Ten | Sixteen

  function DigitOf(c: char): Option<nat> {
    if '0' <= c <= '9' then Some((c - '0') as nat)
    else if 'a' <= c <= 'f' then Some((c - 'a') as nat + 10)
    else None
  }

  predicate IsHexDigit(c: char) { IsDigit(c) || 'a' <= c <= 'f' }

  function DigitChar(d: nat): (c: char)
    requires d < 16
    ensures DigitOf(c) == Some(d) && IsHexDigit(c)
    ensures d < 10 ==> IsDigit(c)
  {
    if d < 10 then '0' + d as char else 'a' + (d - 10) as char
  }

  function Size(b: Base): nat {
    if b.Ten? then 10 else 16
  }

  /** All but the last digit, and the last. */
  function Halves(n: nat, b: Base): (r: (nat, nat))
    ensures n == r.0 * Size(b) + r.1 && r.1 < Size(b)
    ensures n >= Size(b) ==> r.0 < n
  {
    if b.Ten? then (n / 10, n % 10) else (n / 16, n % 16)
  }

  predicate DigitsOf(s: string, b: Base) {
    forall i :: 0 <= i < |s| ==> if b.Ten? then IsDigit(s[i]) else IsHexDigit(s[i])
  }

  /** The digits of a number, without a leading zero. */
  function Print(n: nat, b: Base): (s: string)
    ensures s != "" && DigitsOf(s, b)
    decreases n
  {
    if n < Size(b) then [DigitChar(n)] else Print(Halves(n, b).0, b) + [DigitChar(Halves(n, b).1)]
  }

  /** Digits read as a number. */
  function Read(s: string, b: Base): Option<nat> {
    if s == "" then Some(0)
    else
      var before, d := Read(s[..|s| - 1], b), DigitOf(s[|s| - 1]);
      if before.None? || d.None? || d.value >= Size(b) then None
      else Some(before.value * Size(b) + d.value)
  }

  /** A printed number reads back as itself. */
  lemma {:induction false} ReadPrint(n: nat, b: Base)
    ensures Read(Print(n, b), b) == Some(n)
    decreases n
  {
    if n >= Size(b) {
      var front := Halves(n, b).0;
      ReadPrint(front, b);
      var s := Print(n, b);
      assert s[..|s| - 1] == Print(front, b);
    } else {
      assert Print(n, b)[..0] == "";
    }
  }

  /** A signed number in decimal, as %d prints it. */
  function PrintInt(n: int): (s: string)
    ensures s != "" && forall i :: 0 <= i < |s| ==> IsDigit(s[i]) || s[i] == '-'
  {
    if n < 0 then "-" + Print(-n, Ten) else Print(n, Ten)
  }

  lemma SignShows(n: int)
    ensures PrintInt(n)[0] == '-' <==> n < 0
  {
    if n >= 0 {
      assert DigitsOf(Print(n, Ten), Ten);
    }
  }

  lemma PrintIntInjective(m: int, n: int)
    requires PrintInt(m) == PrintInt(n)
    ensures m == n
  {
    SignShows(m);
    SignShows(n);
    if m < 0 {
      assert PrintInt(m)[1..] == Print(-m, Ten) && PrintInt(n)[1..] == Print(-n, Ten);
      ReadPrint(-m, Ten);
      ReadPrint(-n, Ten);
    } else {
      ReadPrint(m, Ten);
      ReadPrint(n, Ten);
    }
  }

  lemma PrintInjective(m: nat, n: nat, b: Base)
    requires Print(m, b) == Print(n, b)
    ensures m == n
  {
    ReadPrint(m, b);
    ReadPrint(n, b);
  }

  /** A number under 1000 takes at most three digits; only zero starts with one. */
  lemma PrintSmall(n: nat)
    requires n < 1000
    ensures |Print(n, Ten)| <= 3
    ensures |Print(n, Ten)| > 1 ==> Print(n, Ten)[0] != '0'
  {
    if n >= 10 {
      var front := n / 10;
      assert Print(n, Ten) == Print(front, Ten) + [DigitChar(n % 10)];
      if front >= 10 {
        assert Print(front, Ten) == Print(front / 10, Ten) + [DigitChar(front % 10)];
      }
    }
  }

  // ---------------------------------------------------------------- read, then printed

  lemma DigitBack(c: char)
    requires DigitOf(c).Some? && DigitOf(c).value < 10
    ensures DigitChar(DigitOf(c).value) == c
  {
  }

  lemma {:induction false} NotZero(s: string)
    requires Read(s, Ten).Some? && s != "" && s[0] != '0'
    ensures Read(s, Ten).value > 0
    decreases |s|
  {
    if |s| > 1 {
      NotZero(s[..|s| - 1]);
    } else {
      assert s[..0] == "";
    }
  }

  /** Digits without a leading zero are the print of the number they read as. */
  lemma {:induction false} PrintRead(s: string)
    requires Read(s, Ten).Some? && s != "" && (|s| > 1 ==> s[0] != '0')
    ensures Print(Read(s, Ten).value, Ten) == s
    decreases |s|
  {
    var front, last := s[..|s| - 1], s[|s| - 1];
    DigitBack(last);
    if |s| > 1 {
      NotZero(front);
      PrintRead(front);
      assert s == front + [last];
    } else {
      assert front == "" && s == [last];
    }
  }
}
