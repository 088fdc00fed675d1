/**
  WireGuard keys (config.go:218-237): forty-four characters of base64 that decode
  to 32 bytes. The decoder is that of section 4 of RFC 4648 with the leniency of
  the one in use, which passes over carriage returns and line feeds anywhere.
*/
module WgKey {
  import opened Common

  predicate InAlphabet(c: char) {
    'A' <= c <= 'Z' || 'a' <= c <= 'z' || '0' <= c <= '9' || c == '+' || c == '/'
  }

  const PAD := '='

  predicate IsBreak(c: char) { c == '\n' || c == '\r' }

  /** What the decoder looks at. */
  function Unbroken(s: string): (r: string)
    ensures |r| <= |s|
    ensures |r| == |s| ==> r == s && forall i :: 0 <= i < |s| ==> !IsBreak(s[i])
  {
    if s == "" then ""
    else if IsBreak(s[0]) then Unbroken(s[1..])
    else [s[0]] + Unbroken(s[1..])
  }

  /** How many bytes a text without line breaks decodes to; none if it is refused. */
  function Length(s: string): Option<nat> {
    if s == "" then Some(0)
    else if |s| < 4 || !InAlphabet(s[0]) || !InAlphabet(s[1]) then None
    else if s[2] == PAD then
      if s[3] == PAD && |s| == 4 then Some(1) else None
    else if !InAlphabet(s[2]) then None
    else if s[3] == PAD then
      if |s| == 4 then Some(2) else None
    else if !InAlphabet(s[3]) then None
    else
      var rest := Length(s[4..]);
      if rest.None? then None else Some(3 + rest.value)
  }

  function DecodedLength(s: string): Option<nat> {
    Length(Unbroken(s))
  }

  /** validateWGKey. */
  predicate Accepted(s: string) {
    |s| == 44 && DecodedLength(s) == Some(32)
  }

  predicate AllAlphabet(s: string) {
    forall i :: 0 <= i < |s| ==> InAlphabet(s[i])
  }

  /** A quantum of four characters is three bytes, the last up to two fewer. */
  lemma {:induction false} FourForThree(s: string)
    requires Length(s).Some?
    ensures |s| % 4 == 0 && Length(s).value <= 3 * (|s| / 4)
    ensures s != "" ==> Length(s).value + 2 >= 3 * (|s| / 4)
    decreases |s|
  {
    if |s| > 4 {
      FourForThree(s[4..]);
    }
  }

  /** One byte short of full quanta means one padding character, at the end, after letters of the alphabet. */
  lemma {:induction false} OnePad(s: string)
    requires s != "" && |s| % 4 == 0
    ensures Length(s) == Some(3 * (|s| / 4) - 1) <==> AllAlphabet(s[..|s| - 1]) && s[|s| - 1] == PAD
    decreases |s|
  {
    if |s| > 4 {
      OnePad(s[4..]);
      assert s[4..][..|s| - 5] == s[4..|s| - 1];
      assert s[..|s| - 1] == s[..4] + s[4..|s| - 1];
      if Length(s) == Some(3 * (|s| / 4) - 1) || (AllAlphabet(s[..|s| - 1]) && s[|s| - 1] == PAD) {
        assert forall i :: 4 <= i < |s| - 1 ==> s[i] == s[4..|s| - 1][i - 4];
        if AllAlphabet(s[..|s| - 1]) {
          assert forall i :: 0 <= i < |s| - 1 ==> s[i] == s[..|s| - 1][i];
        }
      }
    }
  }

  lemma {:induction false} UnbrokenSame(s: string)
    requires forall i :: 0 <= i < |s| ==> !IsBreak(s[i])
    ensures Unbroken(s) == s
  {
    if s != "" {
      UnbrokenSame(s[1..]);
    }
  }

  /**
    An accepted key is forty-three letters of the alphabet and one padding
    character: no line break is hidden in it, for all that the decoder skips them.
  */
  lemma AcceptedIff(s: string)
    ensures Accepted(s) <==> |s| == 44 && AllAlphabet(s[..43]) && s[43] == PAD
  {
    if Accepted(s) {
      FourForThree(Unbroken(s));
      assert |Unbroken(s)| == 44;
      assert Unbroken(s) == s;
      OnePad(s);
    } else if |s| == 44 && AllAlphabet(s[..43]) && s[43] == PAD {
      forall i | 0 <= i < |s| ensures !IsBreak(s[i]) {
        assert i < 43 ==> InAlphabet(s[..43][i]);
      }
      UnbrokenSame(s);
      OnePad(s);
    }
  }

  /** The alphabet by code: capitals, small letters, digits, plus and slash. */
  lemma AlphabetIs(c: char)
    ensures InAlphabet(c) <==>
              var n := c as int; 65 <= n < 91 || 97 <= n < 123 || 48 <= n < 58 || n == 43 || n == 47
  {
  }
}
