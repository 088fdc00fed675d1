/**
  The text form of an interface config, as the tools that take it read it: lines of
  `key = value` under `[Section]` headers, with '#' starting a comment.
*/
module Ini {
  import opened Common
  import opened Text

  datatype Directive = Directive(key: string, value: string)

  datatype Section = Section(name: string, lines: seq<Directive>)

  datatype Line = Nothing | Header(name: string) | Setting(directive: Directive) | Unreadable

  // ---------------------------------------------------------------------- reading

  function ReadLine(raw: string): Line {
    var line := Cut(raw, '#').0;
    var t := Trim(line);
    if t == "" then Nothing
    else if t[0] == '[' then
      if t[|t| - 1] == ']' && |t| > 1 then Header(t[1..|t| - 1]) else Unreadable
    else
      var (key, value) := Cut(line, '=');
      if value.None? then Unreadable else Setting(Directive(Trim(key), Trim(value.value)))
  }

  /** One more line on what was read so far. */
  function Take(read: seq<Section>, raw: string): Option<seq<Section>> {
    match ReadLine(raw)
    case Nothing => Some(read)
    case Header(name) => Some(read + [Section(name, [])])
    case Setting(d) =>
      if read == [] then None
      else
        var last := read[|read| - 1];
        Some(read[..|read| - 1] + [last.(lines := last.lines + [d])])
    case Unreadable => None
  }

  function TakeAll(read: Option<seq<Section>>, raws: seq<string>): Option<seq<Section>>
    decreases |raws|
  {
    if raws == [] || read.None? then read
    else TakeAll(Take(read.value, raws[0]), raws[1..])
  }

  function Parse(text: string): Option<seq<Section>> {
    TakeAll(Some([]), Split(text, '\n'))
  }

  lemma {:induction false} TakeAppend(read: Option<seq<Section>>, a: seq<string>, b: seq<string>)
    ensures TakeAll(read, a + b) == TakeAll(TakeAll(read, a), b)
    decreases |a|
  {
    if a == [] {
      assert a + b == b;
    } else if read.None? {
      assert TakeAll(read, a + b).None?;
    } else {
      assert (a + b)[1..] == a[1..] + b;
      TakeAppend(Take(read.value, a[0]), a[1..], b);
    }
  }

  // ---------------------------------------------------------------------- writing

  function Print(d: Directive): string {
    d.key + " = " + d.value
  }

  function PrintAll(ds: seq<Directive>): seq<string> {
    if ds == [] then [] else [Print(ds[0])] + PrintAll(ds[1..])
  }

  /** Every line with its end. */
  function Unlines(lines: seq<string>): string {
    if lines == [] then "" else lines[0] + "\n" + Unlines(lines[1..])
  }

  /** What is left of a value once it has been read. */
  function Plain(value: string): string {
    Trim(Cut(value, '#').0)
  }

  function PlainOne(d: Directive): Directive {
    Directive(d.key, Plain(d.value))
  }

  function PlainAll(ds: seq<Directive>): (r: seq<Directive>)
    ensures |r| == |ds|
    ensures forall i :: 0 <= i < |ds| ==> r[i] == PlainOne(ds[i])
  {
    if ds == [] then [] else [PlainOne(ds[0])] + PlainAll(ds[1..])
  }

  predicate LetterOrDigit(c: char) {
    'A' <= c <= 'Z' || 'a' <= c <= 'z' || '0' <= c <= '9'
  }

  predicate IsWord(s: string) {
    s != "" && forall i :: 0 <= i < |s| ==> LetterOrDigit(s[i])
  }

  /** Letters and digits for a key, one line for a value. */
  predicate Fit(d: Directive) {
    IsWord(d.key) && Lacks(d.value, '\n')
  }

  predicate AllFit(ds: seq<Directive>) {
    forall i :: 0 <= i < |ds| ==> Fit(ds[i])
  }

  // ------------------------------------------------------------------- round trip

  lemma {:induction false} TrimKeepsStart(s: string)
    requires s != "" && !IsBlank(s[0])
    ensures TrimRight(s) != "" && TrimRight(s)[0] == s[0]
  {
    if IsBlank(s[|s| - 1]) {
      assert s[..|s| - 1][0] == s[0];
      TrimKeepsStart(s[..|s| - 1]);
    }
  }

  lemma TrimKey(key: string)
    requires IsWord(key)
    ensures Trim(key + " ") == key
  {
    var s := key + " ";
    assert !IsBlank(s[0]) && TrimLeft(s) == s;
    assert s[..|s| - 1] == key;
    assert TrimRight(s) == TrimRight(key);
    TrimNothing(key);
  }

  lemma {:induction false} CutLater(a: string, b: string, c: char)
    requires Lacks(a, c)
    ensures Cut(a + b, c) == (a + Cut(b, c).0, Cut(b, c).1)
  {
    if a == "" {
      assert a + b == b && a + Cut(b, c).0 == Cut(b, c).0;
    } else {
      assert (a + b)[1..] == a[1..] + b;
      CutLater(a[1..], b, c);
      assert a + Cut(b, c).0 == [a[0]] + (a[1..] + Cut(b, c).0);
    }
  }

  /** A blank before a value goes when the value is trimmed. */
  lemma TrimLead(v: string)
    ensures Trim(" " + v) == Trim(v)
  {
    assert (" " + v)[1..] == v;
  }

  lemma PrintedStart(d: Directive)
    requires Fit(d)
    ensures Lacks(d.key + " = ", '#') && Lacks(d.key + " ", '=') && Lacks(Print(d), '\n')
    ensures !IsBlank(d.key[0]) && d.key[0] != '['
  {
    assert LetterOrDigit(d.key[0]);
  }

  /** A line that starts with a letter or digit is a setting, cut at its first '='. */
  lemma ReadSetting(raw: string, key: string, value: string)
    requires key != "" && !IsBlank(key[0]) && key[0] != '[' && Lacks(key, '=')
    requires Cut(raw, '#').0 == key + "=" + value
    ensures ReadLine(raw) == Setting(Directive(Trim(key), Trim(value)))
  {
    var line := key + "=" + value;
    assert TrimLeft(line) == line;
    TrimKeepsStart(line);
    assert line == key + ['='] + value;
    CutAt(key, '=', value);
  }

  /** A printed directive reads back as itself, its value as it is read. */
  lemma ReadPrint(d: Directive)
    requires Fit(d)
    ensures ReadLine(Print(d)) == Setting(Directive(d.key, Plain(d.value)))
    ensures Lacks(Print(d), '\n')
  {
    PrintedStart(d);
    CutLater(d.key + " = ", d.value, '#');
    var v := Cut(d.value, '#').0;
    assert d.key + " = " + v == (d.key + " ") + "=" + (" " + v);
    assert (d.key + " ")[0] == d.key[0];
    ReadSetting(Print(d), d.key + " ", " " + v);
    TrimKey(d.key);
    TrimLead(v);
  }

  lemma TakeSetting(done: seq<Section>, name: string, lines: seq<Directive>, d: Directive)
    requires Fit(d)
    ensures Take(done + [Section(name, lines)], Print(d)) == Some(done + [Section(name, lines + [PlainOne(d)])])
  {
    ReadPrint(d);
    var read := done + [Section(name, lines)];
    assert read[..|read| - 1] == done;
  }

  /** Printed settings go to the section they stand in, in order. */
  lemma {:induction false} ReadSettings(done: seq<Section>, name: string, lines: seq<Directive>, ds: seq<Directive>)
    requires AllFit(ds)
    ensures TakeAll(Some(done + [Section(name, lines)]), PrintAll(ds)) ==
            Some(done + [Section(name, lines + PlainAll(ds))])
    decreases |ds|
  {
    if ds == [] {
      assert lines + PlainAll(ds) == lines;
    } else {
      TakeSetting(done, name, lines, ds[0]);
      assert PrintAll(ds)[1..] == PrintAll(ds[1..]);
      ReadSettings(done, name, lines + [PlainOne(ds[0])], ds[1..]);
      assert lines + [PlainOne(ds[0])] + PlainAll(ds[1..]) == lines + PlainAll(ds);
    }
  }

  lemma ReadHeader(name: string)
    requires IsWord(name)
    ensures ReadLine("[" + name + "]") == Header(name)
    ensures Lacks("[" + name + "]", '\n')
  {
    var raw := "[" + name + "]";
    assert Lacks(raw, '#');
    CutLacks(raw, '#');
    TrimNothing(raw);
    assert raw[1..|raw| - 1] == name;
  }

  /** The lines of a section. */
  function SectionLines(name: string, ds: seq<Directive>): seq<string> {
    ["[" + name + "]"] + PrintAll(ds)
  }

  /** Header and settings on top of what was read before. */
  lemma ReadSection(read: seq<Section>, name: string, ds: seq<Directive>)
    requires IsWord(name) && AllFit(ds)
    ensures TakeAll(Some(read), SectionLines(name, ds)) == Some(read + [Section(name, PlainAll(ds))])
  {
    ReadHeader(name);
    var raws := ["[" + name + "]"] + PrintAll(ds);
    assert raws[0] == "[" + name + "]" && raws[1..] == PrintAll(ds);
    ReadSettings(read, name, [], ds);
    assert [] + PlainAll(ds) == PlainAll(ds);
  }

  lemma {:induction false} SplitUnlines(lines: seq<string>)
    requires forall i :: 0 <= i < |lines| ==> Lacks(lines[i], '\n')
    ensures Split(Unlines(lines), '\n') == lines + [""]
  {
    if lines == [] {
      CutLacks("", '\n');
    } else {
      CutAt(lines[0], '\n', Unlines(lines[1..]));
      assert Unlines(lines) == lines[0] + ['\n'] + Unlines(lines[1..]);
      SplitUnlines(lines[1..]);
      assert lines + [""] == [lines[0]] + (lines[1..] + [""]);
    }
  }

  /** The lines of a text read as the text. */
  lemma ParseLines(lines: seq<string>)
    requires forall i :: 0 <= i < |lines| ==> Lacks(lines[i], '\n')
    ensures Parse(Unlines(lines)) == TakeAll(Some([]), lines)
  {
    SplitUnlines(lines);
    TakeAppend(Some([]), lines, [""]);
    var read := TakeAll(Some([]), lines);
    if read.Some? {
      assert ReadLine("") == Nothing by { CutLacks("", '#'); }
      assert TakeAll(read, [""]) == TakeAll(Take(read.value, ""), []);
    }
  }

  lemma {:induction false} PrintedLines(ds: seq<Directive>)
    requires AllFit(ds)
    ensures forall i :: 0 <= i < |PrintAll(ds)| ==> Lacks(PrintAll(ds)[i], '\n')
    ensures |PrintAll(ds)| == |ds|
  {
    if ds != [] {
      ReadPrint(ds[0]);
      PrintedLines(ds[1..]);
    }
  }

  lemma {:induction false} UnlinesAppend(a: seq<string>, b: seq<string>)
    ensures Unlines(a + b) == Unlines(a) + Unlines(b)
  {
    if a == [] {
      assert a + b == b;
    } else {
      assert (a + b)[1..] == a[1..] + b;
      UnlinesAppend(a[1..], b);
    }
  }

  lemma {:induction false} PrintAppend(a: seq<Directive>, b: seq<Directive>)
    ensures PrintAll(a + b) == PrintAll(a) + PrintAll(b)
  {
    if a == [] {
      assert a + b == b;
    } else {
      assert (a + b)[1..] == a[1..] + b;
      PrintAppend(a[1..], b);
    }
  }

  lemma SectionOneLiners(name: string, ds: seq<Directive>)
    requires IsWord(name) && AllFit(ds)
    ensures forall i :: 0 <= i < |SectionLines(name, ds)| ==> Lacks(SectionLines(name, ds)[i], '\n')
  {
    ReadHeader(name);
    PrintedLines(ds);
  }

  lemma SkipBlank(read: seq<Section>, rest: seq<string>)
    ensures TakeAll(Some(read), [""] + rest) == TakeAll(Some(read), rest)
  {
    CutLacks("", '#');
    assert ReadLine("") == Nothing;
    assert ([""] + rest)[1..] == rest;
  }

  // --------------------------------------------------------------- a text being built

  function TextOf(ds: seq<Directive>): string {
    Unlines(PrintAll(ds))
  }

  lemma TextAppend(a: seq<Directive>, b: seq<Directive>)
    ensures TextOf(a + b) == TextOf(a) + TextOf(b)
  {
    PrintAppend(a, b);
    UnlinesAppend(PrintAll(a), PrintAll(b));
  }

  lemma TextOne(d: Directive)
    ensures TextOf([d]) == Print(d) + "\n"
  {
    assert [d][1..] == [];
    assert PrintAll([d]) == [Print(d)];
    assert [Print(d)][1..] == [];
    assert Unlines([]) == "";
  }

  /** One more line on the text. */
  method Put(ghost ds: seq<Directive>, text: string, key: string, value: string) returns (more: string)
    requires text == TextOf(ds)
    ensures more == TextOf(ds + [Directive(key, value)])
  {
    TextAppend(ds, [Directive(key, value)]);
    TextOne(Directive(key, value));
    return text + (key + " = " + value) + "\n";
  }
}
