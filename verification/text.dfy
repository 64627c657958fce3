/**
 * The string operations the monitor relies on: Python's whitespace test,
 * `str.strip`, `str.startswith`, the substring test `sub in s`, and the
 * line splitting that `readlines()` performs on a file opened in text mode.
 */
module Text {

  /** Python's `str.isspace()` for one character. */
  predicate IsSpace(c: char) {
    || ('\t' <= c <= '\r')
    || ('\U{1c}' <= c <= '\U{1f}')
    || c == ' '
    || c == '\U{85}'
    || c == '\U{a0}'
    || c == '\U{1680}'
    || ('\U{2000}' <= c <= '\U{200a}')
    || c == '\U{2028}'
    || c == '\U{2029}'
    || c == '\U{202f}'
    || c == '\U{205f}'
    || c == '\U{3000}'
  }

  predicate AllSpace(s: string) {
    forall i :: 0 <= i < |s| ==> IsSpace(s[i])
  }

  /** `s.startswith(prefix)` */
  predicate StartsWith(s: string, prefix: string) {
    |prefix| <= |s| && s[..|prefix|] == prefix
  }

  /** `s.lstrip()` */
  function LStrip(s: string): string {
    if s != [] && IsSpace(s[0]) then LStrip(s[1..]) else s
  }

  /** `lstrip` keeps the longest suffix that does not start with whitespace: all it drops is whitespace. */
  lemma {:induction false} LStripSpec(s: string)
    ensures |LStrip(s)| <= |s| && LStrip(s) == s[|s| - |LStrip(s)|..]
    ensures forall i :: 0 <= i < |s| - |LStrip(s)| ==> IsSpace(s[i])
    ensures LStrip(s) != [] ==> !IsSpace(LStrip(s)[0])
  {
    if s != [] && IsSpace(s[0]) {
      LStripSpec(s[1..]);
      var r := LStrip(s[1..]);
      assert s[1..][|s| - 1 - |r|..] == s[|s| - |r|..];
      assert forall i :: 1 <= i < |s| - |r| ==> s[1..][i - 1] == s[i];
    }
  }

  /** `s.rstrip()` */
  function RStrip(s: string): string {
    if s != [] && IsSpace(s[|s| - 1]) then RStrip(s[..|s| - 1]) else s
  }

  /** `rstrip` keeps the longest prefix that does not end with whitespace: all it drops is whitespace. */
  lemma {:induction false} RStripSpec(s: string)
    ensures |RStrip(s)| <= |s| && RStrip(s) == s[..|RStrip(s)|]
    ensures forall i :: |RStrip(s)| <= i < |s| ==> IsSpace(s[i])
    ensures RStrip(s) != [] ==> !IsSpace(RStrip(s)[|RStrip(s)| - 1])
  {
    if s != [] && IsSpace(s[|s| - 1]) {
      RStripSpec(s[..|s| - 1]);
      var r := RStrip(s[..|s| - 1]);
      assert forall i :: |r| <= i < |s| - 1 ==> s[..|s| - 1][i] == s[i];
    }
  }

  /**
   * `s.strip()`: whitespace removed from both ends. The result is empty
   * exactly for a blank string, and otherwise starts and ends with a
   * character that is not whitespace.
   */
  function Strip(s: string): (r: string)
    ensures |r| <= |s|
    ensures r == [] <==> AllSpace(s)
    ensures r != [] ==> !IsSpace(r[0]) && !IsSpace(r[|r| - 1])
  {
    LStripSpec(s);
    RStripSpec(LStrip(s));
    RStrip(LStrip(s))
  }

  /** `sub` occurs in `s` starting at index `i`. */
  predicate OccursAt(s: string, sub: string, i: nat) {
    i + |sub| <= |s| && s[i..i + |sub|] == sub
  }

  /** Python's substring test `sub in s`, scanning `s` from the left. */
  predicate Contains(s: string, sub: string) {
    StartsWith(s, sub) || (s != [] && Contains(s[1..], sub))
  }

  /** The scan agrees with the definition of a substring: an index where `sub` occurs. */
  lemma {:induction false} ContainsIffOccurs(s: string, sub: string)
    ensures Contains(s, sub) <==> exists i: nat :: OccursAt(s, sub, i)
  {
    if StartsWith(s, sub) {
      assert OccursAt(s, sub, 0);
    } else if s == [] {
      assert sub != [];
    } else {
      ContainsIffOccurs(s[1..], sub);
      if exists i: nat :: OccursAt(s[1..], sub, i) {
        var i: nat :| OccursAt(s[1..], sub, i);
        assert s[1..][i..i + |sub|] == s[i + 1..i + 1 + |sub|];
        assert OccursAt(s, sub, i + 1);
      }
      if exists i: nat :: OccursAt(s, sub, i) {
        var i: nat :| OccursAt(s, sub, i);
        assert i != 0;
        assert s[1..][i - 1..i - 1 + |sub|] == s[i..i + |sub|];
        assert OccursAt(s[1..], sub, i - 1);
      }
    }
  }

  /** Every character of a contained string is a character of the containing one. */
  lemma CharsOfContained(s: string, sub: string)
    requires Contains(s, sub)
    ensures forall c :: c in sub ==> c in s
  {
    ContainsIffOccurs(s, sub);
    var i: nat :| OccursAt(s, sub, i);
    forall c | c in sub ensures c in s {
      var k :| 0 <= k < |sub| && sub[k] == c;
      assert s[i..i + |sub|][k] == s[i + k];
    }
  }

  /** A string is not contained in one that lacks some character of it. */
  lemma MissingCharNotContained(s: string, sub: string, c: char)
    requires c in sub && c !in s
    ensures !Contains(s, sub)
  {
    if Contains(s, sub) {
      CharsOfContained(s, sub);
    }
  }

  /** Whatever contains a string also contains each of that string's prefixes. */
  lemma {:induction false} ContainsPrefixOfContained(s: string, sub: string, prefix: string)
    requires Contains(s, sub) && StartsWith(sub, prefix)
    ensures Contains(s, prefix)
  {
    ContainsIffOccurs(s, sub);
    var i: nat :| OccursAt(s, sub, i);
    assert s[i..i + |prefix|] == sub[..|prefix|];
    assert OccursAt(s, prefix, i);
    ContainsIffOccurs(s, prefix);
  }

  /**
   * The newline translation of a file read in text mode with universal
   * newlines: "\r\n" and a lone "\r" both become "\n".
   */
  function TranslateNewlines(t: string): (r: string)
    ensures '\r' !in r
    ensures |r| <= |t|
    ensures '\r' !in t ==> r == t
  {
    if t == [] then []
    else if t[0] == '\r' then
      if |t| > 1 && t[1] == '\n' then "\n" + TranslateNewlines(t[2..])
      else "\n" + TranslateNewlines(t[1..])
    else [t[0]] + TranslateNewlines(t[1..])
  }

  /**
   * Translation works piece by piece: text that does not end in the middle
   * of a possible "\r\n" translates independently of what follows it.
   */
  lemma {:induction false} TranslateNewlinesAppend(a: string, b: string)
    requires a == [] || a[|a| - 1] != '\r'
    ensures TranslateNewlines(a + b) == TranslateNewlines(a) + TranslateNewlines(b)
  {
    if a == [] {
      assert a + b == b;
    } else if a[0] == '\r' {
      assert |a| > 1;
      if a[1] == '\n' {
        assert (a + b)[2..] == a[2..] + b;
        TranslateNewlinesAppend(a[2..], b);
      } else {
        assert (a + b)[1..] == a[1..] + b;
        TranslateNewlinesAppend(a[1..], b);
      }
    } else {
      assert (a + b)[1..] == a[1..] + b;
      TranslateNewlinesAppend(a[1..], b);
    }
  }

  /** "\r\n" and a lone "\r" each read as one "\n"; every other character reads as itself. */
  lemma TranslateNewlinesStep(c: char, t: string)
    ensures c != '\r' ==> TranslateNewlines([c] + t) == [c] + TranslateNewlines(t)
    ensures TranslateNewlines("\r\n" + t) == "\n" + TranslateNewlines(t)
    ensures t == [] || t[0] != '\n' ==> TranslateNewlines("\r" + t) == "\n" + TranslateNewlines(t)
  {
    assert ([c] + t)[1..] == t;
    assert ("\r\n" + t)[2..] == t;
    assert ("\r" + t)[1..] == t;
  }

  lemma SeqAssoc<T>(a: seq<T>, b: seq<T>, c: seq<T>)
    ensures a + (b + c) == (a + b) + c
  {
  }

  /** The lines in order, concatenated back into one string. */
  function Concat(lines: seq<string>): string {
    if lines == [] then [] else lines[0] + Concat(lines[1..])
  }

  /** Every line is non-empty, ends with "\n" unless it is the last, and holds no other "\n". */
  predicate WellSplit(lines: seq<string>) {
    && (forall i :: 0 <= i < |lines| ==> lines[i] != [])
    && (forall i :: 0 <= i < |lines| - 1 ==> lines[i][|lines[i]| - 1] == '\n')
    && (forall i, j :: 0 <= i < |lines| && 0 <= j < |lines[i]| - 1 ==> lines[i][j] != '\n')
  }

  /** Splits text after every "\n", keeping the terminator, like `readlines()`. */
  function SplitLines(t: string): (lines: seq<string>)
    ensures Concat(lines) == t
    ensures WellSplit(lines)
  {
    if t == [] then []
    else if t[0] == '\n' then
      var rest := SplitLines(t[1..]);
      assert Concat(["\n"] + rest) == "\n" + Concat(rest);
      ["\n"] + rest
    else
      var rest := SplitLines(t[1..]);
      if rest == [] then
        assert t == [t[0]];
        [[t[0]]]
      else
        var lines := [[t[0]] + rest[0]] + rest[1..];
        assert Concat(rest) == rest[0] + Concat(rest[1..]);
        assert lines[1..] == rest[1..];
        assert forall i :: 1 <= i < |lines| ==> lines[i] == rest[i];
        lines
  }

  /** `f.readlines()` on the decoded text of a file opened in text mode. */
  function ReadLines(text: string): (lines: seq<string>)
    ensures WellSplit(lines)
    ensures Concat(lines) == TranslateNewlines(text)
    ensures '\r' !in text ==> Concat(lines) == text
  {
    SplitLines(TranslateNewlines(text))
  }

  /** Text that is empty or ends with a line terminator. */
  predicate Terminated(t: string) {
    t == [] || t[|t| - 1] == '\n'
  }

  /** Splitting distributes over text that ends exactly at a line boundary. */
  lemma {:induction false} SplitLinesAppend(a: string, b: string)
    requires Terminated(a)
    ensures SplitLines(a + b) == SplitLines(a) + SplitLines(b)
  {
    if a == [] {
      assert a + b == b;
    } else {
      assert (a + b)[1..] == a[1..] + b;
      assert Terminated(a[1..]);
      SplitLinesAppend(a[1..], b);
      if a[0] != '\n' {
        assert a[1..] != [];
      }
    }
  }

  /** A line without an inner "\n" followed by its terminator is exactly one line. */
  lemma {:induction false} SplitOneLine(entry: string)
    requires '\n' !in entry
    ensures SplitLines(entry + "\n") == [entry + "\n"]
  {
    if entry == [] {
      assert entry + "\n" == "\n";
      assert "\n"[1..] == [];
      assert SplitLines([]) == [];
    } else {
      assert (entry + "\n")[1..] == entry[1..] + "\n";
      SplitOneLine(entry[1..]);
      assert [entry[0]] + (entry[1..] + "\n") == entry + "\n";
    }
  }
}
