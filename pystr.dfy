/**
 * The few Python `str` operations the plugin relies on, on `seq<char>`:
 * `rstrip()`, `lstrip(c)`, `in`, `startswith`, `endswith`, `' ' * n`,
 * `''.join`, `sep.join` and `splitlines(True)`.
 */
module PyStr {

  /** Python's `str.isspace()` characters: what a bare `rstrip()` removes. */
  predicate IsSpace(c: char)
  {
    c == ' ' || ('\t' <= c <= '\r') || ('\U{1C}' <= c <= '\U{1F}')
    || c == '\U{85}' || c == '\U{A0}' || c == '\U{1680}'
    || ('\U{2000}' <= c <= '\U{200A}') || c == '\U{2028}' || c == '\U{2029}'
    || c == '\U{202F}' || c == '\U{205F}' || c == '\U{3000}'
  }

  /** `s.rstrip()`: s without its trailing whitespace. */
  function RStrip(s: string): string
    decreases |s|
  {
    if s != [] && IsSpace(s[|s| - 1]) then RStrip(s[..|s| - 1]) else s
  }

  /** `rstrip()` keeps a prefix that does not end in whitespace and removes only whitespace. */
  lemma {:induction false} RStripSpec(s: string)
    ensures var r := RStrip(s);
      && |r| <= |s| && r == s[..|r|]
      && (r == [] || !IsSpace(r[|r| - 1]))
      && forall i :: |r| <= i < |s| ==> IsSpace(s[i])
    decreases |s|
  {
    if s != [] && IsSpace(s[|s| - 1]) {
      var t := s[..|s| - 1];
      RStripSpec(t);
      var r := RStrip(t);
      assert t[..|r|] == s[..|r|];
      forall i | |r| <= i < |s| ensures IsSpace(s[i]) {
        if i < |t| { assert s[i] == t[i]; }
      }
    }
  }

  /** `s.lstrip(c)` for one character c: s without its leading run of c. */
  function LStrip(s: string, c: char): string
    decreases |s|
  {
    if s != [] && s[0] == c then LStrip(s[1..], c) else s
  }

  /** `lstrip(c)` keeps a suffix that does not start with c and removes only c. */
  lemma {:induction false} LStripSpec(s: string, c: char)
    ensures var r := LStrip(s, c);
      && |r| <= |s| && r == s[|s| - |r|..]
      && (r == [] || r[0] != c)
      && forall i :: 0 <= i < |s| - |r| ==> s[i] == c
    decreases |s|
  {
    if s != [] && s[0] == c {
      var t := s[1..];
      LStripSpec(t, c);
      var r := LStrip(t, c);
      assert t[|t| - |r|..] == s[|s| - |r|..];
      forall i | 0 <= i < |s| - |r| ensures s[i] == c {
        if i > 0 { assert s[i] == t[i - 1]; }
      }
    }
  }

  /** r sits in s at k with only c before it and only whitespace after it. */
  predicate TrimmedAt(s: string, r: string, k: int, c: char)
  {
    && OccursAt(s, r, k)
    && (forall i :: 0 <= i < k ==> s[i] == c)
    && (forall i :: k + |r| <= i < |s| ==> IsSpace(s[i]))
  }

  lemma StripOccurs(s: string, c: char)
    ensures OccursAt(s, RStrip(LStrip(s, c)), |s| - |LStrip(s, c)|)
  {
    var l := LStrip(s, c);
    var r := RStrip(l);
    LStripSpec(s, c);
    RStripSpec(l);
    var k := |s| - |l|;
    assert l == s[k..] && r == l[..|r|];
    assert s[k..][..|r|] == s[k..k + |r|];
  }

  lemma StripTrailing(s: string, c: char)
    ensures forall i :: 0 <= i < |s| && |s| - |LStrip(s, c)| + |RStrip(LStrip(s, c))| <= i ==> IsSpace(s[i])
  {
    var l := LStrip(s, c);
    LStripSpec(s, c);
    RStripSpec(l);
    var k := |s| - |l|;
    forall i | 0 <= i < |s| && k + |RStrip(l)| <= i ensures IsSpace(s[i]) {
      assert s[i] == l[i - k];
    }
  }

  /** `s.lstrip(c).rstrip()` cuts s at one place. */
  lemma StripBoth(s: string, c: char)
    ensures var r := RStrip(LStrip(s, c));
      && (r == [] || (r[0] != c && !IsSpace(r[|r| - 1])))
      && TrimmedAt(s, r, |s| - |LStrip(s, c)|, c)
  {
    StripOccurs(s, c);
    StripTrailing(s, c);
    var l := LStrip(s, c);
    LStripSpec(s, c);
    RStripSpec(l);
    if RStrip(l) != [] {
      assert RStrip(l)[0] == l[0];
    }
  }

  predicate StartsWith(s: string, prefix: string)
  {
    |prefix| <= |s| && s[..|prefix|] == prefix
  }

  predicate EndsWith(s: string, suffix: string)
  {
    |suffix| <= |s| && s[|s| - |suffix|..] == suffix
  }

  /** `needle` occurs in `hay` at index k. */
  predicate OccursAt(hay: string, needle: string, k: int)
  {
    0 <= k && k + |needle| <= |hay| && hay[k..k + |needle|] == needle
  }

  /** Python's `needle in hay` on strings, as a left-to-right search. */
  function Contains(hay: string, needle: string): (b: bool)
    ensures b <==> exists k :: OccursAt(hay, needle, k)
    decreases |hay|
  {
    if |needle| > |hay| then false
    else if hay[..|needle|] == needle then assert OccursAt(hay, needle, 0); true
    else
      var b := Contains(hay[1..], needle);
      assert forall k :: OccursAt(hay[1..], needle, k) <==> OccursAt(hay, needle, k + 1) by {
        forall k ensures OccursAt(hay[1..], needle, k) <==> OccursAt(hay, needle, k + 1) {
          if 0 <= k && k + |needle| <= |hay[1..]| {
            assert hay[1..][k..k + |needle|] == hay[k + 1..k + 1 + |needle|];
          }
        }
      }
      assert !OccursAt(hay, needle, 0);
      assert (exists k :: OccursAt(hay, needle, k)) ==> exists k :: OccursAt(hay[1..], needle, k) by {
        if k :| OccursAt(hay, needle, k) {
          assert OccursAt(hay[1..], needle, k - 1);
        }
      }
      b
  }

  /** `' ' * n`: n spaces, the empty string when n is not positive. */
  function Spaces(n: int): string
  {
    if n <= 0 then "" else Spaces(n - 1) + " "
  }

  lemma {:induction false} SpacesSpec(n: int)
    ensures |Spaces(n)| == if n > 0 then n else 0
    ensures forall i :: 0 <= i < |Spaces(n)| ==> Spaces(n)[i] == ' '
  {
    if n > 0 {
      SpacesSpec(n - 1);
    }
  }

  /** `''.join(parts)` */
  function Concat(parts: seq<string>): string
  {
    if parts == [] then "" else parts[0] + Concat(parts[1..])
  }

  lemma {:induction false} ConcatAppend(a: seq<string>, b: seq<string>)
    ensures Concat(a + b) == Concat(a) + Concat(b)
  {
    if a != [] {
      assert (a + b)[1..] == a[1..] + b;
      ConcatAppend(a[1..], b);
    } else {
      assert a + b == b;
    }
  }

  /** `sep.join(parts)` */
  function Join(sep: string, parts: seq<string>): string
  {
    if parts == [] then ""
    else if |parts| == 1 then parts[0]
    else parts[0] + sep + Join(sep, parts[1..])
  }

  predicate NoDup<T(==)>(s: seq<T>)
  {
    forall i, j :: 0 <= i < j < |s| ==> s[i] != s[j]
  }

  /** The characters at which Python's `str.splitlines` breaks a line. */
  predicate IsLineBreak(c: char)
  {
    c == '\n' || c == '\r' || c == '\U{B}' || c == '\U{C}'
    || ('\U{1C}' <= c <= '\U{1E}') || c == '\U{85}' || c == '\U{2028}' || c == '\U{2029}'
  }

  /** A line as `splitlines(True)` yields it: non-empty, and no line break
      before its last character except the `\r` of a closing `\r\n`. */
  predicate IsLine(p: string)
  {
    p != [] &&
    forall j :: 0 <= j < |p| - 1 ==>
      !IsLineBreak(p[j]) || (j == |p| - 2 && p[j] == '\r' && p[j + 1] == '\n')
  }

  /** Index of the first line break at or after i, or |t| when there is none. */
  function NextBreak(t: string, i: nat): (k: nat)
    requires i <= |t|
    ensures i <= k <= |t|
    decreases |t| - i
  {
    if i == |t| || IsLineBreak(t[i]) then i else NextBreak(t, i + 1)
  }

  /** The break found is a line break, and none comes before it. */
  lemma {:induction false} NextBreakSpec(t: string, i: nat)
    requires i <= |t|
    ensures var k := NextBreak(t, i);
      && (k < |t| ==> IsLineBreak(t[k]))
      && forall j :: i <= j < k ==> !IsLineBreak(t[j])
    decreases |t| - i
  {
    if i < |t| && !IsLineBreak(t[i]) {
      NextBreakSpec(t, i + 1);
    }
  }

  /** Length of the first line of t, its line ending (one character, or `\r\n`) included. */
  function FirstLineLength(t: string): (n: nat)
    requires t != []
    ensures 0 < n <= |t|
  {
    var k := NextBreak(t, 0);
    if k == |t| then |t|
    else if t[k] == '\r' && k + 1 < |t| && t[k + 1] == '\n' then k + 2
    else k + 1
  }

  /** The first line is a line. */
  lemma FirstLineIsLine(t: string)
    requires t != []
    ensures IsLine(t[..FirstLineLength(t)])
  {
    NextBreakSpec(t, 0);
  }

  /** When more follows, the first line ends in a break, and a closing `\r` is never separated
      from a following `\n`. */
  lemma FirstLineEnds(t: string)
    requires t != []
    ensures var n := FirstLineLength(t);
      && (n < |t| ==> IsLineBreak(t[n - 1]))
      && (n < |t| && t[n - 1] == '\r' ==> t[n] != '\n')
  {
    NextBreakSpec(t, 0);
  }

  /** Python's `t.splitlines(True)`: the lines of t with their line endings kept. */
  function SplitLinesKeepEnds(t: string): seq<string>
    decreases |t|
  {
    if t == [] then []
    else
      var n := FirstLineLength(t);
      [t[..n]] + SplitLinesKeepEnds(t[n..])
  }

  /** The lines join back to the text, and there are none exactly for the empty text. */
  lemma {:induction false} SplitLinesJoin(t: string)
    ensures Concat(SplitLinesKeepEnds(t)) == t
    ensures SplitLinesKeepEnds(t) == [] <==> t == []
    decreases |t|
  {
    if t != [] {
      var n := FirstLineLength(t);
      var rest := SplitLinesKeepEnds(t[n..]);
      SplitLinesJoin(t[n..]);
      var lines := SplitLinesKeepEnds(t);
      assert lines == [t[..n]] + rest;
      assert lines[0] == t[..n] && lines[1..] == rest;
      assert Concat(lines) == t[..n] + Concat(rest);
      assert t == t[..n] + t[n..];
    }
  }

  /** Each line is non-empty with no break before its ending. */
  lemma {:induction false} SplitLinesAreLines(t: string)
    ensures forall i :: 0 <= i < |SplitLinesKeepEnds(t)| ==> IsLine(SplitLinesKeepEnds(t)[i])
    decreases |t|
  {
    if t != [] {
      var n := FirstLineLength(t);
      var rest := SplitLinesKeepEnds(t[n..]);
      SplitLinesAreLines(t[n..]);
      FirstLineIsLine(t);
      var lines := SplitLinesKeepEnds(t);
      assert lines == [t[..n]] + rest;
      forall i | 0 <= i < |lines| ensures IsLine(lines[i]) {
        if i > 0 { assert lines[i] == rest[i - 1]; }
        else { assert lines[0] == t[..n]; }
      }
    }
  }

  /** Every line but the last ends in a line break. */
  lemma {:induction false} SplitLinesBreaks(t: string)
    ensures var lines := SplitLinesKeepEnds(t);
      forall i :: 0 <= i < |lines| - 1 ==> lines[i] != [] && IsLineBreak(lines[i][|lines[i]| - 1])
    decreases |t|
  {
    if t != [] {
      var n := FirstLineLength(t);
      var rest := SplitLinesKeepEnds(t[n..]);
      SplitLinesBreaks(t[n..]);
      SplitLinesJoin(t[n..]);
      FirstLineEnds(t);
      var lines := SplitLinesKeepEnds(t);
      assert lines == [t[..n]] + rest;
      forall i | 0 <= i < |lines| - 1 ensures lines[i] != [] && IsLineBreak(lines[i][|lines[i]| - 1]) {
        if i > 0 { assert lines[i] == rest[i - 1]; }
        else { assert rest != [] && n < |t| && lines[0] == t[..n]; }
      }
    }
  }

  /**
   * The lines of `splitlines(True)` join back to the text; there are none
   * exactly for the empty text; each is a non-empty line with no break
   * before its ending; and every line but the last ends in a line break.
   */
  lemma SplitLinesSpec(t: string)
    ensures var lines := SplitLinesKeepEnds(t);
      && Concat(lines) == t
      && (lines == [] <==> t == [])
      && (forall i :: 0 <= i < |lines| ==> IsLine(lines[i]))
      && (forall i :: 0 <= i < |lines| - 1 ==> lines[i] != [] && IsLineBreak(lines[i][|lines[i]| - 1]))
  {
    SplitLinesJoin(t);
    SplitLinesAreLines(t);
    SplitLinesBreaks(t);
  }

  /** No line of a split ends in `\r` while the next one starts with `\n`. */
  predicate CrLfKept(lines: seq<string>)
  {
    forall i :: 0 <= i < |lines| - 1 && lines[i] != [] && lines[i][|lines[i]| - 1] == '\r' ==>
      lines[i + 1] != [] && lines[i + 1][0] != '\n'
  }

  /** A `\r\n` is one line break: a line ending in `\r` is never followed by one starting with `\n`. */
  lemma {:induction false} SplitLinesKeepsCrLf(t: string)
    ensures CrLfKept(SplitLinesKeepEnds(t))
    decreases |t|
  {
    if t != [] {
      var n := FirstLineLength(t);
      var rest := SplitLinesKeepEnds(t[n..]);
      SplitLinesKeepsCrLf(t[n..]);
      SplitLinesJoin(t[n..]);
      SplitLinesAreLines(t[n..]);
      FirstLineEnds(t);
      var lines := SplitLinesKeepEnds(t);
      assert lines == [t[..n]] + rest;
      if rest != [] {
        assert Concat(rest) == rest[0] + Concat(rest[1..]);
        assert rest[0][0] == t[n];
      }
      forall i | 0 <= i < |lines| - 1 && lines[i] != [] && lines[i][|lines[i]| - 1] == '\r'
        ensures lines[i + 1] != [] && lines[i + 1][0] != '\n'
      {
        if i > 0 {
          assert lines[i] == rest[i - 1] && lines[i + 1] == rest[i];
        } else {
          assert t[n - 1] == lines[0][|lines[0]| - 1];
          assert lines[1] == rest[0];
        }
      }
    }
  }
}
