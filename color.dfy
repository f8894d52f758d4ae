/**
 * `in_color` (tissue.py): wraps every line of a text, its line ending
 * included, between a colour's ANSI escape and the reset escape, so that
 * pagers which colour line by line keep the colour.
 */
module Color {
  import opened Wrappers
  import opened PyStr

  const ColorEnd: string := "\U{1B}[1;0m"

  const Colors: map<string, string> :=
    map["green" := "\U{1B}[1;32m", "red" := "\U{1B}[1;31m", "yellow" := "\U{1B}[1;33m"]

  /** Each segment between `start` and the reset escape. */
  function Wrap(start: string, segments: seq<string>): (pieces: seq<string>)
    ensures |pieces| == |segments|
  {
    if segments == [] then [] else [start + segments[0] + ColorEnd] + Wrap(start, segments[1..])
  }

  /**
   * `in_color(color, text)`. The lookup `colors[color]` happens once per
   * line, so an unknown colour raises `KeyError` (here `None`) only when
   * there is a line to colour; the empty text gives the empty string.
   */
  function InColor(color: string, text: string): (r: Option<string>)
    ensures r.None? <==> text != "" && color !in Colors
    ensures text == "" ==> r == Some("")
  {
    var lines := SplitLinesKeepEnds(text);
    if lines == [] then Some("")
    else if color !in Colors then None
    else Some(Concat(Wrap(Colors[color], lines)))
  }

  /** A coloured piece with its escape prefix and the reset suffix removed. */
  function Unwrap(start: string, piece: string): string
    requires |start| + |ColorEnd| <= |piece|
  {
    piece[|start|..|piece| - |ColorEnd|]
  }

  function UnwrapAll(start: string, pieces: seq<string>): seq<string>
    requires forall i :: 0 <= i < |pieces| ==> |start| + |ColorEnd| <= |pieces[i]|
  {
    if pieces == [] then [] else [Unwrap(start, pieces[0])] + UnwrapAll(start, pieces[1..])
  }

  lemma {:induction false} WrapShape(start: string, segments: seq<string>)
    ensures forall i :: 0 <= i < |segments| ==>
      Wrap(start, segments)[i] == start + segments[i] + ColorEnd
  {
    if segments != [] {
      WrapShape(start, segments[1..]);
    }
  }

  lemma WrapLengths(start: string, segments: seq<string>)
    ensures forall i :: 0 <= i < |segments| ==> |start| + |ColorEnd| <= |Wrap(start, segments)[i]|
  {
    WrapShape(start, segments);
  }

  lemma {:induction false} UnwrapWrap(start: string, segments: seq<string>)
    ensures forall i :: 0 <= i < |segments| ==> |start| + |ColorEnd| <= |Wrap(start, segments)[i]|
    ensures UnwrapAll(start, Wrap(start, segments)) == segments
  {
    WrapLengths(start, segments);
    if segments != [] {
      var p := start + segments[0] + ColorEnd;
      var rest := Wrap(start, segments[1..]);
      var pieces := Wrap(start, segments);
      assert pieces == [p] + rest;
      assert pieces[1..] == rest;
      UnwrapWrap(start, segments[1..]);
      assert Unwrap(start, p) == segments[0];
      assert UnwrapAll(start, pieces) == [segments[0]] + UnwrapAll(start, rest);
      assert segments == [segments[0]] + segments[1..];
    }
  }

  /**
   * The round trip of `in_color`: the output is the concatenation of one
   * piece per line of the input, every piece starts with the colour's
   * escape and ends with the reset escape, and stripping those from every
   * piece and joining what is left gives back the input text.
   */
  lemma InColorRoundTrip(color: string, text: string)
    requires color in Colors
    ensures var pieces := Wrap(Colors[color], SplitLinesKeepEnds(text));
      && InColor(color, text) == Some(Concat(pieces))
      && (forall i :: 0 <= i < |pieces| ==>
            StartsWith(pieces[i], Colors[color]) && EndsWith(pieces[i], ColorEnd))
      && (forall i :: 0 <= i < |pieces| ==> |Colors[color]| + |ColorEnd| <= |pieces[i]|)
      && Concat(UnwrapAll(Colors[color], pieces)) == text
  {
    var start := Colors[color];
    var lines := SplitLinesKeepEnds(text);
    var pieces := Wrap(start, lines);
    SplitLinesSpec(text);
    WrapShape(start, lines);
    UnwrapWrap(start, lines);
    forall i | 0 <= i < |pieces|
      ensures StartsWith(pieces[i], start) && EndsWith(pieces[i], ColorEnd)
    {
      assert pieces[i] == start + lines[i] + ColorEnd;
      assert pieces[i][..|start|] == start;
      assert pieces[i][|pieces[i]| - |ColorEnd|..] == ColorEnd;
    }
  }

  /** Every colour escape is 7 characters and the reset is 6, so colouring
      adds 13 characters per line. */
  lemma {:induction false} ColoredLength(color: string, text: string)
    requires color in Colors
    ensures |InColor(color, text).value| == |text| + 13 * |SplitLinesKeepEnds(text)|
  {
    SplitLinesSpec(text);
    WrappedLength(Colors[color], SplitLinesKeepEnds(text));
  }

  lemma {:induction false} WrappedLength(start: string, segments: seq<string>)
    requires |start| == 7
    ensures |Concat(Wrap(start, segments))| == |Concat(segments)| + 13 * |segments|
  {
    if segments != [] {
      WrappedLength(start, segments[1..]);
    }
  }
}
