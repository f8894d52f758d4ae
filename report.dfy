/**
 * `TissueReport.get_file_results` (tissue.py): sorts the deferred
 * diagnostics of a file and writes, for each, a header line, optionally the
 * offending source line with a caret under the column, and optionally the
 * trimmed documentation of the check; it returns the file's error count.
 */
module Report {
  import opened Wrappers
  import opened PyStr
  import opened Diagnostics

  /** pycodestyle's `_fmt % {path, row, col, code, text}`; the format string is pycodestyle's. */
  type Format = (string, int, int, string, string) -> string

  /** An output stream; each `write` call appends one chunk. */
  class Stream {
    var written: seq<string>

    constructor ()
      ensures written == []
    {
      written := [];
    }

    method Write(s: string)
      modifies this
      ensures written == old(written) + [s]
    {
      written := written + [s];
    }
  }

  /** The report attributes `get_file_results` prints with. */
  datatype Layout = Layout(
    path: string, lineOffset: int, lines: seq<string>,
    showSource: bool, showPep8: bool, fmt: Format)

  /** How `get_file_results` ends: it returns `file_errors`, or the source
      echo's `self.lines[line_number - 1]` raises `IndexError`. */
  datatype Outcome = Returned(count: int) | IndexError

  /**
   * The source line echoed for a diagnostic at line n: `''` past the end of
   * the file, otherwise Python's `lines[n - 1]`, which counts from the end
   * for a negative index and raises (`None`) below `-len(lines)`.
   */
  function SourceLine(lines: seq<string>, n: int): Option<string>
  {
    if n > |lines| then Some("")
    else if n >= 1 then Some(lines[n - 1])
    else if |lines| + n - 1 >= 0 then Some(lines[|lines| + n - 1])
    else None
  }

  /** Line n of the file for 1 <= n <= len(lines), the empty string past the
      end, the line counted from the end for 1 - len(lines) <= n <= 0, and
      an `IndexError` exactly below that. */
  lemma SourceLineSpec(lines: seq<string>, n: int)
    ensures n > |lines| ==> SourceLine(lines, n) == Some("")
    ensures 1 <= n <= |lines| ==> SourceLine(lines, n) == Some(lines[n - 1])
    ensures 1 - |lines| <= n < 1 ==> SourceLine(lines, n) == Some(lines[|lines| + n - 1])
    ensures SourceLine(lines, n).None? <==> n < 1 - |lines|
  {
  }

  /** The header of a diagnostic: row counted from the file's line offset, column one-based. */
  function Header(L: Layout, d: Diagnostic): string
  {
    L.fmt(L.path, L.lineOffset + d.lineNumber, d.offset + 1, d.code, d.text) + "\n"
  }

  /** `' ' * offset + '^\n'` */
  function Caret(offset: int): string
  {
    Spaces(offset) + "^\n"
  }

  /** The caret line puts `^` under the one-based column: as many spaces as
      the (non-negative) offset, then `^` and a newline. */
  lemma CaretShape(offset: int)
    ensures var r := Caret(offset);
      && |r| == (if offset > 0 then offset else 0) + 2
      && r[|r| - 2..] == "^\n"
      && forall i :: 0 <= i < |r| - 2 ==> r[i] == ' '
  {
    var r := Caret(offset);
    var sp := Spaces(offset);
    SpacesSpec(offset);
    assert r[|r| - 2..] == "^\n";
    assert forall i :: 0 <= i < |sp| ==> r[i] == sp[i];
  }

  /** `doc.lstrip('\n').rstrip()` */
  function DocText(doc: string): string
  {
    RStrip(LStrip(doc, '\n'))
  }

  /** The documentation line is the doc cut at one place: only newlines go
      before it, only whitespace after, and it neither starts with a newline
      nor ends with whitespace. */
  lemma DocTextTrimmed(doc: string)
    ensures var r := DocText(doc);
      && (r == [] || (r[0] != '\n' && !IsSpace(r[|r| - 1])))
      && TrimmedAt(doc, r, |doc| - |LStrip(doc, '\n')|, '\n')
  {
    StripBoth(doc, '\n');
  }

  /** The echo of a diagnostic raises: the source is shown and its line index is out of range. */
  predicate Crashes(L: Layout, d: Diagnostic)
  {
    L.showSource && SourceLine(L.lines, d.lineNumber).None?
  }

  predicate AnyCrash(L: Layout, ds: seq<Diagnostic>)
  {
    exists i :: 0 <= i < |ds| && Crashes(L, ds[i])
  }

  /** How many chunks one diagnostic produces when nothing raises. */
  function ChunkCount(L: Layout, d: Diagnostic): nat
  {
    1 + (if L.showSource then 2 else 0) + (if L.showPep8 && d.doc != "" then 1 else 0)
  }

  /** The source echo of d: the right-stripped line and the caret line, nothing when it raises. */
  function Echo(L: Layout, d: Diagnostic): seq<string>
  {
    if !L.showSource then []
    else match SourceLine(L.lines, d.lineNumber)
      case None => []
      case Some(line) => [RStrip(line) + "\n", Caret(d.offset)]
  }

  /** The documentation chunk of d, written only when the echo did not raise. */
  function DocPart(L: Layout, d: Diagnostic): seq<string>
  {
    if !Crashes(L, d) && L.showPep8 && d.doc != "" then [DocText(d.doc) + "\n"] else []
  }

  /** What one pass of the loop writes for d; it stops after the header when the echo raises. */
  function Emitted(L: Layout, d: Diagnostic): seq<string>
  {
    [Header(L, d)] + Echo(L, d) + DocPart(L, d)
  }

  /**
   * The chunks of one diagnostic: its header first; then, with the source
   * shown, the right-stripped source line and the caret line; then, with
   * the documentation shown and a doc present, the trimmed doc. When the
   * echo raises, only the header was written.
   */
  lemma EmittedShape(L: Layout, d: Diagnostic)
    ensures var w := Emitted(L, d);
      && |w| >= 1 && w[0] == Header(L, d)
      && (Crashes(L, d) ==> w == [Header(L, d)])
      && (!Crashes(L, d) ==> |w| == ChunkCount(L, d))
      && (!Crashes(L, d) && L.showSource ==>
            w[1] == RStrip(SourceLine(L.lines, d.lineNumber).value) + "\n" && w[2] == Caret(d.offset))
      && (!Crashes(L, d) && L.showPep8 && d.doc != "" ==> w[|w| - 1] == DocText(d.doc) + "\n")
  {
  }

  /** Everything the loop writes for ds, up to and including the diagnostic whose echo raises. */
  function RenderAll(L: Layout, ds: seq<Diagnostic>): seq<string>
  {
    if ds == [] then []
    else Emitted(L, ds[0]) + (if Crashes(L, ds[0]) then [] else RenderAll(L, ds[1..]))
  }

  function DocCount(ds: seq<Diagnostic>): nat
  {
    if ds == [] then 0 else (if ds[0].doc != "" then 1 else 0) + DocCount(ds[1..])
  }

  /** Output for a list that does not raise, followed by more output. */
  lemma {:induction false} RenderAppend(L: Layout, a: seq<Diagnostic>, b: seq<Diagnostic>)
    requires !AnyCrash(L, a)
    ensures RenderAll(L, a + b) == RenderAll(L, a) + RenderAll(L, b)
  {
    if a == [] {
      assert a + b == b;
    } else {
      assert Crashes(L, a[0]) ==> AnyCrash(L, a);
      assert (a + b)[0] == a[0] && (a + b)[1..] == a[1..] + b;
      assert AnyCrash(L, a[1..]) ==> AnyCrash(L, a);
      RenderAppend(L, a[1..], b);
    }
  }

  /** Each diagnostic, in list order, produces 1 + 2·[show source] + [show doc and doc non-empty] chunks. */
  lemma {:induction false} RenderLength(L: Layout, ds: seq<Diagnostic>)
    requires !AnyCrash(L, ds)
    ensures |RenderAll(L, ds)| ==
      |ds| + (if L.showSource then 2 * |ds| else 0) + (if L.showPep8 then DocCount(ds) else 0)
  {
    if ds != [] {
      assert !Crashes(L, ds[0]);
      assert !AnyCrash(L, ds[1..]);
      RenderLength(L, ds[1..]);
    }
  }

  /** The chunks of the i-th diagnostic follow those of all earlier ones and precede all later ones. */
  lemma RenderAt(L: Layout, ds: seq<Diagnostic>, i: int)
    requires 0 <= i < |ds| && !AnyCrash(L, ds)
    ensures RenderAll(L, ds) == RenderAll(L, ds[..i]) + Emitted(L, ds[i]) + RenderAll(L, ds[i + 1..])
  {
    assert ds == ds[..i] + ([ds[i]] + ds[i + 1..]);
    assert !AnyCrash(L, ds[..i]);
    RenderAppend(L, ds[..i], [ds[i]] + ds[i + 1..]);
    assert !Crashes(L, ds[i]);
    assert ([ds[i]] + ds[i + 1..])[1..] == ds[i + 1..];
  }

  /** None of the first n diagnostics raises. */
  predicate NoCrashBefore(L: Layout, ds: seq<Diagnostic>, n: int)
  {
    forall j :: 0 <= j < n && j < |ds| ==> !Crashes(L, ds[j])
  }

  /** The output from the i-th diagnostic on: its chunks, then the rest unless it raised. */
  lemma RenderFrom(L: Layout, ds: seq<Diagnostic>, i: int)
    requires 0 <= i < |ds|
    ensures RenderAll(L, ds[i..]) ==
      Emitted(L, ds[i]) + (if Crashes(L, ds[i]) then [] else RenderAll(L, ds[i + 1..]))
  {
    assert ds[i..][0] == ds[i] && ds[i..][1..] == ds[i + 1..];
  }

  /** A pass of the loop whose echo raised: the output is complete. */
  lemma RenderStop(L: Layout, ds: seq<Diagnostic>, i: int, all: seq<string>, before: seq<string>)
    requires 0 <= i < |ds| && Crashes(L, ds[i])
    requires all == before + RenderAll(L, ds[i..])
    ensures all == before + Emitted(L, ds[i]) && AnyCrash(L, ds)
  {
    RenderFrom(L, ds, i);
    assert Emitted(L, ds[i]) + [] == Emitted(L, ds[i]);
  }

  /** A pass of the loop that did not raise: the output from i + 1 on is left to write. */
  lemma RenderGo(L: Layout, ds: seq<Diagnostic>, i: int, all: seq<string>, before: seq<string>)
    requires 0 <= i < |ds| && !Crashes(L, ds[i]) && NoCrashBefore(L, ds, i)
    requires all == before + RenderAll(L, ds[i..])
    ensures all == before + Emitted(L, ds[i]) + RenderAll(L, ds[i + 1..])
    ensures NoCrashBefore(L, ds, i + 1)
  {
    RenderFrom(L, ds, i);
    var e := Emitted(L, ds[i]);
    var rest := RenderAll(L, ds[i + 1..]);
    assert before + (e + rest) == before + e + rest;
  }

  class TissueReport {
    var deferredPrint: seq<Diagnostic>
    const filename: string
    const lineOffset: int
    const lines: seq<string>
    const showSource: bool
    const showPep8: bool
    const fmt: Format
    /** `file_errors`, `total_errors` and the lines of `get_statistics()`, all pycodestyle's. */
    const fileErrors: int
    const totalErrors: int
    const statistics: seq<string>

    constructor (deferredPrint: seq<Diagnostic>, filename: string, lineOffset: int,
                 lines: seq<string>, showSource: bool, showPep8: bool, fmt: Format,
                 fileErrors: int, totalErrors: int, statistics: seq<string>)
      ensures this.deferredPrint == deferredPrint && this.filename == filename
      ensures this.lineOffset == lineOffset && this.lines == lines
      ensures this.showSource == showSource && this.showPep8 == showPep8 && this.fmt == fmt
      ensures this.fileErrors == fileErrors && this.totalErrors == totalErrors
      ensures this.statistics == statistics
    {
      this.deferredPrint := deferredPrint;
      this.filename := filename;
      this.lineOffset := lineOffset;
      this.lines := lines;
      this.showSource := showSource;
      this.showPep8 := showPep8;
      this.fmt := fmt;
      this.fileErrors := fileErrors;
      this.totalErrors := totalErrors;
      this.statistics := statistics;
    }

    function Settings(): Layout
    {
      Layout(filename, lineOffset, lines, showSource, showPep8, fmt)
    }

    /** The source echo of one pass: the stripped line and the caret, or an `IndexError`. */
    method WriteEcho(stream: Stream, d: Diagnostic) returns (raised: bool)
      modifies stream
      ensures raised == Crashes(Settings(), d)
      ensures stream.written == old(stream.written) + Echo(Settings(), d)
    {
      if showSource {
        var line := SourceLine(lines, d.lineNumber);
        if line.None? {
          return true;
        }
        stream.Write(RStrip(line.value) + "\n");
        stream.Write(Spaces(d.offset) + "^\n");
      }
      return false;
    }

    /** One pass of the loop of `get_file_results`: the chunks of d, and whether the echo raised. */
    method WriteDiagnostic(stream: Stream, d: Diagnostic) returns (raised: bool)
      modifies stream
      ensures raised == Crashes(Settings(), d)
      ensures stream.written == old(stream.written) + Emitted(Settings(), d)
    {
      ghost var L := Settings();
      ghost var w0 := stream.written;
      stream.Write(fmt(filename, lineOffset + d.lineNumber, d.offset + 1, d.code, d.text) + "\n");
      raised := WriteEcho(stream, d);
      if raised {
        assert Emitted(L, d) == [Header(L, d)] + [] + [];
        return;
      }
      ghost var w2 := stream.written;
      if showPep8 && d.doc != "" {
        stream.Write(DocText(d.doc) + "\n");
      }
      assert stream.written == w2 + DocPart(L, d);
      assert w0 + ([Header(L, d)] + Echo(L, d) + DocPart(L, d))
        == w0 + [Header(L, d)] + Echo(L, d) + DocPart(L, d);
    }

    /** The loop of `get_file_results` over the sorted list ds. */
    method WriteAll(stream: Stream, ds: seq<Diagnostic>) returns (raised: bool)
      modifies stream
      ensures raised == AnyCrash(Settings(), ds)
      ensures stream.written == old(stream.written) + RenderAll(Settings(), ds)
    {
      var L := Settings();
      ghost var all := old(stream.written) + RenderAll(L, ds);
      var i := 0;
      while i < |ds|
        invariant 0 <= i <= |ds|
        invariant NoCrashBefore(L, ds, i)
        invariant all == stream.written + RenderAll(L, ds[i..])
      {
        ghost var before := stream.written;
        var crashed := WriteDiagnostic(stream, ds[i]);
        if crashed {
          RenderStop(L, ds, i, all, before);
          return true;
        }
        RenderGo(L, ds, i, all, before);
        i := i + 1;
      }
      assert !AnyCrash(L, ds);
      return false;
    }

    /**
     * `get_file_results(stream)`: the deferred list becomes its sorted
     * permutation, the stream receives the chunks of every diagnostic in
     * that order, and the result is `file_errors`, unchanged, unless an
     * echo raised.
     */
    method GetFileResults(stream: Stream) returns (res: Outcome)
      modifies this`deferredPrint, stream
      ensures deferredPrint == Sort(old(deferredPrint))
      ensures Sorted(deferredPrint) && multiset(deferredPrint) == multiset(old(deferredPrint))
      ensures stream.written == old(stream.written) + RenderAll(Settings(), deferredPrint)
      ensures res == if AnyCrash(Settings(), deferredPrint) then IndexError else Returned(fileErrors)
    {
      SortSpec(deferredPrint);
      deferredPrint := Sort(deferredPrint);
      var raised := WriteAll(stream, deferredPrint);
      res := if raised then IndexError else Returned(fileErrors);
    }
  }
}
