# tissue: a Dafny model

tissue is a nose plugin that runs the pycodestyle (PEP 8) checker over the
Python files of a test run and prints pycodestyle's report at the end. This
project models the plugin's own logic, which all lives in `tissue.py`:

- **Colouring** (`Color`): `in_color` wraps each line of a text, line ending
  included, between an ANSI colour escape and the reset escape.
- **Diagnostics** (`Diagnostics`): a diagnostic is the tuple
  `(line_number, offset, code, text, doc)`. Python orders such tuples
  lexicographically, and `list.sort()` sorts the per-file list by that order.
- **File report** (`Report`): `TissueReport.get_file_results` sorts the
  deferred diagnostics. For each one it writes:
  - a formatted header line;
  - when asked, the offending source line and a caret under its column;
  - when asked, the trimmed documentation text.

  It returns the file's error count.
- **File selection** (`Selection`, `Plugin`): `seen` keeps the per-run
  `seen_files` list. `want_file` applies the `--tissue-package` allow-list.
  `beforeImport`, and the runner that `beforeDirectory` installs, pass each
  wanted file to the checker's `input_file`. `wantFile` is the inclusive-mode
  vote.
- **Configuration** (`Configuration`, `Plugin`): `configure` flattens the
  package lists and builds the argument vector handed to pycodestyle.
- **End of run** (`Plugin`): `report` writes the banner, the file results and
  the optional statistics. It exits with status 1 when it fails on errors and
  errors were counted.

Two parts are modelled as classes whose fields change, because the source
changes them in place:

- `Tissue` holds `seen_files`, and the checker it drives holds the files
  handed to it.
- `TissueReport` holds the deferred list it sorts in place, and it writes to
  a `Stream`.

Each of those methods is proved against pure functions of the old state
(`Record`, `Want`, `Step`, `Run`, `Sort`, `RenderAll`). The properties are
proved about those functions.

Python 3 `str` semantics are written out where the code depends on them
(Python 2 byte strings would strip and split on ASCII characters only):

- negative list indexing, and an `IndexError` below the first line;
- `str.rstrip()` with Python's whitespace set, and `lstrip('\n')`;
- `in` between strings as substring search, `startswith` and `endswith`;
- `splitlines(True)`, counting `\r\n` as one break and using every line
  boundary Python recognises;
- `' ' * n` for a negative `n`;
- code-point order for strings.

Error paths are outcomes, not preconditions:

- `in_color` with an unknown colour is `None`, which stands for `KeyError`;
- the source echo's `IndexError` is `Outcome.IndexError` and
  `RunEnd.Raised`;
- `sys.exit(1)` is `RunEnd.Exit(1)`.

`self._deferred_print.sort()` sorts by the whole tuple: line number, then
offset, then code, text and doc. Two diagnostics at the same line and column
are therefore ordered by code, then text, then doc. `Diagnostics.SortedUnique`
shows the order is total: any two sorted permutations of a list are equal. So
the insertion sort used here gives exactly the list `list.sort()` produces.

## Model

| member | source | states |
|---|---|---|
| PyStr.RStripSpec | tissue.py:52 | `line.rstrip()` is a prefix of the line, does not end in whitespace, and only whitespace was removed |
| PyStr.LStripSpec | tissue.py:55 | `doc.lstrip('\n')` is a suffix of the doc, does not start with a newline, and only newlines were removed |
| PyStr.StripBoth | tissue.py:55 | stripping both ends leaves a piece that occurs in the doc, with only newlines before it and only whitespace after it, and neither end is strippable |
| PyStr.Contains | tissue.py:79 | `package in file_pkg` holds exactly when the entry occurs somewhere in the package name |
| PyStr.SpacesSpec | tissue.py:53 | `' ' * offset` has `max(offset, 0)` characters, all spaces |
| PyStr.SplitLinesSpec | tissue.py:27 | `splitlines(True)` cuts the text into lines whose concatenation is the text; there are none exactly for the empty text; every line but the last ends in a line break, holds no other break, and is non-empty |
| PyStr.SplitLinesKeepsCrLf | tissue.py:27 | `splitlines(True)` treats `\r\n` as one break: a line ending in `\r` is never followed by a line starting with `\n` |
| PyStr.ConcatAppend | tissue.py:26 | `''.join` of two lists of pieces is the join of the first followed by the join of the second |
| Color.InColor | tissue.py:21-27 | `in_color` fails (`KeyError`) exactly when the colour is unknown and the text has a line; the empty text gives `''` whatever the colour |
| Color.InColorRoundTrip | tissue.py:21-27 | for a known colour, the output is one piece per line; every piece starts with the colour's escape and ends with the reset escape; stripping those and joining gives back the text |
| Color.ColoredLength | tissue.py:17-27 | colouring adds 13 characters per line: 7 for the colour escape and 6 for the reset |
| Color.UnwrapWrap | tissue.py:26 | removing the escapes from each wrapped piece gives back the lines |
| Diagnostics.LeTotal | tissue.py:40 | any two diagnostic tuples are comparable in Python's tuple order |
| Diagnostics.LeAntisym | tissue.py:40 | two tuples that are each `<=` the other are equal |
| Diagnostics.LeTrans | tissue.py:40 | tuple order is transitive |
| Diagnostics.InsertSpec | tissue.py:40 | inserting into a sorted list keeps it sorted and adds exactly the one element |
| Diagnostics.SortSpec | tissue.py:40 | the sorted list is in tuple order and is a permutation of the input |
| Diagnostics.SortedUnique | tissue.py:40 | two sorted permutations of one list are equal, so every correct sort gives the same list |
| Diagnostics.SortIdempotent | tissue.py:40 | sorting an already sorted list changes nothing |
| Report.CaretShape | tissue.py:53 | the caret line has as many spaces as the offset (none for a negative one), then `^` and a newline |
| Report.DocTextTrimmed | tissue.py:55 | the doc line is the doc cut at one place, with only newlines before it and only whitespace after it |
| Report.EmittedShape | tissue.py:42-55 | one diagnostic writes its header first. On `IndexError`, only the header is written. Otherwise it writes 1 + 2·[show source] + [show doc and doc present] chunks, in order: the source line, the caret, the doc |
| Report.RenderAppend | tissue.py:41-55 | without an `IndexError`, the output for two lists one after the other is the output for the first followed by the output for the second |
| Report.RenderLength | tissue.py:41-55 | without an `IndexError`, the file's output has one header write per diagnostic, two echo writes each when the source is shown, and one write per doc present when docs are shown (a doc write can span several physical lines) |
| Report.RenderAt | tissue.py:41-55 | without an `IndexError`, the chunks of the i-th diagnostic follow those of all earlier ones and precede those of all later ones |
| Report.TissueReport.WriteEcho | tissue.py:47-53 | the source echo writes the stripped line and the caret, or raises `IndexError` having written nothing |
| Report.TissueReport.WriteDiagnostic | tissue.py:42-55 | one pass of the loop writes exactly the chunks of that diagnostic and reports whether the echo raised |
| Report.TissueReport.WriteAll | tissue.py:41-55 | the loop writes the chunks of every diagnostic in list order and stops right after the first one whose echo raises; it raises exactly when some diagnostic's echo does |
| Report.TissueReport.GetFileResults | tissue.py:36-56 | the deferred list is replaced by its sorted permutation; the stream receives the output for that order; the result is `file_errors`, or `IndexError` exactly when some echo raises |
| Selection.Record | tissue.py:69-73 | `seen_files` only grows; it gains the file exactly when the file was missing; it keeps having no duplicates |
| Selection.SeenListSpec | tissue.py:65-73 | after any sequence of `seen` calls from `begin`, `seen_files` has no duplicates and holds exactly the files asked about |
| Selection.SeenListGrows | tissue.py:69-73 | `seen_files` is append-only: an earlier list is a prefix of every later one |
| Selection.SeenAnswers | tissue.py:69-73 | a `seen` call answers True exactly when the same file was asked about earlier in the run; otherwise the file is appended |
| Selection.SelectPreserves | tissue.py:87-89 | one runner call keeps the run invariant: the files dispatched since `begin` are distinct and all recorded, and `seen_files` has no duplicates |
| Selection.StepPreserves | tissue.py:86-95 | one hook keeps the run invariant and only appends to `seen_files` and to the dispatched files |
| Selection.RunPreserves | tissue.py:86-95 | any sequence of hooks keeps the run invariant and only appends to both lists |
| Selection.DispatchedAtMostOnce | tissue.py:65-95 | from `begin` on, any interleaving of `beforeImport` and walk-runner calls hands each file to `input_file` at most once |
| Selection.ImportsDispatchOnlyPy | tissue.py:93-95 | `beforeImport` only ever hands files whose names end in `.py` to the checker |
| Selection.RejectedNeverRecorded | tissue.py:75-95 | a file whose package matches no allow-list entry is never dispatched and never added to `seen_files` |
| Selection.AnyPrefix | tissue.py:199-201 | the search over the allow-list succeeds exactly when some entry is a prefix of the package |
| Selection.InclusiveWant | tissue.py:195-204 | `wantFile` never answers False. It answers True exactly when inclusive mode is on, the name ends in `.py`, and either there is no package, the package is empty, there is no allow-list, or some entry is a prefix of the package. Otherwise it answers None |
| Configuration.FlattenSnoc | tissue.py:104-105 | extending by one more split list appends that list to the allow-list |
| Configuration.FlattenMembers | tissue.py:103-105 | a name is in the allow-list exactly when it is in one of the split `--tissue-package` lists |
| Configuration.ExtendPackages | tissue.py:100-105 | the `extend` loop leaves the in-order concatenation of the split lists, which is empty without the option |
| Configuration.BuildArgList | tissue.py:111-127 | the appends build exactly the argument vector |
| Configuration.ParseSwitch | tissue.py:111-127 | a present switch flag sets its setting, and an absent one leaves the settings alone |
| Configuration.ParseValued | tissue.py:115-121 | a present `--select` or `--ignore` sets that code list to the value after it, and an absent one leaves it unset |
| Configuration.ArgVectorRoundTrip | tissue.py:111-129 | reading the argument vector back gives exactly the repeat, select, ignore, show-source and show-pep8 settings the options asked for, whatever the select and ignore strings hold |
| Plugin.Checker.InputFile | tissue.py:88-95 | `input_file` appends the file to those to be checked |
| Plugin.Tissue.Configure | tissue.py:97-131 | the allow-list is the flattened package lists; the switches are kept; the checker is built, fresh and empty, from the argument vector; no file is seen |
| Plugin.Tissue.Begin | tissue.py:65-67 | a run starts with no message and no file seen, and the run invariant holds |
| Plugin.Tissue.Seen | tissue.py:69-73 | answers True exactly when the file was in `seen_files`; the list becomes `Record` of the old list; the invariant is kept |
| Plugin.Tissue.WantFile | tissue.py:75-84 | answers True exactly when the allow-list is empty or some entry is contained in the file's package, and the file was not seen. The file is recorded exactly when the allow-list passes it |
| Plugin.Tissue.SeenRunner | tissue.py:87-89 | the runner moves the state one walk step |
| Plugin.Tissue.BeforeDirectory | tissue.py:86-91 | the walk moves the state through one runner call per walked file, in order, keeping the run invariant |
| Plugin.Tissue.BeforeImport | tissue.py:93-95 | the import hook moves the state one import step. A non-`.py` name changes nothing |
| Plugin.Tissue.Report | tissue.py:183-193 | the stream receives the banner, the file results and, when asked and nothing raised, the joined statistics. The end is `Raised` on an `IndexError`; otherwise `Exit(1)` exactly when failing on errors is on and errors were counted; otherwise normal completion |

## Left out

- pycodestyle itself is not part of this model. That covers checking, `check_files`, `process_options`, `StyleGuide`, `init_report`, `_fmt` and `get_statistics`. The format is a function parameter of the report. The statistics lines and the error counts are given values. An argument reader stands in for `process_options`.
- `options()` only registers command-line options with nose's parser, so it is not modelled. The environment-variable defaults are not modelled either. One of them matters: a `NOSE_TISSUE_PACKAGE` string default would be iterated character by character.
- nose's `util.getpackage` is a function parameter that returns a string. If it returns `None` under an allow-list, `package in None` raises `TypeError`, and that case is not modelled.
- nose's `util.tolist` is not modelled: each `--tissue-package` occurrence arrives already split into a list.
- `Plugin.Tissue.BeforeDirectory`: the directory walk (`input_dir`) is replaced by the list of files it offers to the runner. Assigning the runner to `pycodestyle.runner` is not modelled.
- `Plugin.Tissue.BeforeImport`: the `module` argument is unused by the source and not modelled.
- The `configure` lines that do not affect the model are left out: `plugins.Plugin.configure` (the enabled flag), `self.conf`, and the `log.info` and `log.error` calls.
- `sys.exit` is the `RunEnd.Exit` outcome.
- `sys.stdout` as the default stream: the stream is a parameter.
- `Plugin.Tissue.Seen`: the `AttributeError` from calling `seen` before `begin` is not modelled. The model's `seen_files` starts empty in `configure`.
- A diagnostic's `doc` of `None` is the empty string, since both are false. In Python 3, sorting two tuples that tie on the first four fields raises `TypeError` when one doc is `None` and the other a string; that case is not modelled.
- `messages` is only cleared by `begin` and never read, so it is only a field.
- The string order is by code point, which is how Python compares `str` values.
