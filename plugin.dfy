/**
 * The `Tissue` nose plugin (tissue.py): configuration, the per-run
 * `seen_files` list, the hooks that hand files to pycodestyle, and the
 * end-of-run report.
 */
module Plugin {
  import opened Wrappers
  import opened PyStr
  import opened Diagnostics
  import opened Selection
  import opened Configuration
  import opened Report

  /** The part of pycodestyle's `StyleGuide` the plugin drives: its arguments and `input_file`. */
  class Checker {
    const args: seq<string>
    var dispatched: seq<string>

    constructor (args: seq<string>)
      ensures this.args == args && dispatched == []
    {
      this.args := args;
      dispatched := [];
    }

    /** `input_file(filename)`: the file joins those to be checked. */
    method InputFile(filename: string)
      modifies this`dispatched
      ensures dispatched == old(dispatched) + [filename]
    {
      dispatched := dispatched + [filename];
    }
  }

  /** How `report` ends: it returns, calls `sys.exit(status)`, or the report raised `IndexError`. */
  datatype RunEnd = Completed | Exit(status: int) | Raised

  const Banner: string := "\nPEP8:\n"

  class Tissue {
    const tissuePackages: seq<string>
    const tissueInclusive: bool
    const tissueStatistics: bool
    const tissueFailOnError: bool
    /** nose's `util.getpackage`. */
    const packageOf: string -> string
    const pycodestyle: Checker
    var messages: seq<string>
    var seenFiles: seq<string>
    /** How many files the checker held when the run began. */
    ghost var runStart: nat

    function Sel(): Selector
    {
      Selector(tissuePackages, packageOf)
    }

    function State(): RunState
      reads this, pycodestyle
    {
      RunState(seenFiles, pycodestyle.dispatched)
    }

    ghost predicate Valid()
      reads this, pycodestyle
    {
      RunInvariant(State(), runStart)
    }

    /**
     * `configure(options, config)`: the allow-list is the concatenation of
     * the split package lists, the switches are kept, and the checker is
     * built from the argument vector.
     */
    constructor Configure(opts: Options, packageOf: string -> string)
      ensures tissuePackages == Flatten(opts.packages)
      ensures tissueInclusive == opts.inclusive && tissueStatistics == opts.statistics
      ensures tissueFailOnError == opts.failOnError && this.packageOf == packageOf
      ensures fresh(pycodestyle) && pycodestyle.args == ArgVector(opts) && pycodestyle.dispatched == []
      ensures seenFiles == [] && messages == []
      ensures Valid()
    {
      var packages := ExtendPackages(opts.packages);
      tissuePackages := packages;
      tissueStatistics := opts.statistics;
      tissueFailOnError := opts.failOnError;
      tissueInclusive := opts.inclusive;
      this.packageOf := packageOf;
      var arglist := BuildArgList(opts);
      pycodestyle := new Checker(arglist);
      messages := [];
      seenFiles := [];
      runStart := 0;
    }

    /** `begin()`: a new run starts with no file seen. */
    method Begin()
      modifies this`messages, this`seenFiles, this`runStart
      ensures messages == [] && seenFiles == []
      ensures runStart == |pycodestyle.dispatched|
      ensures Valid()
    {
      messages := [];
      seenFiles := [];
      runStart := |pycodestyle.dispatched|;
    }

    /** `seen(filename)`: True if the file was recorded before; otherwise it is recorded now. */
    method Seen(filename: string) returns (r: bool)
      requires Valid()
      modifies this`seenFiles
      ensures r == (filename in old(seenFiles))
      ensures seenFiles == Record(old(seenFiles), filename)
      ensures Valid()
    {
      if filename !in seenFiles {
        seenFiles := seenFiles + [filename];
        return false;
      }
      return true;
    }

    /**
     * `want_file(filename)`: without an allow-list, True exactly for a file
     * not seen before, which is recorded. With one, an entry contained in
     * the file's package is needed as well, and the file is recorded only
     * when some entry is.
     */
    method WantFile(filename: string) returns (r: bool)
      requires Valid()
      modifies this`seenFiles
      ensures r == Want(Sel(), old(seenFiles), filename)
      ensures seenFiles == SeenAfterWant(Sel(), old(seenFiles), filename)
      ensures Valid()
    {
      if tissuePackages != [] {
        var filePkg := packageOf(filename);
        var i := 0;
        while i < |tissuePackages|
          invariant 0 <= i <= |tissuePackages|
          invariant Valid()
          invariant seenFiles == old(seenFiles)
          invariant (exists j :: 0 <= j < i && Contains(filePkg, tissuePackages[j])) ==>
            filename in old(seenFiles)
        {
          if Contains(filePkg, tissuePackages[i]) {
            var s := Seen(filename);
            if !s {
              return true;
            }
          }
          i := i + 1;
        }
      } else {
        var s := Seen(filename);
        if !s {
          return true;
        }
      }
      return false;
    }

    /** `seen_runner(filename)`, the runner `beforeDirectory` installs. */
    method SeenRunner(filename: string)
      requires Valid()
      modifies this`seenFiles, pycodestyle`dispatched
      ensures State() == Step(Sel(), old(State()), WalkHook(filename))
      ensures Valid()
    {
      StepPreserves(Sel(), State(), runStart, WalkHook(filename));
      var w := WantFile(filename);
      if w {
        pycodestyle.InputFile(filename);
      }
    }

    /**
     * `beforeDirectory(path)`: pycodestyle's `input_dir` walks the
     * directory and calls the runner for each file it keeps, here the list
     * `walked`, in order.
     */
    method BeforeDirectory(walked: seq<string>)
      requires Valid()
      modifies this`seenFiles, pycodestyle`dispatched
      ensures State() == Run(Sel(), old(State()), WalkHooks(walked))
      ensures Valid()
    {
      ghost var st0 := State();
      var i := 0;
      while i < |walked|
        invariant 0 <= i <= |walked|
        invariant Valid()
        invariant State() == Run(Sel(), st0, WalkHooks(walked[..i]))
      {
        SeenRunner(walked[i]);
        assert WalkHooks(walked[..i + 1])[..i] == WalkHooks(walked[..i]);
        i := i + 1;
      }
      assert walked[..i] == walked;
    }

    /** `beforeImport(filename, module)`: only a `.py` file is offered to `want_file` and then checked. */
    method BeforeImport(filename: string)
      requires Valid()
      modifies this`seenFiles, pycodestyle`dispatched
      ensures State() == Step(Sel(), old(State()), ImportHook(filename))
      ensures !EndsWith(filename, ".py") ==> State() == old(State())
      ensures Valid()
    {
      StepPreserves(Sel(), State(), runStart, ImportHook(filename));
      if EndsWith(filename, ".py") {
        var w := WantFile(filename);
        if w {
          pycodestyle.InputFile(filename);
        }
      }
    }

    /**
     * `report(stream)`, given the report `check_files` returned: the banner,
     * the file results, the statistics when asked for, and exit status 1
     * exactly when failing on errors is on and the report counted any.
     */
    method Report(rep: TissueReport, stream: Stream) returns (end: RunEnd)
      modifies rep`deferredPrint, stream
      ensures rep.deferredPrint == Sort(old(rep.deferredPrint))
      ensures var body := RenderAll(rep.Settings(), rep.deferredPrint);
        var raised := AnyCrash(rep.Settings(), rep.deferredPrint);
        stream.written == old(stream.written) + [Banner] + body
          + (if !raised && tissueStatistics then [Join("\n", rep.statistics) + "\n"] else [])
      ensures end ==
        if AnyCrash(rep.Settings(), rep.deferredPrint) then Raised
        else if tissueFailOnError && rep.totalErrors != 0 then Exit(1)
        else Completed
    {
      stream.Write(Banner);
      var res := rep.GetFileResults(stream);
      if res.IndexError? {
        return Raised;
      }
      if tissueStatistics {
        stream.Write(Join("\n", rep.statistics) + "\n");
      }
      if tissueFailOnError && rep.totalErrors != 0 {
        return Exit(1);
      }
      return Completed;
    }
  }
}
