/**
 * `Tissue.configure` (tissue.py): the allow-list built from the
 * `--tissue-package` options and the argument vector handed to
 * pycodestyle's option parser.
 */
module Configuration {
  import opened Wrappers

  /**
   * The options `configure` reads, after Python truthiness: an absent
   * `--tissue-select` or `--tissue-ignore` is "" (None and '' are both
   * false). `packages` holds one already split list per occurrence of
   * `--tissue-package`, empty when the option is not given.
   */
  datatype Options = Options(
    packages: seq<seq<string>>,
    inclusive: bool,
    repeat: bool,
    select: string,
    ignore: string,
    showSource: bool,
    showPep8: bool,
    statistics: bool,
    failOnError: bool)

  /** The lists one after another. */
  function Flatten(lists: seq<seq<string>>): seq<string>
  {
    if lists == [] then [] else lists[0] + Flatten(lists[1..])
  }

  lemma {:induction false} FlattenSnoc(lists: seq<seq<string>>, last: seq<string>)
    ensures Flatten(lists + [last]) == Flatten(lists) + last
  {
    if lists == [] {
      assert lists + [last] == [last];
    } else {
      assert (lists + [last])[1..] == lists[1..] + [last];
      FlattenSnoc(lists[1..], last);
    }
  }

  /** The allow-list holds exactly the entries of the given lists. */
  lemma {:induction false} FlattenMembers(lists: seq<seq<string>>, x: string)
    ensures x in Flatten(lists) <==> exists i :: 0 <= i < |lists| && x in lists[i]
  {
    if lists != [] {
      FlattenMembers(lists[1..], x);
      assert forall i :: 1 <= i < |lists| ==> lists[i] == lists[1..][i - 1];
    }
  }

  /**
   * The `extend` loop of `configure`: the allow-list is the in-order
   * concatenation of the split lists, so it is empty without the option.
   */
  method ExtendPackages(lists: seq<seq<string>>) returns (packages: seq<string>)
    ensures packages == Flatten(lists)
    ensures lists == [] ==> packages == []
  {
    packages := [];
    var i := 0;
    while i < |lists|
      invariant 0 <= i <= |lists|
      invariant packages == Flatten(lists[..i])
    {
      FlattenSnoc(lists[..i], lists[i]);
      assert lists[..i + 1] == lists[..i] + [lists[i]];
      packages := packages + lists[i];
      i := i + 1;
    }
    assert lists[..i] == lists;
  }

  /** The flag of a switch, when it is on. */
  function SwitchArgs(flag: string, on: bool): seq<string>
  {
    if on then [flag] else []
  }

  /** The flag of a code list and its value, when one is given. */
  function ValuedArgs(flag: string, value: string): seq<string>
  {
    if value != "" then [flag, value] else []
  }

  /** The argument vector: each option's flag, with its value after it, in a fixed order. */
  function ArgVector(o: Options): seq<string>
  {
    SwitchArgs("--repeat", o.repeat)
    + ValuedArgs("--select", o.select)
    + ValuedArgs("--ignore", o.ignore)
    + SwitchArgs("--show-source", o.showSource)
    + SwitchArgs("--show-pep8", o.showPep8)
  }

  /** The `arglist.append` steps of `configure`. */
  method BuildArgList(o: Options) returns (arglist: seq<string>)
    ensures arglist == ArgVector(o)
  {
    arglist := [];
    if o.repeat {
      arglist := arglist + ["--repeat"];
    }
    ghost var a := arglist;
    assert a == SwitchArgs("--repeat", o.repeat);
    if o.select != "" {
      arglist := arglist + ["--select"];
      arglist := arglist + [o.select];
    }
    ghost var b := arglist;
    assert b == a + ValuedArgs("--select", o.select);
    if o.ignore != "" {
      arglist := arglist + ["--ignore"];
      arglist := arglist + [o.ignore];
    }
    ghost var c := arglist;
    assert c == b + ValuedArgs("--ignore", o.ignore);
    if o.showSource {
      arglist := arglist + ["--show-source"];
    }
    ghost var d := arglist;
    assert d == c + SwitchArgs("--show-source", o.showSource);
    if o.showPep8 {
      arglist := arglist + ["--show-pep8"];
    }
    assert arglist == d + SwitchArgs("--show-pep8", o.showPep8);
  }

  /** What the checker reads back from the vector. */
  datatype CheckerSettings = CheckerSettings(
    repeat: bool, select: string, ignore: string, showSource: bool, showPep8: bool)

  const Unset := CheckerSettings(false, "", "", false, false)

  /**
   * A reference reader of such a vector: flags set their switch,
   * `--select` and `--ignore` take the next argument whatever it is, and
   * anything else is rejected.
   */
  function ParseArgs(args: seq<string>, acc: CheckerSettings): Option<CheckerSettings>
    decreases |args|
  {
    if args == [] then Some(acc)
    else if args[0] == "--repeat" then ParseArgs(args[1..], acc.(repeat := true))
    else if args[0] == "--select" && |args| >= 2 then ParseArgs(args[2..], acc.(select := args[1]))
    else if args[0] == "--ignore" && |args| >= 2 then ParseArgs(args[2..], acc.(ignore := args[1]))
    else if args[0] == "--show-source" then ParseArgs(args[1..], acc.(showSource := true))
    else if args[0] == "--show-pep8" then ParseArgs(args[1..], acc.(showPep8 := true))
    else None
  }

  /** Reading the optional flag of a switch off the front. */
  lemma ParseSwitch(flag: string, on: bool, rest: seq<string>, acc: CheckerSettings)
    requires flag in {"--repeat", "--show-source", "--show-pep8"}
    ensures ParseArgs(SwitchArgs(flag, on) + rest, acc) ==
      ParseArgs(rest,
        if !on then acc
        else if flag == "--repeat" then acc.(repeat := true)
        else if flag == "--show-source" then acc.(showSource := true)
        else acc.(showPep8 := true))
  {
    var a := SwitchArgs(flag, on) + rest;
    if on {
      assert a[0] == flag && a[1..] == rest;
    } else {
      assert a == rest;
    }
  }

  /** Reading the optional flag of a code list and its value off the front. */
  lemma ParseValued(flag: string, value: string, rest: seq<string>, acc: CheckerSettings)
    requires flag in {"--select", "--ignore"}
    ensures ParseArgs(ValuedArgs(flag, value) + rest, acc) ==
      ParseArgs(rest,
        if value == "" then acc
        else if flag == "--select" then acc.(select := value)
        else acc.(ignore := value))
  {
    var a := ValuedArgs(flag, value) + rest;
    if value != "" {
      assert a[0] == flag && a[1] == value && a[2..] == rest;
    } else {
      assert a == rest;
    }
  }

  /** The argument vector grouped from the right, the way a reader consumes it. */
  lemma ArgVectorNested(o: Options)
    ensures ArgVector(o) ==
      SwitchArgs("--repeat", o.repeat)
      + (ValuedArgs("--select", o.select)
      + (ValuedArgs("--ignore", o.ignore)
      + (SwitchArgs("--show-source", o.showSource)
      + SwitchArgs("--show-pep8", o.showPep8))))
  {
    var ra, sa, ia := SwitchArgs("--repeat", o.repeat), ValuedArgs("--select", o.select), ValuedArgs("--ignore", o.ignore);
    var ssa, pa := SwitchArgs("--show-source", o.showSource), SwitchArgs("--show-pep8", o.showPep8);
    assert ra + sa + ia + ssa + pa == (ra + sa + ia) + (ssa + pa);
    assert (ra + sa) + ia + (ssa + pa) == (ra + sa) + (ia + (ssa + pa));
    assert ra + sa + (ia + (ssa + pa)) == ra + (sa + (ia + (ssa + pa)));
  }

  /**
   * The argument vector round-trips: reading it back gives exactly the five
   * settings `configure` passed on, whatever the strings of `--tissue-select`
   * and `--tissue-ignore` are.
   */
  lemma ArgVectorRoundTrip(o: Options)
    ensures ParseArgs(ArgVector(o), Unset) ==
      Some(CheckerSettings(o.repeat, o.select, o.ignore, o.showSource, o.showPep8))
  {
    var e := SwitchArgs("--show-pep8", o.showPep8);
    var d := SwitchArgs("--show-source", o.showSource) + e;
    var c := ValuedArgs("--ignore", o.ignore) + d;
    var b := ValuedArgs("--select", o.select) + c;
    ArgVectorNested(o);
    var s1 := Unset.(repeat := o.repeat);
    var s2 := s1.(select := o.select);
    var s3 := s2.(ignore := o.ignore);
    var s4 := s3.(showSource := o.showSource);
    ParseSwitch("--repeat", o.repeat, b, Unset);
    ParseValued("--select", o.select, c, s1);
    ParseValued("--ignore", o.ignore, d, s2);
    ParseSwitch("--show-source", o.showSource, e, s3);
    assert e == e + [];
    ParseSwitch("--show-pep8", o.showPep8, [], s4);
  }

  /** One argument per switch that is on and two per code list given. */
  lemma ArgVectorLength(o: Options)
    ensures |ArgVector(o)| ==
      (if o.repeat then 1 else 0) + (if o.select != "" then 2 else 0) + (if o.ignore != "" then 2 else 0)
      + (if o.showSource then 1 else 0) + (if o.showPep8 then 1 else 0)
  {
  }
}
