/**
 * The file bookkeeping of the `Tissue` plugin (tissue.py) as values: the
 * `seen_files` list, the allow-list test of `want_file`, what the two
 * dispatching hooks do to the run's state, and the inclusive `wantFile` vote.
 */
module Selection {
  import opened Wrappers
  import opened PyStr

  /** `seen_files` after `seen(f)`: f appended unless it is already listed. */
  function Record(seen: seq<string>, f: string): (r: seq<string>)
    ensures seen <= r
    ensures forall x :: x in r <==> x in seen || x == f
    ensures f in seen ==> r == seen
    ensures NoDup(seen) ==> NoDup(r)
  {
    if f in seen then seen else seen + [f]
  }

  /** `seen_files` after a sequence of `seen` calls made from an empty list. */
  function SeenList(calls: seq<string>): seq<string>
    decreases |calls|
  {
    if calls == [] then [] else Record(SeenList(calls[..|calls| - 1]), calls[|calls| - 1])
  }

  /** The list never holds a duplicate, and holds exactly the files asked about. */
  lemma {:induction false} SeenListSpec(calls: seq<string>)
    ensures NoDup(SeenList(calls))
    ensures forall x :: x in SeenList(calls) <==> x in calls
  {
    if calls != [] {
      var init := calls[..|calls| - 1];
      SeenListSpec(init);
      assert calls == init + [calls[|calls| - 1]];
    }
  }

  /** Insertion order: an earlier list is a prefix of every later one. */
  lemma {:induction false} SeenListGrows(calls: seq<string>, i: nat)
    requires i <= |calls|
    ensures SeenList(calls[..i]) <= SeenList(calls)
  {
    if i < |calls| {
      var init := calls[..|calls| - 1];
      assert calls[..i] == init[..i];
      SeenListGrows(init, i);
    } else {
      assert calls[..i] == calls;
    }
  }

  /** The i-th call `seen(calls[i])` answers True exactly when the same file was asked about before. */
  lemma SeenAnswers(calls: seq<string>, i: nat)
    requires i < |calls|
    ensures (calls[i] in SeenList(calls[..i])) <==> calls[i] in calls[..i]
    ensures SeenList(calls[..i + 1]) ==
      if calls[i] in calls[..i] then SeenList(calls[..i]) else SeenList(calls[..i]) + [calls[i]]
  {
    SeenListSpec(calls[..i]);
    assert calls[..i + 1][..i] == calls[..i];
  }

  /** Some allow-list entry is a substring of the package (`package in file_pkg`). */
  predicate AnyContained(packages: seq<string>, filePkg: string)
  {
    exists j :: 0 <= j < |packages| && Contains(filePkg, packages[j])
  }

  /** The allow-list test of `want_file`: no allow-list, or some entry matches. */
  predicate Eligible(packages: seq<string>, filePkg: string)
  {
    packages == [] || AnyContained(packages, filePkg)
  }

  /** The allow-list and nose's `util.getpackage`. */
  datatype Selector = Selector(packages: seq<string>, packageOf: string -> string)

  /** The answer of `want_file(f)` given `seen_files`. */
  predicate Want(sel: Selector, seen: seq<string>, f: string)
  {
    Eligible(sel.packages, sel.packageOf(f)) && f !in seen
  }

  /** `seen_files` after `want_file(f)`: `seen` is called only once an entry matched. */
  function SeenAfterWant(sel: Selector, seen: seq<string>, f: string): seq<string>
  {
    if Eligible(sel.packages, sel.packageOf(f)) then Record(seen, f) else seen
  }

  /** `seen_files` together with the files passed to the checker's `input_file`. */
  datatype RunState = RunState(seen: seq<string>, dispatched: seq<string>)

  /** A call of `beforeImport(filename)`, or of the runner `beforeDirectory` installs, for one file. */
  datatype Hook = ImportHook(filename: string) | WalkHook(filename: string)

  /** The runner's body: `if want_file(f): input_file(f)`. */
  function Select(sel: Selector, st: RunState, f: string): RunState
  {
    RunState(SeenAfterWant(sel, st.seen, f),
             if Want(sel, st.seen, f) then st.dispatched + [f] else st.dispatched)
  }

  /** One hook; `beforeImport` consults `want_file` only for names ending in `.py`. */
  function Step(sel: Selector, st: RunState, h: Hook): RunState
  {
    match h
    case ImportHook(f) => if EndsWith(f, ".py") then Select(sel, st, f) else st
    case WalkHook(f) => Select(sel, st, f)
  }

  function Run(sel: Selector, st: RunState, hs: seq<Hook>): RunState
    decreases |hs|
  {
    if hs == [] then st else Step(sel, Run(sel, st, hs[..|hs| - 1]), hs[|hs| - 1])
  }

  /** The hooks the runner receives for the files of a directory walk, in order. */
  function WalkHooks(files: seq<string>): (hs: seq<Hook>)
    ensures |hs| == |files|
    ensures forall i :: 0 <= i < |files| ==> hs[i] == WalkHook(files[i])
  {
    seq(|files|, i requires 0 <= i < |files| => WalkHook(files[i]))
  }

  /**
   * The invariant of one run: the files dispatched since `base` (the
   * length of the list when `begin` emptied `seen_files`) are distinct and
   * all recorded, and `seen_files` has no duplicate.
   */
  predicate RunInvariant(st: RunState, base: nat)
  {
    && base <= |st.dispatched|
    && NoDup(st.seen)
    && NoDup(st.dispatched[base..])
    && forall i :: base <= i < |st.dispatched| ==> st.dispatched[i] in st.seen
  }

  lemma SelectPreserves(sel: Selector, st: RunState, base: nat, f: string)
    requires RunInvariant(st, base)
    ensures RunInvariant(Select(sel, st, f), base)
  {
    var st' := Select(sel, st, f);
    if Want(sel, st.seen, f) {
      assert st'.dispatched[base..] == st.dispatched[base..] + [f];
      forall i, j | 0 <= i < j < |st'.dispatched[base..]|
        ensures st'.dispatched[base..][i] != st'.dispatched[base..][j]
      {
        if j == |st'.dispatched[base..]| - 1 {
          assert st.dispatched[base + i] in st.seen;
        }
      }
    }
  }

  lemma StepPreserves(sel: Selector, st: RunState, base: nat, h: Hook)
    requires RunInvariant(st, base)
    ensures RunInvariant(Step(sel, st, h), base)
    ensures st.seen <= Step(sel, st, h).seen && st.dispatched <= Step(sel, st, h).dispatched
  {
    SelectPreserves(sel, st, base, h.filename);
  }

  /** Every hook sequence keeps the invariant and only appends to both lists. */
  lemma {:induction false} RunPreserves(sel: Selector, st: RunState, base: nat, hs: seq<Hook>)
    requires RunInvariant(st, base)
    ensures RunInvariant(Run(sel, st, hs), base)
    ensures st.seen <= Run(sel, st, hs).seen && st.dispatched <= Run(sel, st, hs).dispatched
  {
    if hs != [] {
      RunPreserves(sel, st, base, hs[..|hs| - 1]);
      StepPreserves(sel, Run(sel, st, hs[..|hs| - 1]), base, hs[|hs| - 1]);
    }
  }

  /**
   * At most once per run: from `begin` on (an empty `seen_files`, whatever
   * the checker already holds), any interleaving of `beforeImport` and
   * walk-runner calls hands each file to `input_file` at most once.
   */
  lemma DispatchedAtMostOnce(sel: Selector, earlier: seq<string>, hs: seq<Hook>)
    ensures var d := Run(sel, RunState([], earlier), hs).dispatched;
      earlier <= d && forall i, j :: |earlier| <= i < j < |d| ==> d[i] != d[j]
  {
    var st := RunState([], earlier);
    RunPreserves(sel, st, |earlier|, hs);
    var d := Run(sel, st, hs).dispatched;
    forall i, j | |earlier| <= i < j < |d| ensures d[i] != d[j] {
      assert d[|earlier|..][i - |earlier|] == d[i] && d[|earlier|..][j - |earlier|] == d[j];
    }
  }

  /** `beforeImport` alone hands only `.py` files to the checker. */
  lemma {:induction false} ImportsDispatchOnlyPy(sel: Selector, st: RunState, hs: seq<Hook>)
    requires forall i :: 0 <= i < |hs| ==> hs[i].ImportHook?
    ensures var d := Run(sel, st, hs).dispatched;
      st.dispatched <= d && forall i :: |st.dispatched| <= i < |d| ==> EndsWith(d[i], ".py")
  {
    if hs != [] {
      ImportsDispatchOnlyPy(sel, st, hs[..|hs| - 1]);
    }
  }

  /** A file the allow-list rejects is never dispatched and never recorded. */
  lemma {:induction false} RejectedNeverRecorded(sel: Selector, st: RunState, hs: seq<Hook>, f: string)
    requires !Eligible(sel.packages, sel.packageOf(f))
    requires f !in st.seen && f !in st.dispatched
    ensures f !in Run(sel, st, hs).seen && f !in Run(sel, st, hs).dispatched
  {
    if hs != [] {
      RejectedNeverRecorded(sel, st, hs[..|hs| - 1], f);
    }
  }

  /** Some entry is a prefix of package (`package.startswith(want)`), searched in order. */
  function AnyPrefix(wants: seq<string>, package: string): (b: bool)
    ensures b <==> exists j :: 0 <= j < |wants| && StartsWith(package, wants[j])
  {
    if wants == [] then false
    else if StartsWith(package, wants[0]) then true
    else
      var b := AnyPrefix(wants[1..], package);
      assert forall j :: 1 <= j < |wants| ==> wants[j] == wants[1..][j - 1];
      b
  }

  /**
   * `wantFile(file, package)`: `Some(true)` for Python's True and `None`
   * for None. Only inclusive mode and a `.py` file say yes; a missing or
   * empty package, or no allow-list, says yes outright; otherwise yes
   * exactly when an entry is a prefix of the package. Never `False`.
   */
  function InclusiveWant(inclusive: bool, packages: seq<string>, file: string, package: Option<string>)
    : (r: Option<bool>)
    ensures r != Some(false)
    ensures r == Some(true) <==>
      && inclusive
      && EndsWith(file, ".py")
      && (|| package.None? || package.value == "" || packages == []
          || exists j :: 0 <= j < |packages| && StartsWith(package.value, packages[j]))
  {
    if inclusive && EndsWith(file, ".py") then
      if package.Some? && package.value != "" && packages != [] then
        if AnyPrefix(packages, package.value) then Some(true) else None
      else Some(true)
    else None
  }
}
