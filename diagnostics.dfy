/**
 * The deferred diagnostics of a checked file, as pycodestyle stores them in
 * `_deferred_print`, and Python's order on those tuples, which
 * `get_file_results` sorts by.
 */
module Diagnostics {

  /** `(line_number, offset, code, text, doc)`; a missing doc (`None`) is "", both being false. */
  datatype Diagnostic = Diagnostic(lineNumber: int, offset: int, code: string, text: string, doc: string)

  /** Python's `a <= b` on `str`: code-point lexicographic order, a proper prefix first. */
  predicate StrLe(a: string, b: string)
    decreases |a|
  {
    a == [] || (b != [] && (a[0] < b[0] || (a[0] == b[0] && StrLe(a[1..], b[1..]))))
  }

  predicate StrLt(a: string, b: string)
  {
    StrLe(a, b) && a != b
  }

  lemma {:induction false} StrLeTotal(a: string, b: string)
    ensures StrLe(a, b) || StrLe(b, a)
  {
    if a != [] && b != [] && a[0] == b[0] {
      StrLeTotal(a[1..], b[1..]);
    }
  }

  lemma {:induction false} StrLeTrans(a: string, b: string, c: string)
    requires StrLe(a, b) && StrLe(b, c)
    ensures StrLe(a, c)
  {
    if a != [] && b != [] && c != [] && a[0] == b[0] && b[0] == c[0] {
      StrLeTrans(a[1..], b[1..], c[1..]);
    }
  }

  lemma {:induction false} StrLeAntisym(a: string, b: string)
    requires StrLe(a, b) && StrLe(b, a)
    ensures a == b
  {
    if a != [] && b != [] {
      StrLeAntisym(a[1..], b[1..]);
      assert a == [a[0]] + a[1..] && b == [b[0]] + b[1..];
    }
  }

  /** Python's `x <= y` on the five-field tuples: the first field that differs decides. */
  predicate Le(x: Diagnostic, y: Diagnostic)
  {
    x.lineNumber < y.lineNumber || (x.lineNumber == y.lineNumber &&
    (x.offset < y.offset || (x.offset == y.offset &&
    (StrLt(x.code, y.code) || (x.code == y.code &&
    (StrLt(x.text, y.text) || (x.text == y.text &&
    StrLe(x.doc, y.doc))))))))
  }

  lemma LeTotal(x: Diagnostic, y: Diagnostic)
    ensures Le(x, y) || Le(y, x)
  {
    StrLeTotal(x.code, y.code);
    StrLeTotal(x.text, y.text);
    StrLeTotal(x.doc, y.doc);
  }

  lemma LeAntisym(x: Diagnostic, y: Diagnostic)
    requires Le(x, y) && Le(y, x)
    ensures x == y
  {
    if StrLe(x.code, y.code) && StrLe(y.code, x.code) { StrLeAntisym(x.code, y.code); }
    if StrLe(x.text, y.text) && StrLe(y.text, x.text) { StrLeAntisym(x.text, y.text); }
    if StrLe(x.doc, y.doc) && StrLe(y.doc, x.doc) { StrLeAntisym(x.doc, y.doc); }
  }

  lemma StrLtTrans(a: string, b: string, c: string)
    requires StrLe(a, b) && StrLe(b, c) && (a != b || b != c)
    ensures StrLt(a, c)
  {
    StrLeTrans(a, b, c);
    if a == c { StrLeAntisym(a, b); }
  }

  lemma LeTrans(x: Diagnostic, y: Diagnostic, z: Diagnostic)
    requires Le(x, y) && Le(y, z)
    ensures Le(x, z)
  {
    if x.lineNumber == y.lineNumber == z.lineNumber && x.offset == y.offset == z.offset {
      if StrLe(x.code, y.code) && StrLe(y.code, z.code) && (x.code != y.code || y.code != z.code) {
        StrLtTrans(x.code, y.code, z.code);
      } else if x.code == y.code == z.code {
        if StrLe(x.text, y.text) && StrLe(y.text, z.text) && (x.text != y.text || y.text != z.text) {
          StrLtTrans(x.text, y.text, z.text);
        } else if x.text == y.text == z.text {
          StrLeTrans(x.doc, y.doc, z.doc);
        }
      }
    }
  }

  predicate Sorted(s: seq<Diagnostic>)
  {
    forall i, j :: 0 <= i < j < |s| ==> Le(s[i], s[j])
  }

  /** d placed before the first element it is not above. */
  function Insert(d: Diagnostic, s: seq<Diagnostic>): seq<Diagnostic>
  {
    if s == [] || Le(d, s[0]) then [d] + s else [s[0]] + Insert(d, s[1..])
  }

  /** `_deferred_print.sort()`, as an insertion sort; by SortedUnique every
      sort by this order, Python's included, gives the same list. */
  function Sort(s: seq<Diagnostic>): seq<Diagnostic>
  {
    if s == [] then [] else Insert(s[0], Sort(s[1..]))
  }

  /** Every element of Insert(d, s) is d or an element of s. */
  lemma InsertMultiset(d: Diagnostic, s: seq<Diagnostic>)
    ensures multiset(Insert(d, s)) == multiset(s) + multiset{d}
  {
    if s != [] && !Le(d, s[0]) {
      InsertMultiset(d, s[1..]);
      assert s == [s[0]] + s[1..];
    }
  }

  /** d goes in front of a sorted list whose head it is below. */
  lemma InsertFront(d: Diagnostic, s: seq<Diagnostic>)
    requires Sorted(s) && (s == [] || Le(d, s[0]))
    ensures Sorted([d] + s)
  {
    forall j | 0 <= j < |s| ensures Le(d, s[j]) {
      if j > 0 { LeTrans(d, s[0], s[j]); }
    }
  }

  /** The head of a sorted list stays in front of a sorted list of the other elements and d. */
  lemma InsertBehind(d: Diagnostic, s: seq<Diagnostic>, t: seq<Diagnostic>)
    requires Sorted(s) && s != [] && Le(s[0], d)
    requires Sorted(t) && multiset(t) == multiset(s[1..]) + multiset{d}
    ensures Sorted([s[0]] + t)
  {
    forall k | 0 <= k < |t| ensures Le(s[0], t[k]) {
      assert t[k] in multiset(t);
      if t[k] != d {
        assert t[k] in multiset(s[1..]);
        var j :| 0 <= j < |s[1..]| && s[1..][j] == t[k];
        assert s[j + 1] == t[k];
      }
    }
  }

  lemma {:induction false} InsertSpec(d: Diagnostic, s: seq<Diagnostic>)
    requires Sorted(s)
    ensures multiset(Insert(d, s)) == multiset(s) + multiset{d}
    ensures Sorted(Insert(d, s))
  {
    InsertMultiset(d, s);
    if s == [] || Le(d, s[0]) {
      InsertFront(d, s);
    } else {
      LeTotal(d, s[0]);
      SortedTail(s);
      InsertSpec(d, s[1..]);
      InsertBehind(d, s, Insert(d, s[1..]));
    }
  }

  lemma {:induction false} SortSpec(s: seq<Diagnostic>)
    ensures Sorted(Sort(s))
    ensures multiset(Sort(s)) == multiset(s)
  {
    if s != [] {
      SortSpec(s[1..]);
      InsertSpec(s[0], Sort(s[1..]));
      assert s == [s[0]] + s[1..];
    }
  }

  /** The first element of a sorted list is below every element of it. */
  lemma HeadIsLeast(a: seq<Diagnostic>, x: Diagnostic)
    requires Sorted(a) && x in multiset(a)
    ensures Le(a[0], x)
  {
    var m :| 0 <= m < |a| && a[m] == x;
    if m == 0 { LeTotal(x, x); }
  }

  lemma SortedTail(a: seq<Diagnostic>)
    requires Sorted(a) && a != []
    ensures Sorted(a[1..])
  {
    forall i, j | 0 <= i < j < |a[1..]| ensures Le(a[1..][i], a[1..][j]) {
      assert a[1..][i] == a[i + 1] && a[1..][j] == a[j + 1];
    }
  }

  lemma MultisetTail(a: seq<Diagnostic>, b: seq<Diagnostic>)
    requires a != [] && b != [] && a[0] == b[0] && multiset(a) == multiset(b)
    ensures multiset(a[1..]) == multiset(b[1..])
  {
    assert a == [a[0]] + a[1..] && b == [b[0]] + b[1..];
    assert multiset(a[1..]) == multiset(a) - multiset{a[0]};
    assert multiset(b[1..]) == multiset(b) - multiset{b[0]};
  }

  /** Two sorted lists with the same elements are equal: the order is total
      and antisymmetric, so sortedness fixes the result of any sort. */
  lemma {:induction false} SortedUnique(a: seq<Diagnostic>, b: seq<Diagnostic>)
    requires Sorted(a) && Sorted(b) && multiset(a) == multiset(b)
    ensures a == b
  {
    assert |a| == |multiset(a)| == |multiset(b)| == |b|;
    if a != [] {
      assert b[0] in multiset(a) && a[0] in multiset(b);
      HeadIsLeast(a, b[0]);
      HeadIsLeast(b, a[0]);
      LeAntisym(a[0], b[0]);
      MultisetTail(a, b);
      SortedTail(a);
      SortedTail(b);
      SortedUnique(a[1..], b[1..]);
      assert a == [a[0]] + a[1..] && b == [b[0]] + b[1..];
    }
  }

  /** Sorting a list that is already in order changes nothing. */
  lemma SortIdempotent(s: seq<Diagnostic>)
    ensures Sort(Sort(s)) == Sort(s)
  {
    SortSpec(s);
    SortSpec(Sort(s));
    SortedUnique(Sort(Sort(s)), Sort(s));
  }
}
