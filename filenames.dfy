/**
 * File names as the handlers see them: a directory listing by `glob` (which skips names
 * starting with a dot), `sorted` on the names, and
 * `os.path.splitext` for the stem of a data file.
 */
module FileNames {

  /** Python's `a <= b` on `str`: code point by code point, a proper prefix first. */
  predicate Below(a: string, b: string)
    decreases |a|
  {
    a == [] || (b != [] && (a[0] < b[0] || (a[0] == b[0] && Below(a[1..], b[1..]))))
  }

  lemma {:induction false} BelowReflexive(a: string)
    ensures Below(a, a)
    decreases |a|
  {
    if a != [] {
      BelowReflexive(a[1..]);
    }
  }

  lemma {:induction false} BelowTotal(a: string, b: string)
    ensures Below(a, b) || Below(b, a)
    decreases |a|
  {
    if a != [] && b != [] && a[0] == b[0] {
      BelowTotal(a[1..], b[1..]);
    }
  }

  lemma {:induction false} BelowAntisymmetric(a: string, b: string)
    requires Below(a, b) && Below(b, a)
    ensures a == b
    decreases |a|
  {
    if a != [] {
      BelowAntisymmetric(a[1..], b[1..]);
      assert a == [a[0]] + a[1..] && b == [b[0]] + b[1..];
    }
  }

  lemma {:induction false} BelowTransitive(a: string, b: string, c: string)
    requires Below(a, b) && Below(b, c)
    ensures Below(a, c)
    decreases |a|
  {
    if a != [] && a[0] == b[0] && b[0] == c[0] {
      BelowTransitive(a[1..], b[1..], c[1..]);
    }
  }

  /** No duplicates, and in the order `sorted()` gives. */
  ghost predicate StrictlySorted(names: seq<string>) {
    forall i, j :: 0 <= i < j < |names| ==> Below(names[i], names[j]) && names[i] != names[j]
  }

  predicate IsLeast(m: string, names: set<string>) {
    m in names && forall y :: y in names ==> Below(m, y)
  }

  lemma LeastExists(names: set<string>)
    requires names != {}
    ensures exists m :: IsLeast(m, names)
    decreases names
  {
    var x :| x in names;
    if names - {x} == {} {
      BelowReflexive(x);
      assert names == {x};
      assert IsLeast(x, names);
    } else {
      LeastExists(names - {x});
      var m :| IsLeast(m, names - {x});
      BelowTotal(x, m);
      if Below(x, m) {
        forall y | y in names ensures Below(x, y) {
          if y == x { BelowReflexive(x); } else { BelowTransitive(x, m, y); }
        }
        assert IsLeast(x, names);
      } else {
        assert IsLeast(m, names);
      }
    }
  }

  /** `sorted(names)` for a set of names. */
  ghost function SortedOf(names: set<string>): (r: seq<string>)
    ensures StrictlySorted(r)
    ensures forall x :: x in r <==> x in names
    decreases names
  {
    if names == {} then []
    else
      LeastExists(names);
      var m :| IsLeast(m, names);
      [m] + SortedOf(names - {m})
  }

  /** A set of names has exactly one sorted listing. */
  lemma {:induction false} SortedUnique(a: seq<string>, b: seq<string>)
    requires StrictlySorted(a) && StrictlySorted(b)
    requires forall x :: x in a <==> x in b
    ensures a == b
    decreases |a|
  {
    if a == [] {
      HeadIsMember(b);
    } else {
      assert a[0] in b;
      assert b != [] && b[0] in a;
      var i :| 0 <= i < |a| && a[i] == b[0];
      var j :| 0 <= j < |b| && b[j] == a[0];
      if i > 0 && j > 0 {
        BelowAntisymmetric(a[0], b[0]);
      }
      assert a[0] == b[0];
      TailMembers(a);
      TailMembers(b);
      SortedUnique(a[1..], b[1..]);
      assert a == [a[0]] + a[1..] && b == [b[0]] + b[1..];
    }
  }

  /** Stated apart so that `a[0]` is never indexed where `a` is known to be empty. */
  lemma HeadIsMember(a: seq<string>)
    ensures a != [] ==> a[0] in a
  {
  }

  lemma TailMembers(a: seq<string>)
    requires StrictlySorted(a) && a != []
    ensures forall x :: x in a[1..] <==> x in a && x != a[0]
  {
    forall x | x in a[1..] ensures x != a[0] {
      var k :| 0 <= k < |a[1..]| && a[1..][k] == x;
      assert a[k + 1] == x;
    }
    assert a == [a[0]] + a[1..];
  }

  /** `sorted(glob(...))`: repeatedly takes the least remaining name. */
  method SortedNames(names: set<string>) returns (r: seq<string>)
    ensures r == SortedOf(names)
  {
    var rest := names;
    r := [];
    while rest != {}
      invariant StrictlySorted(r)
      invariant forall x :: x in names <==> x in rest || x in r
      invariant forall x :: x in r ==> x !in rest
      invariant forall x, y :: x in r && y in rest ==> Below(x, y)
      decreases rest
    {
      LeastExists(rest);
      var m :| IsLeast(m, rest);
      r := r + [m];
      rest := rest - {m};
    }
    SortedUnique(r, SortedOf(names));
  }

  /** Names a `glob` of a directory lists: those that do not start with a dot. */
  predicate Visible(name: string) {
    name != [] && name[0] != '.'
  }

  function VisibleNames(names: set<string>): set<string> {
    set name | name in names && Visible(name)
  }

  /** The index of the last dot in `s`, or -1. */
  function LastDot(s: string): (i: int)
    ensures -1 <= i < |s|
    ensures i >= 0 ==> s[i] == '.'
    ensures forall k :: i < k < |s| ==> s[k] != '.'
  {
    if s == [] then -1
    else if s[|s| - 1] == '.' then |s| - 1
    else LastDot(s[..|s| - 1])
  }

  /**
   * `os.path.splitext(name)[0]`: the name without the part from its last dot
   * on, unless only dots stand before that dot.
   */
  function Stem(name: string): string {
    var dot := LastDot(name);
    if dot > 0 && exists k :: 0 <= k < dot && name[k] != '.' then name[..dot] else name
  }

  /** The stem of `id.ext` is `id`, for a visible `id` and an extension without dots. */
  lemma StemOfDataFile(id: string, ext: string)
    requires Visible(id) && '.' !in ext
    ensures Stem(id + "." + ext) == id
  {
    var name := id + "." + ext;
    var dot := LastDot(name);
    assert name[|id|] == '.';
    assert dot == |id|;
    assert name[0] == id[0] != '.';
    assert name[..dot] == id;
  }

  /** A name without a dot is its own stem. */
  lemma StemWithoutDot(name: string)
    requires '.' !in name
    ensures Stem(name) == name
  {
  }

  /** The ids of the series under `data/`: the stems of the listed data file names. */
  function SeriesIds(dataFiles: set<string>): set<string> {
    set name | name in dataFiles && Visible(name) :: Stem(name)
  }
}
