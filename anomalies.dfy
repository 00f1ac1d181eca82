/**
 * Ranking of the anomalies the analytics engine reports for a model: the
 * (time, error) pairs are zipped, sorted by descending |error| with
 * Python's stable `list.sort`, cut with `[:count]` and unzipped again.
 * Errors are integers here; the analytics engine produces floats.
 */
module Anomalies {
  import opened Options
  import opened PySlice

  datatype Anomaly = Anomaly(time: int, error: int)

  /** The sort key `abs(x[1])`. */
  function Magnitude(a: Anomaly): nat {
    if a.error < 0 then -a.error else a.error
  }

  /** `list(zip(times, errors))`: pairs up to the shorter of the two lists. */
  function Zip(times: seq<int>, errors: seq<int>): (r: seq<Anomaly>)
    ensures |r| == Min(|times|, |errors|)
    ensures forall k :: 0 <= k < |r| ==> r[k] == Anomaly(times[k], errors[k])
  {
    if |times| == 0 || |errors| == 0 then []
    else [Anomaly(times[0], errors[0])] + Zip(times[1..], errors[1..])
  }

  /** `[x[0] for x in anomalies]`. */
  function Times(s: seq<Anomaly>): (r: seq<int>)
    ensures |r| == |s| && forall k :: 0 <= k < |s| ==> r[k] == s[k].time
  {
    if s == [] then [] else [s[0].time] + Times(s[1..])
  }

  /** `[x[1] for x in anomalies]`. */
  function Errors(s: seq<Anomaly>): (r: seq<int>)
    ensures |r| == |s| && forall k :: 0 <= k < |s| ==> r[k] == s[k].error
  {
    if s == [] then [] else [s[0].error] + Errors(s[1..])
  }

  /** Unzipping and zipping again gives back the pairs. */
  lemma ZipUnzip(s: seq<Anomaly>)
    ensures Zip(Times(s), Errors(s)) == s
  {
  }

  /** Ordered by non-increasing |error|. */
  ghost predicate Ranked(s: seq<Anomaly>) {
    forall i, j :: 0 <= i < j < |s| ==> Magnitude(s[i]) >= Magnitude(s[j])
  }

  /** The anomalies of `s` whose |error| is `m`, in their order in `s`. */
  function WithMagnitude(s: seq<Anomaly>, m: nat): seq<Anomaly> {
    if s == [] then []
    else WithMagnitude(s[..|s| - 1], m) + (if Magnitude(s[|s| - 1]) == m then [s[|s| - 1]] else [])
  }

  /**
   * Inserts `x`, which comes after every element of `sorted` in the input,
   * behind the last element whose |error| is at least that of `x`.
   */
  function Insert(sorted: seq<Anomaly>, x: Anomaly): (r: seq<Anomaly>)
    ensures |r| == |sorted| + 1
  {
    if sorted == [] || Magnitude(sorted[|sorted| - 1]) >= Magnitude(x) then sorted + [x]
    else Insert(sorted[..|sorted| - 1], x) + [sorted[|sorted| - 1]]
  }

  /** The result of a stable sort by descending |error|, built by insertion. */
  function StableSort(s: seq<Anomaly>): (r: seq<Anomaly>)
    ensures |r| == |s|
  {
    if s == [] then [] else Insert(StableSort(s[..|s| - 1]), s[|s| - 1])
  }

  lemma {:induction false} WithMagnitudeAppend(a: seq<Anomaly>, b: seq<Anomaly>, m: nat)
    ensures WithMagnitude(a + b, m) == WithMagnitude(a, m) + WithMagnitude(b, m)
    decreases |b|
  {
    if b == [] {
      assert a + b == a;
    } else {
      var b' := b[..|b| - 1];
      assert (a + b)[..|a + b| - 1] == a + b';
      WithMagnitudeAppend(a, b', m);
    }
  }

  lemma {:induction false} InsertPermutes(sorted: seq<Anomaly>, x: Anomaly)
    ensures multiset(Insert(sorted, x)) == multiset(sorted) + multiset{x}
    decreases |sorted|
  {
    if sorted != [] && Magnitude(sorted[|sorted| - 1]) < Magnitude(x) {
      var init := sorted[..|sorted| - 1];
      InsertPermutes(init, x);
      assert sorted == init + [sorted[|sorted| - 1]];
    }
  }

  /** Appending an element no larger than any before it keeps a sequence ranked. */
  lemma RankedAppend(front: seq<Anomaly>, y: Anomaly)
    requires Ranked(front)
    requires forall k :: 0 <= k < |front| ==> Magnitude(front[k]) >= Magnitude(y)
    ensures Ranked(front + [y])
  {
  }

  lemma {:induction false} InsertRanked(sorted: seq<Anomaly>, x: Anomaly)
    requires Ranked(sorted)
    ensures Ranked(Insert(sorted, x))
    decreases |sorted|
  {
    if sorted == [] {
      RankedAppend(sorted, x);
    } else {
      var init, last := sorted[..|sorted| - 1], sorted[|sorted| - 1];
      if Magnitude(last) < Magnitude(x) {
        InsertRanked(init, x);
        var front := Insert(init, x);
        InsertPermutes(init, x);
        forall k | 0 <= k < |front| ensures Magnitude(front[k]) >= Magnitude(last) {
          assert front[k] in multiset(front);
          assert front[k] in multiset(init) || front[k] == x;
        }
        RankedAppend(front, last);
      } else {
        assert forall k :: 0 <= k < |sorted| ==> Magnitude(sorted[k]) >= Magnitude(last);
        RankedAppend(sorted, x);
      }
    }
  }

  /** Inserting `x` keeps every group of equal |error| in input order, `x` last in its group. */
  lemma {:induction false} InsertStable(sorted: seq<Anomaly>, x: Anomaly, m: nat)
    ensures WithMagnitude(Insert(sorted, x), m) == WithMagnitude(sorted + [x], m)
    decreases |sorted|
  {
    if sorted != [] && Magnitude(sorted[|sorted| - 1]) < Magnitude(x) {
      var init, last := sorted[..|sorted| - 1], sorted[|sorted| - 1];
      var gi, gx, gl := WithMagnitude(init, m), WithMagnitude([x], m), WithMagnitude([last], m);
      GroupOfOne(x, m);
      GroupOfOne(last, m);
      calc {
        WithMagnitude(Insert(sorted, x), m);
        WithMagnitude(Insert(init, x) + [last], m);
        { WithMagnitudeAppend(Insert(init, x), [last], m); }
        WithMagnitude(Insert(init, x), m) + gl;
        { InsertStable(init, x, m); WithMagnitudeAppend(init, [x], m); }
        gi + gx + gl;
        { assert gx == [] || gl == []; }
        gi + gl + gx;
        { WithMagnitudeAppend(init, [last], m); }
        WithMagnitude(init + [last], m) + gx;
        { WithMagnitudeAppend(init + [last], [x], m); }
        WithMagnitude(init + [last] + [x], m);
        { assert sorted == init + [last]; }
        WithMagnitude(sorted + [x], m);
      }
    }
  }

  /** The group of a one-element sequence. */
  lemma GroupOfOne(y: Anomaly, m: nat)
    ensures WithMagnitude([y], m) == if Magnitude(y) == m then [y] else []
  {
    assert [y][..0] == [];
  }

  /** The sorted anomalies are a permutation of the input. */
  lemma {:induction false} StableSortPermutes(s: seq<Anomaly>)
    ensures multiset(StableSort(s)) == multiset(s)
  {
    if s != [] {
      var init := s[..|s| - 1];
      StableSortPermutes(init);
      InsertPermutes(StableSort(init), s[|s| - 1]);
      assert s == init + [s[|s| - 1]];
    }
  }

  /** The sorted anomalies are ordered by non-increasing |error|. */
  lemma {:induction false} StableSortRanked(s: seq<Anomaly>)
    ensures Ranked(StableSort(s))
  {
    if s != [] {
      StableSortRanked(s[..|s| - 1]);
      InsertRanked(StableSort(s[..|s| - 1]), s[|s| - 1]);
    }
  }

  /** The sort is stable: anomalies of equal |error| keep their relative input order. */
  lemma {:induction false} StableSortStable(s: seq<Anomaly>, m: nat)
    ensures WithMagnitude(StableSort(s), m) == WithMagnitude(s, m)
  {
    if s != [] {
      var init, last := s[..|s| - 1], s[|s| - 1];
      StableSortStable(init, m);
      InsertStable(StableSort(init), last, m);
      WithMagnitudeAppend(StableSort(init), [last], m);
      WithMagnitudeAppend(init, [last], m);
      assert s == init + [last];
    }
  }

  lemma {:induction false} WithMagnitudeMembers(s: seq<Anomaly>, m: nat, x: Anomaly)
    ensures x in WithMagnitude(s, m) <==> x in s && Magnitude(x) == m
  {
    if s != [] {
      WithMagnitudeMembers(s[..|s| - 1], m, x);
      assert s == s[..|s| - 1] + [s[|s| - 1]];
    }
  }

  /** A non-empty sequence has a non-empty group: the one of its last element. */
  lemma SomeGroupNonEmpty(s: seq<Anomaly>)
    ensures s != [] ==> exists m :: WithMagnitude(s, m) != []
  {
    if s != [] {
      var last := s[|s| - 1];
      assert WithMagnitude(s, Magnitude(last)) == WithMagnitude(s[..|s| - 1], Magnitude(last)) + [last];
    }
  }

  /** The last element of a ranked sequence has the smallest |error| of all its elements. */
  lemma LastIsSmallest(s: seq<Anomaly>, x: Anomaly)
    requires Ranked(s) && x in s
    ensures Magnitude(x) >= Magnitude(s[|s| - 1])
  {
    var j :| 0 <= j < |s| && s[j] == x;
  }

  /** The groups of `s` are those of all but its last element, with the last element added to its own group. */
  lemma GroupsOfLast(s: seq<Anomaly>, m: nat)
    requires s != []
    ensures WithMagnitude(s, m) ==
      WithMagnitude(s[..|s| - 1], m) + (if Magnitude(s[|s| - 1]) == m then [s[|s| - 1]] else [])
  {
  }

  /** Two ranked sequences with the same groups end with the same element. */
  lemma SameLast(a: seq<Anomaly>, b: seq<Anomaly>)
    requires Ranked(a) && Ranked(b) && a != [] && b != []
    requires WithMagnitude(a, Magnitude(a[|a| - 1])) == WithMagnitude(b, Magnitude(a[|a| - 1]))
    requires WithMagnitude(a, Magnitude(b[|b| - 1])) == WithMagnitude(b, Magnitude(b[|b| - 1]))
    ensures a[|a| - 1] == b[|b| - 1]
  {
    var lastA, lastB := a[|a| - 1], b[|b| - 1];
    var ma, mb := Magnitude(lastA), Magnitude(lastB);
    GroupsOfLast(a, ma);
    GroupsOfLast(b, mb);
    WithMagnitudeMembers(b, ma, lastA);
    WithMagnitudeMembers(a, mb, lastB);
    LastIsSmallest(b, lastA);
    LastIsSmallest(a, lastB);
    assert ma == mb;
    var group := WithMagnitude(a, ma);
    assert group == WithMagnitude(b, mb);
    assert lastA == group[|group| - 1] == lastB;
  }

  /** Removing the same last element from two sequences with the same groups leaves the same groups. */
  lemma SameInitGroups(a: seq<Anomaly>, b: seq<Anomaly>, m: nat)
    requires a != [] && b != [] && a[|a| - 1] == b[|b| - 1]
    requires WithMagnitude(a, m) == WithMagnitude(b, m)
    ensures WithMagnitude(a[..|a| - 1], m) == WithMagnitude(b[..|b| - 1], m)
  {
    var last := a[|a| - 1];
    var tail := if Magnitude(last) == m then [last] else [];
    GroupsOfLast(a, m);
    GroupsOfLast(b, m);
    var ga := WithMagnitude(a, m);
    assert WithMagnitude(a[..|a| - 1], m) == ga[..|ga| - |tail|];
    assert WithMagnitude(b[..|b| - 1], m) == ga[..|ga| - |tail|];
  }

  /** Two ranked sequences with the same groups of equal |error| are the same sequence. */
  lemma {:induction false} RankedGroupsDetermine(a: seq<Anomaly>, b: seq<Anomaly>)
    requires Ranked(a) && Ranked(b)
    requires forall m :: WithMagnitude(a, m) == WithMagnitude(b, m)
    ensures a == b
    decreases |a|
  {
    SomeGroupNonEmpty(a);
    SomeGroupNonEmpty(b);
    if a != [] && b != [] {
      var initA, initB := a[..|a| - 1], b[..|b| - 1];
      SameLast(a, b);
      forall m ensures WithMagnitude(initA, m) == WithMagnitude(initB, m) {
        SameInitGroups(a, b, m);
      }
      RankedGroupsDetermine(initA, initB);
      assert a == initA + [a[|a| - 1]] && b == initB + [b[|b| - 1]];
    }
  }

  /**
   * Any ordering of `s` by non-increasing |error| that keeps each group of
   * equal |error| in input order is `StableSort(s)`: the sort Python
   * performs and the insertion sort here give the same list.
   */
  lemma StableSortIsTheStableRanking(s: seq<Anomaly>, r: seq<Anomaly>)
    requires Ranked(r)
    requires forall m :: WithMagnitude(r, m) == WithMagnitude(s, m)
    ensures r == StableSort(s)
  {
    StableSortRanked(s);
    forall m ensures WithMagnitude(r, m) == WithMagnitude(StableSort(s), m) {
      StableSortStable(s, m);
    }
    RankedGroupsDetermine(r, StableSort(s));
  }

  /**
   * `anomalies.sort(key=lambda x: abs(x[1]), reverse=True)` on the list in
   * place, as an insertion sort.
   */
  method SortByMagnitude(a: array<Anomaly>)
    modifies a
    ensures a[..] == StableSort(old(a[..]))
  {
    ghost var input := a[..];
    var i := 0;
    while i < a.Length
      invariant 0 <= i <= a.Length
      invariant a[..i] == StableSort(input[..i])
      invariant a[i..] == input[i..]
    {
      InsertAt(a, i);
      assert input[..i + 1][..i] == input[..i];
      i := i + 1;
    }
    assert a[..] == a[..a.Length];
    assert input == input[..a.Length];
  }

  /** Inserting behind an element of smaller |error| puts the new element in front of it. */
  lemma InsertPasses(front: seq<Anomaly>, y: Anomaly, x: Anomaly)
    requires Magnitude(y) < Magnitude(x)
    ensures Insert(front + [y], x) == Insert(front, x) + [y]
  {
    assert (front + [y])[..|front|] == front;
  }

  /** One step of the search for the insertion point: `x` passes `sorted[j - 1]`. */
  lemma InsertStep(sorted: seq<Anomaly>, j: nat, x: Anomaly)
    requires 0 < j <= |sorted| && Magnitude(sorted[j - 1]) < Magnitude(x)
    requires Insert(sorted, x) == Insert(sorted[..j], x) + sorted[j..]
    ensures Insert(sorted, x) == Insert(sorted[..j - 1], x) + sorted[j - 1..]
  {
    var front, y := sorted[..j - 1], sorted[j - 1];
    assert sorted[..j] == front + [y];
    InsertPasses(front, y, x);
    assert sorted[j - 1..] == [y] + sorted[j..];
    assert Insert(front, x) + [y] + sorted[j..] == Insert(front, x) + ([y] + sorted[j..]);
  }

  /** Inserting behind an element of at least the same |error| appends. */
  lemma InsertStops(front: seq<Anomaly>, x: Anomaly)
    requires front == [] || Magnitude(front[|front| - 1]) >= Magnitude(x)
    ensures Insert(front, x) == front + [x]
  {
  }

  /**
   * What shifting `before[j - 1]` one place right does to the slices
   * `InsertAt` tracks, while `sorted` is the prefix being inserted into.
   */
  lemma ShiftSlices(before: seq<Anomaly>, after: seq<Anomaly>, sorted: seq<Anomaly>, j: nat, i: nat)
    requires 0 < j <= i < |before| && |sorted| == i
    requires before[..j] == sorted[..j] && before[j + 1..i + 1] == sorted[j..]
    requires after == before[j := before[j - 1]]
    ensures after[..j - 1] == sorted[..j - 1]
    ensures after[j..i + 1] == sorted[j - 1..]
    ensures after[i + 1..] == before[i + 1..]
  {
    assert before[j - 1] == sorted[j - 1];
  }

  /** What writing `x` into the gap at `j` leaves in the prefix `InsertAt` builds. */
  lemma PlaceSlices(before: seq<Anomaly>, after: seq<Anomaly>, sorted: seq<Anomaly>, j: nat, i: nat, x: Anomaly)
    requires j <= i < |before| && |sorted| == i
    requires before[..j] == sorted[..j] && before[j + 1..i + 1] == sorted[j..]
    requires after == before[j := x]
    ensures after[..i + 1] == sorted[..j] + [x] + sorted[j..]
    ensures after[i + 1..] == before[i + 1..]
  {
    assert after[..i + 1] == after[..j] + [x] + after[j + 1..i + 1];
  }

  /** Moves `a[i]` left into the ranked prefix `a[..i]`, past the elements of smaller |error|. */
  method InsertAt(a: array<Anomaly>, i: nat)
    requires i < a.Length
    modifies a
    ensures a[..i + 1] == Insert(old(a[..i]), old(a[i]))
    ensures a[i + 1..] == old(a[i + 1..])
  {
    ghost var sorted, rest := a[..i], a[i + 1..];
    var x := a[i];
    var j := i;
    while j > 0 && Magnitude(a[j - 1]) < Magnitude(x)
      invariant 0 <= j <= i
      invariant a[..j] == sorted[..j]
      invariant a[j + 1..i + 1] == sorted[j..]
      invariant a[i + 1..] == rest
      invariant Insert(sorted, x) == Insert(sorted[..j], x) + sorted[j..]
    {
      assert a[j - 1] == a[..j][j - 1] == sorted[j - 1];
      InsertStep(sorted, j, x);
      ghost var before := a[..];
      a[j] := a[j - 1];
      ShiftSlices(before, a[..], sorted, j, i);
      j := j - 1;
    }
    InsertStops(sorted[..j], x);
    ghost var before := a[..];
    a[j] := x;
    PlaceSlices(before, a[..], sorted, j, i, x);
  }

  /** What the handler returns: the (time, error) lists of the ranked, truncated anomalies. */
  function Rank(times: seq<int>, errors: seq<int>, count: Option<int>): (seq<int>, seq<int>) {
    var kept := Kept(times, errors, count);
    (Times(kept), Errors(kept))
  }

  /** The pairs the handler returns: the sorted pairs, cut by the count when one is given. */
  function Kept(times: seq<int>, errors: seq<int>, count: Option<int>): seq<Anomaly> {
    var ranked := StableSort(Zip(times, errors));
    if count.Some? then Take(ranked, count.value) else ranked
  }

  /**
   * The two returned lists have equal length: all n zipped pairs without a
   * count, `min(count, n)` for a non-negative count, `max(0, n + count)` for
   * a negative one.
   */
  lemma RankLengths(times: seq<int>, errors: seq<int>, count: Option<int>)
    ensures var t, e := Rank(times, errors, count).0, Rank(times, errors, count).1;
      var n := Min(|times|, |errors|);
      && |t| == |e|
      && (count.None? ==> |t| == n)
      && (count.Some? && count.value >= 0 ==> |t| == Min(count.value, n))
      && (count.Some? && count.value < 0 ==> |t| == Max(0, n + count.value))
  {
  }

  /** A prefix of a group of equal |error| is what the same prefix keeps of that group. */
  lemma {:induction false} WithMagnitudePrefix(s: seq<Anomaly>, k: nat, m: nat)
    requires k <= |s|
    ensures WithMagnitude(s[..k], m) <= WithMagnitude(s, m)
  {
    WithMagnitudeAppend(s[..k], s[k..], m);
    assert s == s[..k] + s[k..];
  }

  /**
   * The returned pairs are a prefix of a ranking of the zipped pairs: taken
   * from them without repetition, by non-increasing |error|, and in each
   * group of equal |error| the earliest pairs of the input, in input order.
   */
  lemma RankIsRankedPrefix(times: seq<int>, errors: seq<int>, count: Option<int>, m: nat)
    ensures var input := Zip(times, errors);
      var kept := Zip(Rank(times, errors, count).0, Rank(times, errors, count).1);
      && kept <= StableSort(input)
      && Ranked(kept)
      && multiset(kept) <= multiset(input)
      && WithMagnitude(kept, m) <= WithMagnitude(input, m)
  {
    var input := Zip(times, errors);
    var ranked, kept := StableSort(input), Kept(times, errors, count);
    ZipUnzip(kept);
    assert kept == ranked[..|kept|];
    StableSortRanked(input);
    StableSortPermutes(input);
    StableSortStable(input, m);
    PrefixFacts(ranked, |kept|, m);
  }

  /** What a prefix inherits from a ranked sequence. */
  lemma PrefixFacts(ranked: seq<Anomaly>, k: nat, m: nat)
    requires k <= |ranked| && Ranked(ranked)
    ensures Ranked(ranked[..k])
    ensures multiset(ranked[..k]) <= multiset(ranked)
    ensures WithMagnitude(ranked[..k], m) <= WithMagnitude(ranked, m)
  {
    WithMagnitudePrefix(ranked, k, m);
    assert ranked == ranked[..k] + ranked[k..];
  }

  /** The handler's ranking: zip, sort in place, cut, unzip. */
  method RankAnomalies(times: seq<int>, errors: seq<int>, count: Option<int>)
    returns (rankedTimes: seq<int>, rankedErrors: seq<int>)
    ensures (rankedTimes, rankedErrors) == Rank(times, errors, count)
  {
    var pairs := Zip(times, errors);
    var a := new Anomaly[|pairs|](k requires 0 <= k < |pairs| => pairs[k]);
    assert a[..] == pairs;
    SortByMagnitude(a);
    var kept := a[..];
    if count.Some? {
      kept := Take(kept, count.value);
    }
    rankedTimes, rankedErrors := Times(kept), Errors(kept);
  }
}
