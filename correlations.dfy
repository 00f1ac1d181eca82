/**
 * Post-processing of the correlation ranking the analytics engine returns:
 * optionally keep only time-series columns, then take the first `count`
 * column names.
 */
module Correlations {
  import opened PySlice

  /** One entry of the ranking: a column name and its correlation with the target. */
  datatype Correlation = Correlation(column: string, coefficient: real)

  /** A column that is a time series of its own; every derived column has an underscore in its name. */
  predicate IsSeries(column: string) {
    '_' !in column
  }

  /** `[x for x in correlations if '_' not in x[0]]`. */
  function KeepSeries(cs: seq<Correlation>): (r: seq<Correlation>)
    ensures |r| <= |cs|
    ensures forall k :: 0 <= k < |r| ==> IsSeries(r[k].column)
  {
    if cs == [] then []
    else KeepSeries(cs[..|cs| - 1]) + (if IsSeries(cs[|cs| - 1].column) then [cs[|cs| - 1]] else [])
  }

  /** `[x[0] for x in correlations]`. */
  function Columns(cs: seq<Correlation>): (r: seq<string>)
    ensures |r| == |cs| && forall k :: 0 <= k < |cs| ==> r[k] == cs[k].column
  {
    if cs == [] then [] else [cs[0].column] + Columns(cs[1..])
  }

  /** The columns the endpoint returns for a parsed count and flag. */
  function Select(cs: seq<Correlation>, count: int, onlyTimeseries: bool): seq<string> {
    Take(Columns(if onlyTimeseries then KeepSeries(cs) else cs), count)
  }

  /** The filter keeps exactly the time-series entries. */
  lemma {:induction false} KeepSeriesMembers(cs: seq<Correlation>, x: Correlation)
    ensures x in KeepSeries(cs) <==> x in cs && IsSeries(x.column)
  {
    if cs != [] {
      KeepSeriesMembers(cs[..|cs| - 1], x);
      assert cs == cs[..|cs| - 1] + [cs[|cs| - 1]];
    }
  }

  /** The filter keeps the input order: filtering a concatenation filters each part. */
  lemma {:induction false} KeepSeriesAppend(a: seq<Correlation>, b: seq<Correlation>)
    ensures KeepSeries(a + b) == KeepSeries(a) + KeepSeries(b)
    decreases |b|
  {
    if b == [] {
      assert a + b == a;
    } else {
      var b' := b[..|b| - 1];
      assert (a + b)[..|a + b| - 1] == a + b';
      KeepSeriesAppend(a, b');
    }
  }

  /** Filtering twice is filtering once. */
  lemma {:induction false} KeepSeriesIdempotent(cs: seq<Correlation>)
    ensures KeepSeries(KeepSeries(cs)) == KeepSeries(cs)
  {
    if cs != [] {
      var init, last := cs[..|cs| - 1], cs[|cs| - 1];
      KeepSeriesIdempotent(init);
      KeepSeriesAppend(KeepSeries(init), if IsSeries(last.column) then [last] else []);
      assert KeepSeries([last]) == if IsSeries(last.column) then [last] else [] by {
        assert [last][..0] == [];
      }
    }
  }

  /**
   * The returned columns are the first names of the (filtered) ranking, in
   * ranking order; there are at most as many as entries in the ranking and,
   * for a non-negative count, at most `count`; with the flag every one of
   * them names a time series.
   */
  lemma SelectIsRankingPrefix(cs: seq<Correlation>, count: int, onlyTimeseries: bool)
    ensures var r := Select(cs, count, onlyTimeseries);
      && r <= Columns(if onlyTimeseries then KeepSeries(cs) else cs)
      && |r| <= |cs|
      && (count >= 0 ==> |r| <= count)
      && (onlyTimeseries ==> forall k :: 0 <= k < |r| ==> IsSeries(r[k]))
      && forall k :: 0 <= k < |r| ==> r[k] in Columns(cs)
  {
    var kept := if onlyTimeseries then KeepSeries(cs) else cs;
    var r := Select(cs, count, onlyTimeseries);
    forall k | 0 <= k < |r| ensures r[k] in Columns(cs) {
      assert r[k] == kept[k].column;
      if onlyTimeseries {
        KeepSeriesMembers(cs, kept[k]);
      }
      var j :| 0 <= j < |cs| && cs[j] == kept[k];
      assert Columns(cs)[j] == r[k];
    }
  }
}
