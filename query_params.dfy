/** The query parameters of the anomaly and correlation endpoints. */
module QueryParams {
  import opened Options
  import opened PyText

  /** A parsed query parameter, or the message of the 400 response that rejects it. */
  datatype Parsed<T> = Value(value: T) | Invalid(message: string)

  const COUNT_ERROR := "Could not parse count"
  const FLAG_ERROR := "Only true or false accepted for only_timeseries"

  /** The number of columns the correlation endpoint returns when no `count` is given. */
  const DEFAULT_CORRELATION_COUNT := 20

  /** `count`: absent stays absent, present goes through `int()`, and `ValueError` becomes a 400. */
  function ParseCount(arg: Option<string>): (r: Parsed<Option<int>>)
    ensures arg.None? ==> r == Value(None)
    ensures arg.Some? && r.Value? ==> r.value.Some?
    ensures arg.Some? ==> (r.Value? <==> ParseInt(arg.value).Some?)
    ensures r.Invalid? ==> r.message == COUNT_ERROR
  {
    match arg
    case None => Value(None)
    case Some(s) =>
      match ParseInt(s)
      case Some(n) => Value(Some(n))
      case None => Invalid(COUNT_ERROR)
  }

  /** Every count a client prints with `str()` is read back as that count. */
  lemma ParseCountShow(n: int)
    ensures ParseCount(Some(Show(n))) == Value(Some(n))
  {
    ParseIntShow(n);
  }

  /** `only_timeseries`: false when absent, else "true" or "false" after `lower()`, else a 400. */
  function ParseOnlyTimeseries(arg: Option<string>): (r: Parsed<bool>)
    ensures arg.None? ==> r == Value(false)
    ensures r.Invalid? ==> r.message == FLAG_ERROR
  {
    match arg
    case None => Value(false)
    case Some(s) =>
      var lower := LowerAscii(s);
      if lower == "true" then Value(true)
      else if lower == "false" then Value(false)
      else Invalid(FLAG_ERROR)
  }

  /** `s` is `word` (lower-case ASCII letters) with any of its letters in upper case. */
  ghost predicate SpellsIgnoringCase(s: string, word: string) {
    && |s| == |word|
    && forall k :: 0 <= k < |s| ==> s[k] == word[k] || s[k] as int == word[k] as int - 32
  }

  ghost predicate LowerLetters(word: string) {
    forall k :: 0 <= k < |word| ==> 'a' <= word[k] <= 'z'
  }

  lemma {:induction false} LowerAsciiMatches(s: string, word: string)
    requires LowerLetters(word)
    ensures LowerAscii(s) == word <==> SpellsIgnoringCase(s, word)
  {
    if SpellsIgnoringCase(s, word) {
      assert forall k :: 0 <= k < |s| ==> LowerAscii(s)[k] == word[k];
    }
    if LowerAscii(s) == word {
      forall k | 0 <= k < |s| ensures s[k] == word[k] || s[k] as int == word[k] as int - 32 {
        assert LowerChar(s[k]) == word[k];
      }
    }
  }

  /**
   * The flag is accepted exactly when it spells "true" or "false" in any
   * mixture of letter cases, and it is true exactly when it spells "true".
   */
  lemma OnlyTimeseriesIgnoresCase(s: string)
    ensures ParseOnlyTimeseries(Some(s)) == Value(true) <==> SpellsIgnoringCase(s, "true")
    ensures ParseOnlyTimeseries(Some(s)) == Value(false) <==> SpellsIgnoringCase(s, "false")
    ensures ParseOnlyTimeseries(Some(s)).Invalid? <==>
              !SpellsIgnoringCase(s, "true") && !SpellsIgnoringCase(s, "false")
  {
    LowerAsciiMatches(s, "true");
    LowerAsciiMatches(s, "false");
  }
}
