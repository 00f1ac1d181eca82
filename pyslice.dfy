/** Python's prefix slice `s[:count]`. */
module PySlice {

  function Min(a: int, b: int): int { if a <= b then a else b }

  function Max(a: int, b: int): int { if a <= b then b else a }

  /**
   * `s[:count]`: a non-negative stop is clamped to the length; a negative
   * stop counts from the end, so `count` elements are dropped from the end,
   * and nothing is left once `-count` reaches the length.
   */
  function Take<T>(s: seq<T>, count: int): (r: seq<T>)
    ensures count >= 0 ==> |r| == Min(count, |s|)
    ensures count < 0 ==> |r| == Max(0, |s| + count)
    ensures r == s[..|r|]
  {
    var stop := if count >= 0 then count else |s| + count;
    if stop <= 0 then []
    else if stop >= |s| then s
    else s[..stop]
  }

  /** Whatever was cut off by a negative count is exactly the last `-count` elements. */
  lemma TakeNegative<T>(s: seq<T>, count: int)
    requires count < 0 && -count <= |s|
    ensures Take(s, count) + s[|s| + count..] == s
  {
    assert Take(s, count) == s[..|s| + count];
  }
}
