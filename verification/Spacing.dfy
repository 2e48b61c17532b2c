/** Times that keep a distance, as requests do that are made only when the last answer has run out. */
module Spacing {
  predicate Spaced(times: seq<int>, gap: int) {
    var n := |times|;
    n < 2 || (Spaced(times[..n - 1], gap) && times[n - 2] + gap <= times[n - 1])
  }

  lemma {:induction false} SpacedSpan(times: seq<int>, gap: int)
    requires Spaced(times, gap) && |times| > 0
    ensures (|times| - 1) * gap <= times[|times| - 1] - times[0]
  {
    if |times| > 1 {
      var before := times[..|times| - 1];
      SpacedSpan(before, gap);
      assert before[|before| - 1] + gap <= times[|times| - 1];
    }
  }
}
