/** Ordinal substring search, the meaning of `string.Contains(string)`. */
module Text {

  /** `needle` occurs in `hay` starting at offset `k`. */
  predicate OccursAt(hay: string, needle: string, k: int)
  {
    0 <= k <= |hay| - |needle| && hay[k..k + |needle|] == needle
  }

  /** `needle` occurs in `hay` at some offset (the empty needle occurs everywhere). */
  predicate Contains(hay: string, needle: string)
  {
    exists k | 0 <= k <= |hay| :: OccursAt(hay, needle, k)
  }

  /** An occurrence survives any text put before and after it. */
  lemma ContainsWithin(a: string, x: string, b: string, needle: string)
    requires Contains(x, needle)
    ensures Contains(a + x + b, needle)
  {
    var k :| 0 <= k <= |x| && OccursAt(x, needle, k);
    var hay := a + x + b;
    assert |hay| == |a| + |x| + |b|;
    assert hay[|a| + k..|a| + k + |needle|] == x[k..k + |needle|];
    assert OccursAt(hay, needle, |a| + k);
  }

  /** Every text contains itself. */
  lemma ContainsSelf(s: string)
    ensures Contains(s, s)
  {
    assert OccursAt(s, s, 0);
  }
}
