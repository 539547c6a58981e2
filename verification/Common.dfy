/** What several modules need. */
module Common {
  const UINT := 0x1_0000_0000

  function Max(a: int, b: int): int { if a < b then b else a }

  lemma {:induction false} SubsetSize<T>(a: set<T>, b: set<T>)
    requires a <= b
    ensures |a| <= |b|
  {
    assert b == a + (b - a);
  }
}
