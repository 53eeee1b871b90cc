/** Results that may be missing. */
module Wrappers {
  datatype Option<+T> = None | Some(value: T)

  lemma FewerElements<T>(a: set<T>, b: set<T>)
    requires a <= b
    ensures |a| <= |b|
  {
    assert |b| == |a| + |b - a| by {
      assert b == a + (b - a);
    }
  }
}
