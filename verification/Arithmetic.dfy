/** Division with remainder. */
module Arithmetic {
  lemma DivMod(v: int, k: int, q: int, r: int)
    requires k > 0 && v == k * q + r && 0 <= r < k
    ensures v / k == q && v % k == r
  {
    var e := v / k - q;
    assert k * e == r - v % k;
    assert e > 0 ==> k * e >= k;
    assert e < 0 ==> k * e <= -k;
  }
}
