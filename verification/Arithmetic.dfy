/** Division by a positive number, characterised. */
module Arithmetic {
  lemma DivAt(n: int, w: int, q: int, r: int)
    requires n == w * q + r && 0 <= r < w
    ensures n / w == q && n % w == r
  {
    var d := q - n / w;
    assert w * d == w * q - w * (n / w);
    if d > 0 {
      AtLeast(w, d);
    } else if d < 0 {
      AtLeast(w, -d);
    }
  }

  lemma AtLeast(w: int, d: int)
    requires w > 0 && d > 0
    ensures w * d >= w
  {
  }
}
