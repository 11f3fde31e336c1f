/** What all parts of the system share: 32-bit words and bytes as bounded integers. */
module Words {

  const WORDS := 0x1_0000_0000

  type Word = x: int | 0 <= x < WORDS

  type Byte = x: int | 0 <= x < 0x100

  /** A word read as a signed number. */
  function Signed(w: Word): int { if w < 0x8000_0000 then w else w - WORDS }

  function Min(a: int, b: int): int { if a < b then a else b }

  datatype Option<T> = None | Some(value: T)

  function Pow2(n: nat): (p: nat)
    ensures p > 0
  {
    if n == 0 then 1 else 2 * Pow2(n - 1)
  }

  // ---- Division by powers of two ----

  lemma Distribute(a: int, b: int, p: int)
    ensures (a - b) * p == a * p - p * b
  {}

  lemma AtLeastOne(k: int, d: int)
    requires k >= 1 && d > 0
    ensures k * d >= d
  {}

  lemma DivideUnique(a: int, d: int, q: int, r: int)
    requires d > 0 && 0 <= r < d && a == q * d + r
    ensures a / d == q
  {
    var t, u := a / d, a % d;
    assert a == t * d + u && 0 <= u < d;
    Distribute(q, t, d);
    Distribute(t, q, d);
    if q > t { AtLeastOne(q - t, d); }
    if q < t { AtLeastOne(t - q, d); }
  }

  lemma HalveThenDivide(a: int, p: int)
    requires p > 0
    ensures a / 2 / p == a / (2 * p)
  {
    var h := a / 2;
    var q := h / p;
    var r := h - q * p;
    assert 0 <= r < p;
    var b := a - 2 * h;
    assert 0 <= b < 2;
    assert a == q * (2 * p) + (2 * r + b) by {
      assert 2 * (q * p) == q * (2 * p);
    }
    DivideUnique(a, 2 * p, q, 2 * r + b);
  }
}
