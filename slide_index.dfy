/**
  Index arithmetic of the hero slider: the expression that picks the next
  current slide, `(index + slides.length) % slides.length`, with JavaScript's
  truncating remainder, and the index sequences produced by the next and
  previous buttons and by the auto-advance timer.
 */
module SlideIndex {

  /** JavaScript's `a % n` for a positive divisor: the remainder takes the sign
      of the dividend (truncation toward zero), unlike Dafny's Euclidean `%`. */
  function JsRem(a: int, n: int): (r: int)
    requires n > 0
    ensures -n < r < n
    ensures a >= 0 ==> r >= 0
    ensures a <= 0 ==> r <= 0
    ensures r == a - n * JsQuot(a, n)
  {
    if a >= 0 then a % n else -((-a) % n)
  }

  /** JavaScript's quotient truncated toward zero, the partner of JsRem. */
  function JsQuot(a: int, n: int): int
    requires n > 0
  {
    if a >= 0 then a / n else -((-a) / n)
  }

  /** Adding the period does not change Dafny's remainder. */
  lemma {:induction false} ModShift(x: int, n: int, k: int)
    requires n > 0
    ensures (x + k * n) % n == x % n
  {
    var q, r := x / n, x % n;
    assert x == q * n + r;
    assert x + k * n == (q + k) * n + r;
    ModUnique(x + k * n, n, q + k, r);
  }

  /** Quotient and remainder are determined by the division identity. */
  lemma {:induction false} ModUnique(x: int, n: int, q: int, r: int)
    requires n > 0 && 0 <= r < n && x == q * n + r
    ensures x % n == r && x / n == q
  {
    var q', r' := x / n, x % n;
    assert x == q' * n + r';
    assert (q - q') * n == r' - r;
    if q > q' {
      assert (q - q') * n >= n by { MulAtLeast(q - q', n); }
    } else if q < q' {
      assert (q' - q) * n >= n by { MulAtLeast(q' - q, n); }
    }
  }

  lemma MulAtLeast(a: int, n: int)
    requires a >= 1 && n > 0
    ensures a * n >= n
  {
  }

  /** The new current slide chosen by `goToSlide(index)` over `n` slides.
      Whenever `index >= -n` (true on every call path of the page) the
      truncating expression agrees with the mathematical modulus, so the
      result is a valid position congruent to `index`. */
  function Wrap(index: int, n: int): (r: int)
    requires n > 0 && index >= -n
    ensures 0 <= r < n
    ensures r == index % n
    ensures 0 <= index < n ==> r == index
  {
    WrapAgrees(index, n);
    JsRem(index + n, n)
  }

  lemma {:induction false} WrapAgrees(index: int, n: int)
    requires n > 0 && index >= -n
    ensures JsRem(index + n, n) == index % n
    ensures 0 <= index < n ==> index % n == index
  {
    ModShift(index, n, 1);
    assert index + 1 * n == index + n;
    if 0 <= index < n {
      ModUnique(index, n, 0, index);
    }
  }

  /** The index reached by `nextSlide` from `c`. */
  function NextIndex(c: int, n: int): (r: int)
    requires 0 <= c < n
    ensures 0 <= r < n
    ensures r == if c == n - 1 then 0 else c + 1
  {
    Wrap(c + 1, n)
  }

  /** The index reached by `prevSlide` from `c`. */
  function PrevIndex(c: int, n: int): (r: int)
    requires 0 <= c < n
    ensures 0 <= r < n
    ensures r == if c == 0 then n - 1 else c - 1
  {
    Wrap(c - 1, n)
  }

  /** Next and previous undo each other. */
  lemma {:induction false} PrevNextInverse(c: int, n: int)
    requires 0 <= c < n
    ensures PrevIndex(NextIndex(c, n), n) == c
    ensures NextIndex(PrevIndex(c, n), n) == c
  {
  }

  /** The index after `k` auto-advances (or next-button clicks) from `c`. */
  function Advance(c: int, n: int, k: nat): (r: int)
    requires 0 <= c < n
    ensures 0 <= r < n
    decreases k
  {
    if k == 0 then c else NextIndex(Advance(c, n, k - 1), n)
  }

  /** One step around the cycle of remainders. */
  lemma {:induction false} ModSucc(x: int, n: int)
    requires n > 0
    ensures (x + 1) % n == if x % n == n - 1 then 0 else x % n + 1
  {
    var q, r := x / n, x % n;
    assert x == q * n + r;
    if r == n - 1 {
      assert x + 1 == (q + 1) * n + 0;
      ModUnique(x + 1, n, q + 1, 0);
    } else {
      ModUnique(x + 1, n, q, r + 1);
    }
  }

  /** `k` advances move the slider `k` positions around the cycle. */
  lemma {:induction false} AdvanceIsRotation(c: int, n: int, k: nat)
    requires 0 <= c < n
    ensures Advance(c, n, k) == (c + k) % n
  {
    if k == 0 {
      ModUnique(c, n, 0, c);
    } else {
      AdvanceIsRotation(c, n, k - 1);
      ModSucc(c + k - 1, n);
    }
  }

  /** Cyclic closure: `n` advances over `n` slides come back to the start. */
  lemma FullCycle(c: int, n: int)
    requires 0 <= c < n
    ensures Advance(c, n, n) == c
  {
    AdvanceIsRotation(c, n, n);
    ModShift(c, n, 1);
    ModUnique(c, n, 0, c);
  }

  /** Below the bound `index >= -n` the page's expression can leave the
      range: for `-2n < index < -n` the truncating remainder is the negative
      sum itself. */
  lemma UnguardedIndexIsNegative(index: int, n: int)
    requires n > 0 && -2 * n < index < -n
    ensures JsRem(index + n, n) == index + n < 0
  {
    ModUnique(-(index + n), n, 0, -(index + n));
  }
}
