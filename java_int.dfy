/**
 * Java's 32-bit `int`, as far as the bounds of the marking loops of
 * `buildStringShape` use it. Each later loop runs while
 * `i < nOfRigids - offset && i < len`, and the subtraction wraps around for a
 * count close to `Integer.MIN_VALUE`. The rest of the model computes the
 * bound exactly; this module states how far the two agree.
 */
module JavaInt {
  import opened ShapeEncoder

  const MIN: int := -0x8000_0000
  const MAX: int := 0x7FFF_FFFF
  const MODULUS: int := 0x1_0000_0000

  predicate IsInt(n: int) {
    MIN <= n <= MAX
  }

  /** Java's `a - b` on `int`: the exact difference brought back into range modulo 2^32. */
  function Sub(a: int, b: int): (d: int)
    requires IsInt(a) && IsInt(b)
    ensures IsInt(d)
    ensures (a - b - d) % MODULUS == 0
    ensures IsInt(a - b) ==> d == a - b
  {
    (a - b - MIN) % MODULUS + MIN
  }

  /** How many times a marking loop runs as Java evaluates its bound. */
  function PassesAsWritten(n: int, offset: nat, len: nat): nat
    requires IsInt(n) && IsInt(offset)
  {
    Saturate(Sub(n, offset), len)
  }

  /** How many times a marking loop runs with the bound computed exactly. */
  function PassesExact(n: int, offset: nat, len: nat): (k: nat)
    ensures k <= len
    ensures n <= offset ==> k == 0
  {
    Saturate(n - offset, len)
  }

  /**
   * The exact count is what the model's marking loop adds: the rigid count
   * goes from the saturated count below the run to the saturated count past
   * it, and a count of 0 or less marks nothing.
   */
  lemma PassesAreMarked(n: int, offset: nat, len: nat)
    ensures Saturate(n, offset) + PassesExact(n, offset, len) == Saturate(n, offset + len)
    ensures n <= 0 ==> PassesExact(n, offset, len) == 0
  {
  }

  /** Without wrap-around the two counts agree. */
  lemma AgreeWithoutWrap(n: int, offset: nat, len: nat)
    requires IsInt(n) && IsInt(offset) && MIN + offset <= n
    ensures PassesAsWritten(n, offset, len) == PassesExact(n, offset, len)
  {
  }

  /** With wrap-around the loop as written runs to its full length, though the count is negative. */
  lemma WrappedRunsFully(n: int, offset: nat, len: nat)
    requires IsInt(n) && offset <= 16 && len <= 16 && n < MIN + offset
    ensures n < 0 && PassesExact(n, offset, len) == 0
    ensures PassesAsWritten(n, offset, len) == len
  {
    assert Sub(n, offset) == n - offset + MODULUS;
  }

  /**
   * `buildStringShape(BIPED, -2147483647)`: the first loop marks nothing,
   * but `nOfRigids - 6` wraps to 2147483643, so the second loop marks four
   * voxels rigid for a negative count.
   */
  lemma BipedNegativeCount()
    ensures PassesExact(-2147483647, 0, 6) == 0 && PassesAsWritten(-2147483647, 0, 6) == 0
    ensures Sub(-2147483647, 6) == 2147483643
    ensures PassesExact(-2147483647, 6, 4) == 0 && PassesAsWritten(-2147483647, 6, 4) == 4
  {
    WrappedRunsFully(-2147483647, 6, 4);
  }

  /**
   * The BIPED string with Java's loop bounds. As module ShapeBuilder proves
   * for MarkBiped, the first loop marks priority places `0..5` in order and
   * the second places `6..9`; here each runs `PassesAsWritten` times.
   */
  function BipedAsWritten(n: int): (s: string)
    requires IsInt(n)
    ensures |s| == |Template(Biped)|
  {
    Mark(Template(Biped), Priority(Biped)[..PassesAsWritten(n, 0, 6)] + Priority(Biped)[6..6 + PassesAsWritten(n, 6, 4)])
  }

  /** Where no bound wraps, the BIPED string as written is the encoding. */
  lemma BipedAgreesWithoutWrap(n: int)
    requires IsInt(n) && MIN + 6 <= n
    ensures BipedAsWritten(n) == Encode(Biped, n)
  {
    AgreeWithoutWrap(n, 0, 6);
    AgreeWithoutWrap(n, 6, 4);
    PassesAreMarked(n, 6, 4);
    var p := Priority(Biped);
    assert p[..Saturate(n, 6)] + p[6..6 + PassesExact(n, 6, 4)] == p[..Saturate(n, 10)];
  }

  /**
   * `buildStringShape(BIPED, -2147483647)` as written prints two rigid
   * voxels in each of the first two rows; with exact bounds a negative count
   * prints the all-soft body.
   */
  lemma BipedNegativeString()
    ensures BipedAsWritten(-2147483647) == "srrs-srrs-s..s"
    ensures Encode(Biped, -2147483647) == "ssss-ssss-s..s"
  {
    BipedNegativeCount();
    MarkMiddleColumns();
    OutOfRangeCounts(Biped, -2147483647);
    Baselines();
  }

  /** Marking only priority places 6..9 of BIPED makes the two middle voxels of each full row rigid. */
  lemma MarkMiddleColumns()
    ensures Mark(Template(Biped), Priority(Biped)[..0] + Priority(Biped)[6..10]) == "srrs-srrs-s..s"
  {
    var pr := Priority(Biped);
    assert pr[..0] + pr[6..10] == [1, 2, 6, 7];
    var s := Mark(Template(Biped), [1, 2, 6, 7]);
    forall p | 0 <= p < 14 ensures s[p] == "srrs-srrs-s..s"[p] {
      assert p == 0 || p == 1 || p == 2 || p == 3 || p == 4 || p == 5 || p == 6 || p == 7 || p == 8 || p == 9 || p == 10 || p == 11 || p == 12 || p == 13;
    }
  }
}
