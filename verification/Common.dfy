/** Small value types shared by the models. */
module Common {

  datatype Option<+T> = None | Some(value: T)

  /** One more than the largest 64-bit unsigned value. */
  const TWO64: nat := 0x1_0000_0000_0000_0000

  /** The page numbers `[start, start + count)`. */
  ghost function Range(start: nat, count: nat): (s: set<nat>)
    ensures forall p :: p in s <==> start <= p < start + count
    ensures |s| == count
    decreases count
  {
    if count == 0 then {} else Range(start, count - 1) + {start + count - 1}
  }

  lemma MulAtLeast(a: int, d: nat)
    ensures a >= 1 ==> a * d >= d
    ensures a <= -1 ==> a * d <= 0 - d
  {
  }

  /** Division is the quotient with a remainder below the divisor. */
  lemma DivUnique(x: nat, d: nat, k: nat, r: nat)
    requires d > 0 && r < d && x == k * d + r
    ensures x / d == k && x % d == r
  {
    MulAtLeast(x / d - k, d);
    assert (x / d - k) * d == r - x % d;
  }

  /** Quotient and remainder, named. */
  lemma DivMod(x: nat, d: nat) returns (q: nat, r: nat)
    requires d > 0
    ensures q == x / d && r == x % d && r < d && x == q * d + r
  {
    q, r := x / d, x % d;
  }

  lemma ModAddMultiple(a: nat, m: nat, q: nat)
    requires m > 0
    ensures (q * m + a) % m == a % m
  {
    var k, r := a / m, a % m;
    assert q * m + a == (q + k) * m + r;
    DivUnique(q * m + a, m, q + k, r);
  }

  /** A bit field is unmoved by adding a multiple of everything above it. */
  lemma FieldWraps(v: nat, q: nat, d: nat, m: nat)
    requires d > 0 && m > 0
    ensures (q * (d * m) + v) / d % m == v / d % m
  {
    var a, r := v / d, v % d;
    assert q * (d * m) + v == (q * m + a) * d + r;
    DivUnique(q * (d * m) + v, d, q * m + a, r);
    ModAddMultiple(a, m, q);
  }
}
