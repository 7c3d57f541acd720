/** Bytes and little-endian words. */
module Bytes {
  import opened Common

  type Byte = b: nat | b < 256

  function Power(k: nat): (p: nat)
    ensures p >= 1
  {
    if k == 0 then 1 else 256 * Power(k - 1)
  }

  /** `n` in `k` bytes, lowest first. */
  function Encode(n: nat, k: nat): (b: seq<Byte>)
    ensures |b| == k
  {
    if k == 0 then [] else [n % 256] + Encode(n / 256, k - 1)
  }

  function Decode(b: seq<Byte>): nat {
    if b == [] then 0 else b[0] + 256 * Decode(b[1..])
  }

  lemma {:induction false} DecodeEncode(n: nat, k: nat)
    ensures Decode(Encode(n, k)) == n % Power(k)
  {
    if k > 0 {
      DecodeEncode(n / 256, k - 1);
      assert Encode(n, k)[1..] == Encode(n / 256, k - 1);
      DigitSplit(n, Power(k - 1));
    }
  }

  lemma DigitSplit(n: nat, p: nat)
    requires p >= 1
    ensures n % 256 + 256 * ((n / 256) % p) == n % (256 * p) && n / 256 / p == n / (256 * p)
  {
    var q, r := (n / 256) / p, (n / 256) % p;
    var m := n % 256 + 256 * r;
    assert n == 256 * (n / 256) + n % 256;
    assert n / 256 == q * p + r;
    assert n == q * (256 * p) + m by {
      assert 256 * (q * p + r) == q * (256 * p) + 256 * r;
    }
    assert m < 256 * p;
    DivUnique(n, 256 * p, q, m);
  }

  /** Eight bytes hold 64 bits. */
  lemma PowerEight()
    ensures Power(8) == 0x1_0000_0000_0000_0000
  {
    assert Power(4) == 0x1_0000_0000;
  }

  /** Byte `i` is the digit worth `256^i`. */
  lemma {:induction false} EncodeAt(n: nat, k: nat, i: nat)
    requires i < k
    ensures Encode(n, k)[i] == n / Power(i) % 256
  {
    if i > 0 {
      EncodeAt(n / 256, k - 1, i - 1);
      DigitSplit(n, Power(i - 1));
    }
  }

  lemma Powers()
    ensures Power(0) == 1 && Power(1) == 0x100 && Power(2) == 0x1_0000 && Power(3) == 0x100_0000
    ensures Power(4) == 0x1_0000_0000 && Power(5) == 0x100_0000_0000 && Power(6) == 0x1_0000_0000_0000
    ensures Power(7) == 0x100_0000_0000_0000
  {
    assert Power(3) == 0x100_0000;
    assert Power(5) == 0x100_0000_0000;
  }

  /** A 64-bit word in memory: the low byte first. */
  lemma LittleEndian(n: nat)
    ensures Encode(n, 8) == [n % 0x100, n / 0x100 % 0x100, n / 0x1_0000 % 0x100, n / 0x100_0000 % 0x100,
                             n / 0x1_0000_0000 % 0x100, n / 0x100_0000_0000 % 0x100,
                             n / 0x1_0000_0000_0000 % 0x100, n / 0x100_0000_0000_0000 % 0x100]
  {
    hide Encode, Power;
    Powers();
    forall i: nat | i < 8 ensures Encode(n, 8)[i] == n / Power(i) % 256 {
      EncodeAt(n, 8, i);
    }
  }

  /** Reading it back weighs each byte by its place. */
  lemma DecodeWord(b: seq<Byte>)
    requires |b| == 8
    ensures var d: seq<nat> := b;
            Decode(b) == d[0] + 0x100 * d[1] + 0x1_0000 * d[2] + 0x100_0000 * d[3] + 0x1_0000_0000 * d[4] +
                         0x100_0000_0000 * d[5] + 0x1_0000_0000_0000 * d[6] + 0x100_0000_0000_0000 * d[7]
  {
    var d: seq<nat> := b;
    DecodeFour(b);
    DecodeFour(b[4..]);
    assert Decode(b[4..][4..]) == 0;
  }

  lemma DecodeFour(b: seq<Byte>)
    requires |b| >= 4
    ensures var d: seq<nat> := b;
            Decode(b) == d[0] + 0x100 * d[1] + 0x1_0000 * d[2] + 0x100_0000 * d[3] + 0x1_0000_0000 * Decode(b[4..])
  {
    assert b[1..][1..] == b[2..] && b[2..][1..] == b[3..] && b[3..][1..] == b[4..];
    assert Decode(b[3..]) == b[3] + 256 * Decode(b[4..]);
    assert Decode(b[2..]) == b[2] + 256 * Decode(b[3..]);
    assert Decode(b[1..]) == b[1] + 256 * Decode(b[2..]);
  }

  lemma WordRoundTrip(n: nat)
    requires n < 0x1_0000_0000_0000_0000
    ensures Decode(Encode(n, 8)) == n
  {
    DecodeEncode(n, 8);
    PowerEight();
  }

  // Byte strings.

  type Data = seq<Byte>

  /** `d` with `x` written over it from `at` on. */
  function Patched(d: Data, at: nat, x: Data): (r: Data)
    requires at + |x| <= |d|
    ensures |r| == |d|
  {
    d[..at] + x + d[at + |x|..]
  }

  /** A patch, byte by byte. */
  lemma PatchedAt(d: Data, at: nat, x: Data, i: nat)
    requires at + |x| <= |d| && i < |d|
    ensures Patched(d, at, x)[i] == if at <= i < at + |x| then x[i - at] else d[i]
  {
  }

  /** `x` is what `d` holds from `at` on. */
  ghost predicate Excerpt(d: Data, at: nat, x: Data) {
    at + |x| <= |d| && d[at..at + |x|] == x
  }

  /** `d'` is `d` with the bytes from `at` on replaced by `x`. */
  ghost predicate Overwritten(d: Data, d': Data, at: nat, x: Data) {
    && |d'| == |d| && at + |x| <= |d|
    && forall i :: 0 <= i < |d| ==> d'[i] == if at <= i < at + |x| then x[i - at] else d[i]
  }

  lemma PatchOverwrites(d: Data, at: nat, x: Data)
    requires at + |x| <= |d|
    ensures Overwritten(d, Patched(d, at, x), at, x)
  {
    hide Patched;
    forall i | 0 <= i < |d| ensures Patched(d, at, x)[i] == if at <= i < at + |x| then x[i - at] else d[i] {
      PatchedAt(d, at, x, i);
    }
  }

  /** A patch changes its own bytes only. */
  lemma PatchedSlice(d: Data, at: nat, x: Data, lo: nat, hi: nat)
    requires at + |x| <= |d| && lo <= hi <= |d|
    ensures hi <= at || at + |x| <= lo ==> Patched(d, at, x)[lo..hi] == d[lo..hi]
    ensures lo == at && hi == at + |x| ==> Patched(d, at, x)[lo..hi] == x
  {
    var p := Patched(d, at, x);
    var a := p[lo..hi];
    if hi <= at || at + |x| <= lo {
      var b := d[lo..hi];
      assert forall i :: 0 <= i < hi - lo ==> a[i] == p[lo + i] == d[lo + i] == b[i];
      assert a == b;
    }
    if lo == at && hi == at + |x| {
      assert forall i :: 0 <= i < |x| ==> a[i] == p[lo + i] == x[i];
      assert a == x;
    }
  }

  /** A patch leaves a stretch as it was exactly if it repeats the bytes that it shares with it. */
  lemma PatchedSame(d: Data, at: nat, x: Data, o: nat, n: nat)
    requires at + |x| <= |d| && o + n <= |d|
    ensures Patched(d, at, x)[o..o + n] == d[o..o + n] <==>
            forall i: nat :: i < |x| && o <= at + i < o + n ==> x[i] == d[at + i]
  {
    hide Patched;
    var d' := Patched(d, at, x);
    var p, q := d'[o..o + n], d[o..o + n];
    if forall i: nat :: i < |x| && o <= at + i < o + n ==> x[i] == d[at + i] {
      forall j | 0 <= j < n ensures p[j] == q[j] {
        PatchedAt(d, at, x, o + j);
        if at <= o + j < at + |x| {
          assert x[o + j - at] == d[at + (o + j - at)];
        }
      }
    }
    if p == q {
      forall i: nat | i < |x| && o <= at + i < o + n ensures x[i] == d[at + i] {
        PatchedAt(d, at, x, at + i);
        assert p[at + i - o] == q[at + i - o];
      }
    }
  }

  lemma PatchNested(d: Data, o: nat, n: nat, k: nat, x: Data)
    requires o + n <= |d| && k + |x| <= n
    ensures Patched(d, o, Patched(d[o..o + n], k, x)) == Patched(d, o + k, x)
  {
    var p := Patched(d, o, Patched(d[o..o + n], k, x));
    var q := Patched(d, o + k, x);
    assert forall i :: 0 <= i < |d| ==> p[i] == q[i];
  }

  lemma SliceOfSlice(d: Data, o: nat, n: nat, k: nat, m: nat)
    requires o + n <= |d| && k + m <= n
    ensures d[o..o + n][k..k + m] == d[o + k..o + k + m]
  {
    var whole := d[o..o + n];
    var a, b := whole[k..k + m], d[o + k..o + k + m];
    assert forall i :: 0 <= i < m ==> a[i] == whole[k + i] == d[o + k + i] == b[i];
    assert a == b;
  }

  /** Rounding a byte range out to whole units: `lo` is the first unit, `a` the bytes before the range in
      it, `hi` the first unit after. */
  lemma RangeArith(size: nat, lo: nat, a: nat, hi: nat, r: nat, count: nat, n: nat)
    requires a < size && r < size && lo * size + a + count + size - 1 == hi * size + r
    ensures hi >= lo && (count > 0 ==> hi > lo) && a + count <= (hi - lo) * size < a + count + size
    ensures hi <= n <==> lo * size + a + count <= n * size
  {
    assert (hi - lo) * size == hi * size - lo * size;
    MulAtLeast(hi - lo, size);
    assert (n - hi) * size == n * size - hi * size;
    MulAtLeast(n - hi, size);
  }
}
