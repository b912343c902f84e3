/** Fixed-width integers of the on-chain program and the little-endian byte
    encoding used for `bounty_id.to_le_bytes()` in the bounty address seeds. */
module Numeric {

  type Byte = x: int | 0 <= x < 256

  const U64_LIMIT: int := 0x1_0000_0000_0000_0000

  /** Rust `u64`. */
  type U64 = x: int | 0 <= x < 0x1_0000_0000_0000_0000

  /** Rust `i64` (the `created_at` timestamp). */
  type I64 = x: int | -0x8000_0000_0000_0000 <= x < 0x8000_0000_0000_0000

  /** 256 to the power `n`: the number of values `n` bytes can hold. */
  function Pow256(n: nat): (r: nat)
    ensures r >= 1
  {
    if n == 0 then 1 else 256 * Pow256(n - 1)
  }

  /** `a < b` scales to a gap of at least `d`. */
  lemma {:induction false} MulLt(d: nat, a: nat, b: nat)
    requires a < b
    ensures d * a + d <= d * b
  {
    assert d * b == d * a + d * (b - a);
    assert d * (b - a) == d * (b - a - 1) + d;
  }

  /** Division is determined by quotient and remainder. */
  lemma {:induction false} DivUnique(x: nat, d: nat, k: nat, low: nat)
    requires 0 < d && low < d && x == d * k + low
    ensures x / d == k
  {
    var q := x / d;
    var m := x % d;
    assert d * q + m == x;
    if q < k {
      MulLt(d, q, k);
    } else if q > k {
      MulLt(d, k, q);
    }
  }

  /** `x` split into its low byte and the rest, then the rest split at `b`. */
  lemma {:induction false} Regroup(x: nat, q: nat, r: nat, b: nat, k: nat, m: nat)
    requires x == 256 * q + r && q == b * k + m
    ensures x == (256 * b) * k + (256 * m + r)
  {
    calc {
      x;
      256 * q + r;
      256 * (b * k + m) + r;
      { assert 256 * (b * k + m) == 256 * (b * k) + 256 * m; }
      256 * (b * k) + 256 * m + r;
      { assert 256 * (b * k) == (256 * b) * k; }
      (256 * b) * k + (256 * m + r);
    }
  }

  /** Dropping the low byte and then `n` more drops `n + 1` bytes. */
  lemma {:induction false} DivPow256(x: nat, n: nat)
    ensures x / 256 / Pow256(n) == x / Pow256(n + 1)
  {
    var b := Pow256(n);
    var q := x / 256;
    var k := q / b;
    var m := q % b;
    Regroup(x, q, x % 256, b, k, m);
    MulLt(256, m, b);
    assert 256 * m + x % 256 < 256 * b;
    DivUnique(x, 256 * b, k, 256 * m + x % 256);
  }

  /** Base-256 digit `i` of `x`: the byte at weight `256^i`. */
  function Digit(x: nat, i: nat): Byte
  {
    (x / Pow256(i)) % 256
  }

  /** The digits of `x / 256` are those of `x` shifted down by one place. */
  lemma DigitShift(x: nat, i: nat)
    ensures Digit(x / 256, i) == Digit(x, i + 1)
  {
    DivPow256(x, i);
  }

  /** The `n` low-order bytes of `x`, least significant first: byte `i` is
      digit `i` of `x`. */
  function LeBytesN(x: nat, n: nat): (r: seq<Byte>)
    ensures |r| == n
    ensures forall i :: 0 <= i < n ==> r[i] == Digit(x, i)
  {
    if n == 0 then []
    else
      var rest := LeBytesN(x / 256, n - 1);
      assert Digit(x, 0) == x % 256;
      assert forall i :: 1 <= i < n ==> rest[i - 1] == Digit(x, i) by {
        forall i | 1 <= i < n
          ensures rest[i - 1] == Digit(x, i)
        {
          DigitShift(x, i - 1);
        }
      }
      [x % 256] + rest
  }

  /** The value a little-endian byte string denotes. */
  function FromLeBytes(s: seq<Byte>): (v: nat)
    ensures v < Pow256(|s|)
  {
    if s == [] then 0
    else
      var rest := FromLeBytes(s[1..]);
      assert rest + 1 <= Pow256(|s| - 1);
      assert 256 * (rest + 1) <= 256 * Pow256(|s| - 1);
      s[0] + 256 * rest
  }

  /** `u64::to_le_bytes`: eight bytes, least significant first. */
  function ToLeBytes(x: U64): (r: seq<Byte>)
    ensures |r| == 8
  {
    LeBytesN(x, 8)
  }

  lemma Pow256Of8()
    ensures Pow256(8) == U64_LIMIT
  {
  }

  /** Decoding the `n`-byte encoding of a value that fits in `n` bytes gives it back. */
  lemma {:induction false} FromLeBytesN(x: nat, n: nat)
    requires x < Pow256(n)
    ensures FromLeBytes(LeBytesN(x, n)) == x
  {
    if n > 0 {
      assert x / 256 < Pow256(n - 1);
      FromLeBytesN(x / 256, n - 1);
      assert LeBytesN(x, n)[1..] == LeBytesN(x / 256, n - 1);
    }
  }

  /** Encoding the value of a byte string in as many bytes gives the string back. */
  lemma {:induction false} LeBytesNOfValue(s: seq<Byte>)
    ensures LeBytesN(FromLeBytes(s), |s|) == s
  {
    if s != [] {
      LeBytesNOfValue(s[1..]);
      var v := FromLeBytes(s);
      assert v % 256 == s[0] && v / 256 == FromLeBytes(s[1..]);
      assert LeBytesN(v, |s|) == [v % 256] + LeBytesN(v / 256, |s| - 1);
    }
  }

  /** Round trip: the eight little-endian bytes of a `u64` decode back to it. */
  lemma LeBytesRoundTrip(x: U64)
    ensures FromLeBytes(ToLeBytes(x)) == x
  {
    Pow256Of8();
    FromLeBytesN(x, 8);
  }

  /** Every eight-byte string is the encoding of exactly one `u64`. */
  lemma LeBytesOnto(s: seq<Byte>)
    requires |s| == 8
    ensures FromLeBytes(s) < U64_LIMIT && ToLeBytes(FromLeBytes(s)) == s
  {
    Pow256Of8();
    LeBytesNOfValue(s);
  }

  /** Distinct ids give distinct seeds. */
  lemma LeBytesInjective(x: U64, y: U64)
    ensures ToLeBytes(x) == ToLeBytes(y) <==> x == y
  {
    LeBytesRoundTrip(x);
    LeBytesRoundTrip(y);
  }
}
