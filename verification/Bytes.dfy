/** Byte strings, fixed-width big-endian integers and length-prefixed fields: the alphabet
    in which every signed message of the command fabric is written. */
module ByteStrings {

  type Byte = x: int | 0 <= x < 256
  type Bytes = seq<Byte>

  const TWO_32: int := 0x1_0000_0000
  const TWO_64: int := 0x1_0000_0000_0000_0000
  const MAX_I64: int := 0x7FFF_FFFF_FFFF_FFFF

  type U32 = x: int | 0 <= x < TWO_32
  type U64 = x: int | 0 <= x < TWO_64
  type I64 = x: int | -MAX_I64 - 1 <= x <= MAX_I64

  /** The 64-bit two's complement value of an unbounded sum (Go's int64 arithmetic wraps). */
  function WrapI64(x: int): I64 {
    var low := x % TWO_64;
    if low <= MAX_I64 then low else low - TWO_64
  }

  /** The bytes of an ASCII literal. */
  function Ascii(s: string): (b: Bytes)
    requires forall i | 0 <= i < |s| :: s[i] < 128 as char
    ensures |b| == |s| && forall i | 0 <= i < |s| :: b[i] == s[i] as int
  {
    seq(|s|, i requires 0 <= i < |s| => s[i] as int)
  }

  predicate HasPrefix(b: Bytes, prefix: Bytes) {
    prefix <= b
  }

  lemma Concat3(a: Bytes, b: Bytes, c: Bytes)
    ensures a + (b + c) == (a + b) + c
  {
  }

  lemma SplitEqual(a: Bytes, b: Bytes, c: Bytes, d: Bytes)
    requires |a| == |c| && a + b == c + d
    ensures a == c && b == d
  {
    assert a == (a + b)[..|a|] && c == (c + d)[..|a|];
    assert b == (a + b)[|a|..] && d == (c + d)[|a|..];
  }

  // ---- big-endian integers ------------------------------------------------------------

  function Pow256(k: nat): nat {
    if k == 0 then 1 else 256 * Pow256(k - 1)
  }

  lemma Pow256Values()
    ensures Pow256(1) == 256 && Pow256(4) == TWO_32 && Pow256(8) == TWO_64
  {
  }

  /** The low k bytes of n, most significant first. */
  function BigEndian(n: nat, k: nat): (b: Bytes)
    ensures |b| == k
  {
    if k == 0 then [] else BigEndian(n / 256, k - 1) + [n % 256]
  }

  function Value(b: Bytes): nat {
    if b == [] then 0 else 256 * Value(b[..|b| - 1]) + b[|b| - 1]
  }

  lemma {:induction false} ValueOfBigEndian(n: nat, k: nat)
    requires n < Pow256(k)
    ensures Value(BigEndian(n, k)) == n
  {
    if k != 0 {
      ValueOfBigEndian(n / 256, k - 1);
      assert BigEndian(n, k)[..k - 1] == BigEndian(n / 256, k - 1);
    }
  }

  lemma {:induction false} BigEndianOfValue(b: Bytes)
    ensures Value(b) < Pow256(|b|) && BigEndian(Value(b), |b|) == b
  {
    if b != [] {
      var front, last := b[..|b| - 1], b[|b| - 1];
      BigEndianOfValue(front);
      assert Value(b) / 256 == Value(front) && Value(b) % 256 == last;
    }
  }

  /** A fixed-width integer at the head of a message can be read back in only one way. */
  lemma BigEndianCancel(m: nat, n: nat, k: nat, r: Bytes, s: Bytes)
    requires m < Pow256(k) && n < Pow256(k)
    requires BigEndian(m, k) + r == BigEndian(n, k) + s
    ensures m == n && r == s
  {
    SplitEqual(BigEndian(m, k), r, BigEndian(n, k), s);
    ValueOfBigEndian(m, k);
    ValueOfBigEndian(n, k);
  }

  function EncU32(n: U32): (b: Bytes)
    ensures |b| == 4
  {
    BigEndian(n, 4)
  }

  function EncU64(n: U64): (b: Bytes)
    ensures |b| == 8
  {
    BigEndian(n, 8)
  }

  function ToU64(n: I64): U64 {
    if n < 0 then n + TWO_64 else n
  }

  function EncI64(n: I64): (b: Bytes)
    ensures |b| == 8
  {
    EncU64(ToU64(n))
  }

  function FromU64(n: U64): I64 {
    if n <= MAX_I64 then n else n - TWO_64
  }

  lemma U32Cancel(m: U32, n: U32, r: Bytes, s: Bytes)
    requires EncU32(m) + r == EncU32(n) + s
    ensures m == n && r == s
  {
    Pow256Values();
    BigEndianCancel(m, n, 4, r, s);
  }

  lemma U64Cancel(m: U64, n: U64, r: Bytes, s: Bytes)
    requires EncU64(m) + r == EncU64(n) + s
    ensures m == n && r == s
  {
    Pow256Values();
    BigEndianCancel(m, n, 8, r, s);
  }

  lemma I64Cancel(m: I64, n: I64, r: Bytes, s: Bytes)
    requires EncI64(m) + r == EncI64(n) + s
    ensures m == n && r == s
  {
    U64Cancel(ToU64(m), ToU64(n), r, s);
  }

  // ---- length-prefixed fields ---------------------------------------------------------

  /** appendLP: the length is written as a 32-bit number, so it is truncated beyond 4 GiB. */
  function LP(s: Bytes): (b: Bytes)
    ensures |b| == 4 + |s|
  {
    BigEndian(|s|, 4) + s
  }

  lemma LPCancel(x: Bytes, y: Bytes, r: Bytes, s: Bytes)
    requires |x| < TWO_32 && |y| < TWO_32
    requires LP(x) + r == LP(y) + s
    ensures x == y && r == s
  {
    Pow256Values();
    assert LP(x) + r == BigEndian(|x|, 4) + (x + r);
    assert LP(y) + s == BigEndian(|y|, 4) + (y + s);
    BigEndianCancel(|x|, |y|, 4, x + r, y + s);
    SplitEqual(x, r, y, s);
  }

  // ---- byte-wise order ----------------------------------------------------------------

  /** Go's `<` on strings. */
  predicate Less(a: Bytes, b: Bytes) {
    b != [] && (a == [] || a[0] < b[0] || (a[0] == b[0] && Less(a[1..], b[1..])))
  }

  lemma {:induction false} LessAsymmetric(a: Bytes, b: Bytes)
    requires Less(a, b)
    ensures !Less(b, a) && a != b
  {
    if a != [] && a[0] == b[0] {
      LessAsymmetric(a[1..], b[1..]);
    }
  }

  lemma {:induction false} LessTransitive(a: Bytes, b: Bytes, c: Bytes)
    requires Less(a, b) && Less(b, c)
    ensures Less(a, c)
  {
    if a != [] && a[0] == b[0] == c[0] {
      LessTransitive(a[1..], b[1..], c[1..]);
    }
  }

  lemma {:induction false} LessTotal(a: Bytes, b: Bytes)
    ensures Less(a, b) || a == b || Less(b, a)
  {
    if a != [] && b != [] && a[0] == b[0] {
      LessTotal(a[1..], b[1..]);
      if a[1..] == b[1..] {
        assert a == [a[0]] + a[1..] && b == [b[0]] + b[1..];
      }
    }
  }
}
