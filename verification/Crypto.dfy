/** The cryptographic primitives as the protocol sees them: a signature relation, a hash, a
    weak-key test and a signing function, none of them interpreted. */
module Crypto {
  import opened ByteStrings

  const PUBLIC_KEY_SIZE := 32
  const PRIVATE_KEY_SIZE := 64
  const SIGNATURE_LEN := 64
  const KEY_ID_HEX_LEN := 32

  type Digest = b: Bytes | |b| == 32 witness seq(32, _ => 0)

  datatype Primitives = Primitives(
    verify: (Bytes, Bytes, Bytes) -> bool, // public key, message, signature
    sha256: Bytes -> Digest,
    listedWeak: Bytes -> bool,             // small-order or non-canonical point encodings
    publicOf: Bytes -> Bytes,              // private key to public key
    sign: (Bytes, Bytes) -> Bytes)         // private key, message

  function HexDigit(n: nat): Byte
    requires n < 16
  {
    if n < 10 then 48 + n else 87 + n
  }

  function Hex(b: Bytes): (h: Bytes)
    ensures |h| == 2 * |b|
    ensures forall i | 0 <= i < |h| :: IsLowerHexByte(h[i])
  {
    if b == [] then [] else [HexDigit(b[0] / 16), HexDigit(b[0] % 16)] + Hex(b[1..])
  }

  predicate IsLowerHexByte(c: Byte) {
    48 <= c <= 57 || 97 <= c <= 102
  }

  predicate IsLowerHex(s: Bytes, n: nat) {
    |s| == n && forall i | 0 <= i < |s| :: IsLowerHexByte(s[i])
  }

  /** The 128-bit identifier of a public key; empty when the key has the wrong size. */
  function KeyId(c: Primitives, pub: Bytes): (id: Bytes)
    ensures |pub| == PUBLIC_KEY_SIZE ==> IsLowerHex(id, KEY_ID_HEX_LEN)
    ensures |pub| != PUBLIC_KEY_SIZE ==> id == []
  {
    if |pub| != PUBLIC_KEY_SIZE then [] else Hex(c.sha256(pub)[..16])
  }

  lemma {:induction false} HexInjective(a: Bytes, b: Bytes)
    requires Hex(a) == Hex(b)
    ensures a == b
  {
    if a != [] {
      assert Hex(b) == [HexDigit(b[0] / 16), HexDigit(b[0] % 16)] + Hex(b[1..]);
      assert Hex(a)[0] == HexDigit(a[0] / 16) && Hex(a)[1] == HexDigit(a[0] % 16);
      assert Hex(b)[0] == HexDigit(b[0] / 16) && Hex(b)[1] == HexDigit(b[0] % 16);
      assert Hex(a)[2..] == Hex(a[1..]) && Hex(b)[2..] == Hex(b[1..]);
      HexInjective(a[1..], b[1..]);
      assert a == [a[0]] + a[1..] && b == [b[0]] + b[1..];
    }
  }

  /** Two keys share an identifier exactly if their hashes agree in the first 128 bits. */
  lemma KeyIdExactly(c: Primitives, p: Bytes, q: Bytes)
    requires |p| == PUBLIC_KEY_SIZE && |q| == PUBLIC_KEY_SIZE
    ensures KeyId(c, p) == KeyId(c, q) <==> forall i | 0 <= i < 16 :: c.sha256(p)[i] == c.sha256(q)[i]
  {
    var a, b := c.sha256(p)[..16], c.sha256(q)[..16];
    if KeyId(c, p) == KeyId(c, q) {
      HexInjective(a, b);
      assert forall i | 0 <= i < 16 :: a[i] == c.sha256(p)[i] && b[i] == c.sha256(q)[i];
    } else {
      assert a != b;
    }
  }

  predicate IsWeak(c: Primitives, pub: Bytes) {
    |pub| != PUBLIC_KEY_SIZE || c.listedWeak(pub)
  }

  /** What is signed with this private key verifies under its public key. */
  ghost predicate SigningWorks(c: Primitives, priv: Bytes) {
    |priv| == PRIVATE_KEY_SIZE ==>
      |c.publicOf(priv)| == PUBLIC_KEY_SIZE
      && forall m :: |c.sign(priv, m)| == SIGNATURE_LEN && c.verify(c.publicOf(priv), m, c.sign(priv, m))
  }
}
