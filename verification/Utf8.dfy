/** What well-formed UTF-8 is: the encodings of Unicode scalar values, and nothing else. */
module Utf8 {
  import opened ByteStrings
  import opened Params

  /** A Unicode scalar value: a code point that is no surrogate. */
  type Scalar = u: int | 0 <= u < 0xD800 || 0xE000 <= u <= 0x10FFFF

  /** Its encoding in one to four bytes (section 3 of RFC 3629). */
  function Encoded(u: Scalar): Bytes {
    if u < 0x80 then [u]
    else if u < 0x800 then [0xC0 + u / 64, 0x80 + u % 64]
    else if u < 0x10000 then [0xE0 + u / 64 / 64, 0x80 + u / 64 % 64, 0x80 + u % 64]
    else [0xF0 + u / 64 / 64 / 64, 0x80 + u / 64 / 64 % 64, 0x80 + u / 64 % 64, 0x80 + u % 64]
  }

  function EncodedAll(us: seq<Scalar>): Bytes {
    if us == [] then [] else Encoded(us[0]) + EncodedAll(us[1..])
  }

  /** The encoding of a scalar value is recognised, whatever follows it. */
  lemma EncodingRecognised(u: Scalar, rest: Bytes)
    ensures Utf8Head(Encoded(u) + rest) == |Encoded(u)| > 0
  {
    var b := Encoded(u) + rest;
    assert forall i | 0 <= i < |Encoded(u)| :: b[i] == Encoded(u)[i];
  }

  /** What is recognised is the encoding of a scalar value. */
  lemma RecognisedIsEncoding(b: Bytes) returns (u: Scalar)
    requires b != [] && Utf8Head(b) > 0
    ensures b[..Utf8Head(b)] == Encoded(u)
  {
    var n := Utf8Head(b);
    if n == 1 {
      u := b[0];
    } else {
      var high := b[0] as int - if n == 2 then 0xC0 else if n == 3 then 0xE0 else 0xF0;
      var v := Shifted(high, b[1] - 0x80);
      if n > 2 {
        v := Shifted(v, b[2] - 0x80);
      }
      if n > 3 {
        v := Shifted(v, b[3] - 0x80);
      }
      u := v;
    }
  }

  /** Six more bits, which can be split off again. */
  lemma Shifted(high: nat, low: nat) returns (v: nat)
    requires low < 64
    ensures v == 64 * high + low && v / 64 == high && v % 64 == low
  {
    v := 64 * high + low;
  }

  lemma {:induction false} EncodedAllValid(us: seq<Scalar>)
    ensures ValidUtf8(EncodedAll(us))
  {
    if us != [] {
      var rest := EncodedAll(us[1..]);
      EncodingRecognised(us[0], rest);
      EncodedAllValid(us[1..]);
      assert (Encoded(us[0]) + rest)[|Encoded(us[0])|..] == rest;
    }
  }

  lemma {:induction false} ValidDecodes(b: Bytes) returns (us: seq<Scalar>)
    requires ValidUtf8(b)
    ensures EncodedAll(us) == b
    decreases |b|
  {
    if b == [] {
      return [];
    }
    var n := Utf8Head(b);
    var u := RecognisedIsEncoding(b);
    var rest := ValidDecodes(b[n..]);
    us := [u] + rest;
    assert us[1..] == rest && b == b[..n] + b[n..];
  }

  /** A byte string is valid if and only if it is the encoding of some sequence of scalar values: no
      overlong forms, no surrogates, nothing above U+10FFFF, nothing cut short. */
  lemma ValidExactly(b: Bytes)
    ensures ValidUtf8(b) <==> exists us :: EncodedAll(us) == b
  {
    if ValidUtf8(b) {
      var us := ValidDecodes(b);
    }
    forall us | EncodedAll(us) == b ensures ValidUtf8(b) {
      EncodedAllValid(us);
    }
  }
}
