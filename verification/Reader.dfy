/** The strict parser cursor: every read is bounds-checked and the first failure makes all
    later reads fail. */
module Readers {
  import opened ByteStrings

  /** A length-prefixed field of at most max bytes can be read from the head of b. */
  predicate LPReadable(b: Bytes, max: nat) {
    |b| >= 4 && Value(b[..4]) <= max && Value(b[..4]) <= |b| - 4
  }

  lemma LPReadableField(s: Bytes, rest: Bytes, max: nat)
    requires |s| <= max && |s| < TWO_32
    ensures LPReadable(LP(s) + rest, max)
  {
    Pow256Values();
    ValueOfBigEndian(|s|, 4);
    assert (LP(s) + rest)[..4] == BigEndian(|s|, 4);
  }

  class Reader {
    var b: Bytes
    var failed: bool

    constructor (input: Bytes)
      ensures b == input && !failed
    {
      b, failed := input, false;
    }

    method Take(n: nat) returns (out: Bytes)
      modifies this
      ensures failed == (old(failed) || n > |old(b)|)
      ensures !failed ==> old(b) == out + b && |out| == n
      ensures failed ==> b == old(b) && out == []
    {
      out := [];
      if failed {
        return;
      }
      if n > |b| {
        failed := true;
        return;
      }
      out, b := b[..n], b[n..];
    }

    method ReadU32() returns (v: U32)
      modifies this
      ensures failed == (old(failed) || |old(b)| < 4)
      ensures !failed ==> old(b) == EncU32(v) + b
      ensures forall x: U32, rest | !old(failed) && old(b) == EncU32(x) + rest :: !failed && v == x && b == rest
      ensures failed ==> b == old(b) && v == 0
    {
      ghost var was := b;
      var raw := Take(4);
      if failed {
        return 0;
      }
      Pow256Values();
      BigEndianOfValue(raw);
      v := Value(raw);
      forall x: U32, rest | was == EncU32(x) + rest ensures v == x && b == rest {
        U32Cancel(x, v, rest, b);
      }
    }

    method ReadU64() returns (v: U64)
      modifies this
      ensures failed == (old(failed) || |old(b)| < 8)
      ensures !failed ==> old(b) == EncU64(v) + b
      ensures forall x: U64, rest | !old(failed) && old(b) == EncU64(x) + rest :: !failed && v == x && b == rest
      ensures failed ==> b == old(b) && v == 0
    {
      ghost var was := b;
      var raw := Take(8);
      if failed {
        return 0;
      }
      Pow256Values();
      BigEndianOfValue(raw);
      v := Value(raw);
      forall x: U64, rest | was == EncU64(x) + rest ensures v == x && b == rest {
        U64Cancel(x, v, rest, b);
      }
    }

    method ReadI64() returns (v: I64)
      modifies this
      ensures failed == (old(failed) || |old(b)| < 8)
      ensures !failed ==> old(b) == EncI64(v) + b
      ensures forall x: I64, rest | !old(failed) && old(b) == EncI64(x) + rest :: !failed && v == x && b == rest
      ensures failed ==> b == old(b) && v == 0
    {
      ghost var was := b;
      var raw := ReadU64();
      v := FromU64(raw);
      forall x: I64, rest | !failed && was == EncI64(x) + rest ensures v == x && b == rest {
        I64Cancel(x, v, rest, b);
      }
    }

    method ReadByte() returns (v: Byte)
      modifies this
      ensures failed == (old(failed) || |old(b)| < 1)
      ensures !failed ==> old(b) == [v] + b
      ensures failed ==> b == old(b) && v == 0
    {
      var raw := Take(1);
      if failed {
        return 0;
      }
      v := raw[0];
    }

    /** A length beyond max is refused before anything of the field is read. */
    method ReadLP(max: nat) returns (out: Bytes)
      requires max < TWO_32
      modifies this
      ensures failed == (old(failed) || !LPReadable(old(b), max))
      ensures !failed ==> old(b) == LP(out) + b && |out| <= max
      ensures forall x, rest | !old(failed) && |x| <= max && old(b) == LP(x) + rest :: !failed && out == x && b == rest
      ensures failed ==> out == []
    {
      ghost var was := b;
      out := [];
      forall x, rest | |x| <= max && was == LP(x) + rest ensures LPReadable(was, max) {
        LPReadableField(x, rest, max);
      }
      var n := ReadU32();
      if failed {
        return;
      }
      Pow256Values();
      ValueOfBigEndian(n, 4);
      assert was[..4] == EncU32(n);
      if n > max {
        failed := true;
        return;
      }
      out := Take(n);
      if !failed {
        assert was == EncU32(n) + (out + b);
        forall x, rest | |x| <= max && was == LP(x) + rest ensures out == x && b == rest {
          LPCancel(x, out, rest, b);
        }
      }
    }

    /** Success means nothing failed and every byte was consumed. */
    method Done() returns (ok: bool)
      ensures ok == (!failed && b == [])
    {
      ok := !failed && |b| == 0;
    }
  }
}
