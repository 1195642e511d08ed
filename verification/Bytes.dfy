/** Byte strings and big-endian integers. */
module Bytes {
  type byte = x: int | 0 <= x < 256
  type Bytes = seq<byte>

  function Pow256(width: nat): nat {
    if width == 0 then 1 else 256 * Pow256(width - 1)
  }

  // DataView.setUint32 and setBigUint64: the low `width` bytes of the value, most significant first.
  function BigEndian(value: nat, width: nat): (r: Bytes)
    ensures |r| == width
  {
    if width == 0 then [] else BigEndian(value / 256, width - 1) + [value % 256]
  }

  function FromBigEndian(b: Bytes): nat {
    if b == [] then 0 else 256 * FromBigEndian(b[..|b| - 1]) + b[|b| - 1]
  }

  lemma {:induction false} BigEndianDecodes(value: nat, width: nat)
    requires value < Pow256(width)
    ensures FromBigEndian(BigEndian(value, width)) == value
  {
    if width > 0 {
      BigEndianDecodes(value / 256, width - 1);
      assert BigEndian(value, width)[..width - 1] == BigEndian(value / 256, width - 1);
    }
  }

  lemma {:induction false} BigEndianEncodes(b: Bytes)
    ensures FromBigEndian(b) < Pow256(|b|)
    ensures BigEndian(FromBigEndian(b), |b|) == b
  {
    if b != [] {
      BigEndianEncodes(b[..|b| - 1]);
      assert b == b[..|b| - 1] + [b[|b| - 1]];
    }
  }

  function Zeros(n: nat): Bytes {
    seq(n, _ => 0)
  }

  predicate AllZero(b: Bytes) {
    forall i :: 0 <= i < |b| ==> b[i] == 0
  }

  // Concatenation.
  function Join(parts: seq<Bytes>): Bytes {
    if parts == [] then [] else parts[0] + Join(parts[1..])
  }

  lemma {:induction false} JoinAppend(parts: seq<Bytes>, c: Bytes)
    ensures Join(parts + [c]) == Join(parts) + c
  {
    if parts == [] {
      assert parts + [c] == [c] && [c][1..] == [];
    } else {
      assert (parts + [c])[1..] == parts[1..] + [c];
      JoinAppend(parts[1..], c);
    }
  }
}
