/** SHA-256 as FIPS 180-4 defines it, on words that are integers below 2^32. */
module Sha256Spec {
  import opened Bytes

  const MODULUS := 0x1_0000_0000

  type word = x: int | 0 <= x < 0x1_0000_0000

  function Pow2(n: nat): nat
    ensures Pow2(n) > 0
  {
    if n == 0 then 1 else 2 * Pow2(n - 1)
  }

  // Bitwise operations, bit by bit.
  function AndBits(a: nat, b: nat, width: nat): (r: nat)
    ensures r < Pow2(width)
  {
    if width == 0 then 0 else 2 * AndBits(a / 2, b / 2, width - 1) + (if a % 2 == 1 && b % 2 == 1 then 1 else 0)
  }

  function OrBits(a: nat, b: nat, width: nat): (r: nat)
    ensures r < Pow2(width)
  {
    if width == 0 then 0 else 2 * OrBits(a / 2, b / 2, width - 1) + (if a % 2 == 1 || b % 2 == 1 then 1 else 0)
  }

  function XorBits(a: nat, b: nat, width: nat): (r: nat)
    ensures r < Pow2(width)
  {
    if width == 0 then 0 else 2 * XorBits(a / 2, b / 2, width - 1) + (if a % 2 != b % 2 then 1 else 0)
  }

  lemma WordWidth()
    ensures Pow2(32) == MODULUS
  {
    assert Pow2(8) == 0x100;
    assert Pow2(16) == 0x1_0000;
    assert Pow2(24) == 0x100_0000;
  }

  function And(a: word, b: word): word {
    WordWidth();
    AndBits(a, b, 32)
  }

  function Or(a: word, b: word): word {
    WordWidth();
    OrBits(a, b, 32)
  }

  function Xor(a: word, b: word): word {
    WordWidth();
    XorBits(a, b, 32)
  }

  function Not(a: word): word { MODULUS - 1 - a }

  // Section 3.2: shifts and rotations.
  function Shr(x: word, n: nat): word {
    if n == 0 then x else Shr(x / 2, n - 1)
  }

  function Shl(x: word, n: nat): word {
    if n == 0 then x else (2 * Shl(x, n - 1)) % MODULUS
  }

  function Rotr(x: word, n: nat): word
    requires n <= 32
  {
    Or(Shr(x, n), Shl(x, 32 - n))
  }

  // Section 4.1.2: the six functions.
  function Ch(x: word, y: word, z: word): word { Xor(And(x, y), And(Not(x), z)) }

  function Maj(x: word, y: word, z: word): word { Xor(Xor(And(x, y), And(x, z)), And(y, z)) }

  function BigSigma0(x: word): word { Xor(Xor(Rotr(x, 2), Rotr(x, 13)), Rotr(x, 22)) }

  function BigSigma1(x: word): word { Xor(Xor(Rotr(x, 6), Rotr(x, 11)), Rotr(x, 25)) }

  function SmallSigma0(x: word): word { Xor(Xor(Rotr(x, 7), Rotr(x, 18)), Shr(x, 3)) }

  function SmallSigma1(x: word): word { Xor(Xor(Rotr(x, 17), Rotr(x, 19)), Shr(x, 10)) }

  // Sections 4.2.2 and 5.3.3: the constants.
  // The table is written in four rows.
  const SHA256_K: seq<word> := K_ROW_0 + K_ROW_1 + K_ROW_2 + K_ROW_3

  const K_ROW_0: seq<word> := [
    0x428a2f98, 0x71374491, 0xb5c0fbcf, 0xe9b5dba5, 0x3956c25b, 0x59f111f1, 0x923f82a4, 0xab1c5ed5,
    0xd807aa98, 0x12835b01, 0x243185be, 0x550c7dc3, 0x72be5d74, 0x80deb1fe, 0x9bdc06a7, 0xc19bf174]

  const K_ROW_1: seq<word> := [
    0xe49b69c1, 0xefbe4786, 0x0fc19dc6, 0x240ca1cc, 0x2de92c6f, 0x4a7484aa, 0x5cb0a9dc, 0x76f988da,
    0x983e5152, 0xa831c66d, 0xb00327c8, 0xbf597fc7, 0xc6e00bf3, 0xd5a79147, 0x06ca6351, 0x14292967]

  const K_ROW_2: seq<word> := [
    0x27b70a85, 0x2e1b2138, 0x4d2c6dfc, 0x53380d13, 0x650a7354, 0x766a0abb, 0x81c2c92e, 0x92722c85,
    0xa2bfe8a1, 0xa81a664b, 0xc24b8b70, 0xc76c51a3, 0xd192e819, 0xd6990624, 0xf40e3585, 0x106aa070]

  const K_ROW_3: seq<word> := [
    0x19a4c116, 0x1e376c08, 0x2748774c, 0x34b0bcb5, 0x391c0cb3, 0x4ed8aa4a, 0x5b9cca4f, 0x682e6ff3,
    0x748f82ee, 0x78a5636f, 0x84c87814, 0x8cc70208, 0x90befffa, 0xa4506ceb, 0xbef9a3f7, 0xc67178f2]

  const SHA256_INITIAL: seq<word> := [
    0x6a09e667, 0xbb67ae85, 0x3c6ef372, 0xa54ff53a, 0x510e527f, 0x9b05688c, 0x1f83d9ab, 0x5be0cd19]

  function K(t: nat): word
    requires t < 64
  {
    SHA256_K[t]
  }

  function WordAt(block: Bytes, t: nat): word
    requires 4 * t + 4 <= |block|
  {
    var b0: int, b1: int, b2: int, b3: int := block[4 * t], block[4 * t + 1], block[4 * t + 2], block[4 * t + 3];
    b0 * 0x100_0000 + b1 * 0x1_0000 + b2 * 0x100 + b3
  }

  // Section 6.2.2, step 1: the message schedule.
  function Schedule(block: Bytes, t: nat): word
    requires |block| == 64
  {
    if t < 16 then WordAt(block, t)
    else (SmallSigma1(Schedule(block, t - 2)) + Schedule(block, t - 7)
          + SmallSigma0(Schedule(block, t - 15)) + Schedule(block, t - 16)) % MODULUS
  }

  // Steps 2 and 3: the working variables.
  datatype Working = Working(a: word, b: word, c: word, d: word, e: word, f: word, g: word, h: word)

  function T1(v: Working, k: word, w: word): word {
    (v.h + BigSigma1(v.e) + Ch(v.e, v.f, v.g) + k + w) % MODULUS
  }

  function T2(v: Working): word {
    (BigSigma0(v.a) + Maj(v.a, v.b, v.c)) % MODULUS
  }

  function Round(v: Working, k: word, w: word): Working {
    Working((T1(v, k, w) + T2(v)) % MODULUS, v.a, v.b, v.c, (v.d + T1(v, k, w)) % MODULUS, v.e, v.f, v.g)
  }

  function Rounds(v: Working, block: Bytes, n: nat): Working
    requires |block| == 64 && n <= 64
  {
    if n == 0 then v else Round(Rounds(v, block, n - 1), K(n - 1), Schedule(block, n - 1))
  }

  type HashValue = h: seq<word> | |h| == 8 witness [0, 0, 0, 0, 0, 0, 0, 0]

  function Initial(h: HashValue): Working {
    Working(h[0], h[1], h[2], h[3], h[4], h[5], h[6], h[7])
  }

  // Step 4: the intermediate hash value.
  function Compress(h: HashValue, block: Bytes): HashValue
    requires |block| == 64
  {
    hide Rounds;
    Added(h, Rounds(Initial(h), block, 64))
  }

  function Added(h: HashValue, v: Working): HashValue {
    [(h[0] + v.a) % MODULUS, (h[1] + v.b) % MODULUS, (h[2] + v.c) % MODULUS, (h[3] + v.d) % MODULUS,
     (h[4] + v.e) % MODULUS, (h[5] + v.f) % MODULUS, (h[6] + v.g) % MODULUS, (h[7] + v.h) % MODULUS]
  }

  function HashBlocks(h: HashValue, data: Bytes): HashValue
    requires |data| % 64 == 0
  {
    if data == [] then h else Compress(HashBlocks(h, data[..|data| - 64]), data[|data| - 64..])
  }

  // Section 5.1.1: a one bit, the fewest zero bits that leave 64 bits to a block boundary, and the bit length.
  function ZeroBytes(length: nat): nat {
    (55 - length) % 64
  }

  lemma ZeroBytesIsLeast(length: nat, k: nat)
    ensures (length + 1 + ZeroBytes(length)) % 64 == 56
    ensures (length + 1 + k) % 64 == 56 ==> ZeroBytes(length) <= k
  {
  }

  function Padding(length: nat): Bytes {
    [0x80] + Zeros(ZeroBytes(length)) + BigEndian(8 * length, 8)
  }

  function Serialize(h: seq<word>): (r: Bytes)
    ensures |r| == 4 * |h|
  {
    if h == [] then [] else Serialize(h[..|h| - 1]) + BigEndian(h[|h| - 1], 4)
  }

  lemma PaddedLength(m: Bytes)
    ensures |m + Padding(|m|)| % 64 == 0
  {
    ZeroBytesIsLeast(|m|, 0);
  }

  // The one-shot hash.
  function Sha256(m: Bytes): (digest: Bytes)
    ensures |digest| == 32
  {
    PaddedLength(m);
    Serialize(HashBlocks(SHA256_INITIAL, m + Padding(|m|)))
  }
}

/** JavaScript's 32-bit operators on numbers, and the additions that are exact because they stay below 2^53. */
module JsNumbers {
  import opened Sha256Spec

  const MAX_SAFE_INTEGER := 0x1F_FFFF_FFFF_FFFF

  function ToUint32(x: int): word { x % MODULUS }

  function ToInt32(x: int): (r: int)
    ensures -0x8000_0000 <= r < 0x8000_0000 && ToUint32(r) == ToUint32(x)
  {
    var u := x % MODULUS;
    if u >= 0x8000_0000 then u - MODULUS else u
  }

  // The operators convert their operands to 32 bits and their result to a signed number.
  predicate IsInt32Of(r: int, w: word) {
    -0x8000_0000 <= r < 0x8000_0000 && ToUint32(r) == w
  }

  function JsAnd(x: int, y: int): (r: int)
    ensures IsInt32Of(r, And(ToUint32(x), ToUint32(y)))
  {
    hide And;
    ToInt32(And(ToUint32(x), ToUint32(y)))
  }

  function JsOr(x: int, y: int): (r: int)
    ensures IsInt32Of(r, Or(ToUint32(x), ToUint32(y)))
  {
    hide Or;
    ToInt32(Or(ToUint32(x), ToUint32(y)))
  }

  function JsXor(x: int, y: int): (r: int)
    ensures IsInt32Of(r, Xor(ToUint32(x), ToUint32(y)))
  {
    hide Xor;
    ToInt32(Xor(ToUint32(x), ToUint32(y)))
  }

  function JsNot(x: int): (r: int)
    ensures IsInt32Of(r, Not(ToUint32(x)))
  {
    ToInt32(Not(ToUint32(x)))
  }

  function JsShiftRight(x: int, n: nat): (r: word)
    ensures ToUint32(r) == r == Shr(ToUint32(x), n)
  {
    hide Shr;
    Shr(ToUint32(x), n)
  }

  function JsShiftLeft(x: int, n: nat): (r: int)
    ensures IsInt32Of(r, Shl(ToUint32(x), n))
  {
    hide Shl;
    ToInt32(Shl(ToUint32(x), n))
  }

  // A sum of numbers is exact as long as no partial sum leaves the safe integers.
  function Exact(x: int): int
    requires -MAX_SAFE_INTEGER <= x <= MAX_SAFE_INTEGER
  {
    x
  }

  // rotateRight
  function RotateRight(value: word, amount: nat): (r: int)
    requires amount <= 32
    ensures IsInt32Of(r, Rotr(value, amount))
  {
    hide Or, Shr, Shl, JsOr, JsShiftLeft, JsShiftRight;
    assert ToUint32(value) == value;
    JsOr(JsShiftRight(value, amount), JsShiftLeft(value, 32 - amount))
  }

  function JsXor3(x: int, y: int, z: int): (r: int)
    ensures IsInt32Of(r, Xor(Xor(ToUint32(x), ToUint32(y)), ToUint32(z)))
  {
    hide Xor, JsXor;
    JsXor(JsXor(x, y), z)
  }

  // Dropping multiples of 2^32 does not change a sum modulo 2^32.
  lemma SumOfResidues(exact: int, signed: int)
    requires exists k: int :: -4 <= k <= 4 && exact - signed == k * MODULUS
    ensures ToUint32(exact) == ToUint32(signed)
  {
    var k: int :| -4 <= k <= 4 && exact - signed == k * MODULUS;
    assert k == -4 || k == -3 || k == -2 || k == -1 || k == 0 || k == 1 || k == 2 || k == 3 || k == 4;
  }

  lemma Residue(x: int)
    requires -0x8000_0000 <= x < 0x8000_0000
    ensures ToUint32(x) == x || ToUint32(x) == x + MODULUS
  {
  }

  // (x + y) >>> 0
  function SumOfTwo(x: word, y: word): (r: word)
    ensures r == (x as int + y as int) % MODULUS
  {
    ToUint32(Exact(x as int + y as int))
  }

  // The three right-hand sides that `process` adds up, as it writes them.
  function ScheduleWord(w16: word, w15: word, w7: word, w2: word): (r: word)
    ensures r == (SmallSigma1(w2) + w7 + SmallSigma0(w15) + w16) % MODULUS
  {
    hide Xor, Rotr, Shr, RotateRight, JsXor3, JsShiftRight;
    assert ToUint32(w15) == w15 && ToUint32(w2) == w2;
    var s0 := JsXor3(RotateRight(w15, 7), RotateRight(w15, 18), JsShiftRight(w15, 3));
    var s1 := JsXor3(RotateRight(w2, 17), RotateRight(w2, 19), JsShiftRight(w2, 10));
    TwoSigned(w16 + w7, s0, s1);
    ToUint32(Exact(Exact(Exact(w16 + s0) + w7) + s1))
  }

  function Temporary1(v: Working, k: word, w: word): (r: word)
    ensures r == T1(v, k, w)
  {
    hide Xor, And, Not, Rotr, RotateRight, JsXor3, JsXor, JsAnd, JsNot;
    var sigma1 := JsXor3(RotateRight(v.e, 6), RotateRight(v.e, 11), RotateRight(v.e, 25));
    var choice := JsXor(JsAnd(v.e, v.f), JsAnd(JsNot(v.e), v.g));
    TwoSigned(v.h + k + w, sigma1, choice);
    ToUint32(Exact(Exact(Exact(Exact(v.h + sigma1) + choice) + k) + w))
  }

  function Temporary2(v: Working): (r: word)
    ensures r == T2(v)
  {
    hide Xor, And, Rotr, RotateRight, JsXor3, JsAnd;
    var sigma0 := JsXor3(RotateRight(v.a, 2), RotateRight(v.a, 13), RotateRight(v.a, 22));
    var majority := JsXor3(JsAnd(v.a, v.b), JsAnd(v.a, v.c), JsAnd(v.b, v.c));
    TwoSigned(0, sigma0, majority);
    ToUint32(Exact(sigma0 + majority))
  }

  lemma TwoSigned(base: int, x: int, y: int)
    requires -0x8000_0000 <= x < 0x8000_0000 && -0x8000_0000 <= y < 0x8000_0000
    ensures ToUint32(base + x + y) == ToUint32(base + ToUint32(x) + ToUint32(y))
  {
    Residue(x);
    Residue(y);
    var k := (if ToUint32(x) == x then 0 else 1) + (if ToUint32(y) == y then 0 else 1);
    assert (base + ToUint32(x) + ToUint32(y)) - (base + x + y) == k * MODULUS;
    SumOfResidues(base + ToUint32(x) + ToUint32(y), base + x + y);
  }
}

/** The incremental hash of frontend/src/fileTransfer.ts. */
module IncrementalHash {
  import opened Outcomes
  import opened Bytes
  import opened Sha256Spec
  import opened JsNumbers

  // `process`: one block into the state, in place.
  method Process(state: array<word>, block: Bytes)
    requires state.Length == 8 && |block| == 64
    modifies state
    ensures state[..] == Compress(old(state[..]), block)
  {
    hide Schedule, T1, T2, Temporary1, Temporary2, SumOfTwo, K, Added;
    var words := FillSchedule(block);
    ghost var start := Initial(state[..]);
    var v := Working(state[0], state[1], state[2], state[3], state[4], state[5], state[6], state[7]);
    for index := 0 to 64
      invariant v == Rounds(start, block, index)
      invariant state[..] == old(state[..])
    {
      var temporary1 := Temporary1(v, K(index), words[index]);
      var temporary2 := Temporary2(v);
      v := Working(SumOfTwo(temporary1, temporary2), v.a, v.b, v.c, SumOfTwo(v.d, temporary1), v.e, v.f, v.g);
    }
    AddTo(state, v);
  }

  // The eight last lines of `process`.
  method AddTo(state: array<word>, v: Working)
    requires state.Length == 8
    modifies state
    ensures state[..] == Added(old(state[..]), v)
  {
    hide SumOfTwo;
    ghost var h := state[..];
    state[0], state[1], state[2], state[3], state[4], state[5], state[6], state[7] :=
      SumOfTwo(state[0], v.a), SumOfTwo(state[1], v.b), SumOfTwo(state[2], v.c), SumOfTwo(state[3], v.d),
      SumOfTwo(state[4], v.e), SumOfTwo(state[5], v.f), SumOfTwo(state[6], v.g), SumOfTwo(state[7], v.h);
    assert forall i :: 0 <= i < 8 ==> state[i] == Added(h, v)[i];
  }

  method FillSchedule(block: Bytes) returns (words: seq<word>)
    requires |block| == 64
    ensures |words| == 64 && forall t :: 0 <= t < 64 ==> words[t] == Schedule(block, t)
  {
    hide ScheduleWord, SmallSigma0, SmallSigma1, WordAt;
    var w := new word[64];
    for index := 0 to 16
      invariant forall t :: 0 <= t < index ==> w[t] == Schedule(block, t)
    {
      w[index] := WordAt(block, index);
    }
    for index := 16 to 64
      invariant forall t :: 0 <= t < index ==> w[t] == Schedule(block, t)
    {
      w[index] := ScheduleWord(w[index - 16], w[index - 15], w[index - 7], w[index - 2]);
    }
    words := w[..];
  }

  lemma HashOneMore(data: Bytes, n: nat)
    requires n % 64 == 0 && n + 64 <= |data|
    ensures HashBlocks(SHA256_INITIAL, data[..n + 64]) == Compress(HashBlocks(SHA256_INITIAL, data[..n]),
            data[n..n + 64])
  {
    hide Compress;
    var d := data[..n + 64];
    assert d[..|d| - 64] == data[..n] && d[|d| - 64..] == data[n..n + 64];
  }

  // The padding that `digest` computes from the buffer is the standard's padding of the whole message.
  lemma PaddingMatches(bufferLength: nat, total: nat)
    requires bufferLength < 64 && bufferLength <= total && (total - bufferLength) % 64 == 0
    ensures (if bufferLength < 56 then 56 - bufferLength else 120 - bufferLength) - 1 == ZeroBytes(total)
  {
  }

  method StateBytes(state: array<word>) returns (output: Bytes)
    ensures output == Serialize(state[..])
  {
    hide BigEndian;
    output := [];
    for index := 0 to state.Length
      invariant output == Serialize(state[..index])
    {
      assert state[..index + 1][..index] == state[..index];
      output := output + BigEndian(state[index], 4);
    }
    assert state[..state.Length] == state[..];
  }

  class IncrementalSha256 {
    const state: array<word>
    const buffer: array<byte>
    var bufferLength: nat
    var totalBytes: nat
    var finalDigest: Option<Bytes>
    ghost var input: Bytes      // what the caller has hashed
    ghost var absorbed: Bytes   // what the state has seen: the input, and its padding once the digest is taken

    // The state is the hash of the full blocks among the first `n` bytes of `data`, the buffer holds the rest.
    ghost predicate Holds(data: Bytes, n: nat, length: nat)
      requires n <= |data|
      reads state, buffer
    {
      && state.Length == 8 && buffer.Length == 64 && length < 64 && length <= n
      && (n - length) % 64 == 0
      && state[..] == HashBlocks(SHA256_INITIAL, data[..n - length])
      && buffer[..length] == data[n - length..n]
    }

    ghost predicate Valid()
      reads this, state, buffer
    {
      && Holds(absorbed, |absorbed|, bufferLength)
      && totalBytes == |absorbed| <= MAX_SAFE_INTEGER
      && (finalDigest.None? ==> absorbed == input)
      && (finalDigest.Some? ==> finalDigest.value == Sha256(input))
    }

    constructor ()
      ensures Valid() && input == [] && finalDigest.None?
      ensures fresh(state) && fresh(buffer)
    {
      state := new word[8](i requires 0 <= i < 8 => SHA256_INITIAL[i]);
      buffer := new byte[64](_ => 0);
      bufferLength, totalBytes, finalDigest := 0, 0, None;
      input, absorbed := [], [];
      new;
      assert state[..] == SHA256_INITIAL;
    }

    method Update(bytes: Bytes) returns (result: Result<()>)
      requires Valid()
      modifies this, state, buffer
      ensures Valid()
      ensures result.Err? <==> old(finalDigest).Some? || old(totalBytes) > MAX_SAFE_INTEGER - |bytes|
      ensures result.Err? ==> input == old(input) && absorbed == old(absorbed)
      ensures result.Ok? ==> input == old(input) + bytes && absorbed == old(absorbed) + bytes
      ensures finalDigest == old(finalDigest)
    {
      hide Compress, HashBlocks, Sha256;
      if finalDigest.Some? {
        return Err("digest_finalized");
      }
      if totalBytes > MAX_SAFE_INTEGER - |bytes| {
        return Err("file_too_large");
      }
      totalBytes := totalBytes + |bytes|;
      ghost var base := absorbed;
      input, absorbed := input + bytes, absorbed + bytes;
      var offset := FillBuffer(bytes, base);
      offset := ProcessBlocks(bytes, offset, base);
      StoreTail(bytes, offset, base);
      return Ok(());
    }

    // The first part of `update`: top up a partly filled buffer.
    method FillBuffer(bytes: Bytes, ghost base: Bytes) returns (offset: nat)
      requires absorbed == base + bytes && Holds(base, |base|, bufferLength)
      modifies this`bufferLength, state, buffer
      ensures offset <= |bytes| && Holds(absorbed, |base| + offset, bufferLength)
      ensures bufferLength == 0 || offset == |bytes|
    {
      hide Compress, HashBlocks;
      ghost var full := |base| - bufferLength;
      assert absorbed[..full] == base[..full];
      if bufferLength == 0 {
        assert absorbed[|base|..|base|] == [];
        return 0;
      }
      var needed := 64 - bufferLength;
      var copied := if needed < |bytes| then needed else |bytes|;
      ghost var held := buffer[..bufferLength];
      forall i | 0 <= i < copied { buffer[bufferLength + i] := bytes[i]; }
      ghost var filled := buffer[..bufferLength + copied];
      assert filled == held + bytes[..copied];
      assert filled == absorbed[full..|base| + copied];
      bufferLength := bufferLength + copied;
      if bufferLength == 64 {
        HashOneMore(absorbed, full);
        assert |base| + copied == full + 64;
        assert state[..] == HashBlocks(SHA256_INITIAL, absorbed[..full]);
        assert buffer[..] == absorbed[full..full + 64];
        Process(state, buffer[..]);
        bufferLength := 0;
        assert absorbed[full + 64..full + 64] == [];
      }
      return copied;
    }

    // The loop of `update` over the full blocks.
    method ProcessBlocks(bytes: Bytes, from: nat, ghost base: Bytes) returns (offset: nat)
      requires absorbed == base + bytes && from <= |bytes| && Holds(absorbed, |base| + from, bufferLength)
      requires bufferLength == 0 || from == |bytes|
      modifies state
      ensures from <= offset <= |bytes| < offset + 64 && Holds(absorbed, |base| + offset, bufferLength)
      ensures bufferLength == 0 || offset == |bytes|
    {
      hide Compress, HashBlocks;
      offset := from;
      while offset + 64 <= |bytes|
        invariant from <= offset <= |bytes|
        invariant Holds(absorbed, |base| + offset, bufferLength)
        invariant bufferLength == 0 || offset == |bytes|
      {
        HashOneMore(absorbed, |base| + offset);
        assert absorbed[|base| + offset..|base| + offset + 64] == bytes[offset..offset + 64];
        Process(state, bytes[offset..offset + 64]);
        offset := offset + 64;
      }
    }

    // The last part of `update`: keep what does not fill a block.
    method StoreTail(bytes: Bytes, offset: nat, ghost base: Bytes)
      requires absorbed == base + bytes && offset <= |bytes| < offset + 64
               && Holds(absorbed, |base| + offset, bufferLength)
      requires bufferLength == 0 || offset == |bytes|
      modifies this`bufferLength, buffer
      ensures Holds(absorbed, |absorbed|, bufferLength)
    {
      hide Compress, HashBlocks;
      if offset < |bytes| {
        var rest := bytes[offset..];
        forall i | 0 <= i < |rest| { buffer[i] := rest[i]; }
        bufferLength := |rest|;
        assert buffer[..bufferLength] == rest == absorbed[|absorbed| - bufferLength..];
      }
    }

    // The first call pads and hashes; later calls return the same digest.
    method Digest() returns (result: Result<Bytes>)
      requires Valid()
      modifies this, state, buffer
      ensures Valid() && input == old(input)
      ensures result.Err? <==> old(finalDigest).None? && old(totalBytes) + |Padding(old(totalBytes))| > MAX_SAFE_INTEGER
      ensures result.Err? ==> finalDigest == old(finalDigest)
      ensures result.Ok? ==> result.value == Sha256(input) && finalDigest == Some(result.value)
    {
      hide Compress, HashBlocks, BigEndian, Serialize, ZeroBytes;
      if finalDigest.Some? {
        return Ok(finalDigest.value);
      }
      ghost var message := input;
      var paddingLength := if bufferLength < 56 then 56 - bufferLength else 120 - bufferLength;
      var padding := [0x80] + Zeros(paddingLength - 1) + BigEndian(8 * totalBytes, 8);
      PaddingMatches(bufferLength, totalBytes);
      assert padding == Padding(|message|);
      PaddedLength(message);
      var updated := Update(padding);
      input := message;
      if updated.Err? {
        return Err(updated.code);
      }
      assert bufferLength == 0;
      assert absorbed[..|absorbed|] == message + Padding(|message|);
      var output := StateBytes(state);
      finalDigest := Some(output);
      return Ok(output);
    }
  }

  /** However the input is cut, the incremental digest is the one-shot hash of the concatenation. It fails only when
      the padded length is not a safe integer. */
  method HashParts(parts: seq<Bytes>) returns (result: Result<Bytes>)
    ensures result.Ok? <==> |Join(parts)| + |Padding(|Join(parts)|)| <= MAX_SAFE_INTEGER
    ensures result.Ok? ==> result.value == Sha256(Join(parts))
  {
    hide Sha256, HashBlocks, Padding;
    var hash := new IncrementalSha256();
    for i := 0 to |parts|
      invariant fresh(hash) && fresh(hash.state) && fresh(hash.buffer)
      invariant hash.Valid() && hash.finalDigest.None? && hash.input == Join(parts[..i])
    {
      PartsFit(parts, i + 1);
      JoinAppend(parts[..i], parts[i]);
      assert parts[..i + 1] == parts[..i] + [parts[i]];
      var updated := hash.Update(parts[i]);
      if updated.Err? {
        return Err(updated.code);
      }
    }
    assert parts[..|parts|] == parts;
    result := hash.Digest();
  }

  lemma {:induction false} PartsFit(parts: seq<Bytes>, i: nat)
    requires i <= |parts|
    ensures |Join(parts[..i])| <= |Join(parts)|
    decreases |parts|
  {
    if i > 0 {
      PartsFit(parts[1..], i - 1);
      assert parts[..i][1..] == parts[1..][..i - 1];
    }
  }
}
