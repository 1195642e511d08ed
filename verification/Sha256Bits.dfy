/** The functions of FIPS 180-4 bit by bit, and its constants as roots of primes. */
module Sha256Bits {
  import opened Sha256Spec

  predicate Bit(x: nat, i: nat) { if i == 0 then x % 2 == 1 else Bit(x / 2, i - 1) }

  lemma {:induction false} AndByBits(a: nat, b: nat, width: nat, i: nat)
    ensures Bit(AndBits(a, b, width), i) <==> i < width && Bit(a, i) && Bit(b, i)
  {
    if width == 0 {
      ZeroHasNoBits(i);
    } else if i > 0 {
      AndByBits(a / 2, b / 2, width - 1, i - 1);
    }
  }

  lemma {:induction false} OrByBits(a: nat, b: nat, width: nat, i: nat)
    ensures Bit(OrBits(a, b, width), i) <==> i < width && (Bit(a, i) || Bit(b, i))
  {
    if width == 0 {
      ZeroHasNoBits(i);
    } else if i > 0 {
      OrByBits(a / 2, b / 2, width - 1, i - 1);
    }
  }

  lemma {:induction false} XorByBits(a: nat, b: nat, width: nat, i: nat)
    ensures Bit(XorBits(a, b, width), i) <==> i < width && Bit(a, i) != Bit(b, i)
  {
    if width == 0 {
      ZeroHasNoBits(i);
    } else if i > 0 {
      XorByBits(a / 2, b / 2, width - 1, i - 1);
    }
  }

  lemma {:induction false} ZeroHasNoBits(i: nat)
    ensures !Bit(0, i)
  {
    if i > 0 { ZeroHasNoBits(i - 1); }
  }

  lemma {:induction false} NoHighBits(x: nat, width: nat, i: nat)
    requires x < Pow2(width) && i >= width
    ensures !Bit(x, i)
  {
    if width == 0 {
      ZeroHasNoBits(i);
    } else {
      NoHighBits(x / 2, width - 1, i - 1);
    }
  }

  lemma {:induction false} NotByBits(x: nat, width: nat, i: nat)
    requires x < Pow2(width) && i < width
    ensures Bit(Pow2(width) - 1 - x, i) <==> !Bit(x, i)
  {
    var y := Pow2(width) - 1 - x;
    assert y % 2 == 1 - x % 2 && y / 2 == Pow2(width - 1) - 1 - x / 2;
    if i > 0 { NotByBits(x / 2, width - 1, i - 1); }
  }

  lemma {:induction false} LowBits(x: nat, width: nat, i: nat)
    requires i < width && x >= Pow2(width)
    ensures Bit(x - Pow2(width), i) == Bit(x, i)
  {
    var y := x - Pow2(width);
    assert y % 2 == x % 2 && y / 2 == x / 2 - Pow2(width - 1);
    if i > 0 { LowBits(x / 2, width - 1, i - 1); }
  }

  lemma {:induction false} ShiftRightByBits(x: word, n: nat, i: nat)
    ensures Bit(Shr(x, n), i) == Bit(x, i + n)
    decreases n
  {
    if n > 0 { ShiftRightByBits(x / 2, n - 1, i); }
  }

  // One step to the left.
  lemma {:induction false} DoubledByBits(y: word, i: nat)
    requires i < 32
    ensures Bit(2 * y % MODULUS, i) <==> i > 0 && Bit(y, i - 1)
  {
    hide Pow2;
    WordWidth();
    var z: nat := 2 * y;
    assert z / 2 == y && z % 2 == 0;
    assert z % MODULUS == if z >= MODULUS then z - MODULUS else z;
    if z >= MODULUS { LowBits(z, 32, i); }
  }

  lemma {:induction false} ShiftLeftByBits(x: word, n: nat, i: nat)
    requires i < 32
    ensures Bit(Shl(x, n), i) <==> i >= n && Bit(x, i - n)
    decreases n
  {
    hide Bit;
    if n > 0 {
      DoubledByBits(Shl(x, n - 1), i);
      if i > 0 { ShiftLeftByBits(x, n - 1, i - 1); }
    }
  }

  /** Rotation by bits: bit i comes from bit i + n, round the word. */
  lemma {:induction false} RotationByBits(x: word, n: nat, i: nat)
    requires n <= 32 && i < 32
    ensures Bit(Rotr(x, n), i) == Bit(x, (i + n) % 32)
  {
    hide Bit, OrBits, Shr, Shl, Pow2;
    WordWidth();
    OrByBits(Shr(x, n), Shl(x, 32 - n), 32, i);
    ShiftRightByBits(x, n, i);
    ShiftLeftByBits(x, 32 - n, i);
    if i + n >= 32 { NoHighBits(x, 32, i + n); }
  }

  /** Ch takes each bit from y or z, as the bit of x says. */
  lemma {:induction false} ChoiceByBits(x: word, y: word, z: word, i: nat)
    requires i < 32
    ensures Bit(Ch(x, y, z), i) == if Bit(x, i) then Bit(y, i) else Bit(z, i)
  {
    hide Bit, AndBits, XorBits, Pow2;
    WordWidth();
    XorByBits(And(x, y), And(Not(x), z), 32, i);
    AndByBits(x, y, 32, i);
    AndByBits(Not(x), z, 32, i);
    NotByBits(x, 32, i);
  }

  /** Maj sets each bit that at least two of its arguments have. */
  lemma {:induction false} MajorityByBits(x: word, y: word, z: word, i: nat)
    requires i < 32
    ensures Bit(Maj(x, y, z), i) <==>
            (Bit(x, i) && Bit(y, i)) || (Bit(x, i) && Bit(z, i)) || (Bit(y, i) && Bit(z, i))
  {
    hide Bit, AndBits, XorBits, Pow2;
    XorByBits(Xor(And(x, y), And(x, z)), And(y, z), 32, i);
    XorByBits(And(x, y), And(x, z), 32, i);
    AndByBits(x, y, 32, i);
    AndByBits(x, z, 32, i);
    AndByBits(y, z, 32, i);
  }

  // Whether an odd number of three conditions hold.
  predicate Odd(a: bool, b: bool, c: bool) { a != (b != c) }

  lemma {:induction false} ThreeByBits(a: word, b: word, c: word, i: nat)
    requires i < 32
    ensures Bit(Xor(Xor(a, b), c), i) == Odd(Bit(a, i), Bit(b, i), Bit(c, i))
  {
    hide Bit, XorBits, Pow2;
    XorByBits(Xor(a, b), c, 32, i);
    XorByBits(a, b, 32, i);
  }

  /** The four sigma functions: bit i is the parity of three bits of the argument. */
  lemma {:induction false} SigmasByBits(x: word, i: nat)
    requires i < 32
    ensures Bit(BigSigma0(x), i) == Odd(Bit(x, (i + 2) % 32), Bit(x, (i + 13) % 32), Bit(x, (i + 22) % 32))
    ensures Bit(BigSigma1(x), i) == Odd(Bit(x, (i + 6) % 32), Bit(x, (i + 11) % 32), Bit(x, (i + 25) % 32))
    ensures Bit(SmallSigma0(x), i) == Odd(Bit(x, (i + 7) % 32), Bit(x, (i + 18) % 32), i + 3 < 32 && Bit(x, i + 3))
    ensures Bit(SmallSigma1(x), i) == Odd(Bit(x, (i + 17) % 32), Bit(x, (i + 19) % 32), i + 10 < 32 && Bit(x, i + 10))
  {
    hide Bit, Rotr, Shr, Xor, Pow2;
    WordWidth();
    ThreeByBits(Rotr(x, 2), Rotr(x, 13), Rotr(x, 22), i);
    ThreeByBits(Rotr(x, 6), Rotr(x, 11), Rotr(x, 25), i);
    ThreeByBits(Rotr(x, 7), Rotr(x, 18), Shr(x, 3), i);
    ThreeByBits(Rotr(x, 17), Rotr(x, 19), Shr(x, 10), i);
    RotationByBits(x, 2, i);
    RotationByBits(x, 13, i);
    RotationByBits(x, 22, i);
    RotationByBits(x, 6, i);
    RotationByBits(x, 11, i);
    RotationByBits(x, 25, i);
    RotationByBits(x, 7, i);
    RotationByBits(x, 18, i);
    RotationByBits(x, 17, i);
    RotationByBits(x, 19, i);
    ShiftRightByBits(x, 3, i);
    ShiftRightByBits(x, 10, i);
    if i + 3 >= 32 { NoHighBits(x, 32, i + 3); }
    if i + 10 >= 32 { NoHighBits(x, 32, i + 10); }
  }

  // ----- The constants -----

  const PRIMES: seq<nat> := PRIME_ROW_0 + PRIME_ROW_1 + PRIME_ROW_2 + PRIME_ROW_3

  const PRIME_ROW_0: seq<nat> := [2, 3, 5, 7, 11, 13, 17, 19, 23, 29, 31, 37, 41, 43, 47, 53]
  const PRIME_ROW_1: seq<nat> := [59, 61, 67, 71, 73, 79, 83, 89, 97, 101, 103, 107, 109, 113, 127, 131]
  const PRIME_ROW_2: seq<nat> := [137, 139, 149, 151, 157, 163, 167, 173, 179, 181, 191, 193, 197, 199, 211, 223]
  const PRIME_ROW_3: seq<nat> := [227, 229, 233, 239, 241, 251, 257, 263, 269, 271, 277, 281, 283, 293, 307, 311]

  // `x` is the cube root of `p` with 32 binary digits behind the point, cut off after them; or the square root.
  predicate IsCubeRoot(p: nat, x: nat) {
    x * x * x <= p * 0x1_0000_0000_0000_0000_0000_0000 < (x + 1) * (x + 1) * (x + 1)
  }

  predicate IsSquareRoot(p: nat, x: nat) {
    x * x <= p * 0x1_0000_0000_0000_0000 < (x + 1) * (x + 1)
  }

  const CUBE_ROOTS: seq<nat> := ROOT_ROW_0 + ROOT_ROW_1 + ROOT_ROW_2 + ROOT_ROW_3

  const ROOT_ROW_0: seq<nat> := [
    0x1_428a2f98, 0x1_71374491, 0x1_b5c0fbcf, 0x1_e9b5dba5, 0x2_3956c25b, 0x2_59f111f1, 0x2_923f82a4, 0x2_ab1c5ed5,
    0x2_d807aa98, 0x3_12835b01, 0x3_243185be, 0x3_550c7dc3, 0x3_72be5d74, 0x3_80deb1fe, 0x3_9bdc06a7, 0x3_c19bf174]

  const ROOT_ROW_1: seq<nat> := [
    0x3_e49b69c1, 0x3_efbe4786, 0x4_0fc19dc6, 0x4_240ca1cc, 0x4_2de92c6f, 0x4_4a7484aa, 0x4_5cb0a9dc, 0x4_76f988da,
    0x4_983e5152, 0x4_a831c66d, 0x4_b00327c8, 0x4_bf597fc7, 0x4_c6e00bf3, 0x4_d5a79147, 0x5_06ca6351, 0x5_14292967]

  const ROOT_ROW_2: seq<nat> := [
    0x5_27b70a85, 0x5_2e1b2138, 0x5_4d2c6dfc, 0x5_53380d13, 0x5_650a7354, 0x5_766a0abb, 0x5_81c2c92e, 0x5_92722c85,
    0x5_a2bfe8a1, 0x5_a81a664b, 0x5_c24b8b70, 0x5_c76c51a3, 0x5_d192e819, 0x5_d6990624, 0x5_f40e3585, 0x6_106aa070]

  const ROOT_ROW_3: seq<nat> := [
    0x6_19a4c116, 0x6_1e376c08, 0x6_2748774c, 0x6_34b0bcb5, 0x6_391c0cb3, 0x6_4ed8aa4a, 0x6_5b9cca4f, 0x6_682e6ff3,
    0x6_748f82ee, 0x6_78a5636f, 0x6_84c87814, 0x6_8cc70208, 0x6_90befffa, 0x6_a4506ceb, 0x6_bef9a3f7, 0x6_c67178f2]


  const SQUARE_ROOTS: seq<nat> := [
    0x1_6a09e667, 0x1_bb67ae85, 0x2_3c6ef372, 0x2_a54ff53a, 0x3_510e527f, 0x3_9b05688c, 0x4_1f83d9ab, 0x4_5be0cd19]

  lemma CubeRoots0()
    ensures IsCubeRoot(2, 0x1_428a2f98) && IsCubeRoot(3, 0x1_71374491) && IsCubeRoot(5, 0x1_b5c0fbcf)
            && IsCubeRoot(7, 0x1_e9b5dba5)
    ensures IsCubeRoot(11, 0x2_3956c25b) && IsCubeRoot(13, 0x2_59f111f1) && IsCubeRoot(17, 0x2_923f82a4)
            && IsCubeRoot(19, 0x2_ab1c5ed5)
    ensures IsCubeRoot(23, 0x2_d807aa98) && IsCubeRoot(29, 0x3_12835b01) && IsCubeRoot(31, 0x3_243185be)
            && IsCubeRoot(37, 0x3_550c7dc3)
    ensures IsCubeRoot(41, 0x3_72be5d74) && IsCubeRoot(43, 0x3_80deb1fe) && IsCubeRoot(47, 0x3_9bdc06a7)
            && IsCubeRoot(53, 0x3_c19bf174)
  {
  }

  lemma CubeRoots1()
    ensures IsCubeRoot(59, 0x3_e49b69c1) && IsCubeRoot(61, 0x3_efbe4786) && IsCubeRoot(67, 0x4_0fc19dc6)
            && IsCubeRoot(71, 0x4_240ca1cc)
    ensures IsCubeRoot(73, 0x4_2de92c6f) && IsCubeRoot(79, 0x4_4a7484aa) && IsCubeRoot(83, 0x4_5cb0a9dc)
            && IsCubeRoot(89, 0x4_76f988da)
    ensures IsCubeRoot(97, 0x4_983e5152) && IsCubeRoot(101, 0x4_a831c66d) && IsCubeRoot(103, 0x4_b00327c8)
            && IsCubeRoot(107, 0x4_bf597fc7)
    ensures IsCubeRoot(109, 0x4_c6e00bf3) && IsCubeRoot(113, 0x4_d5a79147) && IsCubeRoot(127, 0x5_06ca6351)
            && IsCubeRoot(131, 0x5_14292967)
  {
  }

  lemma CubeRoots2()
    ensures IsCubeRoot(137, 0x5_27b70a85) && IsCubeRoot(139, 0x5_2e1b2138) && IsCubeRoot(149, 0x5_4d2c6dfc)
            && IsCubeRoot(151, 0x5_53380d13)
    ensures IsCubeRoot(157, 0x5_650a7354) && IsCubeRoot(163, 0x5_766a0abb) && IsCubeRoot(167, 0x5_81c2c92e)
            && IsCubeRoot(173, 0x5_92722c85)
    ensures IsCubeRoot(179, 0x5_a2bfe8a1) && IsCubeRoot(181, 0x5_a81a664b) && IsCubeRoot(191, 0x5_c24b8b70)
            && IsCubeRoot(193, 0x5_c76c51a3)
    ensures IsCubeRoot(197, 0x5_d192e819) && IsCubeRoot(199, 0x5_d6990624) && IsCubeRoot(211, 0x5_f40e3585)
            && IsCubeRoot(223, 0x6_106aa070)
  {
  }

  lemma CubeRoots3()
    ensures IsCubeRoot(227, 0x6_19a4c116) && IsCubeRoot(229, 0x6_1e376c08) && IsCubeRoot(233, 0x6_2748774c)
            && IsCubeRoot(239, 0x6_34b0bcb5)
    ensures IsCubeRoot(241, 0x6_391c0cb3) && IsCubeRoot(251, 0x6_4ed8aa4a) && IsCubeRoot(257, 0x6_5b9cca4f)
            && IsCubeRoot(263, 0x6_682e6ff3)
    ensures IsCubeRoot(269, 0x6_748f82ee) && IsCubeRoot(271, 0x6_78a5636f) && IsCubeRoot(277, 0x6_84c87814)
            && IsCubeRoot(281, 0x6_8cc70208)
    ensures IsCubeRoot(283, 0x6_90befffa) && IsCubeRoot(293, 0x6_a4506ceb) && IsCubeRoot(307, 0x6_bef9a3f7)
            && IsCubeRoot(311, 0x6_c67178f2)
  {
  }

  lemma {:induction false} CubeRootsFrom0(t: nat)
    requires 0 <= t < 16
    ensures IsCubeRoot(PRIMES[t], CUBE_ROOTS[t]) && SHA256_K[t] == CUBE_ROOTS[t] % MODULUS
  {
    hide IsCubeRoot;
    CubeRoots0();
    assert t == 0 || t == 1 || t == 2 || t == 3 || t == 4 || t == 5 || t == 6 || t == 7 || t == 8 || t == 9 || t == 10
           || t == 11 || t == 12 || t == 13 || t == 14 || t == 15;
  }

  lemma {:induction false} CubeRootsFrom16(t: nat)
    requires 16 <= t < 32
    ensures IsCubeRoot(PRIMES[t], CUBE_ROOTS[t]) && SHA256_K[t] == CUBE_ROOTS[t] % MODULUS
  {
    hide IsCubeRoot;
    CubeRoots1();
    assert t == 16 || t == 17 || t == 18 || t == 19 || t == 20 || t == 21 || t == 22 || t == 23 || t == 24 || t == 25
           || t == 26 || t == 27 || t == 28 || t == 29 || t == 30 || t == 31;
  }

  lemma {:induction false} CubeRootsFrom32(t: nat)
    requires 32 <= t < 48
    ensures IsCubeRoot(PRIMES[t], CUBE_ROOTS[t]) && SHA256_K[t] == CUBE_ROOTS[t] % MODULUS
  {
    hide IsCubeRoot;
    CubeRoots2();
    assert t == 32 || t == 33 || t == 34 || t == 35 || t == 36 || t == 37 || t == 38 || t == 39 || t == 40 || t == 41
           || t == 42 || t == 43 || t == 44 || t == 45 || t == 46 || t == 47;
  }

  lemma {:induction false} CubeRootsFrom48(t: nat)
    requires 48 <= t < 64
    ensures IsCubeRoot(PRIMES[t], CUBE_ROOTS[t]) && SHA256_K[t] == CUBE_ROOTS[t] % MODULUS
  {
    hide IsCubeRoot;
    CubeRoots3();
    assert t == 48 || t == 49 || t == 50 || t == 51 || t == 52 || t == 53 || t == 54 || t == 55 || t == 56 || t == 57
           || t == 58 || t == 59 || t == 60 || t == 61 || t == 62 || t == 63;
  }

  lemma SquareRoots()
    ensures IsSquareRoot(2, 0x1_6a09e667) && IsSquareRoot(3, 0x1_bb67ae85) && IsSquareRoot(5, 0x2_3c6ef372)
            && IsSquareRoot(7, 0x2_a54ff53a)
    ensures IsSquareRoot(11, 0x3_510e527f) && IsSquareRoot(13, 0x3_9b05688c) && IsSquareRoot(17, 0x4_1f83d9ab)
            && IsSquareRoot(19, 0x4_5be0cd19)
  {
  }

  /** Section 4.2.2 of FIPS 180-4: the constants are the first 32 bits of the fractional parts of the cube roots of the
      first 64 primes. */
  lemma {:induction false} ConstantsAreCubeRoots(t: nat)
    requires t < 64
    ensures IsCubeRoot(PRIMES[t], CUBE_ROOTS[t]) && SHA256_K[t] == CUBE_ROOTS[t] % MODULUS
  {
    hide IsCubeRoot;
    if t < 16 { CubeRootsFrom0(t); } else if t < 32 { CubeRootsFrom16(t); } else if t < 48 { CubeRootsFrom32(t); }
        else { CubeRootsFrom48(t); }
  }

  /** Section 5.3.3: the initial hash value comes from the square roots of the first 8 primes. */
  lemma {:induction false} InitialIsSquareRoots(t: nat)
    requires t < 8
    ensures IsSquareRoot(PRIMES[t], SQUARE_ROOTS[t]) && SHA256_INITIAL[t] == SQUARE_ROOTS[t] % MODULUS
  {
    hide IsSquareRoot;
    SquareRoots();
    assert t == 0 || t == 1 || t == 2 || t == 3 || t == 4 || t == 5 || t == 6 || t == 7;
  }
}
