/** The functions of SHA-256 bit by bit and byte by byte, and where its constants come from: sections 3.1, 4.1.2, 4.2.2
    and 5.3.3 of FIPS 180-4. */
module Sha256Standard {
  import opened Sha256

  // ----- the functions -----

  /** Ch takes each bit from y where x has a one, and from z where it has a zero. */
  lemma Chooses(x: word, y: word, z: word)
    ensures x & Ch(x, y, z) == x & y && !x & Ch(x, y, z) == !x & z
  {
  }

  /** Maj is the bit two of the three agree on. */
  lemma Majority(x: word, y: word, z: word)
    ensures !(x ^ y) & Maj(x, y, z) == !(x ^ y) & x
  {
  }

  lemma MajorityIsSymmetric(x: word, y: word, z: word)
    ensures Maj(x, y, z) == Maj(y, z, x)
  {
  }

  /** The sigmas are exclusive ors of circular right shifts and, the small ones, of one right shift. */
  lemma IsBigSigma0(x: word)
    ensures BigSigma0(x) == Xor3(x.RotateRight(2), x.RotateRight(13), x.RotateRight(22))
  {
    hide Xor3;
    Rotates2(x);
    Rotates13(x);
    Rotates22(x);
  }

  lemma IsBigSigma1(x: word)
    ensures BigSigma1(x) == Xor3(x.RotateRight(6), x.RotateRight(11), x.RotateRight(25))
  {
    hide Xor3;
    Rotates6(x);
    Rotates11(x);
    Rotates25(x);
  }

  lemma IsSmallSigma0(x: word)
    ensures SmallSigma0(x) == Xor3(x.RotateRight(7), x.RotateRight(18), (x >> 3))
  {
    hide Xor3;
    Rotates7(x);
    Rotates18(x);
  }

  lemma IsSmallSigma1(x: word)
    ensures SmallSigma1(x) == Xor3(x.RotateRight(17), x.RotateRight(19), (x >> 10))
  {
    hide Xor3;
    Rotates17(x);
    Rotates19(x);
  }

  lemma Rotates2(x: word)
    ensures (x >> 2) | (x << 30) == x.RotateRight(2)
  {
  }

  lemma Rotates6(x: word)
    ensures (x >> 6) | (x << 26) == x.RotateRight(6)
  {
  }

  lemma Rotates7(x: word)
    ensures (x >> 7) | (x << 25) == x.RotateRight(7)
  {
  }

  lemma Rotates11(x: word)
    ensures (x >> 11) | (x << 21) == x.RotateRight(11)
  {
  }

  lemma Rotates13(x: word)
    ensures (x >> 13) | (x << 19) == x.RotateRight(13)
  {
  }

  lemma Rotates17(x: word)
    ensures (x >> 17) | (x << 15) == x.RotateRight(17)
  {
  }

  lemma Rotates18(x: word)
    ensures (x >> 18) | (x << 14) == x.RotateRight(18)
  {
  }

  lemma Rotates19(x: word)
    ensures (x >> 19) | (x << 13) == x.RotateRight(19)
  {
  }

  lemma Rotates22(x: word)
    ensures (x >> 22) | (x << 10) == x.RotateRight(22)
  {
  }

  lemma Rotates25(x: word)
    ensures (x >> 25) | (x << 7) == x.RotateRight(25)
  {
  }

  lemma IsXor3(x: word, y: word, z: word)
    ensures Xor3(x, y, z) ^ z == x ^ y
  {
  }

  /** Words without a common bit add to their union. */
  lemma AddsDisjoint(x: word, y: word)
    requires x & y == 0
    ensures Add(x, y) == x | y
  {
  }

  /** Words are read and written most significant byte first. */
  lemma WordOrder()
    ensures BeWord([0x01, 0x23, 0x45, 0x67]) == 0x0123_4567 && WordBytes(0x0123_4567) == [0x01, 0x23, 0x45, 0x67]
  {
  }

  // ----- the constants -----

  /** The number k / 2^32 is, to 32 bits, the fraction of the cube root of p, whose whole part is a. */
  predicate CubeRoot(p: nat, a: nat, k: nat) {
    CubeBetween(p, a * 0x1_0000_0000 + k)
  }

  predicate CubeBetween(p: nat, n: nat) {
    n * n * n <= p * 0x1_0000_0000_0000_0000_0000_0000 < (n + 1) * (n + 1) * (n + 1)
  }

  lemma Within(p: nat, a: nat, k: nat)
    requires CubeBetween(p, a * 0x1_0000_0000 + k)
    ensures CubeRoot(p, a, k)
  {
  }

  /** And of the square root. */
  predicate SquareRoot(p: nat, a: nat, k: word) {
    var n := a * 0x1_0000_0000 + k as nat;
    n * n <= p * 0x1_0000_0000_0000_0000 < (n + 1) * (n + 1)
  }

  /** The initial hash value: the square roots of the first eight primes. */
  lemma InitialWords()
    ensures SquareRoot(2, 1, IV.a) && SquareRoot(3, 1, IV.b) && SquareRoot(5, 2, IV.c) && SquareRoot(7, 2, IV.d)
    ensures SquareRoot(11, 3, IV.e) && SquareRoot(13, 3, IV.f) && SquareRoot(17, 4, IV.g) && SquareRoot(19, 4, IV.h)
  {
  }

  // The round constants: the cube roots of the first 64 primes, row by row of the table.

  lemma RoundTable()
    ensures |K| == 64
    ensures forall i :: 0 <= i < 8 ==> K[i] == K0[i] && K[8 + i] == K1[i] && K[16 + i] == K2[i] && K[24 + i] == K3[i]
    ensures forall i :: 0 <= i < 8 ==>
              K[32 + i] == K4[i] && K[40 + i] == K5[i] && K[48 + i] == K6[i] && K[56 + i] == K7[i]
  {
  }

  lemma RoundWords0()
    ensures CubeRoot(2, 1, K0[0] as nat) && CubeRoot(3, 1, K0[1] as nat)
    ensures CubeRoot(5, 1, K0[2] as nat) && CubeRoot(7, 1, K0[3] as nat)
    ensures CubeRoot(11, 2, K0[4] as nat) && CubeRoot(13, 2, K0[5] as nat)
    ensures CubeRoot(17, 2, K0[6] as nat) && CubeRoot(19, 2, K0[7] as nat)
  {
    hide CubeRoot;
    Within(2, 1, 0x428a_2f98);
    Within(3, 1, 0x7137_4491);
    Within(5, 1, 0xb5c0_fbcf);
    Within(7, 1, 0xe9b5_dba5);
    Within(11, 2, 0x3956_c25b);
    Within(13, 2, 0x59f1_11f1);
    Within(17, 2, 0x923f_82a4);
    Within(19, 2, 0xab1c_5ed5);
  }

  lemma RoundWords1()
    ensures CubeRoot(23, 2, K1[0] as nat) && CubeRoot(29, 3, K1[1] as nat)
    ensures CubeRoot(31, 3, K1[2] as nat) && CubeRoot(37, 3, K1[3] as nat)
    ensures CubeRoot(41, 3, K1[4] as nat) && CubeRoot(43, 3, K1[5] as nat)
    ensures CubeRoot(47, 3, K1[6] as nat) && CubeRoot(53, 3, K1[7] as nat)
  {
    hide CubeRoot;
    Within(23, 2, 0xd807_aa98);
    Within(29, 3, 0x1283_5b01);
    Within(31, 3, 0x2431_85be);
    Within(37, 3, 0x550c_7dc3);
    Within(41, 3, 0x72be_5d74);
    Within(43, 3, 0x80de_b1fe);
    Within(47, 3, 0x9bdc_06a7);
    Within(53, 3, 0xc19b_f174);
  }

  lemma RoundWords2()
    ensures CubeRoot(59, 3, K2[0] as nat) && CubeRoot(61, 3, K2[1] as nat)
    ensures CubeRoot(67, 4, K2[2] as nat) && CubeRoot(71, 4, K2[3] as nat)
    ensures CubeRoot(73, 4, K2[4] as nat) && CubeRoot(79, 4, K2[5] as nat)
    ensures CubeRoot(83, 4, K2[6] as nat) && CubeRoot(89, 4, K2[7] as nat)
  {
    hide CubeRoot;
    Within(59, 3, 0xe49b_69c1);
    Within(61, 3, 0xefbe_4786);
    Within(67, 4, 0xfc1_9dc6);
    Within(71, 4, 0x240c_a1cc);
    Within(73, 4, 0x2de9_2c6f);
    Within(79, 4, 0x4a74_84aa);
    Within(83, 4, 0x5cb0_a9dc);
    Within(89, 4, 0x76f9_88da);
  }

  lemma RoundWords3()
    ensures CubeRoot(97, 4, K3[0] as nat) && CubeRoot(101, 4, K3[1] as nat)
    ensures CubeRoot(103, 4, K3[2] as nat) && CubeRoot(107, 4, K3[3] as nat)
    ensures CubeRoot(109, 4, K3[4] as nat) && CubeRoot(113, 4, K3[5] as nat)
    ensures CubeRoot(127, 5, K3[6] as nat) && CubeRoot(131, 5, K3[7] as nat)
  {
    hide CubeRoot;
    Within(97, 4, 0x983e_5152);
    Within(101, 4, 0xa831_c66d);
    Within(103, 4, 0xb003_27c8);
    Within(107, 4, 0xbf59_7fc7);
    Within(109, 4, 0xc6e0_0bf3);
    Within(113, 4, 0xd5a7_9147);
    Within(127, 5, 0x6ca_6351);
    Within(131, 5, 0x1429_2967);
  }

  lemma RoundWords4()
    ensures CubeRoot(137, 5, K4[0] as nat) && CubeRoot(139, 5, K4[1] as nat)
    ensures CubeRoot(149, 5, K4[2] as nat) && CubeRoot(151, 5, K4[3] as nat)
    ensures CubeRoot(157, 5, K4[4] as nat) && CubeRoot(163, 5, K4[5] as nat)
    ensures CubeRoot(167, 5, K4[6] as nat) && CubeRoot(173, 5, K4[7] as nat)
  {
    hide CubeRoot;
    Within(137, 5, 0x27b7_0a85);
    Within(139, 5, 0x2e1b_2138);
    Within(149, 5, 0x4d2c_6dfc);
    Within(151, 5, 0x5338_0d13);
    Within(157, 5, 0x650a_7354);
    Within(163, 5, 0x766a_0abb);
    Within(167, 5, 0x81c2_c92e);
    Within(173, 5, 0x9272_2c85);
  }

  lemma RoundWords5()
    ensures CubeRoot(179, 5, K5[0] as nat) && CubeRoot(181, 5, K5[1] as nat)
    ensures CubeRoot(191, 5, K5[2] as nat) && CubeRoot(193, 5, K5[3] as nat)
    ensures CubeRoot(197, 5, K5[4] as nat) && CubeRoot(199, 5, K5[5] as nat)
    ensures CubeRoot(211, 5, K5[6] as nat) && CubeRoot(223, 6, K5[7] as nat)
  {
    hide CubeRoot;
    Within(179, 5, 0xa2bf_e8a1);
    Within(181, 5, 0xa81a_664b);
    Within(191, 5, 0xc24b_8b70);
    Within(193, 5, 0xc76c_51a3);
    Within(197, 5, 0xd192_e819);
    Within(199, 5, 0xd699_0624);
    Within(211, 5, 0xf40e_3585);
    Within(223, 6, 0x106a_a070);
  }

  lemma RoundWords6()
    ensures CubeRoot(227, 6, K6[0] as nat) && CubeRoot(229, 6, K6[1] as nat)
    ensures CubeRoot(233, 6, K6[2] as nat) && CubeRoot(239, 6, K6[3] as nat)
    ensures CubeRoot(241, 6, K6[4] as nat) && CubeRoot(251, 6, K6[5] as nat)
    ensures CubeRoot(257, 6, K6[6] as nat) && CubeRoot(263, 6, K6[7] as nat)
  {
    hide CubeRoot;
    Within(227, 6, 0x19a4_c116);
    Within(229, 6, 0x1e37_6c08);
    Within(233, 6, 0x2748_774c);
    Within(239, 6, 0x34b0_bcb5);
    Within(241, 6, 0x391c_0cb3);
    Within(251, 6, 0x4ed8_aa4a);
    Within(257, 6, 0x5b9c_ca4f);
    Within(263, 6, 0x682e_6ff3);
  }

  lemma RoundWords7()
    ensures CubeRoot(269, 6, K7[0] as nat) && CubeRoot(271, 6, K7[1] as nat)
    ensures CubeRoot(277, 6, K7[2] as nat) && CubeRoot(281, 6, K7[3] as nat)
    ensures CubeRoot(283, 6, K7[4] as nat) && CubeRoot(293, 6, K7[5] as nat)
    ensures CubeRoot(307, 6, K7[6] as nat) && CubeRoot(311, 6, K7[7] as nat)
  {
    hide CubeRoot;
    Within(269, 6, 0x748f_82ee);
    Within(271, 6, 0x78a5_636f);
    Within(277, 6, 0x84c8_7814);
    Within(281, 6, 0x8cc7_0208);
    Within(283, 6, 0x90be_fffa);
    Within(293, 6, 0xa450_6ceb);
    Within(307, 6, 0xbef9_a3f7);
    Within(311, 6, 0xc671_78f2);
  }
}
