/**
 The SHA-256 digest of "abc" (the example of FIPS 180-2, appendix B.1), worked out
 round by round.  Every constant, rotation and word index of the block function takes part in it.
 */
module Sha256Example {
  import opened Bytes
  import opened ShaBlocks
  import opened HashStream

  /** The sixteen words of the padded message. */
  predicate Block(p: seq<byte>) {
    |p| == 64
    && WordAt(p, 0) == 0x61626380 && WordAt(p, 1) == 0 && WordAt(p, 2) == 0 && WordAt(p, 3) == 0
    && WordAt(p, 4) == 0 && WordAt(p, 5) == 0 && WordAt(p, 6) == 0 && WordAt(p, 7) == 0
    && WordAt(p, 8) == 0 && WordAt(p, 9) == 0 && WordAt(p, 10) == 0 && WordAt(p, 11) == 0
    && WordAt(p, 12) == 0 && WordAt(p, 13) == 0 && WordAt(p, 14) == 0 && WordAt(p, 15) == 0x00000018
  }

  // ---- the schedule ----

  lemma Words16(p: seq<byte>)
    requires |p| == 64 && Block(p)
    ensures W2(p, 0) == 0x61626380 && W2(p, 1) == 0 && W2(p, 2) == 0 && W2(p, 3) == 0
            && W2(p, 4) == 0 && W2(p, 5) == 0 && W2(p, 6) == 0 && W2(p, 7) == 0
            && W2(p, 8) == 0 && W2(p, 9) == 0 && W2(p, 10) == 0 && W2(p, 11) == 0
            && W2(p, 12) == 0 && W2(p, 13) == 0 && W2(p, 14) == 0 && W2(p, 15) == 0x00000018
  {
    hide WordAt;
  }

  lemma Words32(p: seq<byte>)
    requires |p| == 64 && Block(p)
    ensures W2(p, 16) == 0x61626380 && W2(p, 17) == 0x000f0000 && W2(p, 18) == 0x7da86405 && W2(p, 19) == 0x600003c6
            && W2(p, 20) == 0x3e9d7b78 && W2(p, 21) == 0x0183fc00 && W2(p, 22) == 0x12dcbfdb && W2(p, 23) == 0xe2e2c38e
            && W2(p, 24) == 0xc8215c1a && W2(p, 25) == 0xb73679a2 && W2(p, 26) == 0xe5bc3909 && W2(p, 27) == 0x32663c5b
            && W2(p, 28) == 0x9d209d67 && W2(p, 29) == 0xec8726cb && W2(p, 30) == 0x702138a4 && W2(p, 31) == 0xd3b7973b
  {
    hide WordAt, Block;
    Words16(p);
  }

  lemma Words48(p: seq<byte>)
    requires |p| == 64 && Block(p)
    ensures W2(p, 32) == 0x93f5997f && W2(p, 33) == 0x3b68ba73 && W2(p, 34) == 0xaff4ffc1 && W2(p, 35) == 0xf10a5c62
            && W2(p, 36) == 0x0a8b3996 && W2(p, 37) == 0x72af830a && W2(p, 38) == 0x9409e33e && W2(p, 39) == 0x24641522
            && W2(p, 40) == 0x9f47bf94 && W2(p, 41) == 0xf0a64f5a && W2(p, 42) == 0x3e246a79 && W2(p, 43) == 0x27333ba3
            && W2(p, 44) == 0x0c4763f2 && W2(p, 45) == 0x840abf27 && W2(p, 46) == 0x7a290d5d && W2(p, 47) == 0x065c43da
  {
    hide WordAt, Block;
    Words32(p);
  }

  lemma Words64(p: seq<byte>)
    requires |p| == 64 && Block(p)
    ensures W2(p, 48) == 0xfb3e89cb && W2(p, 49) == 0xcc7617db && W2(p, 50) == 0xb9e66c34 && W2(p, 51) == 0xa9993667
            && W2(p, 52) == 0x84badedd && W2(p, 53) == 0xc21462bc && W2(p, 54) == 0x1487472c && W2(p, 55) == 0xb20f7a99
            && W2(p, 56) == 0xef57b9cd && W2(p, 57) == 0xebe6b238 && W2(p, 58) == 0x9fe3095e && W2(p, 59) == 0x78bc8d4b
            && W2(p, 60) == 0xa43fcf15 && W2(p, 61) == 0x668b2ff8 && W2(p, 62) == 0xeeaba2cc && W2(p, 63) == 0x12b1edeb
  {
    hide WordAt, Block;
    Words48(p);
  }

  // ---- the rounds ----

  const START := Eight(0x6a09e667, 0xbb67ae85, 0x3c6ef372, 0xa54ff53a,
                       0x510e527f, 0x9b05688c, 0x1f83d9ab, 0x5be0cd19)

  /** Two rounds with their constants and words. */
  function Two(s: Eight, k: word, w: word, l: word, x: word): Eight { Mix2(Mix2(s, k, w), l, x) }

  lemma TwoRounds(p: seq<byte>, t: nat)
    requires |p| == 64 && t + 1 < 64
    ensures Rounds2(START, p, t + 2) == Two(Rounds2(START, p, t), K2(t), W2(p, t), K2(t + 1), W2(p, t + 1))
  {
    hide W2, Mix2, K2, START;
    assert Rounds2(START, p, t + 1) == Round2(Rounds2(START, p, t), t, W2(p, t));
  }

  lemma After0(p: seq<byte>)
    requires |p| == 64
    ensures Rounds2(START, p, 0)
         == Eight(0x6a09e667, 0xbb67ae85, 0x3c6ef372, 0xa54ff53a,
                  0x510e527f, 0x9b05688c, 0x1f83d9ab, 0x5be0cd19)
  {
  }

  lemma Keys0()
    ensures K2(0) == 0x428a2f98 && K2(1) == 0x71374491 && K2(2) == 0xb5c0fbcf && K2(3) == 0xe9b5dba5
            && K2(4) == 0x3956c25b && K2(5) == 0x59f111f1 && K2(6) == 0x923f82a4 && K2(7) == 0xab1c5ed5
  {
  }

  lemma Keys8()
    ensures K2(8) == 0xd807aa98 && K2(9) == 0x12835b01 && K2(10) == 0x243185be && K2(11) == 0x550c7dc3
            && K2(12) == 0x72be5d74 && K2(13) == 0x80deb1fe && K2(14) == 0x9bdc06a7 && K2(15) == 0xc19bf174
  {
  }

  lemma Keys16()
    ensures K2(16) == 0xe49b69c1 && K2(17) == 0xefbe4786 && K2(18) == 0x0fc19dc6 && K2(19) == 0x240ca1cc
            && K2(20) == 0x2de92c6f && K2(21) == 0x4a7484aa && K2(22) == 0x5cb0a9dc && K2(23) == 0x76f988da
  {
  }

  lemma Keys24()
    ensures K2(24) == 0x983e5152 && K2(25) == 0xa831c66d && K2(26) == 0xb00327c8 && K2(27) == 0xbf597fc7
            && K2(28) == 0xc6e00bf3 && K2(29) == 0xd5a79147 && K2(30) == 0x06ca6351 && K2(31) == 0x14292967
  {
  }

  lemma Keys32()
    ensures K2(32) == 0x27b70a85 && K2(33) == 0x2e1b2138 && K2(34) == 0x4d2c6dfc && K2(35) == 0x53380d13
            && K2(36) == 0x650a7354 && K2(37) == 0x766a0abb && K2(38) == 0x81c2c92e && K2(39) == 0x92722c85
  {
  }

  lemma Keys40()
    ensures K2(40) == 0xa2bfe8a1 && K2(41) == 0xa81a664b && K2(42) == 0xc24b8b70 && K2(43) == 0xc76c51a3
            && K2(44) == 0xd192e819 && K2(45) == 0xd6990624 && K2(46) == 0xf40e3585 && K2(47) == 0x106aa070
  {
  }

  lemma Keys48()
    ensures K2(48) == 0x19a4c116 && K2(49) == 0x1e376c08 && K2(50) == 0x2748774c && K2(51) == 0x34b0bcb5
            && K2(52) == 0x391c0cb3 && K2(53) == 0x4ed8aa4a && K2(54) == 0x5b9cca4f && K2(55) == 0x682e6ff3
  {
  }

  lemma Keys56()
    ensures K2(56) == 0x748f82ee && K2(57) == 0x78a5636f && K2(58) == 0x84c87814 && K2(59) == 0x8cc70208
            && K2(60) == 0x90befffa && K2(61) == 0xa4506ceb && K2(62) == 0xbef9a3f7 && K2(63) == 0xc67178f2
  {
  }

  lemma Eval16()
    ensures Two(Eight(0x6a09e667, 0xbb67ae85, 0x3c6ef372, 0xa54ff53a,
                         0x510e527f, 0x9b05688c, 0x1f83d9ab, 0x5be0cd19),
                   0x428a2f98, 0x61626380, 0x71374491, 0)
               == Eight(0x5a6ad9ad, 0x5d6aebcd, 0x6a09e667, 0xbb67ae85,
                        0x78ce7989, 0xfa2a4622, 0x510e527f, 0x9b05688c)
            && Two(Eight(0x5a6ad9ad, 0x5d6aebcd, 0x6a09e667, 0xbb67ae85,
                         0x78ce7989, 0xfa2a4622, 0x510e527f, 0x9b05688c),
                   0xb5c0fbcf, 0, 0xe9b5dba5, 0)
               == Eight(0xd550f666, 0xc8c347a7, 0x5a6ad9ad, 0x5d6aebcd,
                        0x24e00850, 0xf92939eb, 0x78ce7989, 0xfa2a4622)
            && Two(Eight(0xd550f666, 0xc8c347a7, 0x5a6ad9ad, 0x5d6aebcd,
                         0x24e00850, 0xf92939eb, 0x78ce7989, 0xfa2a4622),
                   0x3956c25b, 0, 0x59f111f1, 0)
               == Eight(0x2b4209f5, 0x04409a6a, 0xd550f666, 0xc8c347a7,
                        0x714260ad, 0x43ada245, 0x24e00850, 0xf92939eb)
            && Two(Eight(0x2b4209f5, 0x04409a6a, 0xd550f666, 0xc8c347a7,
                         0x714260ad, 0x43ada245, 0x24e00850, 0xf92939eb),
                   0x923f82a4, 0, 0xab1c5ed5, 0)
               == Eight(0x85a07b5f, 0xe5030380, 0x2b4209f5, 0x04409a6a,
                        0x0c657a79, 0x9b27a401, 0x714260ad, 0x43ada245)
            && Two(Eight(0x85a07b5f, 0xe5030380, 0x2b4209f5, 0x04409a6a,
                         0x0c657a79, 0x9b27a401, 0x714260ad, 0x43ada245),
                   0xd807aa98, 0, 0x12835b01, 0)
               == Eight(0x8c87346b, 0x8e04ecb9, 0x85a07b5f, 0xe5030380,
                        0x1cc92596, 0x32ca2d8c, 0x0c657a79, 0x9b27a401)
            && Two(Eight(0x8c87346b, 0x8e04ecb9, 0x85a07b5f, 0xe5030380,
                         0x1cc92596, 0x32ca2d8c, 0x0c657a79, 0x9b27a401),
                   0x243185be, 0, 0x550c7dc3, 0)
               == Eight(0xf71fc5a9, 0x4798a3f4, 0x8c87346b, 0x8e04ecb9,
                        0x816fd6e9, 0x436b23e8, 0x1cc92596, 0x32ca2d8c)
            && Two(Eight(0xf71fc5a9, 0x4798a3f4, 0x8c87346b, 0x8e04ecb9,
                         0x816fd6e9, 0x436b23e8, 0x1cc92596, 0x32ca2d8c),
                   0x72be5d74, 0, 0x80deb1fe, 0)
               == Eight(0xd932eb16, 0x87912990, 0xf71fc5a9, 0x4798a3f4,
                        0x745a48de, 0x1e578218, 0x816fd6e9, 0x436b23e8)
            && Two(Eight(0xd932eb16, 0x87912990, 0xf71fc5a9, 0x4798a3f4,
                         0x745a48de, 0x1e578218, 0x816fd6e9, 0x436b23e8),
                   0x9bdc06a7, 0, 0xc19bf174, 0x00000018)
               == Eight(0xb0fa238e, 0xc0645fde, 0xd932eb16, 0x87912990,
                        0x07590dcd, 0x0b92f20c, 0x745a48de, 0x1e578218)
  {
  }

  lemma Eval32()
    ensures Two(Eight(0xb0fa238e, 0xc0645fde, 0xd932eb16, 0x87912990,
                         0x07590dcd, 0x0b92f20c, 0x745a48de, 0x1e578218),
                   0xe49b69c1, 0x61626380, 0xefbe4786, 0x000f0000)
               == Eight(0xc2fbd9d1, 0x21da9a9b, 0xb0fa238e, 0xc0645fde,
                        0x846ee454, 0x8034229c, 0x07590dcd, 0x0b92f20c)
            && Two(Eight(0xc2fbd9d1, 0x21da9a9b, 0xb0fa238e, 0xc0645fde,
                         0x846ee454, 0x8034229c, 0x07590dcd, 0x0b92f20c),
                   0x0fc19dc6, 0x7da86405, 0x240ca1cc, 0x600003c6)
               == Eight(0xe1f20c33, 0xfe777bbf, 0xc2fbd9d1, 0x21da9a9b,
                        0xb0638179, 0xcc899961, 0x846ee454, 0x8034229c)
            && Two(Eight(0xe1f20c33, 0xfe777bbf, 0xc2fbd9d1, 0x21da9a9b,
                         0xb0638179, 0xcc899961, 0x846ee454, 0x8034229c),
                   0x2de92c6f, 0x3e9d7b78, 0x4a7484aa, 0x0183fc00)
               == Eight(0xc2606d6d, 0x9dc68b63, 0xe1f20c33, 0xfe777bbf,
                        0xe1257970, 0x8ada8930, 0xb0638179, 0xcc899961)
            && Two(Eight(0xc2606d6d, 0x9dc68b63, 0xe1f20c33, 0xfe777bbf,
                         0xe1257970, 0x8ada8930, 0xb0638179, 0xcc899961),
                   0x5cb0a9dc, 0x12dcbfdb, 0x76f988da, 0xe2e2c38e)
               == Eight(0xc5d53d8d, 0xa7a3623f, 0xc2606d6d, 0x9dc68b63,
                        0xaa47c347, 0x49f5114a, 0xe1257970, 0x8ada8930)
            && Two(Eight(0xc5d53d8d, 0xa7a3623f, 0xc2606d6d, 0x9dc68b63,
                         0xaa47c347, 0x49f5114a, 0xe1257970, 0x8ada8930),
                   0x983e5152, 0xc8215c1a, 0xa831c66d, 0xb73679a2)
               == Eight(0xcde8037d, 0x1c2c2838, 0xc5d53d8d, 0xa7a3623f,
                        0x14383d8e, 0x2823ef91, 0xaa47c347, 0x49f5114a)
            && Two(Eight(0xcde8037d, 0x1c2c2838, 0xc5d53d8d, 0xa7a3623f,
                         0x14383d8e, 0x2823ef91, 0xaa47c347, 0x49f5114a),
                   0xb00327c8, 0xe5bc3909, 0xbf597fc7, 0x32663c5b)
               == Eight(0x77d37528, 0xb62ec4bc, 0xcde8037d, 0x1c2c2838,
                        0xedffbff8, 0xc74c6516, 0x14383d8e, 0x2823ef91)
            && Two(Eight(0x77d37528, 0xb62ec4bc, 0xcde8037d, 0x1c2c2838,
                         0xedffbff8, 0xc74c6516, 0x14383d8e, 0x2823ef91),
                   0xc6e00bf3, 0x9d209d67, 0xd5a79147, 0xec8726cb)
               == Eight(0xa0060b30, 0x363482c9, 0x77d37528, 0xb62ec4bc,
                        0xade79437, 0x6112a3b7, 0xedffbff8, 0xc74c6516)
            && Two(Eight(0xa0060b30, 0x363482c9, 0x77d37528, 0xb62ec4bc,
                         0xade79437, 0x6112a3b7, 0xedffbff8, 0xc74c6516),
                   0x06ca6351, 0x702138a4, 0x14292967, 0xd3b7973b)
               == Eight(0x73b33bf5, 0xea992a22, 0xa0060b30, 0x363482c9,
                        0xba591112, 0x0109ab3a, 0xade79437, 0x6112a3b7)
  {
  }

  lemma Eval48()
    ensures Two(Eight(0x73b33bf5, 0xea992a22, 0xa0060b30, 0x363482c9,
                         0xba591112, 0x0109ab3a, 0xade79437, 0x6112a3b7),
                   0x27b70a85, 0x93f5997f, 0x2e1b2138, 0x3b68ba73)
               == Eight(0xfe604df5, 0x98e12507, 0x73b33bf5, 0xea992a22,
                        0x59249dd3, 0x9cd9f5f6, 0xba591112, 0x0109ab3a)
            && Two(Eight(0xfe604df5, 0x98e12507, 0x73b33bf5, 0xea992a22,
                         0x59249dd3, 0x9cd9f5f6, 0xba591112, 0x0109ab3a),
                   0x4d2c6dfc, 0xaff4ffc1, 0x53380d13, 0xf10a5c62)
               == Eight(0x65a0cfe4, 0xa9a7738c, 0xfe604df5, 0x98e12507,
                        0xf4b002d6, 0x085f3833, 0x59249dd3, 0x9cd9f5f6)
            && Two(Eight(0x65a0cfe4, 0xa9a7738c, 0xfe604df5, 0x98e12507,
                         0xf4b002d6, 0x085f3833, 0x59249dd3, 0x9cd9f5f6),
                   0x650a7354, 0x0a8b3996, 0x766a0abb, 0x72af830a)
               == Eight(0x34df1604, 0x41a65cb1, 0x65a0cfe4, 0xa9a7738c,
                        0xa507a53d, 0x0772a26b, 0xf4b002d6, 0x085f3833)
            && Two(Eight(0x34df1604, 0x41a65cb1, 0x65a0cfe4, 0xa9a7738c,
                         0xa507a53d, 0x0772a26b, 0xf4b002d6, 0x085f3833),
                   0x81c2c92e, 0x9409e33e, 0x92722c85, 0x24641522)
               == Eight(0x79ea687a, 0x6dc57a8a, 0x34df1604, 0x41a65cb1,
                        0x1efbc0a0, 0xf0781bc8, 0xa507a53d, 0x0772a26b)
            && Two(Eight(0x79ea687a, 0x6dc57a8a, 0x34df1604, 0x41a65cb1,
                         0x1efbc0a0, 0xf0781bc8, 0xa507a53d, 0x0772a26b),
                   0xa2bfe8a1, 0x9f47bf94, 0xa81a664b, 0xf0a64f5a)
               == Eight(0xdf46652f, 0xd6670766, 0x79ea687a, 0x6dc57a8a,
                        0x838b2711, 0x26352d63, 0x1efbc0a0, 0xf0781bc8)
            && Two(Eight(0xdf46652f, 0xd6670766, 0x79ea687a, 0x6dc57a8a,
                         0x838b2711, 0x26352d63, 0x1efbc0a0, 0xf0781bc8),
                   0xc24b8b70, 0x3e246a79, 0xc76c51a3, 0x27333ba3)
               == Eight(0x9d4baf93, 0x17aa0dfe, 0xdf46652f, 0xd6670766,
                        0xfda24c2e, 0xdecd4715, 0x838b2711, 0x26352d63)
            && Two(Eight(0x9d4baf93, 0x17aa0dfe, 0xdf46652f, 0xd6670766,
                         0xfda24c2e, 0xdecd4715, 0x838b2711, 0x26352d63),
                   0xd192e819, 0x0c4763f2, 0xd6990624, 0x840abf27)
               == Eight(0x72ab4b91, 0x26628815, 0x9d4baf93, 0x17aa0dfe,
                        0xb7755da1, 0xa80f11f0, 0xfda24c2e, 0xdecd4715)
            && Two(Eight(0x72ab4b91, 0x26628815, 0x9d4baf93, 0x17aa0dfe,
                         0xb7755da1, 0xa80f11f0, 0xfda24c2e, 0xdecd4715),
                   0xf40e3585, 0x7a290d5d, 0x106aa070, 0x065c43da)
               == Eight(0x4172328d, 0xa14c14b0, 0x72ab4b91, 0x26628815,
                        0xfecf0bc6, 0xd57b94a9, 0xb7755da1, 0xa80f11f0)
  {
  }

  lemma Eval64()
    ensures Two(Eight(0x4172328d, 0xa14c14b0, 0x72ab4b91, 0x26628815,
                         0xfecf0bc6, 0xd57b94a9, 0xb7755da1, 0xa80f11f0),
                   0x19a4c116, 0xfb3e89cb, 0x1e376c08, 0xcc7617db)
               == Eight(0xf11bfaa8, 0x05757ceb, 0x4172328d, 0xa14c14b0,
                        0x6e5c390c, 0xbd714038, 0xfecf0bc6, 0xd57b94a9)
            && Two(Eight(0xf11bfaa8, 0x05757ceb, 0x4172328d, 0xa14c14b0,
                         0x6e5c390c, 0xbd714038, 0xfecf0bc6, 0xd57b94a9),
                   0x2748774c, 0xb9e66c34, 0x34b0bcb5, 0xa9993667)
               == Eight(0x886e7a22, 0x7a0508a1, 0xf11bfaa8, 0x05757ceb,
                        0x49231c1e, 0x52f1ccf7, 0x6e5c390c, 0xbd714038)
            && Two(Eight(0x886e7a22, 0x7a0508a1, 0xf11bfaa8, 0x05757ceb,
                         0x49231c1e, 0x52f1ccf7, 0x6e5c390c, 0xbd714038),
                   0x391c0cb3, 0x84badedd, 0x4ed8aa4a, 0xc21462bc)
               == Eight(0xf5702fdb, 0x101fd28f, 0x886e7a22, 0x7a0508a1,
                        0x9f4787c3, 0x529e7d00, 0x49231c1e, 0x52f1ccf7)
            && Two(Eight(0xf5702fdb, 0x101fd28f, 0x886e7a22, 0x7a0508a1,
                         0x9f4787c3, 0x529e7d00, 0x49231c1e, 0x52f1ccf7),
                   0x5b9cca4f, 0x1487472c, 0x682e6ff3, 0xb20f7a99)
               == Eight(0x38cc9913, 0x3ec45cdb, 0xf5702fdb, 0x101fd28f,
                        0x54cb266b, 0xe50e1b4f, 0x9f4787c3, 0x529e7d00)
            && Two(Eight(0x38cc9913, 0x3ec45cdb, 0xf5702fdb, 0x101fd28f,
                         0x54cb266b, 0xe50e1b4f, 0x9f4787c3, 0x529e7d00),
                   0x748f82ee, 0xef57b9cd, 0x78a5636f, 0xebe6b238)
               == Eight(0xc062d46f, 0xfcd1887b, 0x38cc9913, 0x3ec45cdb,
                        0x7e44008e, 0x9b5e906c, 0x54cb266b, 0xe50e1b4f)
            && Two(Eight(0xc062d46f, 0xfcd1887b, 0x38cc9913, 0x3ec45cdb,
                         0x7e44008e, 0x9b5e906c, 0x54cb266b, 0xe50e1b4f),
                   0x84c87814, 0x9fe3095e, 0x8cc70208, 0x78bc8d4b)
               == Eight(0xb6ae8fff, 0xffb70472, 0xc062d46f, 0xfcd1887b,
                        0xb21bad3d, 0x6d83bfc6, 0x7e44008e, 0x9b5e906c)
            && Two(Eight(0xb6ae8fff, 0xffb70472, 0xc062d46f, 0xfcd1887b,
                         0xb21bad3d, 0x6d83bfc6, 0x7e44008e, 0x9b5e906c),
                   0x90befffa, 0xa43fcf15, 0xa4506ceb, 0x668b2ff8)
               == Eight(0x04d24d6c, 0xb85e2ce9, 0xb6ae8fff, 0xffb70472,
                        0x948d25b6, 0x961f4894, 0xb21bad3d, 0x6d83bfc6)
            && Two(Eight(0x04d24d6c, 0xb85e2ce9, 0xb6ae8fff, 0xffb70472,
                         0x948d25b6, 0x961f4894, 0xb21bad3d, 0x6d83bfc6),
                   0xbef9a3f7, 0xeeaba2cc, 0xc67178f2, 0x12b1edeb)
               == Eight(0x506e3058, 0xd39a2165, 0x04d24d6c, 0xb85e2ce9,
                        0x5ef50f24, 0xfb121210, 0x948d25b6, 0x961f4894)
  {
  }

  lemma After16(p: seq<byte>)
    requires |p| == 64 && Block(p)
    ensures Rounds2(START, p, 16)
         == Eight(0xb0fa238e, 0xc0645fde, 0xd932eb16, 0x87912990,
                  0x07590dcd, 0x0b92f20c, 0x745a48de, 0x1e578218)
  {
    hide WordAt, Block, W2, K2, Rounds2, Two, START;
    After0(p);
    Words16(p);
    Keys0();
    Keys8();
    Eval16();
    TwoRounds(p, 0);
    TwoRounds(p, 2);
    TwoRounds(p, 4);
    TwoRounds(p, 6);
    TwoRounds(p, 8);
    TwoRounds(p, 10);
    TwoRounds(p, 12);
    TwoRounds(p, 14);
  }

  lemma After32(p: seq<byte>)
    requires |p| == 64 && Block(p)
    ensures Rounds2(START, p, 32)
         == Eight(0x73b33bf5, 0xea992a22, 0xa0060b30, 0x363482c9,
                  0xba591112, 0x0109ab3a, 0xade79437, 0x6112a3b7)
  {
    hide WordAt, Block, W2, K2, Rounds2, Two, START;
    After16(p);
    Words32(p);
    Keys16();
    Keys24();
    Eval32();
    TwoRounds(p, 16);
    TwoRounds(p, 18);
    TwoRounds(p, 20);
    TwoRounds(p, 22);
    TwoRounds(p, 24);
    TwoRounds(p, 26);
    TwoRounds(p, 28);
    TwoRounds(p, 30);
  }

  lemma After48(p: seq<byte>)
    requires |p| == 64 && Block(p)
    ensures Rounds2(START, p, 48)
         == Eight(0x4172328d, 0xa14c14b0, 0x72ab4b91, 0x26628815,
                  0xfecf0bc6, 0xd57b94a9, 0xb7755da1, 0xa80f11f0)
  {
    hide WordAt, Block, W2, K2, Rounds2, Two, START;
    After32(p);
    Words48(p);
    Keys32();
    Keys40();
    Eval48();
    TwoRounds(p, 32);
    TwoRounds(p, 34);
    TwoRounds(p, 36);
    TwoRounds(p, 38);
    TwoRounds(p, 40);
    TwoRounds(p, 42);
    TwoRounds(p, 44);
    TwoRounds(p, 46);
  }

  lemma After64(p: seq<byte>)
    requires |p| == 64 && Block(p)
    ensures Rounds2(START, p, 64)
         == Eight(0x506e3058, 0xd39a2165, 0x04d24d6c, 0xb85e2ce9,
                  0x5ef50f24, 0xfb121210, 0x948d25b6, 0x961f4894)
  {
    hide WordAt, Block, W2, K2, Rounds2, Two, START;
    After48(p);
    Words64(p);
    Keys48();
    Keys56();
    Eval64();
    TwoRounds(p, 48);
    TwoRounds(p, 50);
    TwoRounds(p, 52);
    TwoRounds(p, 54);
    TwoRounds(p, 56);
    TwoRounds(p, 58);
    TwoRounds(p, 60);
    TwoRounds(p, 62);
  }

  // ---- the digest ----

  const ABC: seq<byte> := [0x61, 0x62, 0x63]
  const ABC_DIGEST: seq<word> := [0xba7816bf, 0x8f01cfea, 0x414140de, 0x5dae2223,
                                  0xb00361a3, 0x96177a9c, 0xb410ff61, 0xf20015ad]

  lemma PaddedAbc()
    ensures |Pad(ABC)| == 64 && Block(Pad(ABC))
  {
    AbcOctets();
    hide Pad, BigEndian, ABC, WordAt;
    var p := Pad(ABC);
    WordIs(p, 0, 0x61, 0x62, 0x63, 0x80, 0x61626380);
    forall t: nat | 0 < t < 15 ensures WordAt(p, t) == 0 { WordIs(p, t, 0, 0, 0, 0, 0); }
    WordIs(p, 15, 0, 0, 0, 24, 0x18);
  }

  lemma AbcOctets()
    ensures var p := Pad(ABC);
            && |p| == 64 && p[0] == 0x61 && p[1] == 0x62 && p[2] == 0x63 && p[3] == 0x80 && p[63] == 24
            && forall i :: 4 <= i < 63 ==> p[i] == 0
  {
    PadFits(3);
    AbcLength();
    hide BitLength;
    var z := Zeros(52);
    assert Pad(ABC) == ABC + [0x80] + z + BitLength(3);
  }

  lemma AbcLength()
    ensures BitLength(3) == [0, 0, 0, 0, 0, 0, 0, 24]
  {
  }

  lemma Compressed(p: seq<byte>)
    requires Block(p)
    ensures Sha256Compress(InitialState(Sha256), p)
         == ABC_DIGEST
  {
    After64(p);
    hide Rounds2, Block, Add;
    var h := InitialState(Sha256);
    assert START == Eight(h[0], h[1], h[2], h[3], h[4], h[5], h[6], h[7]);
    Sums();
    var s := Rounds2(START, p, 64);
    AddEightIs(h, s);
    hide START, AddEight;
  }

  lemma AddEightIs(h: seq<word>, s: Eight)
    requires |h| == 8
    ensures AddEight(h, s) == [Add(h[0], s.a), Add(h[1], s.b), Add(h[2], s.c), Add(h[3], s.d),
                               Add(h[4], s.e), Add(h[5], s.f), Add(h[6], s.g), Add(h[7], s.h)]
  {
    hide Add;
  }

  lemma Sums()
    ensures Add(0x6a09e667, 0x506e3058) == 0xba7816bf && Add(0xbb67ae85, 0xd39a2165) == 0x8f01cfea
            && Add(0x3c6ef372, 0x04d24d6c) == 0x414140de && Add(0xa54ff53a, 0xb85e2ce9) == 0x5dae2223
            && Add(0x510e527f, 0x5ef50f24) == 0xb00361a3 && Add(0x9b05688c, 0xfb121210) == 0x96177a9c
            && Add(0x1f83d9ab, 0x948d25b6) == 0xb410ff61 && Add(0x5be0cd19, 0x961f4894) == 0xf20015ad
  {
  }

  /** The client's own test vector, word by word. */
  lemma DigestOfAbc(i: nat)
    requires i < 8
    ensures BigEndian(Digest(Sha256, ABC)[4 * i..4 * i + 4]) == ABC_DIGEST[i] as int
  {
    PaddedAbc();
    hide Pad, InitialState, Block, BigEndian, Digest, Sha256Compress, ABC, ABC_DIGEST;
    Compressed(Pad(ABC));
    FoldBlock(Sha256, InitialState(Sha256), Pad(ABC));
    DigestWords(Sha256, ABC, i);
  }
}
