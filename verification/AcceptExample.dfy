/**
 The worked example of RFC 6455, section 1.3, which is also the client's own test vector: what the relay has to answer
 to the key `dGhlIHNhbXBsZSBub25jZQ==`.  SHA-1 runs over two blocks here, so every round and constant takes part.
 */
module AcceptExample {
  import opened Bytes
  import opened CText
  import opened ShaBlocks
  import opened HashStream
  import opened Handshake
  import Base64

  const KEY := "dGhlIHNhbXBsZSBub25jZQ=="
  const FIRST := Five(0x67452301, 0xefcdab89, 0x98badcfe, 0x10325476, 0xc3d2e1f0)
  const SECOND := Five(0x5bcf7727, 0x7327416a, 0xbe7bfbf9, 0x5a781878, 0x5e46a4e2)

  /** Four rounds with their words. */
  function Four(s: Five, t: nat, w: word, x: word, y: word, z: word): Five {
    Round1(Round1(Round1(Round1(s, t, w), t + 1, x), t + 2, y), t + 3, z)
  }

  lemma FourRounds(h: Five, p: seq<byte>, t: nat)
    requires |p| == 64
    ensures Rounds1(h, p, t + 4) == Four(Rounds1(h, p, t), t, W1(p, t), W1(p, t + 1), W1(p, t + 2), W1(p, t + 3))
  {
    hide W1, Round1;
    assert Rounds1(h, p, t + 2) == Round1(Rounds1(h, p, t + 1), t + 1, W1(p, t + 1));
    assert Rounds1(h, p, t + 3) == Round1(Rounds1(h, p, t + 2), t + 2, W1(p, t + 2));
  }

  // ---- the first block ----

  predicate BlockOne(p: seq<byte>) {
    |p| == 64
    && WordAt(p, 0) == 0x6447686c && WordAt(p, 1) == 0x49484e68
    && WordAt(p, 2) == 0x62584273 && WordAt(p, 3) == 0x5a534275
    && WordAt(p, 4) == 0x6232356a && WordAt(p, 5) == 0x5a513d3d
    && WordAt(p, 6) == 0x32353845 && WordAt(p, 7) == 0x41464135
    && WordAt(p, 8) == 0x2d453931 && WordAt(p, 9) == 0x342d3437
    && WordAt(p, 10) == 0x44412d39 && WordAt(p, 11) == 0x3543412d
    && WordAt(p, 12) == 0x43354142 && WordAt(p, 13) == 0x30444338
    && WordAt(p, 14) == 0x35423131 && WordAt(p, 15) == 0x80000000
  }

  lemma WordsOne16(p: seq<byte>)
    requires |p| == 64 && BlockOne(p)
    ensures W1(p, 0) == 0x6447686c && W1(p, 1) == 0x49484e68 && W1(p, 2) == 0x62584273 && W1(p, 3) == 0x5a534275
            && W1(p, 4) == 0x6232356a && W1(p, 5) == 0x5a513d3d && W1(p, 6) == 0x32353845 && W1(p, 7) == 0x41464135
            && W1(p, 8) == 0x2d453931 && W1(p, 9) == 0x342d3437 && W1(p, 10) == 0x44412d39 && W1(p, 11) == 0x3543412d
            && W1(p, 12) == 0x43354142 && W1(p, 13) == 0x30444338 && W1(p, 14) == 0x35423131 && W1(p, 15) == 0x80000000
  {
    hide WordAt;
  }

  lemma WordsOne32(p: seq<byte>)
    requires |p| == 64 && BlockOne(p)
    ensures W1(p, 16) == 0x363ca02c && W1(p, 17) == 0x24e81236 && W1(p, 18) == 0x8856b441 && W1(p, 19) == 0x06fb3c92
            && W1(p, 20) == 0x6fb4bcb6 && W1(p, 21) == 0x460b16e3 && W1(p, 22) == 0x599219ae && W1(p, 23) == 0x35bf9369
            && W1(p, 24) == 0x3267458e && W1(p, 25) == 0xf828fd04 && W1(p, 26) == 0x753a96a7 && W1(p, 27) == 0x6336f612
            && W1(p, 28) == 0xc3d66383 && W1(p, 29) == 0x06eb86f9 && W1(p, 30) == 0x73b4fd42 && W1(p, 31) == 0xa503c5b8
  {
    hide WordAt, BlockOne;
    WordsOne16(p);
  }

  lemma WordsOne48(p: seq<byte>)
    requires |p| == 64 && BlockOne(p)
    ensures W1(p, 32) == 0x15cdae35 && W1(p, 33) == 0x531e5dc5 && W1(p, 34) == 0x6fb6b7d0 && W1(p, 35) == 0x6c16e4ac
            && W1(p, 36) == 0x4ddd36bd && W1(p, 37) == 0x35d36946 && W1(p, 38) == 0xe8ae8b9c && W1(p, 39) == 0x4a933ad0
            && W1(p, 40) == 0xce8628b4 && W1(p, 41) == 0x415dba9e && W1(p, 42) == 0x2792f049 && W1(p, 43) == 0x8e9b79e7
            && W1(p, 44) == 0x79c425c5 && W1(p, 45) == 0x6353b49d && W1(p, 46) == 0x00994218 && W1(p, 47) == 0x8a950ed1
  {
    hide WordAt, BlockOne;
    WordsOne32(p);
  }

  lemma WordsOne64(p: seq<byte>)
    requires |p| == 64 && BlockOne(p)
    ensures W1(p, 48) == 0xaf5d0b99 && W1(p, 49) == 0xfd9883de && W1(p, 50) == 0x1ed8ffeb && W1(p, 51) == 0xf007ff28
            && W1(p, 52) == 0x425e3674 && W1(p, 53) == 0x059631c0 && W1(p, 54) == 0xad6c3c31 && W1(p, 55) == 0x860b71d7
            && W1(p, 56) == 0x87bfc548 && W1(p, 57) == 0x3e64f92d && W1(p, 58) == 0x8d0ab761 && W1(p, 59) == 0x34e1ee35
            && W1(p, 60) == 0x0acf5108 && W1(p, 61) == 0xc2b479da && W1(p, 62) == 0x6c93370a && W1(p, 63) == 0xf7935ba1
  {
    hide WordAt, BlockOne;
    WordsOne48(p);
  }

  lemma WordsOne80(p: seq<byte>)
    requires |p| == 64 && BlockOne(p)
    ensures W1(p, 64) == 0xe91c91c1 && W1(p, 65) == 0xbed165a2 && W1(p, 66) == 0x4c3e4abe && W1(p, 67) == 0x50d96238
            && W1(p, 68) == 0xb6587dde && W1(p, 69) == 0x1a2ee6e6 && W1(p, 70) == 0x2d335896 && W1(p, 71) == 0xf3495d0b
            && W1(p, 72) == 0xf30e0a1d && W1(p, 73) == 0x32ce5459 && W1(p, 74) == 0x7165e3b8 && W1(p, 75) == 0xab05ff94
            && W1(p, 76) == 0xc5949f0b && W1(p, 77) == 0xbcd84e4a && W1(p, 78) == 0x07720392 && W1(p, 79) == 0xff3ff806
  {
    hide WordAt, BlockOne;
    WordsOne64(p);
  }

  lemma One40()
    ensures Four(Five(0x67452301, 0xefcdab89, 0x98badcfe, 0x10325476, 0xc3d2e1f0), 0,
                    0x6447686c, 0x49484e68, 0x62584273, 0x5a534275)
               == Five(0x53e039ac, 0xbe90ee8f, 0x4bde4fd5, 0xc0ff0047, 0x59d148c0)
            && Four(Five(0x53e039ac, 0xbe90ee8f, 0x4bde4fd5, 0xc0ff0047, 0x59d148c0), 4,
                    0x6232356a, 0x5a513d3d, 0x32353845, 0x41464135)
               == Five(0x2e0ce601, 0x73553e84, 0x5cc82e5a, 0xb7631f04, 0x14f80e6b)
            && Four(Five(0x2e0ce601, 0x73553e84, 0x5cc82e5a, 0xb7631f04, 0x14f80e6b), 8,
                    0x2d453931, 0x342d3437, 0x44412d39, 0x3543412d)
               == Five(0x34ceb986, 0x5ff4238c, 0x7eab499d, 0x8cafac16, 0x4b833980)
            && Four(Five(0x34ceb986, 0x5ff4238c, 0x7eab499d, 0x8cafac16, 0x4b833980), 12,
                    0x43354142, 0x30444338, 0x35423131, 0x80000000)
               == Five(0xa004c468, 0xe922cc9d, 0xab86825b, 0xd86f6caf, 0x8d33ae61)
            && Four(Five(0xa004c468, 0xe922cc9d, 0xab86825b, 0xd86f6caf, 0x8d33ae61), 16,
                    0x363ca02c, 0x24e81236, 0x8856b441, 0x06fb3c92)
               == Five(0x091ab97c, 0x8dc510b6, 0xdfaeca5a, 0x75f6bd5d, 0x2801311a)
            && Four(Five(0x091ab97c, 0x8dc510b6, 0xdfaeca5a, 0x75f6bd5d, 0x2801311a), 20,
                    0x6fb4bcb6, 0x460b16e3, 0x599219ae, 0x35bf9369)
               == Five(0x250e26ef, 0xbeafd554, 0xb44bc2d5, 0xd4611c28, 0x0246ae5f)
            && Four(Five(0x250e26ef, 0xbeafd554, 0xb44bc2d5, 0xd4611c28, 0x0246ae5f), 24,
                    0x3267458e, 0xf828fd04, 0x753a96a7, 0x6336f612)
               == Five(0x571f7d82, 0xef012f20, 0x1d22ce68, 0xc8f47246, 0xc94389bb)
            && Four(Five(0x571f7d82, 0xef012f20, 0x1d22ce68, 0xc8f47246, 0xc94389bb), 28,
                    0xc3d66383, 0x06eb86f9, 0x73b4fd42, 0xa503c5b8)
               == Five(0xa6680a1f, 0xb7dabc8b, 0x4206d8f9, 0xc6aec70d, 0x95c7df60)
            && Four(Five(0xa6680a1f, 0xb7dabc8b, 0x4206d8f9, 0xc6aec70d, 0x95c7df60), 32,
                    0x15cdae35, 0x531e5dc5, 0x6fb6b7d0, 0x6c16e4ac)
               == Five(0x9de793c8, 0x149bb4d3, 0xbbaae8d6, 0x46b8d82a, 0xe99a0287)
            && Four(Five(0x9de793c8, 0x149bb4d3, 0xbbaae8d6, 0x46b8d82a, 0xe99a0287), 36,
                    0x4ddd36bd, 0x35d36946, 0xe8ae8b9c, 0x4a933ad0)
               == Five(0x2ba2c83e, 0xd0869081, 0x1a1d8209, 0xd3334889, 0x2779e4f2)
  {
  }

  lemma One80()
    ensures Four(Five(0x2ba2c83e, 0xd0869081, 0x1a1d8209, 0xd3334889, 0x2779e4f2), 40,
                    0xce8628b4, 0x415dba9e, 0x2792f049, 0x8e9b79e7)
               == Five(0x6dc6a3d7, 0x868829b7, 0x13d62691, 0x32e314b4, 0x8ae8b20f)
            && Four(Five(0x6dc6a3d7, 0x868829b7, 0x13d62691, 0x32e314b4, 0x8ae8b20f), 44,
                    0x79c425c5, 0x6353b49d, 0x00994218, 0x8a950ed1)
               == Five(0xabe1748a, 0xdee4b7a8, 0x5cbfccd3, 0x97d7cd14, 0xdb71a8f5)
            && Four(Five(0xabe1748a, 0xdee4b7a8, 0x5cbfccd3, 0x97d7cd14, 0xdb71a8f5), 48,
                    0xaf5d0b99, 0xfd9883de, 0x1ed8ffeb, 0xf007ff28)
               == Five(0x10e7f671, 0x0e5d77c4, 0x8197e121, 0xdd443413, 0xaaf85d22)
            && Four(Five(0x10e7f671, 0x0e5d77c4, 0x8197e121, 0xdd443413, 0xaaf85d22), 52,
                    0x425e3674, 0x059631c0, 0xad6c3c31, 0x860b71d7)
               == Five(0x7e1242f2, 0x50c9104c, 0x131822b1, 0x49b1a4e5, 0x4439fd9c)
            && Four(Five(0x7e1242f2, 0x50c9104c, 0x131822b1, 0x49b1a4e5, 0x4439fd9c), 56,
                    0x87bfc548, 0x3e64f92d, 0x8d0ab761, 0x34e1ee35)
               == Five(0x4872d85a, 0xd284f163, 0x83091f0b, 0x1bbdbfbd, 0x9f8490bc)
            && Four(Five(0x4872d85a, 0xd284f163, 0x83091f0b, 0x1bbdbfbd, 0x9f8490bc), 60,
                    0x0acf5108, 0xc2b479da, 0x6c93370a, 0xf7935ba1)
               == Five(0x685e2ff6, 0x840054d3, 0xe43c0363, 0x3350802e, 0x921cb616)
            && Four(Five(0x685e2ff6, 0x840054d3, 0xe43c0363, 0x3350802e, 0x921cb616), 64,
                    0xe91c91c1, 0xbed165a2, 0x4c3e4abe, 0x50d96238)
               == Five(0xcf8658ec, 0x53131a40, 0xf0f0b916, 0x2933b806, 0x9a178bfd)
            && Four(Five(0xcf8658ec, 0x53131a40, 0xf0f0b916, 0x2933b806, 0x9a178bfd), 68,
                    0xb6587dde, 0x1a2ee6e6, 0x2d335896, 0xf3495d0b)
               == Five(0x7e65e044, 0x80d59773, 0x81ce06df, 0xa59b8126, 0x33e1963b)
            && Four(Five(0x7e65e044, 0x80d59773, 0x81ce06df, 0xa59b8126, 0x33e1963b), 72,
                    0xf30e0a1d, 0x32ce5459, 0x7165e3b8, 0xab05ff94)
               == Five(0x69cf0bca, 0xe20983f9, 0x050ea0e2, 0xd8a39ed1, 0x1f997811)
            && Four(Five(0x69cf0bca, 0xe20983f9, 0x050ea0e2, 0xd8a39ed1, 0x1f997811), 76,
                    0xc5949f0b, 0xbcd84e4a, 0x07720392, 0xff3ff806)
               == Five(0xf48a5426, 0x835995e1, 0x25c11efb, 0x4a45c402, 0x9a73c2f2)
  {
  }

  lemma One0(p: seq<byte>)
    requires |p| == 64
    ensures Rounds1(FIRST, p, 0)
         == Five(0x67452301, 0xefcdab89, 0x98badcfe, 0x10325476, 0xc3d2e1f0)
  {
  }

  lemma OneTo40(p: seq<byte>)
    requires |p| == 64 && BlockOne(p)
    ensures Rounds1(FIRST, p, 40) == Five(0x2ba2c83e, 0xd0869081, 0x1a1d8209, 0xd3334889, 0x2779e4f2)
  {
    hide WordAt, W1, Rounds1, Four, BlockOne, FIRST;
    One0(p);
    WordsOne16(p);
    WordsOne32(p);
    WordsOne48(p);
    One40();
    FourRounds(FIRST, p, 0);
    FourRounds(FIRST, p, 4);
    FourRounds(FIRST, p, 8);
    FourRounds(FIRST, p, 12);
    FourRounds(FIRST, p, 16);
    FourRounds(FIRST, p, 20);
    FourRounds(FIRST, p, 24);
    FourRounds(FIRST, p, 28);
    FourRounds(FIRST, p, 32);
    FourRounds(FIRST, p, 36);
  }

  lemma OneRounds(p: seq<byte>)
    requires |p| == 64 && BlockOne(p)
    ensures Rounds1(FIRST, p, 80) == Five(0xf48a5426, 0x835995e1, 0x25c11efb, 0x4a45c402, 0x9a73c2f2)
  {
    hide WordAt, W1, Rounds1, Four, BlockOne, FIRST;
    OneTo40(p);
    WordsOne48(p);
    WordsOne64(p);
    WordsOne80(p);
    One80();
    FourRounds(FIRST, p, 40);
    FourRounds(FIRST, p, 44);
    FourRounds(FIRST, p, 48);
    FourRounds(FIRST, p, 52);
    FourRounds(FIRST, p, 56);
    FourRounds(FIRST, p, 60);
    FourRounds(FIRST, p, 64);
    FourRounds(FIRST, p, 68);
    FourRounds(FIRST, p, 72);
    FourRounds(FIRST, p, 76);
  }

  // ---- the second block ----

  predicate BlockTwo(p: seq<byte>) {
    |p| == 64
    && WordAt(p, 0) == 0 && WordAt(p, 1) == 0
    && WordAt(p, 2) == 0 && WordAt(p, 3) == 0
    && WordAt(p, 4) == 0 && WordAt(p, 5) == 0
    && WordAt(p, 6) == 0 && WordAt(p, 7) == 0
    && WordAt(p, 8) == 0 && WordAt(p, 9) == 0
    && WordAt(p, 10) == 0 && WordAt(p, 11) == 0
    && WordAt(p, 12) == 0 && WordAt(p, 13) == 0
    && WordAt(p, 14) == 0 && WordAt(p, 15) == 0x000001e0
  }

  lemma WordsTwo16(p: seq<byte>)
    requires |p| == 64 && BlockTwo(p)
    ensures W1(p, 0) == 0 && W1(p, 1) == 0 && W1(p, 2) == 0 && W1(p, 3) == 0
            && W1(p, 4) == 0 && W1(p, 5) == 0 && W1(p, 6) == 0 && W1(p, 7) == 0
            && W1(p, 8) == 0 && W1(p, 9) == 0 && W1(p, 10) == 0 && W1(p, 11) == 0
            && W1(p, 12) == 0 && W1(p, 13) == 0 && W1(p, 14) == 0 && W1(p, 15) == 0x000001e0
  {
    hide WordAt;
  }

  lemma WordsTwo32(p: seq<byte>)
    requires |p| == 64 && BlockTwo(p)
    ensures W1(p, 16) == 0 && W1(p, 17) == 0 && W1(p, 18) == 0x000003c0 && W1(p, 19) == 0
            && W1(p, 20) == 0 && W1(p, 21) == 0x00000780 && W1(p, 22) == 0 && W1(p, 23) == 0x000003c0
            && W1(p, 24) == 0x00000f00 && W1(p, 25) == 0 && W1(p, 26) == 0 && W1(p, 27) == 0x00001e00
            && W1(p, 28) == 0 && W1(p, 29) == 0x00000cc0 && W1(p, 30) == 0x00003c00 && W1(p, 31) == 0x00000440
  {
    hide WordAt, BlockTwo;
    WordsTwo16(p);
  }

  lemma WordsTwo48(p: seq<byte>)
    requires |p| == 64 && BlockTwo(p)
    ensures W1(p, 32) == 0 && W1(p, 33) == 0x00007800 && W1(p, 34) == 0x00000f00 && W1(p, 35) == 0x00003300
            && W1(p, 36) == 0x0000f000 && W1(p, 37) == 0x00000f00 && W1(p, 38) == 0 && W1(p, 39) == 0x0001ef00
            && W1(p, 40) == 0 && W1(p, 41) == 0x0000cc00 && W1(p, 42) == 0x0003c000 && W1(p, 43) == 0x00004380
            && W1(p, 44) == 0 && W1(p, 45) == 0x00078f00 && W1(p, 46) == 0x0000ff00 && W1(p, 47) == 0x00032680
  {
    hide WordAt, BlockTwo;
    WordsTwo32(p);
  }

  lemma WordsTwo64(p: seq<byte>)
    requires |p| == 64 && BlockTwo(p)
    ensures W1(p, 48) == 0x000f0000 && W1(p, 49) == 0x0000f000 && W1(p, 50) == 0x00003300 && W1(p, 51) == 0x001eff00
            && W1(p, 52) == 0 && W1(p, 53) == 0x000cb800 && W1(p, 54) == 0x003c0000 && W1(p, 55) == 0x00040b00
            && W1(p, 56) == 0x0000f000 && W1(p, 57) == 0x0078ff00 && W1(p, 58) == 0x000ff000 && W1(p, 59) == 0x00338700
            && W1(p, 60) == 0x00f00000 && W1(p, 61) == 0x000fc300 && W1(p, 62) == 0x0000f000 && W1(p, 63) == 0x01efbb00
  {
    hide WordAt, BlockTwo;
    WordsTwo48(p);
  }

  lemma WordsTwo80(p: seq<byte>)
    requires |p| == 64 && BlockTwo(p)
    ensures W1(p, 64) == 0 && W1(p, 65) == 0x00cc0000 && W1(p, 66) == 0x03c0f000 && W1(p, 67) == 0x00438000
            && W1(p, 68) == 0 && W1(p, 69) == 0x078f0000 && W1(p, 70) == 0x00ff0000 && W1(p, 71) == 0x03269e00
            && W1(p, 72) == 0x0f000000 && W1(p, 73) == 0x00f0f000 && W1(p, 74) == 0x00333c00 && W1(p, 75) == 0x1eff8800
            && W1(p, 76) == 0 && W1(p, 77) == 0x0cb88800 && W1(p, 78) == 0x3c00f000 && W1(p, 79) == 0x040a4a00
  {
    hide WordAt, BlockTwo;
    WordsTwo64(p);
  }

  lemma Two40()
    ensures Four(Five(0x5bcf7727, 0x7327416a, 0xbe7bfbf9, 0x5a781878, 0x5e46a4e2), 0,
                    0, 0, 0, 0)
               == Five(0x15855523, 0xf9fb295d, 0x061801ae, 0x9b4cd737, 0xd6f3ddc9)
            && Four(Five(0x15855523, 0xf9fb295d, 0x061801ae, 0x9b4cd737, 0xd6f3ddc9), 4,
                    0, 0, 0, 0)
               == Five(0x25c018be, 0xb3bbcafe, 0xe4e97bee, 0xb90f74bc, 0xc5615548)
            && Four(Five(0x25c018be, 0xb3bbcafe, 0xe4e97bee, 0xb90f74bc, 0xc5615548), 8,
                    0, 0, 0, 0)
               == Five(0x250601ad, 0x4ce92417, 0xc2c20530, 0xe0251964, 0x8970062f)
            && Four(Five(0x250601ad, 0x4ce92417, 0xc2c20530, 0xe0251964, 0x8970062f), 12,
                    0, 0, 0, 0x000001e0)
               == Five(0x986df268, 0x990b7be7, 0xab50fce7, 0x195db4b7, 0x4941806b)
            && Four(Five(0x986df268, 0x990b7be7, 0xab50fce7, 0x195db4b7, 0x4941806b), 16,
                    0, 0, 0x000003c0, 0)
               == Five(0x2a008b51, 0x2f193a09, 0x9c8663c1, 0x8eb5d103, 0x261b7c9a)
            && Four(Five(0x2a008b51, 0x2f193a09, 0x9c8663c1, 0x8eb5d103, 0x261b7c9a), 20,
                    0, 0x00000780, 0, 0x000003c0)
               == Five(0x53c73650, 0x3e5179e7, 0x103ef3e6, 0xc48c56ca, 0x4a8022d4)
            && Four(Five(0x53c73650, 0x3e5179e7, 0x103ef3e6, 0xc48c56ca, 0x4a8022d4), 24,
                    0x00000f00, 0, 0, 0x00001e00)
               == Five(0x9327df6f, 0xd2e726da, 0x591b19df, 0x87493112, 0x14f1cd94)
            && Four(Five(0x9327df6f, 0xd2e726da, 0x591b19df, 0x87493112, 0x14f1cd94), 28,
                    0, 0x00000cc0, 0x00003c00, 0x00000440)
               == Five(0x3cf6eb58, 0xf4ddd7b7, 0xc90fb815, 0xbd5f2d4f, 0xe4c9f7db)
            && Four(Five(0x3cf6eb58, 0xf4ddd7b7, 0xc90fb815, 0xbd5f2d4f, 0xe4c9f7db), 32,
                    0, 0x00007800, 0x00000f00, 0x00003300)
               == Five(0x76922a14, 0x942ac4d3, 0xa5b67967, 0x1cc3a45c, 0x0f3dbad6)
            && Four(Five(0x76922a14, 0x942ac4d3, 0xa5b67967, 0x1cc3a45c, 0x0f3dbad6), 36,
                    0x0000f000, 0x00000f00, 0, 0x0001ef00)
               == Five(0x6f698f1a, 0xc6ff0cd3, 0xde5ab7bc, 0x5f6f3cbb, 0x1da48a85)
  {
  }

  lemma Two80()
    ensures Four(Five(0x6f698f1a, 0xc6ff0cd3, 0xde5ab7bc, 0x5f6f3cbb, 0x1da48a85), 40,
                    0, 0x0000cc00, 0x0003c000, 0x00004380)
               == Five(0x1e934acf, 0xedfcd85b, 0xbf0d0e80, 0x5e1c59da, 0x9bda63c6)
            && Four(Five(0x1e934acf, 0xedfcd85b, 0xbf0d0e80, 0x5e1c59da, 0x9bda63c6), 44,
                    0, 0x00078f00, 0x0000ff00, 0x00032680)
               == Five(0xa3ef857e, 0xc8cda3da, 0xcef6480e, 0xff1ef4d7, 0xc7a4d2b3)
            && Four(Five(0xa3ef857e, 0xc8cda3da, 0xcef6480e, 0xff1ef4d7, 0xc7a4d2b3), 48,
                    0x000f0000, 0x0000f000, 0x00003300, 0x001eff00)
               == Five(0x5fe2a3db, 0xa3abe4f5, 0x6945bc99, 0x68e7c810, 0xa8fbe15f)
            && Four(Five(0x5fe2a3db, 0xa3abe4f5, 0x6945bc99, 0x68e7c810, 0xa8fbe15f), 52,
                    0, 0x000cb800, 0x003c0000, 0x00040b00)
               == Five(0xa1b68141, 0x660dd0b1, 0x0b1cef5e, 0xe795018d, 0xd7f8a8f6)
            && Four(Five(0xa1b68141, 0x660dd0b1, 0x0b1cef5e, 0xe795018d, 0xd7f8a8f6), 56,
                    0x0000f000, 0x0078ff00, 0x000ff000, 0x00338700)
               == Five(0x56119f19, 0x085eb2fe, 0x484a25c5, 0xc140cfe8, 0x686da050)
            && Four(Five(0x56119f19, 0x085eb2fe, 0x484a25c5, 0xc140cfe8, 0x686da050), 60,
                    0x00f00000, 0x000fc300, 0x0000f000, 0x01efbb00)
               == Five(0xa5937450, 0xd5ef1ed7, 0xc444cbe3, 0xddd22788, 0x558467c6)
            && Four(Five(0xa5937450, 0xd5ef1ed7, 0xc444cbe3, 0xddd22788, 0x558467c6), 64,
                    0, 0x00cc0000, 0x03c0f000, 0x00438000)
               == Five(0x097a511c, 0xc97f1968, 0xc5e88bbd, 0x27b3e99b, 0x2964dd14)
            && Four(Five(0x097a511c, 0xc97f1968, 0xc5e88bbd, 0x27b3e99b, 0x2964dd14), 68,
                    0, 0x078f0000, 0x00ff0000, 0x03269e00)
               == Five(0xc90888ca, 0xf6d1afee, 0x6fce9fe5, 0x538d8f6e, 0x025e9447)
            && Four(Five(0xc90888ca, 0xf6d1afee, 0x6fce9fe5, 0x538d8f6e, 0x025e9447), 72,
                    0x0f000000, 0x00f0f000, 0x00333c00, 0x1eff8800)
               == Five(0x51e08021, 0xe22b36d1, 0x09be6664, 0xf1d94bb6, 0xb2422232)
            && Four(Five(0x51e08021, 0xe22b36d1, 0x09be6664, 0xf1d94bb6, 0xb2422232), 76,
                    0, 0x0cb88800, 0x3c00f000, 0x040a4a00)
               == Five(0x57aad805, 0x4d3b0dac, 0xd27a4a0d, 0x74c040cd, 0x54782008)
  {
  }

  lemma Two0(p: seq<byte>)
    requires |p| == 64
    ensures Rounds1(SECOND, p, 0)
         == Five(0x5bcf7727, 0x7327416a, 0xbe7bfbf9, 0x5a781878, 0x5e46a4e2)
  {
  }

  lemma TwoTo40(p: seq<byte>)
    requires |p| == 64 && BlockTwo(p)
    ensures Rounds1(SECOND, p, 40) == Five(0x6f698f1a, 0xc6ff0cd3, 0xde5ab7bc, 0x5f6f3cbb, 0x1da48a85)
  {
    hide WordAt, W1, Rounds1, Four, BlockTwo, SECOND;
    Two0(p);
    WordsTwo16(p);
    WordsTwo32(p);
    WordsTwo48(p);
    Two40();
    FourRounds(SECOND, p, 0);
    FourRounds(SECOND, p, 4);
    FourRounds(SECOND, p, 8);
    FourRounds(SECOND, p, 12);
    FourRounds(SECOND, p, 16);
    FourRounds(SECOND, p, 20);
    FourRounds(SECOND, p, 24);
    FourRounds(SECOND, p, 28);
    FourRounds(SECOND, p, 32);
    FourRounds(SECOND, p, 36);
  }

  lemma TwoRounds(p: seq<byte>)
    requires |p| == 64 && BlockTwo(p)
    ensures Rounds1(SECOND, p, 80) == Five(0x57aad805, 0x4d3b0dac, 0xd27a4a0d, 0x74c040cd, 0x54782008)
  {
    hide WordAt, W1, Rounds1, Four, BlockTwo, SECOND;
    TwoTo40(p);
    WordsTwo48(p);
    WordsTwo64(p);
    WordsTwo80(p);
    Two80();
    FourRounds(SECOND, p, 40);
    FourRounds(SECOND, p, 44);
    FourRounds(SECOND, p, 48);
    FourRounds(SECOND, p, 52);
    FourRounds(SECOND, p, 56);
    FourRounds(SECOND, p, 60);
    FourRounds(SECOND, p, 64);
    FourRounds(SECOND, p, 68);
    FourRounds(SECOND, p, 72);
    FourRounds(SECOND, p, 76);
  }

  // ---- the digest ----

  lemma Compressed(h: Five, p: seq<byte>)
    requires |p| == 64
    ensures var s := Rounds1(h, p, 80);
            Sha1Compress([h.a, h.b, h.c, h.d, h.e], p)
            == [Add(h.a, s.a), Add(h.b, s.b), Add(h.c, s.c), Add(h.d, s.d), Add(h.e, s.e)]
  {
    hide Rounds1, Add;
  }

  const AFTER_ONE: seq<word> := [0x5bcf7727, 0x7327416a, 0xbe7bfbf9, 0x5a781878, 0x5e46a4e2]
  const AFTER_TWO: seq<word> := [0xb37a4f2c, 0xc0624f16, 0x90f64606, 0xcf385945, 0xb2bec4ea]

  lemma FirstBlock(p: seq<byte>)
    requires BlockOne(p)
    ensures Sha1Compress(InitialState(Sha1), p) == AFTER_ONE
  {
    OneRounds(p);
    hide Rounds1, BlockOne, Sha1Compress;
    Compressed(FIRST, p);
  }

  lemma SecondBlock(p: seq<byte>)
    requires BlockTwo(p)
    ensures Sha1Compress(AFTER_ONE, p) == AFTER_TWO
  {
    TwoRounds(p);
    hide Rounds1, BlockTwo, Sha1Compress;
    Compressed(SECOND, p);
  }

  // ---- the padded message ----

  /** Key and identifier, four characters to a word. */
  const QUADS: seq<string> := ["dGhl", "IHNh", "bXBs", "ZSBu", "b25j",
                               "ZQ==", "258E", "AFA5", "-E91", "4-47",
                               "DA-9", "5CA-", "C5AB", "0DC8", "5B11"]

  predicate Fours(qs: seq<string>) { forall i :: 0 <= i < |qs| ==> |qs[i]| == 4 }

  lemma {:induction false} FlattenAt(qs: seq<string>, t: nat, k: nat)
    requires Fours(qs) && t < |qs| && k < 4
    ensures |Flatten(qs)| == 4 * |qs| && Flatten(qs)[4 * t + k] == qs[t][k]
  {
    FlattenFours(qs);
    FlattenFours(qs[1..]);
    if t > 0 { FlattenAt(qs[1..], t - 1, k); }
  }

  lemma {:induction false} FlattenFours(qs: seq<string>)
    requires Fours(qs)
    ensures |Flatten(qs)| == 4 * |qs|
  {
    if qs != [] { FlattenFours(qs[1..]); }
  }

  lemma FlattenThree(a: string, b: string, c: string)
    ensures Flatten([a, b, c]) == a + (b + c)
  {
    assert [a, b, c][1..] == [b, c] && [b, c][1..] == [c] && [c][1..] == [] && c + "" == c;
    assert Flatten([c]) == c + Flatten([]) && Flatten([b, c]) == b + Flatten([c]);
  }

  lemma Triples()
    ensures Flatten(["dGhl", "IHNh", "bXBs"]) == "dGhlIHNhbXBs"
            && Flatten(["ZSBu", "b25j", "ZQ=="]) == "ZSBub25jZQ=="
            && Flatten(["258E", "AFA5", "-E91"]) == "258EAFA5-E91"
            && Flatten(["4-47", "DA-9", "5CA-"]) == "4-47DA-95CA-"
            && Flatten(["C5AB", "0DC8", "5B11"]) == "C5AB0DC85B11"
  {
    FlattenThree("dGhl", "IHNh", "bXBs");
    FlattenThree("ZSBu", "b25j", "ZQ==");
    FlattenThree("258E", "AFA5", "-E91");
    FlattenThree("4-47", "DA-9", "5CA-");
    FlattenThree("C5AB", "0DC8", "5B11");
  }

  lemma KeyText()
    ensures Flatten(["dGhl", "IHNh", "bXBs"] + ["ZSBu", "b25j", "ZQ=="]) == KEY
  {
    Triples();
    hide Flatten;
    FlattenAppend(["dGhl", "IHNh", "bXBs"], ["ZSBu", "b25j", "ZQ=="]);
    assert "dGhlIHNhbXBs" + "ZSBub25jZQ==" == KEY;
  }

  lemma GuidText()
    ensures Flatten(["258E", "AFA5", "-E91"] + (["4-47", "DA-9", "5CA-"] + ["C5AB", "0DC8", "5B11"])) == GUID
  {
    Triples();
    hide Flatten;
    var c, d, e := ["258E", "AFA5", "-E91"], ["4-47", "DA-9", "5CA-"], ["C5AB", "0DC8", "5B11"];
    FlattenAppend(d, e);
    FlattenAppend(c, d + e);
    assert "258EAFA5-E91" + ("4-47DA-95CA-" + "C5AB0DC85B11") == GUID;
  }

  lemma MessageText()
    ensures Flatten(QUADS) == KEY + GUID
  {
    KeyText();
    GuidText();
    var key := ["dGhl", "IHNh", "bXBs"] + ["ZSBu", "b25j", "ZQ=="];
    var guid := ["258E", "AFA5", "-E91"] + (["4-47", "DA-9", "5CA-"] + ["C5AB", "0DC8", "5B11"]);
    assert QUADS == key + guid;
    hide Flatten, QUADS, KEY, GUID;
    FlattenAppend(key, guid);
  }

  function Message(): seq<byte> { Octets(KEY + GUID) }

  lemma MessageOctet(t: nat, k: nat)
    requires t < 15 && k < 4 && |QUADS[t]| == 4 && QUADS[t][k] as int < 256
    ensures |Message()| == 60 && Message()[4 * t + k] == QUADS[t][k] as int
  {
    MessageText();
    QuadsAreFours();
    hide QUADS, KEY, GUID, Flatten;
    FlattenAt(QUADS, t, k);
    FlattenFours(QUADS);
    OctetOf(KEY + GUID, 4 * t + k);
  }

  lemma OctetOf(s: string, i: nat)
    requires i < |s| && s[i] as int < 256
    ensures |Octets(s)| == |s| && Octets(s)[i] == s[i] as int
  {
  }

  lemma QuadsAreFours()
    ensures Fours(QUADS) && |QUADS| == 15
  {
  }

  lemma LengthOctets()
    ensures BitLength(60) == [0, 0, 0, 0, 0, 0, 1, 0xe0]
  {
    assert Octet(480, 0) == 0xe0 && Octet(480, 1) == Octet(1, 0) == 1;
    assert Octet(480, 2) == Octet(1, 1) == Octet(0, 0) && Octet(480, 3) == Octet(1, 2) == Octet(0, 1) == Octet(0, 0);
    assert Octet(0, 2) == Octet(0, 1) && Octet(0, 3) == Octet(0, 2);
  }

  lemma Padded()
    ensures |Message()| == 60 && |Pad(Message())| == 128
    ensures var p := Pad(Message());
            && p[..60] == Message() && p[60] == 0x80 && p[126] == 1 && p[127] == 0xe0
            && forall i :: 61 <= i < 126 ==> p[i] == 0
  {
    MessageOctet(0, 0);
    PadFits(60);
    LengthOctets();
    hide Message, BitLength;
    var z := Zeros(59);
    assert Pad(Message()) == Message() + [0x80] + z + BitLength(60);
  }

  lemma MessageWord(t: nat, q: string, w: word)
    requires t < 15 && QUADS[t] == q && |q| == 4
    requires q[0] as int < 256 && q[1] as int < 256 && q[2] as int < 256 && q[3] as int < 256
    requires w as int == q[0] as int * 0x100_0000 + q[1] as int * 0x1_0000 + q[2] as int * 0x100 + q[3] as int
    ensures |Pad(Message())| == 128 && WordAt(Pad(Message())[..64], t) == w
  {
    Padded();
    hide Pad, WordAt;
    var p := Pad(Message());
    assert forall i :: 0 <= i < 60 ==> p[..64][i] == p[..60][i];
    MessageOctets(t, q);
    hide Message, QUADS;
    assert p[..60] == Message();
    WordIs(p[..64], t, q[0] as int, q[1] as int, q[2] as int, q[3] as int, w);
  }

  lemma MessageOctets(t: nat, q: string)
    requires t < 15 && QUADS[t] == q && |q| == 4
    requires q[0] as int < 256 && q[1] as int < 256 && q[2] as int < 256 && q[3] as int < 256
    ensures var m := Message();
            && |m| == 60 && m[4 * t] == q[0] as int && m[4 * t + 1] == q[1] as int
            && m[4 * t + 2] == q[2] as int && m[4 * t + 3] == q[3] as int
  {
    hide Message, QUADS;
    MessageOctet(t, 0);
    MessageOctet(t, 1);
    MessageOctet(t, 2);
    MessageOctet(t, 3);
  }

  lemma Quads0()
    ensures |Pad(Message())| == 128
    ensures var p := Pad(Message())[..64];
            && WordAt(p, 0) == 0x6447686c
            && WordAt(p, 1) == 0x49484e68
            && WordAt(p, 2) == 0x62584273
            && WordAt(p, 3) == 0x5a534275
            && WordAt(p, 4) == 0x6232356a
  {
    Padded();
    hide Pad, Message, WordAt;
    MessageWord(0, "dGhl", 0x6447686c);
    MessageWord(1, "IHNh", 0x49484e68);
    MessageWord(2, "bXBs", 0x62584273);
    MessageWord(3, "ZSBu", 0x5a534275);
    MessageWord(4, "b25j", 0x6232356a);
  }

  lemma Quads5()
    ensures |Pad(Message())| == 128
    ensures var p := Pad(Message())[..64];
            && WordAt(p, 5) == 0x5a513d3d
            && WordAt(p, 6) == 0x32353845
            && WordAt(p, 7) == 0x41464135
            && WordAt(p, 8) == 0x2d453931
            && WordAt(p, 9) == 0x342d3437
  {
    Padded();
    hide Pad, Message, WordAt;
    MessageWord(5, "ZQ==", 0x5a513d3d);
    MessageWord(6, "258E", 0x32353845);
    MessageWord(7, "AFA5", 0x41464135);
    MessageWord(8, "-E91", 0x2d453931);
    MessageWord(9, "4-47", 0x342d3437);
  }

  lemma Quads10()
    ensures |Pad(Message())| == 128
    ensures var p := Pad(Message())[..64];
            && WordAt(p, 10) == 0x44412d39
            && WordAt(p, 11) == 0x3543412d
            && WordAt(p, 12) == 0x43354142
            && WordAt(p, 13) == 0x30444338
            && WordAt(p, 14) == 0x35423131
  {
    Padded();
    hide Pad, Message, WordAt;
    MessageWord(10, "DA-9", 0x44412d39);
    MessageWord(11, "5CA-", 0x3543412d);
    MessageWord(12, "C5AB", 0x43354142);
    MessageWord(13, "0DC8", 0x30444338);
    MessageWord(14, "5B11", 0x35423131);
  }

  lemma FirstIsBlock()
    ensures |Pad(Message())| == 128 && BlockOne(Pad(Message())[..64])
  {
    Padded();
    Quads0();
    Quads5();
    Quads10();
    hide Pad, Message, WordAt;
    var p := Pad(Message());
    WordIs(p[..64], 15, 0x80, 0, 0, 0, 0x80000000);
  }

  lemma SecondIsBlock()
    ensures |Pad(Message())| == 128 && BlockTwo(Pad(Message())[64..])
  {
    Padded();
    hide Pad, Message, WordAt;
    var p := Pad(Message());
    forall t: nat | t < 15 ensures WordAt(p[64..], t) == 0 { WordIs(p[64..], t, 0, 0, 0, 0, 0); }
    WordIs(p[64..], 15, 0, 0, 1, 0xe0, 0x000001e0);
  }

  lemma MessageFold()
    ensures Fold(Sha1, InitialState(Sha1), Pad(Message())) == AFTER_TWO
  {
    FirstIsBlock();
    SecondIsBlock();
    hide Pad, Message, BlockOne, BlockTwo, Fold, Sha1Compress, InitialState, AFTER_ONE, AFTER_TWO;
    var p := Pad(Message());
    FirstBlock(p[..64]);
    SecondBlock(p[64..]);
    assert p == p[..64] + p[64..];
    FoldAppend(Sha1, InitialState(Sha1), p[..64], p[64..]);
    FoldBlock(Sha1, InitialState(Sha1), p[..64]);
    FoldBlock(Sha1, AFTER_ONE, p[64..]);
  }

  // ---- the answer ----

  lemma WordOctets(w: word, a: byte, b: byte, c: byte, d: byte)
    requires w as int == a * 0x100_0000 + b * 0x1_0000 + c * 0x100 + d
    ensures WordBytes(w) == [a, b, c, d]
  {
    Split(w as int, a, b, c, d);
    hide Octet;
  }

  lemma Split(v: nat, a: byte, b: byte, c: byte, d: byte)
    requires v == a * 0x100_0000 + b * 0x1_0000 + c * 0x100 + d
    ensures Octet(v, 3) == a && Octet(v, 2) == b && Octet(v, 1) == c && Octet(v, 0) == d
  {
    OctetsOfBe32(a, b, c, d);
    hide Octet;
  }

  const DIGEST: seq<byte> := [0xb3, 0x7a, 0x4f, 0x2c, 0xc0, 0x62, 0x4f, 0x16, 0x90, 0xf6,
                              0x46, 0x06, 0xcf, 0x38, 0x59, 0x45, 0xb2, 0xbe, 0xc4, 0xea]

  lemma DigestOctets()
    ensures StateBytes(AFTER_TWO) == DIGEST
  {
    WordOctets(0xb37a4f2c, 0xb3, 0x7a, 0x4f, 0x2c);
    WordOctets(0xc0624f16, 0xc0, 0x62, 0x4f, 0x16);
    WordOctets(0x90f64606, 0x90, 0xf6, 0x46, 0x06);
    WordOctets(0xcf385945, 0xcf, 0x38, 0x59, 0x45);
    WordOctets(0xb2bec4ea, 0xb2, 0xbe, 0xc4, 0xea);
    hide WordBytes, StateBytes, DIGEST;
    FiveWords(AFTER_TWO);
    DigestParts();
  }

  lemma DigestParts()
    ensures DIGEST == [0xb3, 0x7a, 0x4f, 0x2c] + ([0xc0, 0x62, 0x4f, 0x16]
            + ([0x90, 0xf6, 0x46, 0x06] + ([0xcf, 0x38, 0x59, 0x45]
            + ([0xb2, 0xbe, 0xc4, 0xea]))))
  {
  }


  lemma FiveWords(h: seq<word>)
    requires |h| == 5
    ensures StateBytes(h)
         == WordBytes(h[0]) + (WordBytes(h[1]) + (WordBytes(h[2]) + (WordBytes(h[3]) + WordBytes(h[4]))))
  {
    hide WordBytes;
    assert h[1..][1..] == h[2..] && h[1..][1..][1..] == h[3..] && h[1..][1..][1..][1..] == h[4..] && h[4..][1..] == [];
    OneWord(h[3..]);
    OneWord(h[2..]);
    OneWord(h[1..]);
    OneWord(h);
    OneWord(h[4..]);
    hide StateBytes;
    assert WordBytes(h[4]) + [] == WordBytes(h[4]);
  }

  lemma OneWord(h: seq<word>)
    requires h != []
    ensures StateBytes(h) == WordBytes(h[0]) + StateBytes(h[1..]) && StateBytes([]) == []
  {
    hide WordBytes;
  }

  lemma EncodeThree(a: byte, b: byte, c: byte, rest: seq<byte>)
    ensures Base64.Encode([a, b, c] + rest) == Base64.Group([a, b, c]) + Base64.Encode(rest)
  {
    var s := [a, b, c] + rest;
    Base64.EncodeStep(s);
    hide Base64.Encode;
    if rest == [] { assert s == [a, b, c]; } else { assert s[3..] == rest; }
  }

  lemma Groups1()
    ensures Base64.Group([0xb3, 0x7a, 0x4f]) == "s3pP"
            && Base64.Group([0x2c, 0xc0, 0x62]) == "LMBi"
  {
  }

  lemma Groups2()
    ensures Base64.Group([0x4f, 0x16, 0x90]) == "TxaQ"
            && Base64.Group([0xf6, 0x46, 0x06]) == "9kYG"
  {
  }

  lemma Groups3()
    ensures Base64.Group([0xcf, 0x38, 0x59]) == "zzhZ"
            && Base64.Group([0x45, 0xb2, 0xbe]) == "RbK+"
            && Base64.Encode([0xc4, 0xea]) == "xOo="
  {
    Base64.EncodeStep([0xc4, 0xea]);
    Base64.EncodeStep([]);
    hide Base64.Encode;
  }

  lemma DigestText()
    ensures Base64.Encode(DIGEST) == "s3pPLMBiTxaQ" + ("9kYGzzhZRbK+" + "xOo=")
  {
    Groups1();
    Groups2();
    Groups3();
    hide Base64.Encode, Base64.Group;
    var r6: seq<byte> := [0xc4, 0xea];
    var r5 := [0x45, 0xb2, 0xbe] + r6;
    EncodeThree(0x45, 0xb2, 0xbe, r6);
    var r4 := [0xcf, 0x38, 0x59] + r5;
    EncodeThree(0xcf, 0x38, 0x59, r5);
    var r3 := [0xf6, 0x46, 0x06] + r4;
    EncodeThree(0xf6, 0x46, 0x06, r4);
    var r2 := [0x4f, 0x16, 0x90] + r3;
    EncodeThree(0x4f, 0x16, 0x90, r3);
    var r1 := [0x2c, 0xc0, 0x62] + r2;
    EncodeThree(0x2c, 0xc0, 0x62, r2);
    var r0 := [0xb3, 0x7a, 0x4f] + r1;
    EncodeThree(0xb3, 0x7a, 0x4f, r1);
    assert r0 == DIGEST;
  }

  /** The answer to the example's key. */
  lemma AnswerToExample()
    ensures AcceptKey("dGhlIHNhbXBsZSBub25jZQ==") == "s3pPLMBiTxaQ" + "9kYGzzhZRbK+xOo="
  {
    MessageFold();
    DigestOctets();
    DigestText();
    hide Fold, Pad, InitialState, Octets, DIGEST, AFTER_TWO, StateBytes, Base64.Encode, GUID;
    AcceptKeyIs(KEY);
    assert Digest(Sha1, Message()) == DIGEST;
    assert "s3pPLMBiTxaQ" + ("9kYGzzhZRbK+" + "xOo=") == "s3pPLMBiTxaQ" + "9kYGzzhZRbK+xOo=";
  }

  /** The relay's answer in that example opens the connection. */
  lemma ExampleOpens()
    ensures Opens(Block(Answer("s3pPLMBiTxaQ" + "9kYGzzhZRbK+xOo=")), AcceptKey(KEY))
  {
    AnswerToExample();
    ValueText();
    hide AcceptKey, Opens, Block;
    StandardAnswer("s3pPLMBiTxaQ" + "9kYGzzhZRbK+xOo=", KEY);
  }

  lemma ValueText()
    ensures var value := "s3pPLMBiTxaQ" + "9kYGzzhZRbK+xOo=";
            |value| == 28 && value[0] == 's' && '\r' !in value && '\n' !in value && '\0' !in value
  {
    var a, b := "s3pPLMBiTxaQ", "9kYGzzhZRbK+xOo=";
    assert '\r' !in a && '\n' !in a && '\0' !in a;
    assert '\r' !in b && '\n' !in b && '\0' !in b;
  }
}
