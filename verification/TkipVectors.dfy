/** A packet key computed to the end with the driver's own table, in literal words and bytes: the
    temporal key, transmitter and counter of one of the test vectors in Annex M of IEEE 802.11-2012. */
module TkipVectors {
  import opened Ieee80211
  import opened TkipMixing
  import opened TkipSchedule
  import opened TkipTable
  import opened Words

  const TK: Key := [0x63, 0x89, 0x3b, 0x25, 0x08, 0x40, 0xb8, 0xae,
                    0x0b, 0xd0, 0xfa, 0x7e, 0x61, 0xd2, 0x78, 0x3e]
  const TA: Bytes := [0x64, 0xf2, 0xea, 0xed, 0xdc, 0x25]

  lemma {:induction false} KeyHalves()
    ensures Half(TK, 0) == 0x8963 && Half(TK, 2) == 0x253b
    ensures Half(TK, 4) == 0x4008 && Half(TK, 6) == 0xaeb8
    ensures Half(TK, 8) == 0xd00b && Half(TK, 10) == 0x7efa
    ensures Half(TK, 12) == 0xd261 && Half(TK, 14) == 0x3e78
    ensures Half(TA, 0) == 0xf264 && Half(TA, 2) == 0xedea && Half(TA, 4) == 0x25dc
  {
  }

  /** The words of phase 1, pass by pass. */
  const Y: seq<bv16> :=
    [0xfd43, 0x20dc, 0xf264, 0xedea, 0x25dc] +
    [0xb564, 0xb203, 0x7783, 0x0fa9, 0x49f0] +
    [0x83e5, 0x9d82, 0xc880, 0x53f0, 0xc042] +
    [0x304f, 0x45db, 0x6744, 0x6ee0, 0x2460] +
    [0x2702, 0x472d, 0x917a, 0xd44b, 0x7f0d] +
    [0x0a40, 0x0c6e, 0x9d3a, 0xb9a3, 0xe2ee] +
    [0x61d2, 0x8d77, 0x4b37, 0x6959, 0x17aa] +
    [0x1e3c, 0x660f, 0x78c8, 0xbb86, 0xe3e6] +
    [0x7c67, 0x49d7, 0x9724, 0xb5e9, 0xb4f1]

  lemma {:induction false} PhaseWords0()
    ensures |Y| == 45
    ensures Y[0] == 0xfd43 && Y[1] == 0x20dc && Y[2] == 0xf264 && Y[3] == 0xedea && Y[4] == 0x25dc
    ensures Y[5] == 0xb564 && Y[6] == 0xb203 && Y[7] == 0x7783 && Y[8] == 0x0fa9 && Y[9] == 0x49f0
    ensures Y[10] == 0x83e5 && Y[11] == 0x9d82 && Y[12] == 0xc880 && Y[13] == 0x53f0 && Y[14] == 0xc042
  {
  }

  lemma {:induction false} PhaseWords1()
    ensures |Y| == 45
    ensures Y[15] == 0x304f && Y[16] == 0x45db && Y[17] == 0x6744 && Y[18] == 0x6ee0 && Y[19] == 0x2460
    ensures Y[20] == 0x2702 && Y[21] == 0x472d && Y[22] == 0x917a && Y[23] == 0xd44b && Y[24] == 0x7f0d
    ensures Y[25] == 0x0a40 && Y[26] == 0x0c6e && Y[27] == 0x9d3a && Y[28] == 0xb9a3 && Y[29] == 0xe2ee
  {
  }

  lemma {:induction false} PhaseWords2()
    ensures |Y| == 45
    ensures Y[30] == 0x61d2 && Y[31] == 0x8d77 && Y[32] == 0x4b37 && Y[33] == 0x6959 && Y[34] == 0x17aa
    ensures Y[35] == 0x1e3c && Y[36] == 0x660f && Y[37] == 0x78c8 && Y[38] == 0xbb86 && Y[39] == 0xe3e6
    ensures Y[40] == 0x7c67 && Y[41] == 0x49d7 && Y[42] == 0x9724 && Y[43] == 0xb5e9 && Y[44] == 0xb4f1
  {
  }

  /** The words of phase 2. */
  const Z: seq<bv16> := [
    0x7c67, 0x49d7, 0x9724, 0xb5e9, 0xb4f1, 0xb4f0,
    0x4698, 0x4cca, 0xeaac, 0x780c, 0x81bc, 0x43b2,
    0x0f81, 0xe5c6, 0x5d8f, 0x26d3, 0x1525, 0xce44]

  /** The additions of phase 1, in their order. */
  lemma {:induction false} Passes()
    ensures Xor16(0x25dc, 0x8963) == 0xacbf && Plus16(0xfd43, 0xb821) == 0xb564
    ensures Xor16(0xb564, 0x4008) == 0xf56c && Plus16(0x20dc, 0x9127) == 0xb203
    ensures Xor16(0xb203, 0xd00b) == 0x6208 && Plus16(0xf264, 0x851f) == 0x7783
    ensures Xor16(0x7783, 0xd261) == 0xa5e2 && Plus16(0xedea, 0x21bf) == 0x0fa9
    ensures Xor16(0x0fa9, 0x8963) == 0x86ca && Plus16(0x25dc, Plus16(0x2414, 0)) == 0x49f0
    ensures Xor16(0x49f0, 0x253b) == 0x6ccb && Plus16(0xb564, 0xce81) == 0x83e5
    ensures Xor16(0x83e5, 0xaeb8) == 0x2d5d && Plus16(0xb203, 0xeb7f) == 0x9d82
    ensures Xor16(0x9d82, 0x7efa) == 0xe378 && Plus16(0x7783, 0x50fd) == 0xc880
    ensures Xor16(0xc880, 0x3e78) == 0xf6f8 && Plus16(0x0fa9, 0x4447) == 0x53f0
    ensures Xor16(0x53f0, 0x253b) == 0x76cb && Plus16(0x49f0, Plus16(0x7651, 1)) == 0xc042
    ensures Xor16(0xc042, 0x8963) == 0x4921 && Plus16(0x83e5, 0xac6a) == 0x304f
    ensures Xor16(0x304f, 0x4008) == 0x7047 && Plus16(0x9d82, 0xa859) == 0x45db
    ensures Xor16(0x45db, 0xd00b) == 0x95d0 && Plus16(0xc880, 0x9ec4) == 0x6744
    ensures Xor16(0x6744, 0xd261) == 0xb525 && Plus16(0x53f0, 0x1af0) == 0x6ee0
    ensures Xor16(0x6ee0, 0x8963) == 0xe783 && Plus16(0xc042, Plus16(0x641c, 2)) == 0x2460
    ensures Xor16(0x2460, 0x253b) == 0x015b && Plus16(0x304f, 0xf6b3) == 0x2702
    ensures Xor16(0x2702, 0xaeb8) == 0x89ba && Plus16(0x45db, 0x0152) == 0x472d
    ensures Xor16(0x472d, 0x7efa) == 0x39d7 && Plus16(0x6744, 0x2a36) == 0x917a
    ensures Xor16(0x917a, 0x3e78) == 0xaf02 && Plus16(0x6ee0, 0x656b) == 0xd44b
    ensures Xor16(0xd44b, 0x253b) == 0xf170 && Plus16(0x2460, Plus16(0x5aaa, 3)) == 0x7f0d
    ensures Xor16(0x7f0d, 0x8963) == 0xf66e && Plus16(0x2702, 0xe33e) == 0x0a40
    ensures Xor16(0x0a40, 0x4008) == 0x4a48 && Plus16(0x472d, 0xc541) == 0x0c6e
    ensures Xor16(0x0c6e, 0xd00b) == 0xdc65 && Plus16(0x917a, 0x0bc0) == 0x9d3a
    ensures Xor16(0x9d3a, 0xd261) == 0x4f5b && Plus16(0xd44b, 0xe558) == 0xb9a3
    ensures Xor16(0xb9a3, 0x8963) == 0x30c0 && Plus16(0x7f0d, Plus16(0x63dd, 4)) == 0xe2ee
    ensures Xor16(0xe2ee, 0x253b) == 0xc7d5 && Plus16(0x0a40, 0x5792) == 0x61d2
    ensures Xor16(0x61d2, 0xaeb8) == 0xcf6a && Plus16(0x0c6e, 0x8109) == 0x8d77
    ensures Xor16(0x8d77, 0x7efa) == 0xf38d && Plus16(0x9d3a, 0xadfd) == 0x4b37
    ensures Xor16(0x4b37, 0x3e78) == 0x754f && Plus16(0xb9a3, 0xafb6) == 0x6959
    ensures Xor16(0x6959, 0x253b) == 0x4c62 && Plus16(0xe2ee, Plus16(0x34b7, 5)) == 0x17aa
    ensures Xor16(0x17aa, 0x8963) == 0x9ec9 && Plus16(0x61d2, 0xbc6a) == 0x1e3c
    ensures Xor16(0x1e3c, 0x4008) == 0x5e34 && Plus16(0x8d77, 0xd898) == 0x660f
    ensures Xor16(0x660f, 0xd00b) == 0xb604 && Plus16(0x4b37, 0x2d91) == 0x78c8
    ensures Xor16(0x78c8, 0xd261) == 0xaaa9 && Plus16(0x6959, 0x522d) == 0xbb86
    ensures Xor16(0xbb86, 0x8963) == 0x32e5 && Plus16(0x17aa, Plus16(0xcc36, 6)) == 0xe3e6
    ensures Xor16(0xe3e6, 0x253b) == 0xc6dd && Plus16(0x1e3c, 0x5e2b) == 0x7c67
    ensures Xor16(0x7c67, 0xaeb8) == 0xd2df && Plus16(0x660f, 0xe3c8) == 0x49d7
    ensures Xor16(0x49d7, 0x7efa) == 0x372d && Plus16(0x78c8, 0x1e5c) == 0x9724
    ensures Xor16(0x9724, 0x3e78) == 0xa95c && Plus16(0xbb86, 0xfa63) == 0xb5e9
    ensures Xor16(0xb5e9, 0x253b) == 0x90d2 && Plus16(0xe3e6, Plus16(0xd104, 7)) == 0xb4f1
  {
  }

  lemma {:induction false} Entries0()
    ensures Entry(0xbf) == 0x1018 && Entry(0xac) == 0x39a8
    ensures Entry(0x6c) == 0xa0f0 && Entry(0xf5) == 0xd731
    ensures Entry(0x08) == 0x6050 && Entry(0x62) == 0x4fe5
    ensures Entry(0xe2) == 0x2bb3 && Entry(0xa5) == 0x0c0a
    ensures Entry(0xca) == 0xe89c && Entry(0x86) == 0x88cc
    ensures Entry(0xcb) == 0x3e21 && Entry(0x6c) == 0xa0f0
    ensures Entry(0x5d) == 0x98d4 && Entry(0x2d) == 0xab73
    ensures Entry(0x78) == 0x63df && Entry(0xe3) == 0x2233
    ensures Entry(0xf8) == 0x82c3 && Entry(0xf6) == 0x84c6
    ensures Entry(0xcb) == 0x3e21 && Entry(0x76) == 0x7048
  {
  }

  lemma {:induction false} Entries1()
    ensures Entry(0x21) == 0xe11c && Entry(0x49) == 0x764d
    ensures Entry(0x47) == 0x5bfb && Entry(0x70) == 0xa2f3
    ensures Entry(0xd0) == 0xe090 && Entry(0x95) == 0x547e
    ensures Entry(0x25) == 0x7e41 && Entry(0xb5) == 0xb164
    ensures Entry(0x83) == 0xc32f && Entry(0xe7) == 0x33a7
    ensures Entry(0x5b) == 0x724b && Entry(0x01) == 0xf884
    ensures Entry(0xba) == 0xf307 && Entry(0x89) == 0x55f2
    ensures Entry(0xd7) == 0x1c12 && Entry(0x39) == 0x2436
    ensures Entry(0x02) == 0xee99 && Entry(0xaf) == 0xf28b
    ensures Entry(0x70) == 0xa2f3 && Entry(0xf1) == 0x59f8
  {
  }

  lemma {:induction false} Entries2()
    ensures Entry(0x6e) == 0x25ba && Entry(0xf6) == 0x84c6
    ensures Entry(0x48) == 0xa4f6 && Entry(0x4a) == 0xb761
    ensures Entry(0x65) == 0x9ad7 && Entry(0xdc) == 0x1791
    ensures Entry(0x5b) == 0x724b && Entry(0x4f) == 0x1397
    ensures Entry(0xc0) == 0x6fd5 && Entry(0x30) == 0x080c
    ensures Entry(0xd5) == 0x0605 && Entry(0xc7) == 0x9751
    ensures Entry(0x6a) == 0x0406 && Entry(0xcf) == 0x0f85
    ensures Entry(0x8d) == 0xbae7 && Entry(0xf3) == 0x1a17
    ensures Entry(0x4f) == 0x1397 && Entry(0x75) == 0x21bc
    ensures Entry(0x62) == 0x4fe5 && Entry(0x4c) == 0x527b
  {
  }

  lemma {:induction false} Entries3()
    ensures Entry(0xc9) == 0xa17c && Entry(0x9e) == 0x161d
    ensures Entry(0x34) == 0x3028 && Entry(0x5e) == 0xb0e8
    ensures Entry(0x04) == 0xff0d && Entry(0xb6) == 0x9cd2
    ensures Entry(0xa9) == 0xbd6e && Entry(0xaa) == 0x43ef
    ensures Entry(0xe5) == 0xa970 && Entry(0x32) == 0x4665
    ensures Entry(0xdd) == 0x9958 && Entry(0xc6) == 0x73c7
    ensures Entry(0xdf) == 0x27b9 && Entry(0xd2) == 0x71c4
    ensures Entry(0x2d) == 0xab73 && Entry(0x37) == 0x2fb5
    ensures Entry(0x5c) == 0x94de && Entry(0xa9) == 0xbd6e
    ensures Entry(0xd2) == 0x71c4 && Entry(0x90) == 0xc0a0
  {
  }

  lemma {:induction false} Substitutions()
    ensures Substituted(0xacbf) == 0xb821
    ensures Substituted(0xf56c) == 0x9127
    ensures Substituted(0x6208) == 0x851f
    ensures Substituted(0xa5e2) == 0x21bf
    ensures Substituted(0x86ca) == 0x2414
    ensures Substituted(0x6ccb) == 0xce81
    ensures Substituted(0x2d5d) == 0xeb7f
    ensures Substituted(0xe378) == 0x50fd
    ensures Substituted(0xf6f8) == 0x4447
    ensures Substituted(0x76cb) == 0x7651
    ensures Substituted(0x4921) == 0xac6a
    ensures Substituted(0x7047) == 0xa859
    ensures Substituted(0x95d0) == 0x9ec4
    ensures Substituted(0xb525) == 0x1af0
    ensures Substituted(0xe783) == 0x641c
    ensures Substituted(0x015b) == 0xf6b3
    ensures Substituted(0x89ba) == 0x0152
    ensures Substituted(0x39d7) == 0x2a36
    ensures Substituted(0xaf02) == 0x656b
    ensures Substituted(0xf170) == 0x5aaa
    ensures Substituted(0xf66e) == 0xe33e
    ensures Substituted(0x4a48) == 0xc541
    ensures Substituted(0xdc65) == 0x0bc0
    ensures Substituted(0x4f5b) == 0xe558
    ensures Substituted(0x30c0) == 0x63dd
    ensures Substituted(0xc7d5) == 0x5792
    ensures Substituted(0xcf6a) == 0x8109
    ensures Substituted(0xf38d) == 0xadfd
    ensures Substituted(0x754f) == 0xafb6
    ensures Substituted(0x4c62) == 0x34b7
    ensures Substituted(0x9ec9) == 0xbc6a
    ensures Substituted(0x5e34) == 0xd898
    ensures Substituted(0xb604) == 0x2d91
    ensures Substituted(0xaaa9) == 0x522d
    ensures Substituted(0x32e5) == 0xcc36
    ensures Substituted(0xc6dd) == 0x5e2b
    ensures Substituted(0xd2df) == 0xe3c8
    ensures Substituted(0x372d) == 0x1e5c
    ensures Substituted(0xa95c) == 0xfa63
    ensures Substituted(0x90d2) == 0xd104
  {
    hide Entry;
    Entries0();
    Entries1();
    Entries2();
    Entries3();
  }

  lemma {:induction false} Sweep()
    ensures Xor16(0xb4f0, 0x8963) == 0x3d93 && Plus16(0x7c67, 0xca31) == 0x4698
    ensures Xor16(0x4698, 0x253b) == 0x63a3 && Plus16(0x49d7, 0x02f3) == 0x4cca
    ensures Xor16(0x4cca, 0x4008) == 0x0cc2 && Plus16(0x9724, 0x5388) == 0xeaac
    ensures Xor16(0xeaac, 0xaeb8) == 0x4414 && Plus16(0xb5e9, 0xc223) == 0x780c
    ensures Xor16(0x780c, 0xd00b) == 0xa807 && Plus16(0xb4f1, 0xcccb) == 0x81bc
    ensures Xor16(0x81bc, 0x7efa) == 0xff46 && Plus16(0xb4f0, 0x8ec2) == 0x43b2
  {
  }

  lemma {:induction false} SweepEntries()
    ensures Entry(0x93) == 0xa37f && Entry(0x3d) == 0x4e69
    ensures Entry(0xa3) == 0x141e && Entry(0x63) == 0xed16
    ensures Entry(0xc2) == 0x4a6f && Entry(0x0c) == 0xe719
    ensures Entry(0x14) == 0xef15 && Entry(0x44) == 0x362d
    ensures Entry(0x07) == 0x9154 && Entry(0xa8) == 0x9f5d
    ensures Entry(0x46) == 0xb4ee && Entry(0xff) == 0x2c3a
  {
  }

  lemma {:induction false} SweepSubstitutions()
    ensures Substituted(0x3d93) == 0xca31
    ensures Substituted(0x63a3) == 0x02f3
    ensures Substituted(0x0cc2) == 0x5388
    ensures Substituted(0x4414) == 0xc223
    ensures Substituted(0xa807) == 0xcccb
    ensures Substituted(0xff46) == 0x8ec2
  {
    hide Entry;
    SweepEntries();
  }

  lemma {:induction false} RotatedSweep()
    ensures Xor16(0x43b2, 0xd261) == 0x91d3 && Ror1(0x91d3) == 0xc8e9 && Plus16(0x4698, 0xc8e9) == 0x0f81
    ensures Xor16(0x0f81, 0x3e78) == 0x31f9 && Ror1(0x31f9) == 0x98fc && Plus16(0x4cca, 0x98fc) == 0xe5c6
    ensures Ror1(0xe5c6) == 0x72e3 && Plus16(0xeaac, 0x72e3) == 0x5d8f
    ensures Ror1(0x5d8f) == 0xaec7 && Plus16(0x780c, 0xaec7) == 0x26d3
    ensures Ror1(0x26d3) == 0x9369 && Plus16(0x81bc, 0x9369) == 0x1525
    ensures Ror1(0x1525) == 0x8a92 && Plus16(0x43b2, 0x8a92) == 0xce44
  {
  }

  lemma {:induction false} PassFollows(i: nat, k: nat)
    requires i < 8 && k < 5
    ensures Follows1(Substituted, TK, Y, i, k)
  {
    hide Xor16, Plus16, Substituted, Half;
    KeyHalves();
    PhaseWords0();
    PhaseWords1();
    PhaseWords2();
    hide Y;
    Passes();
    Substitutions();
    assert i == 0 || i == 1 || i == 2 || i == 3 || i == 4 || i == 5 || i == 6 || i == 7;
    assert k == 0 || k == 1 || k == 2 || k == 3 || k == 4;
  }

  lemma {:induction false} StartWords()
    ensures (0x20dcfd43 as bv32 & 0xffff) as bv16 == 0xfd43 && (0x20dcfd43 as bv32 >> 16) as bv16 == 0x20dc
  {
  }

  /** Phase 1 of the vector. */
  lemma {:induction false} Phase1Vector()
    ensures Phase1(Substituted, TK, TA, 0x20dcfd43) == P1k(0x7c67, 0x49d7, 0x9724, 0xb5e9, 0xb4f1)
  {
    hide Half, Follows1, Phase1;
    KeyHalves();
    StartWords();
    PhaseWords0();
    PhaseWords2();
    hide Y;
    forall i, k | 0 <= i < 8 && 0 <= k < 5
      ensures Follows1(Substituted, TK, Y, i, k)
    {
      PassFollows(i, k);
    }
    Phase1Schedule(Substituted, TK, TA, 0x20dcfd43, Y);
  }

  lemma {:induction false} SweepFollows(n: nat)
    requires n < 12
    ensures Follows2(Substituted, TK, Z, n)
  {
    hide Xor16, Plus16, Substituted, Half, Ror1;
    KeyHalves();
    Sweep();
    SweepSubstitutions();
    RotatedSweep();
    assert n == 0 || n == 1 || n == 2 || n == 3 || n == 4 || n == 5 || n == 6 || n == 7 || n == 8 || n == 9 || n == 10 || n == 11;
  }

  lemma {:induction false} LastBytes()
    ensures Plus16(0xb4f1, 0xffff) == 0xb4f0
    ensures Hi(0xffff) == 0xff && Lo(0xffff) == 0xff && (Hi(0xffff) | 0x20) & 0x7f == 0x7f
    ensures Lo(Xor16(0xce44, 0x8963) >> 1) == 0x93
    ensures Lo(0x0f81) == 0x81 && Hi(0x0f81) == 0x0f
    ensures Lo(0xe5c6) == 0xc6 && Hi(0xe5c6) == 0xe5
    ensures Lo(0x5d8f) == 0x8f && Hi(0x5d8f) == 0x5d
    ensures Lo(0x26d3) == 0xd3 && Hi(0x26d3) == 0x26
    ensures Lo(0x1525) == 0x25 && Hi(0x1525) == 0x15
    ensures Lo(0xce44) == 0x44 && Hi(0xce44) == 0xce
  {
  }

  /** Phase 2 of the vector. */
  lemma {:induction false} Phase2Vector()
    ensures Phase2(Substituted, TK, P1k(0x7c67, 0x49d7, 0x9724, 0xb5e9, 0xb4f1), 0xffff)
         == [0xff, 0x7f, 0xff, 0x93, 0x81, 0x0f, 0xc6, 0xe5,
             0x8f, 0x5d, 0xd3, 0x26, 0x25, 0x15, 0x44, 0xce]
  {
    hide Half, Follows2, Phase2, Plus16, Xor16, Lo, Hi;
    KeyHalves();
    LastBytes();
    forall n | 0 <= n < 12
      ensures Follows2(Substituted, TK, Z, n)
    {
      SweepFollows(n);
    }
    Phase2Schedule(Substituted, TK, P1k(0x7c67, 0x49d7, 0x9724, 0xb5e9, 0xb4f1), 0xffff, Z);
  }

  /** The packet key of that transmitter and packet number. */
  lemma {:induction false} PacketKeyVector()
    ensures PacketKey(Substituted, TK, TA, 0x20dcfd43ffff)
         == [0xff, 0x7f, 0xff, 0x93, 0x81, 0x0f, 0xc6, 0xe5,
             0x8f, 0x5d, 0xd3, 0x26, 0x25, 0x15, 0x44, 0xce]
  {
    hide Phase1, Phase2;
    Counter();
    Phase1Vector();
    Phase2Vector();
  }

  lemma {:induction false} Counter()
    ensures (0x20dcfd43ffff as bv48 >> 16) as bv32 == 0x20dcfd43 && (0x20dcfd43ffff as bv48 & 0xffff) as bv16 == 0xffff
  {
  }
}
