/** The first test vector of RFC 1321, section A.5, worked through: the digest of the empty message. */
module Md5Vectors {
  import opened Bytes
  import opened Md5

  // ---- The sine table and the 64 operations, in numbers ----

  lemma SineRow0()
    ensures |T| == 64
    ensures T[0] == 0xd76aa478 && T[1] == 0xe8c7b756 && T[2] == 0x242070db && T[3] == 0xc1bdceee
    ensures T[4] == 0xf57c0faf && T[5] == 0x4787c62a && T[6] == 0xa8304613 && T[7] == 0xfd469501
    ensures T[8] == 0x698098d8 && T[9] == 0x8b44f7af && T[10] == 0xffff5bb1 && T[11] == 0x895cd7be
    ensures T[12] == 0x6b901122 && T[13] == 0xfd987193 && T[14] == 0xa679438e && T[15] == 0x49b40821
  {
    assert |T0| == |T1| == |T2| == |T3| == 16;
    forall k | 0 <= k < 16
      ensures |T| == 64 && T[k] == T0[k % 16]
    {
      JoinedAt(T0, T1, T2, T3, k);
    }
  }

  lemma SineRow1()
    ensures |T| == 64
    ensures T[16] == 0xf61e2562 && T[17] == 0xc040b340 && T[18] == 0x265e5a51 && T[19] == 0xe9b6c7aa
    ensures T[20] == 0xd62f105d && T[21] == 0x02441453 && T[22] == 0xd8a1e681 && T[23] == 0xe7d3fbc8
    ensures T[24] == 0x21e1cde6 && T[25] == 0xc33707d6 && T[26] == 0xf4d50d87 && T[27] == 0x455a14ed
    ensures T[28] == 0xa9e3e905 && T[29] == 0xfcefa3f8 && T[30] == 0x676f02d9 && T[31] == 0x8d2a4c8a
  {
    assert |T0| == |T1| == |T2| == |T3| == 16;
    forall k | 16 <= k < 32
      ensures |T| == 64 && T[k] == T1[k % 16]
    {
      JoinedAt(T0, T1, T2, T3, k);
    }
  }

  lemma SineRow2()
    ensures |T| == 64
    ensures T[32] == 0xfffa3942 && T[33] == 0x8771f681 && T[34] == 0x6d9d6122 && T[35] == 0xfde5380c
    ensures T[36] == 0xa4beea44 && T[37] == 0x4bdecfa9 && T[38] == 0xf6bb4b60 && T[39] == 0xbebfbc70
    ensures T[40] == 0x289b7ec6 && T[41] == 0xeaa127fa && T[42] == 0xd4ef3085 && T[43] == 0x04881d05
    ensures T[44] == 0xd9d4d039 && T[45] == 0xe6db99e5 && T[46] == 0x1fa27cf8 && T[47] == 0xc4ac5665
  {
    assert |T0| == |T1| == |T2| == |T3| == 16;
    forall k | 32 <= k < 48
      ensures |T| == 64 && T[k] == T2[k % 16]
    {
      JoinedAt(T0, T1, T2, T3, k);
    }
  }

  lemma SineRow3()
    ensures |T| == 64
    ensures T[48] == 0xf4292244 && T[49] == 0x432aff97 && T[50] == 0xab9423a7 && T[51] == 0xfc93a039
    ensures T[52] == 0x655b59c3 && T[53] == 0x8f0ccc92 && T[54] == 0xffeff47d && T[55] == 0x85845dd1
    ensures T[56] == 0x6fa87e4f && T[57] == 0xfe2ce6e0 && T[58] == 0xa3014314 && T[59] == 0x4e0811a1
    ensures T[60] == 0xf7537e82 && T[61] == 0xbd3af235 && T[62] == 0x2ad7d2bb && T[63] == 0xeb86d391
  {
    assert |T0| == |T1| == |T2| == |T3| == 16;
    forall k | 48 <= k < 64
      ensures |T| == 64 && T[k] == T3[k % 16]
    {
      JoinedAt(T0, T1, T2, T3, k);
    }
  }

  lemma Operations0()
    ensures Transform(0x67452301, 0xefcdab89, 0x98badcfe, 0x10325476, 0, 0x00000080, 0xd76aa478, 7) == 0xa5202774
    ensures Transform(0x10325476, 0xa5202774, 0xefcdab89, 0x98badcfe, 0, 0x00000000, 0xe8c7b756, 12) == 0xf59592dd
    ensures Transform(0x98badcfe, 0xf59592dd, 0xa5202774, 0xefcdab89, 0, 0x00000000, 0x242070db, 17) == 0xe7f06b23
    ensures Transform(0xefcdab89, 0xe7f06b23, 0xf59592dd, 0xa5202774, 0, 0x00000000, 0xc1bdceee, 22) == 0x1b163203
    ensures Transform(0xa5202774, 0x1b163203, 0xe7f06b23, 0xf59592dd, 0, 0x00000000, 0xf57c0faf, 7) == 0x32033344
    ensures Transform(0xf59592dd, 0x32033344, 0x1b163203, 0xe7f06b23, 0, 0x00000000, 0x4787c62a, 12) == 0x2f35d494
    ensures Transform(0xe7f06b23, 0x2f35d494, 0x32033344, 0x1b163203, 0, 0x00000000, 0xa8304613, 17) == 0xf5b158db
    ensures Transform(0x1b163203, 0xf5b158db, 0x2f35d494, 0x32033344, 0, 0x00000000, 0xfd469501, 22) == 0x9bc13ce9
    ensures Transform(0x32033344, 0x9bc13ce9, 0xf5b158db, 0x2f35d494, 0, 0x00000000, 0x698098d8, 7) == 0x3893b991
    ensures Transform(0x2f35d494, 0x3893b991, 0x9bc13ce9, 0xf5b158db, 0, 0x00000000, 0x8b44f7af, 12) == 0xfce4a312
    ensures Transform(0xf5b158db, 0xfce4a312, 0x3893b991, 0x9bc13ce9, 0, 0x00000000, 0xffff5bb1, 17) == 0xe1ef0576
    ensures Transform(0x9bc13ce9, 0xe1ef0576, 0xfce4a312, 0x3893b991, 0, 0x00000000, 0x895cd7be, 22) == 0x70768a29
    ensures Transform(0x3893b991, 0x70768a29, 0xe1ef0576, 0xfce4a312, 0, 0x00000000, 0x6b901122, 7) == 0xf56c7cf1
    ensures Transform(0xfce4a312, 0xf56c7cf1, 0x70768a29, 0xe1ef0576, 0, 0x00000000, 0xfd987193, 12) == 0x374943a7
    ensures Transform(0xe1ef0576, 0x374943a7, 0xf56c7cf1, 0x70768a29, 0, 0x00000000, 0xa679438e, 17) == 0x5aa53f75
    ensures Transform(0x70768a29, 0x5aa53f75, 0x374943a7, 0xf56c7cf1, 0, 0x00000000, 0x49b40821, 22) == 0xd6819c6a
  {
    assert Mix(0, 0xefcdab89, 0x98badcfe, 0x10325476) == 0x98badcfe;
    assert Mix(0, 0xa5202774, 0xefcdab89, 0x98badcfe) == 0xbd9afb8a;
    assert Mix(0, 0xf59592dd, 0xa5202774, 0xefcdab89) == 0xaf482b54;
    assert Mix(0, 0xe7f06b23, 0xf59592dd, 0xa5202774) == 0xe5900655;
    assert Mix(0, 0x1b163203, 0xe7f06b23, 0xf59592dd) == 0xe791a2df;
    assert Mix(0, 0x32033344, 0x1b163203, 0xe7f06b23) == 0xd7f27a23;
    assert Mix(0, 0x2f35d494, 0x32033344, 0x1b163203) == 0x32033207;
    assert Mix(0, 0xf5b158db, 0x2f35d494, 0x32033344) == 0x27337394;
    assert Mix(0, 0x9bc13ce9, 0xf5b158db, 0x2f35d494) == 0xb5b5d8dd;
    assert Mix(0, 0x3893b991, 0x9bc13ce9, 0xf5b158db) == 0xdda178cb;
    assert Mix(0, 0xfce4a312, 0x3893b991, 0x9bc13ce9) == 0x3b81bdf9;
    assert Mix(0, 0xe1ef0576, 0xfce4a312, 0x3893b991) == 0xf8f4b993;
    assert Mix(0, 0x70768a29, 0xe1ef0576, 0xfce4a312) == 0xece62132;
    assert Mix(0, 0xf56c7cf1, 0x70768a29, 0xe1ef0576) == 0x70e70927;
    assert Mix(0, 0x374943a7, 0xf56c7cf1, 0x70768a29) == 0x757ec8a9;
    assert Mix(0, 0x5aa53f75, 0x374943a7, 0xf56c7cf1) == 0xb74943a5;
  }

  lemma Operations1()
    ensures Transform(0xf56c7cf1, 0xd6819c6a, 0x5aa53f75, 0x374943a7, 1, 0x00000000, 0xf61e2562, 5) == 0x1c7d7513
    ensures Transform(0x374943a7, 0x1c7d7513, 0xd6819c6a, 0x5aa53f75, 1, 0x00000000, 0xc040b340, 9) == 0x7bd57a3a
    ensures Transform(0x5aa53f75, 0x7bd57a3a, 0x1c7d7513, 0xd6819c6a, 1, 0x00000000, 0x265e5a51, 14) == 0xc095f13a
    ensures Transform(0xd6819c6a, 0xc095f13a, 0x7bd57a3a, 0x1c7d7513, 1, 0x00000080, 0xe9b6c7aa, 20) == 0xbd782e17
    ensures Transform(0x1c7d7513, 0xbd782e17, 0xc095f13a, 0x7bd57a3a, 1, 0x00000000, 0xd62f105d, 5) == 0x3d1e3e6c
    ensures Transform(0x7bd57a3a, 0x3d1e3e6c, 0xbd782e17, 0xc095f13a, 1, 0x00000000, 0x02441453, 9) == 0x68b7b3e3
    ensures Transform(0xc095f13a, 0x68b7b3e3, 0x3d1e3e6c, 0xbd782e17, 1, 0x00000000, 0xd8a1e681, 14) == 0xeb41643e
    ensures Transform(0xbd782e17, 0xeb41643e, 0x68b7b3e3, 0x3d1e3e6c, 1, 0x00000000, 0xe7d3fbc8, 20) == 0xe422531a
    ensures Transform(0x3d1e3e6c, 0xe422531a, 0xeb41643e, 0x68b7b3e3, 1, 0x00000000, 0x21e1cde6, 5) == 0x306ec122
    ensures Transform(0x68b7b3e3, 0x306ec122, 0xe422531a, 0xeb41643e, 1, 0x00000000, 0xc33707d6, 9) == 0xd28c77c2
    ensures Transform(0xeb41643e, 0xd28c77c2, 0x306ec122, 0xe422531a, 1, 0x00000000, 0xf4d50d87, 14) == 0xa3c663da
    ensures Transform(0xe422531a, 0xa3c663da, 0xd28c77c2, 0x306ec122, 1, 0x00000000, 0x455a14ed, 20) == 0xa0572807
    ensures Transform(0x306ec122, 0xa0572807, 0xa3c663da, 0xd28c77c2, 1, 0x00000000, 0xa9e3e905, 5) == 0x13707036
    ensures Transform(0xd28c77c2, 0x13707036, 0xa0572807, 0xa3c663da, 1, 0x00000000, 0xfcefa3f8, 9) == 0xae7813db
    ensures Transform(0xa3c663da, 0xae7813db, 0x13707036, 0xa0572807, 1, 0x00000000, 0x676f02d9, 14) == 0x1c31c384
    ensures Transform(0xa0572807, 0x1c31c384, 0xae7813db, 0x13707036, 1, 0x00000000, 0x8d2a4c8a, 20) == 0xa2205f1f
  {
    assert Mix(1, 0xd6819c6a, 0x5aa53f75, 0x374943a7) == 0x5ea53c72;
    assert Mix(1, 0x1c7d7513, 0xd6819c6a, 0x5aa53f75) == 0x9c25b51b;
    assert Mix(1, 0x7bd57a3a, 0x1c7d7513, 0xd6819c6a) == 0x5afd793b;
    assert Mix(1, 0xc095f13a, 0x7bd57a3a, 0x1c7d7513) == 0x63957b3a;
    assert Mix(1, 0xbd782e17, 0xc095f13a, 0x7bd57a3a) == 0xb950ab12;
    assert Mix(1, 0x3d1e3e6c, 0xbd782e17, 0xc095f13a) == 0x3d7c3e2d;
    assert Mix(1, 0x68b7b3e3, 0x3d1e3e6c, 0xbd782e17) == 0x2836326b;
    assert Mix(1, 0xeb41643e, 0x68b7b3e3, 0x3d1e3e6c) == 0x69a1a5af;
    assert Mix(1, 0xe422531a, 0xeb41643e, 0x68b7b3e3) == 0xe362571e;
    assert Mix(1, 0x306ec122, 0xe422531a, 0xeb41643e) == 0x24625322;
    assert Mix(1, 0xd28c77c2, 0x306ec122, 0xe422531a) == 0xd04cd322;
    assert Mix(1, 0xa3c663da, 0xd28c77c2, 0x306ec122) == 0xe2c677c2;
    assert Mix(1, 0xa0572807, 0xa3c663da, 0xd28c77c2) == 0xa146201a;
    assert Mix(1, 0x13707036, 0xa0572807, 0xa3c663da) == 0x03516817;
    assert Mix(1, 0xae7813db, 0x13707036, 0xa0572807) == 0xb3705033;
    assert Mix(1, 0x1c31c384, 0xae7813db, 0x13707036) == 0xbc3843cd;
  }

  lemma Operations2()
    ensures Transform(0x13707036, 0xa2205f1f, 0x1c31c384, 0xae7813db, 2, 0x00000000, 0xfffa3942, 4) == 0xdf63eaa1
    ensures Transform(0xae7813db, 0xdf63eaa1, 0xa2205f1f, 0x1c31c384, 2, 0x00000000, 0x8771f681, 11) == 0xc3689f5b
    ensures Transform(0x1c31c384, 0xc3689f5b, 0xdf63eaa1, 0xa2205f1f, 2, 0x00000000, 0x6d9d6122, 16) == 0x12f3e755
    ensures Transform(0xa2205f1f, 0x12f3e755, 0xc3689f5b, 0xdf63eaa1, 2, 0x00000000, 0xfde5380c, 23) == 0x004b6669
    ensures Transform(0xdf63eaa1, 0x004b6669, 0x12f3e755, 0xc3689f5b, 2, 0x00000000, 0xa4beea44, 4) == 0x5f7a9b2e
    ensures Transform(0xc3689f5b, 0x5f7a9b2e, 0x004b6669, 0x12f3e755, 2, 0x00000000, 0x4bdecfa9, 11) == 0xabc34e16
    ensures Transform(0x12f3e755, 0xabc34e16, 0x5f7a9b2e, 0x004b6669, 2, 0x00000000, 0xf6bb4b60, 16) == 0x91ca4cb7
    ensures Transform(0x004b6669, 0x91ca4cb7, 0xabc34e16, 0x5f7a9b2e, 2, 0x00000000, 0xbebfbc70, 23) == 0xc5dc8c15
    ensures Transform(0x5f7a9b2e, 0xc5dc8c15, 0x91ca4cb7, 0xabc34e16, 2, 0x00000000, 0x289b7ec6, 4) == 0x4497169d
    ensures Transform(0xabc34e16, 0x4497169d, 0xc5dc8c15, 0x91ca4cb7, 2, 0x00000080, 0xeaa127fa, 11) == 0x76fd93d4
    ensures Transform(0x91ca4cb7, 0x76fd93d4, 0x4497169d, 0xc5dc8c15, 2, 0x00000000, 0xd4ef3085, 16) == 0xfd95f243
    ensures Transform(0xc5dc8c15, 0xfd95f243, 0x76fd93d4, 0x4497169d, 2, 0x00000000, 0x04881d05, 23) == 0x0fe32453
    ensures Transform(0x4497169d, 0x0fe32453, 0xfd95f243, 0x76fd93d4, 2, 0x00000000, 0xd9d4d039, 4) == 0x3f55edfd
    ensures Transform(0x76fd93d4, 0x3f55edfd, 0x0fe32453, 0xfd95f243, 2, 0x00000000, 0xe6db99e5, 11) == 0x22a31f54
    ensures Transform(0xfd95f243, 0x22a31f54, 0x3f55edfd, 0x0fe32453, 2, 0x00000000, 0x1fa27cf8, 16) == 0x68d84ea2
    ensures Transform(0x0fe32453, 0x68d84ea2, 0x22a31f54, 0x3f55edfd, 2, 0x00000000, 0xc4ac5665, 23) == 0xca7d2dbd
  {
    assert Mix(2, 0xa2205f1f, 0x1c31c384, 0xae7813db) == 0x10698f40;
    assert Mix(2, 0xdf63eaa1, 0xa2205f1f, 0x1c31c384) == 0x6172763a;
    assert Mix(2, 0xc3689f5b, 0xdf63eaa1, 0xa2205f1f) == 0xbe2b2ae5;
    assert Mix(2, 0x12f3e755, 0xc3689f5b, 0xdf63eaa1) == 0x0ef892af;
    assert Mix(2, 0x004b6669, 0x12f3e755, 0xc3689f5b) == 0xd1d01e67;
    assert Mix(2, 0x5f7a9b2e, 0x004b6669, 0x12f3e755) == 0x4dc21a12;
    assert Mix(2, 0xabc34e16, 0x5f7a9b2e, 0x004b6669) == 0xf4f2b351;
    assert Mix(2, 0x91ca4cb7, 0xabc34e16, 0x5f7a9b2e) == 0x6573998f;
    assert Mix(2, 0xc5dc8c15, 0x91ca4cb7, 0xabc34e16) == 0xffd58eb4;
    assert Mix(2, 0x4497169d, 0xc5dc8c15, 0x91ca4cb7) == 0x1081d63f;
    assert Mix(2, 0x76fd93d4, 0x4497169d, 0xc5dc8c15) == 0xf7b6095c;
    assert Mix(2, 0xfd95f243, 0x76fd93d4, 0x4497169d) == 0xcfff770a;
    assert Mix(2, 0x0fe32453, 0xfd95f243, 0x76fd93d4) == 0x848b45c4;
    assert Mix(2, 0x3f55edfd, 0x0fe32453, 0xfd95f243) == 0xcd233bed;
    assert Mix(2, 0x22a31f54, 0x3f55edfd, 0x0fe32453) == 0x1215d6fa;
    assert Mix(2, 0x68d84ea2, 0x22a31f54, 0x3f55edfd) == 0x752ebc0b;
  }

  lemma Operations3()
    ensures Transform(0x3f55edfd, 0xca7d2dbd, 0x68d84ea2, 0x22a31f54, 3, 0x00000080, 0xf4292244, 6) == 0x93aa2577
    ensures Transform(0x22a31f54, 0x93aa2577, 0xca7d2dbd, 0x68d84ea2, 3, 0x00000000, 0x432aff97, 10) == 0x1688dc85
    ensures Transform(0x68d84ea2, 0x1688dc85, 0x93aa2577, 0xca7d2dbd, 3, 0x00000000, 0xab9423a7, 15) == 0xcd85b8cb
    ensures Transform(0xca7d2dbd, 0xcd85b8cb, 0x1688dc85, 0x93aa2577, 3, 0x00000000, 0xfc93a039, 21) == 0x561e0689
    ensures Transform(0x93aa2577, 0x561e0689, 0xcd85b8cb, 0x1688dc85, 3, 0x00000000, 0x655b59c3, 6) == 0x5625a114
    ensures Transform(0x1688dc85, 0x5625a114, 0x561e0689, 0xcd85b8cb, 3, 0x00000000, 0x8f0ccc92, 10) == 0x3450f42b
    ensures Transform(0xcd85b8cb, 0x3450f42b, 0x5625a114, 0x561e0689, 3, 0x00000000, 0xffeff47d, 15) == 0x392ad0d0
    ensures Transform(0x561e0689, 0x392ad0d0, 0x3450f42b, 0x5625a114, 3, 0x00000000, 0x85845dd1, 21) == 0x1e77fa61
    ensures Transform(0x5625a114, 0x1e77fa61, 0x392ad0d0, 0x3450f42b, 3, 0x00000000, 0x6fa87e4f, 6) == 0x474a9c8c
    ensures Transform(0x3450f42b, 0x474a9c8c, 0x1e77fa61, 0x392ad0d0, 3, 0x00000000, 0xfe2ce6e0, 10) == 0xdfce00bc
    ensures Transform(0x392ad0d0, 0xdfce00bc, 0x474a9c8c, 0x1e77fa61, 3, 0x00000000, 0xa3014314, 15) == 0x36594b14
    ensures Transform(0x1e77fa61, 0x36594b14, 0xdfce00bc, 0x474a9c8c, 3, 0x00000000, 0x4e0811a1, 21) == 0x30130182
    ensures Transform(0x474a9c8c, 0x30130182, 0x36594b14, 0xdfce00bc, 3, 0x00000000, 0xf7537e82, 6) == 0x7246fad3
    ensures Transform(0xdfce00bc, 0x7246fad3, 0x30130182, 0x36594b14, 3, 0x00000000, 0xbd3af235, 10) == 0x6e10a476
    ensures Transform(0x36594b14, 0x6e10a476, 0x7246fad3, 0x30130182, 3, 0x00000000, 0x2ad7d2bb, 15) == 0xff4ea3eb
    ensures Transform(0x30130182, 0xff4ea3eb, 0x6e10a476, 0x7246fad3, 3, 0x00000000, 0xeb86d391, 21) == 0x14e45506
  {
    assert Mix(3, 0xca7d2dbd, 0x68d84ea2, 0x22a31f54) == 0xb7a5a31d;
    assert Mix(3, 0x93aa2577, 0xca7d2dbd, 0x68d84ea2) == 0x5dd298c2;
    assert Mix(3, 0x1688dc85, 0x93aa2577, 0xca7d2dbd) == 0xa420fbb0;
    assert Mix(3, 0xcd85b8cb, 0x1688dc85, 0x93aa2577) == 0xfb5d264e;
    assert Mix(3, 0x561e0689, 0xcd85b8cb, 0x1688dc85) == 0x32fa9f30;
    assert Mix(3, 0x5625a114, 0x561e0689, 0xcd85b8cb) == 0x2061e1bd;
    assert Mix(3, 0x3450f42b, 0x5625a114, 0x561e0689) == 0xebd45c6b;
    assert Mix(3, 0x392ad0d0, 0x3450f42b, 0x5625a114) == 0x8daa2ad0;
    assert Mix(3, 0x1e77fa61, 0x392ad0d0, 0x3450f42b) == 0xe6d52b25;
    assert Mix(3, 0x474a9c8c, 0x1e77fa61, 0x392ad0d0) == 0xd9a845ce;
    assert Mix(3, 0xdfce00bc, 0x474a9c8c, 0x1e77fa61) == 0xb8849932;
    assert Mix(3, 0x36594b14, 0xdfce00bc, 0x474a9c8c) == 0x61336bcb;
    assert Mix(3, 0x30130182, 0x36594b14, 0xdfce00bc) == 0x066ab4d7;
    assert Mix(3, 0x7246fad3, 0x30130182, 0x36594b14) == 0xcbf5ff79;
    assert Mix(3, 0x6e10a476, 0x7246fad3, 0x30130182) == 0x9dba04ac;
    assert Mix(3, 0xff4ea3eb, 0x6e10a476, 0x7246fad3) == 0x91ef0399;
  }

  // ---- One line of four operations after the other ----

  /** The only block of the empty message: the mark of the padding in front of zeros. */
  ghost predicate OnlyMark(x: Block) { x[0] == 0x80 && forall i :: 1 <= i < 16 ==> x[i] == 0 }

  lemma MarkWords(x: Block)
    requires OnlyMark(x)
    ensures x[0] == 0x80
    ensures x[1] == x[2] == x[3] == x[4] == x[5] == x[6] == x[7] == x[8] == 0
    ensures x[9] == x[10] == x[11] == x[12] == x[13] == x[14] == x[15] == 0
  {
  }

  lemma Lines0(x: Block)
    requires OnlyMark(x)
    ensures Line(Registers(0x67452301, 0xefcdab89, 0x98badcfe, 0x10325476), x, 0)
      == Registers(0xa5202774, 0x1b163203, 0xe7f06b23, 0xf59592dd)
    ensures Line(Registers(0xa5202774, 0x1b163203, 0xe7f06b23, 0xf59592dd), x, 1)
      == Registers(0x32033344, 0x9bc13ce9, 0xf5b158db, 0x2f35d494)
  {
    hide Transform, T, OnlyMark;
    Operations0();
    SineRow0();
    MarkWords(x);
  }

  lemma Lines1(x: Block)
    requires OnlyMark(x)
    ensures Line(Registers(0x32033344, 0x9bc13ce9, 0xf5b158db, 0x2f35d494), x, 2)
      == Registers(0x3893b991, 0x70768a29, 0xe1ef0576, 0xfce4a312)
    ensures Line(Registers(0x3893b991, 0x70768a29, 0xe1ef0576, 0xfce4a312), x, 3)
      == Registers(0xf56c7cf1, 0xd6819c6a, 0x5aa53f75, 0x374943a7)
  {
    hide Transform, T, OnlyMark;
    Operations0();
    SineRow0();
    MarkWords(x);
  }

  lemma Lines2(x: Block)
    requires OnlyMark(x)
    ensures Line(Registers(0xf56c7cf1, 0xd6819c6a, 0x5aa53f75, 0x374943a7), x, 4)
      == Registers(0x1c7d7513, 0xbd782e17, 0xc095f13a, 0x7bd57a3a)
    ensures Line(Registers(0x1c7d7513, 0xbd782e17, 0xc095f13a, 0x7bd57a3a), x, 5)
      == Registers(0x3d1e3e6c, 0xe422531a, 0xeb41643e, 0x68b7b3e3)
  {
    hide Transform, T, OnlyMark;
    Operations1();
    SineRow1();
    MarkWords(x);
  }

  lemma Lines3(x: Block)
    requires OnlyMark(x)
    ensures Line(Registers(0x3d1e3e6c, 0xe422531a, 0xeb41643e, 0x68b7b3e3), x, 6)
      == Registers(0x306ec122, 0xa0572807, 0xa3c663da, 0xd28c77c2)
    ensures Line(Registers(0x306ec122, 0xa0572807, 0xa3c663da, 0xd28c77c2), x, 7)
      == Registers(0x13707036, 0xa2205f1f, 0x1c31c384, 0xae7813db)
  {
    hide Transform, T, OnlyMark;
    Operations1();
    SineRow1();
    MarkWords(x);
  }

  lemma Lines4(x: Block)
    requires OnlyMark(x)
    ensures Line(Registers(0x13707036, 0xa2205f1f, 0x1c31c384, 0xae7813db), x, 8)
      == Registers(0xdf63eaa1, 0x004b6669, 0x12f3e755, 0xc3689f5b)
    ensures Line(Registers(0xdf63eaa1, 0x004b6669, 0x12f3e755, 0xc3689f5b), x, 9)
      == Registers(0x5f7a9b2e, 0xc5dc8c15, 0x91ca4cb7, 0xabc34e16)
  {
    hide Transform, T, OnlyMark;
    Operations2();
    SineRow2();
    MarkWords(x);
  }

  lemma Lines5(x: Block)
    requires OnlyMark(x)
    ensures Line(Registers(0x5f7a9b2e, 0xc5dc8c15, 0x91ca4cb7, 0xabc34e16), x, 10)
      == Registers(0x4497169d, 0x0fe32453, 0xfd95f243, 0x76fd93d4)
    ensures Line(Registers(0x4497169d, 0x0fe32453, 0xfd95f243, 0x76fd93d4), x, 11)
      == Registers(0x3f55edfd, 0xca7d2dbd, 0x68d84ea2, 0x22a31f54)
  {
    hide Transform, T, OnlyMark;
    Operations2();
    SineRow2();
    MarkWords(x);
  }

  lemma Lines6(x: Block)
    requires OnlyMark(x)
    ensures Line(Registers(0x3f55edfd, 0xca7d2dbd, 0x68d84ea2, 0x22a31f54), x, 12)
      == Registers(0x93aa2577, 0x561e0689, 0xcd85b8cb, 0x1688dc85)
    ensures Line(Registers(0x93aa2577, 0x561e0689, 0xcd85b8cb, 0x1688dc85), x, 13)
      == Registers(0x5625a114, 0x1e77fa61, 0x392ad0d0, 0x3450f42b)
  {
    hide Transform, T, OnlyMark;
    Operations3();
    SineRow3();
    MarkWords(x);
  }

  lemma Lines7(x: Block)
    requires OnlyMark(x)
    ensures Line(Registers(0x5625a114, 0x1e77fa61, 0x392ad0d0, 0x3450f42b), x, 14)
      == Registers(0x474a9c8c, 0x30130182, 0x36594b14, 0xdfce00bc)
    ensures Line(Registers(0x474a9c8c, 0x30130182, 0x36594b14, 0xdfce00bc), x, 15)
      == Registers(0x7246fad3, 0x14e45506, 0xff4ea3eb, 0x6e10a476)
  {
    hide Transform, T, OnlyMark;
    Operations3();
    SineRow3();
    MarkWords(x);
  }

  lemma Next(x: Block, g: nat)
    requires g < 16
    ensures Lines(INIT, x, g + 1) == Line(Lines(INIT, x, g), x, g)
  {
    hide Line;
  }

  lemma AllLines(x: Block)
    requires OnlyMark(x)
    ensures Lines(INIT, x, 16) == Registers(0x7246fad3, 0x14e45506, 0xff4ea3eb, 0x6e10a476)
  {
    assert Lines(INIT, x, 0) == INIT;
    hide Lines, Line, OnlyMark;
    Lines0(x);
    Next(x, 0);
    Next(x, 1);
    Lines1(x);
    Next(x, 2);
    Next(x, 3);
    Lines2(x);
    Next(x, 4);
    Next(x, 5);
    Lines3(x);
    Next(x, 6);
    Next(x, 7);
    Lines4(x);
    Next(x, 8);
    Next(x, 9);
    Lines5(x);
    Next(x, 10);
    Next(x, 11);
    Lines6(x);
    Next(x, 12);
    Next(x, 13);
    Lines7(x);
    Next(x, 14);
    Next(x, 15);
  }

  // ---- The digest ----

  lemma PaddedBytes()
    ensures |Padded([])| == 64 && Padded([])[0] == 0x80 && forall i :: 1 <= i < 64 ==> Padded([])[i] == 0
  {
    forall i | 0 <= i < 8
      ensures LittleEndian(0, 8)[i] == 0
    {
      ByteAt(0, 8, i);
    }
    hide LittleEndian;
  }

  lemma PaddedEmpty()
    ensures |Padded([])| == 64 && OnlyMark(WordsOf(Padded([])))
  {
    PaddedBytes();
    hide Padded;
  }

  lemma Total()
    ensures Sum(Registers(0x7246fad3, 0x14e45506, 0xff4ea3eb, 0x6e10a476), INIT)
      == Registers(0xd98c1dd4, 0x04b2008f, 0x980980e9, 0x7e42f8ec)
  {
  }

  lemma OneBlock(r: Registers, bytes: seq<Octet>)
    requires |bytes| == 64
    ensures Absorb(r, bytes) == Sum(Lines(r, WordsOf(bytes), 16), r)
  {
    hide Lines, WordsOf, Sum;
    assert bytes[..64] == bytes && bytes[64..] == [];
    var after := Compress(r, bytes);
    assert Absorb(after, []) == after;
  }

  /** d41d8cd98f00b204e9800998ecf8427e, read as four words. */
  lemma EmptyMessage()
    ensures Digest([]) == Registers(0xd98c1dd4, 0x04b2008f, 0x980980e9, 0x7e42f8ec)
  {
    PaddedEmpty();
    OneBlock(INIT, Padded([]));
    AllLines(WordsOf(Padded([])));
    Total();
    hide Lines, Padded, WordsOf, OnlyMark, Sum, Absorb;
  }
}
