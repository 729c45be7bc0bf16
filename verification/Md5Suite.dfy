/** The first entry of the test suite of RFC 1321 (appendix A.5): the digest of the empty message. */
module Md5Suite {
  import opened Bytes
  import opened Md5

  /** The block of the empty message. */
  function EmptyBlock(): (x: seq<word>)
    ensures |x| == 16 && x[0] == 0x80 && forall i :: 1 <= i < 16 ==> x[i] == 0
  {
    seq(16, i => if i == 0 then 0x80 else 0)
  }

  function EmptyWord(g: nat): word {
    if g == 0 then 0x80 else 0
  }

  /** The registers before operation n. */
  ghost predicate At(n: nat, a: word, b: word, c: word, d: word)
    requires n <= 64
  {
    Turned(a, b, c, d, Operations(START, EmptyBlock(), n), n)
  }

  lemma Begun()
    ensures At(0, 0x67452301, 0xefcdab89, 0x98badcfe, 0x10325476)
  {
    hide Register, Operations;
    AllTurned();
    NoneDone();
  }

  lemma NoneDone()
    ensures Operations(START, EmptyBlock(), 0) == START
  {
    hide Operation, EmptyBlock;
  }

  /** One operation, with the sine it takes. */
  lemma Go(n: nat, a: word, b: word, c: word, d: word, sine: word, next: word)
    requires n < 64 && At(n, a, b, c, d) && Sine(n) == sine
    requires next == NewA(a, b, Aux(n / 16, b, c, d), EmptyWord(CodeWord(n)), sine, ShiftOf(n))
    ensures At(n + 1, d, next, b, c)
  {
    hide Aux, Sine, ShiftOf, WordOf, CodeWord, Register, NewA;
    CodeWordIs(n);
    Turn(n);
  }

  lemma Sines0()
    ensures Sine(0) == 0xd76aa478 && Sine(1) == 0xe8c7b756
    ensures Sine(2) == 0x242070db && Sine(3) == 0xc1bdceee
  {
  }

  lemma Turn0()
    ensures At(4, 0xa5202774, 0x1b163203, 0xe7f06b23, 0xf59592dd)
  {
    hide At, Sine;
    Sines0();
    Begun();
    Go(0, 0x67452301, 0xefcdab89, 0x98badcfe, 0x10325476, 0xd76aa478, 0xa5202774);
    Go(1, 0x10325476, 0xa5202774, 0xefcdab89, 0x98badcfe, 0xe8c7b756, 0xf59592dd);
    Go(2, 0x98badcfe, 0xf59592dd, 0xa5202774, 0xefcdab89, 0x242070db, 0xe7f06b23);
    Go(3, 0xefcdab89, 0xe7f06b23, 0xf59592dd, 0xa5202774, 0xc1bdceee, 0x1b163203);
  }

  lemma Sines1()
    ensures Sine(4) == 0xf57c0faf && Sine(5) == 0x4787c62a
    ensures Sine(6) == 0xa8304613 && Sine(7) == 0xfd469501
  {
  }

  lemma Turn1()
    requires At(4, 0xa5202774, 0x1b163203, 0xe7f06b23, 0xf59592dd)
    ensures At(8, 0x32033344, 0x9bc13ce9, 0xf5b158db, 0x2f35d494)
  {
    hide At, Sine;
    Sines1();
    Go(4, 0xa5202774, 0x1b163203, 0xe7f06b23, 0xf59592dd, 0xf57c0faf, 0x32033344);
    Go(5, 0xf59592dd, 0x32033344, 0x1b163203, 0xe7f06b23, 0x4787c62a, 0x2f35d494);
    Go(6, 0xe7f06b23, 0x2f35d494, 0x32033344, 0x1b163203, 0xa8304613, 0xf5b158db);
    Go(7, 0x1b163203, 0xf5b158db, 0x2f35d494, 0x32033344, 0xfd469501, 0x9bc13ce9);
  }

  lemma Sines2()
    ensures Sine(8) == 0x698098d8 && Sine(9) == 0x8b44f7af
    ensures Sine(10) == 0xffff5bb1 && Sine(11) == 0x895cd7be
  {
  }

  lemma Turn2()
    requires At(8, 0x32033344, 0x9bc13ce9, 0xf5b158db, 0x2f35d494)
    ensures At(12, 0x3893b991, 0x70768a29, 0xe1ef0576, 0xfce4a312)
  {
    hide At, Sine;
    Sines2();
    Go(8, 0x32033344, 0x9bc13ce9, 0xf5b158db, 0x2f35d494, 0x698098d8, 0x3893b991);
    Go(9, 0x2f35d494, 0x3893b991, 0x9bc13ce9, 0xf5b158db, 0x8b44f7af, 0xfce4a312);
    Go(10, 0xf5b158db, 0xfce4a312, 0x3893b991, 0x9bc13ce9, 0xffff5bb1, 0xe1ef0576);
    Go(11, 0x9bc13ce9, 0xe1ef0576, 0xfce4a312, 0x3893b991, 0x895cd7be, 0x70768a29);
  }

  lemma Sines3()
    ensures Sine(12) == 0x6b901122 && Sine(13) == 0xfd987193
    ensures Sine(14) == 0xa679438e && Sine(15) == 0x49b40821
  {
  }

  lemma Turn3()
    requires At(12, 0x3893b991, 0x70768a29, 0xe1ef0576, 0xfce4a312)
    ensures At(16, 0xf56c7cf1, 0xd6819c6a, 0x5aa53f75, 0x374943a7)
  {
    hide At, Sine;
    Sines3();
    Go(12, 0x3893b991, 0x70768a29, 0xe1ef0576, 0xfce4a312, 0x6b901122, 0xf56c7cf1);
    Go(13, 0xfce4a312, 0xf56c7cf1, 0x70768a29, 0xe1ef0576, 0xfd987193, 0x374943a7);
    Go(14, 0xe1ef0576, 0x374943a7, 0xf56c7cf1, 0x70768a29, 0xa679438e, 0x5aa53f75);
    Go(15, 0x70768a29, 0x5aa53f75, 0x374943a7, 0xf56c7cf1, 0x49b40821, 0xd6819c6a);
  }

  lemma Sines4()
    ensures Sine(16) == 0xf61e2562 && Sine(17) == 0xc040b340
    ensures Sine(18) == 0x265e5a51 && Sine(19) == 0xe9b6c7aa
  {
  }

  lemma Turn4()
    requires At(16, 0xf56c7cf1, 0xd6819c6a, 0x5aa53f75, 0x374943a7)
    ensures At(20, 0x1c7d7513, 0xbd782e17, 0xc095f13a, 0x7bd57a3a)
  {
    hide At, Sine;
    Sines4();
    Go(16, 0xf56c7cf1, 0xd6819c6a, 0x5aa53f75, 0x374943a7, 0xf61e2562, 0x1c7d7513);
    Go(17, 0x374943a7, 0x1c7d7513, 0xd6819c6a, 0x5aa53f75, 0xc040b340, 0x7bd57a3a);
    Go(18, 0x5aa53f75, 0x7bd57a3a, 0x1c7d7513, 0xd6819c6a, 0x265e5a51, 0xc095f13a);
    Go(19, 0xd6819c6a, 0xc095f13a, 0x7bd57a3a, 0x1c7d7513, 0xe9b6c7aa, 0xbd782e17);
  }

  lemma Sines5()
    ensures Sine(20) == 0xd62f105d && Sine(21) == 0x02441453
    ensures Sine(22) == 0xd8a1e681 && Sine(23) == 0xe7d3fbc8
  {
  }

  lemma Turn5()
    requires At(20, 0x1c7d7513, 0xbd782e17, 0xc095f13a, 0x7bd57a3a)
    ensures At(24, 0x3d1e3e6c, 0xe422531a, 0xeb41643e, 0x68b7b3e3)
  {
    hide At, Sine;
    Sines5();
    Go(20, 0x1c7d7513, 0xbd782e17, 0xc095f13a, 0x7bd57a3a, 0xd62f105d, 0x3d1e3e6c);
    Go(21, 0x7bd57a3a, 0x3d1e3e6c, 0xbd782e17, 0xc095f13a, 0x02441453, 0x68b7b3e3);
    Go(22, 0xc095f13a, 0x68b7b3e3, 0x3d1e3e6c, 0xbd782e17, 0xd8a1e681, 0xeb41643e);
    Go(23, 0xbd782e17, 0xeb41643e, 0x68b7b3e3, 0x3d1e3e6c, 0xe7d3fbc8, 0xe422531a);
  }

  lemma Sines6()
    ensures Sine(24) == 0x21e1cde6 && Sine(25) == 0xc33707d6
    ensures Sine(26) == 0xf4d50d87 && Sine(27) == 0x455a14ed
  {
  }

  lemma Turn6()
    requires At(24, 0x3d1e3e6c, 0xe422531a, 0xeb41643e, 0x68b7b3e3)
    ensures At(28, 0x306ec122, 0xa0572807, 0xa3c663da, 0xd28c77c2)
  {
    hide At, Sine;
    Sines6();
    Go(24, 0x3d1e3e6c, 0xe422531a, 0xeb41643e, 0x68b7b3e3, 0x21e1cde6, 0x306ec122);
    Go(25, 0x68b7b3e3, 0x306ec122, 0xe422531a, 0xeb41643e, 0xc33707d6, 0xd28c77c2);
    Go(26, 0xeb41643e, 0xd28c77c2, 0x306ec122, 0xe422531a, 0xf4d50d87, 0xa3c663da);
    Go(27, 0xe422531a, 0xa3c663da, 0xd28c77c2, 0x306ec122, 0x455a14ed, 0xa0572807);
  }

  lemma Sines7()
    ensures Sine(28) == 0xa9e3e905 && Sine(29) == 0xfcefa3f8
    ensures Sine(30) == 0x676f02d9 && Sine(31) == 0x8d2a4c8a
  {
  }

  lemma Turn7()
    requires At(28, 0x306ec122, 0xa0572807, 0xa3c663da, 0xd28c77c2)
    ensures At(32, 0x13707036, 0xa2205f1f, 0x1c31c384, 0xae7813db)
  {
    hide At, Sine;
    Sines7();
    Go(28, 0x306ec122, 0xa0572807, 0xa3c663da, 0xd28c77c2, 0xa9e3e905, 0x13707036);
    Go(29, 0xd28c77c2, 0x13707036, 0xa0572807, 0xa3c663da, 0xfcefa3f8, 0xae7813db);
    Go(30, 0xa3c663da, 0xae7813db, 0x13707036, 0xa0572807, 0x676f02d9, 0x1c31c384);
    Go(31, 0xa0572807, 0x1c31c384, 0xae7813db, 0x13707036, 0x8d2a4c8a, 0xa2205f1f);
  }

  lemma Sines8()
    ensures Sine(32) == 0xfffa3942 && Sine(33) == 0x8771f681
    ensures Sine(34) == 0x6d9d6122 && Sine(35) == 0xfde5380c
  {
  }

  lemma Turn8()
    requires At(32, 0x13707036, 0xa2205f1f, 0x1c31c384, 0xae7813db)
    ensures At(36, 0xdf63eaa1, 0x004b6669, 0x12f3e755, 0xc3689f5b)
  {
    hide At, Sine;
    Sines8();
    Go(32, 0x13707036, 0xa2205f1f, 0x1c31c384, 0xae7813db, 0xfffa3942, 0xdf63eaa1);
    Go(33, 0xae7813db, 0xdf63eaa1, 0xa2205f1f, 0x1c31c384, 0x8771f681, 0xc3689f5b);
    Go(34, 0x1c31c384, 0xc3689f5b, 0xdf63eaa1, 0xa2205f1f, 0x6d9d6122, 0x12f3e755);
    Go(35, 0xa2205f1f, 0x12f3e755, 0xc3689f5b, 0xdf63eaa1, 0xfde5380c, 0x004b6669);
  }

  lemma Sines9()
    ensures Sine(36) == 0xa4beea44 && Sine(37) == 0x4bdecfa9
    ensures Sine(38) == 0xf6bb4b60 && Sine(39) == 0xbebfbc70
  {
  }

  lemma Turn9()
    requires At(36, 0xdf63eaa1, 0x004b6669, 0x12f3e755, 0xc3689f5b)
    ensures At(40, 0x5f7a9b2e, 0xc5dc8c15, 0x91ca4cb7, 0xabc34e16)
  {
    hide At, Sine;
    Sines9();
    Go(36, 0xdf63eaa1, 0x004b6669, 0x12f3e755, 0xc3689f5b, 0xa4beea44, 0x5f7a9b2e);
    Go(37, 0xc3689f5b, 0x5f7a9b2e, 0x004b6669, 0x12f3e755, 0x4bdecfa9, 0xabc34e16);
    Go(38, 0x12f3e755, 0xabc34e16, 0x5f7a9b2e, 0x004b6669, 0xf6bb4b60, 0x91ca4cb7);
    Go(39, 0x004b6669, 0x91ca4cb7, 0xabc34e16, 0x5f7a9b2e, 0xbebfbc70, 0xc5dc8c15);
  }

  lemma Sines10()
    ensures Sine(40) == 0x289b7ec6 && Sine(41) == 0xeaa127fa
    ensures Sine(42) == 0xd4ef3085 && Sine(43) == 0x04881d05
  {
  }

  lemma Turn10()
    requires At(40, 0x5f7a9b2e, 0xc5dc8c15, 0x91ca4cb7, 0xabc34e16)
    ensures At(44, 0x4497169d, 0x0fe32453, 0xfd95f243, 0x76fd93d4)
  {
    hide At, Sine;
    Sines10();
    Go(40, 0x5f7a9b2e, 0xc5dc8c15, 0x91ca4cb7, 0xabc34e16, 0x289b7ec6, 0x4497169d);
    Go(41, 0xabc34e16, 0x4497169d, 0xc5dc8c15, 0x91ca4cb7, 0xeaa127fa, 0x76fd93d4);
    Go(42, 0x91ca4cb7, 0x76fd93d4, 0x4497169d, 0xc5dc8c15, 0xd4ef3085, 0xfd95f243);
    Go(43, 0xc5dc8c15, 0xfd95f243, 0x76fd93d4, 0x4497169d, 0x04881d05, 0x0fe32453);
  }

  lemma Sines11()
    ensures Sine(44) == 0xd9d4d039 && Sine(45) == 0xe6db99e5
    ensures Sine(46) == 0x1fa27cf8 && Sine(47) == 0xc4ac5665
  {
  }

  lemma Turn11()
    requires At(44, 0x4497169d, 0x0fe32453, 0xfd95f243, 0x76fd93d4)
    ensures At(48, 0x3f55edfd, 0xca7d2dbd, 0x68d84ea2, 0x22a31f54)
  {
    hide At, Sine;
    Sines11();
    Go(44, 0x4497169d, 0x0fe32453, 0xfd95f243, 0x76fd93d4, 0xd9d4d039, 0x3f55edfd);
    Go(45, 0x76fd93d4, 0x3f55edfd, 0x0fe32453, 0xfd95f243, 0xe6db99e5, 0x22a31f54);
    Go(46, 0xfd95f243, 0x22a31f54, 0x3f55edfd, 0x0fe32453, 0x1fa27cf8, 0x68d84ea2);
    Go(47, 0x0fe32453, 0x68d84ea2, 0x22a31f54, 0x3f55edfd, 0xc4ac5665, 0xca7d2dbd);
  }

  lemma Sines12()
    ensures Sine(48) == 0xf4292244 && Sine(49) == 0x432aff97
    ensures Sine(50) == 0xab9423a7 && Sine(51) == 0xfc93a039
  {
  }

  lemma Turn12()
    requires At(48, 0x3f55edfd, 0xca7d2dbd, 0x68d84ea2, 0x22a31f54)
    ensures At(52, 0x93aa2577, 0x561e0689, 0xcd85b8cb, 0x1688dc85)
  {
    hide At, Sine;
    Sines12();
    Go(48, 0x3f55edfd, 0xca7d2dbd, 0x68d84ea2, 0x22a31f54, 0xf4292244, 0x93aa2577);
    Go(49, 0x22a31f54, 0x93aa2577, 0xca7d2dbd, 0x68d84ea2, 0x432aff97, 0x1688dc85);
    Go(50, 0x68d84ea2, 0x1688dc85, 0x93aa2577, 0xca7d2dbd, 0xab9423a7, 0xcd85b8cb);
    Go(51, 0xca7d2dbd, 0xcd85b8cb, 0x1688dc85, 0x93aa2577, 0xfc93a039, 0x561e0689);
  }

  lemma Sines13()
    ensures Sine(52) == 0x655b59c3 && Sine(53) == 0x8f0ccc92
    ensures Sine(54) == 0xffeff47d && Sine(55) == 0x85845dd1
  {
  }

  lemma Turn13()
    requires At(52, 0x93aa2577, 0x561e0689, 0xcd85b8cb, 0x1688dc85)
    ensures At(56, 0x5625a114, 0x1e77fa61, 0x392ad0d0, 0x3450f42b)
  {
    hide At, Sine;
    Sines13();
    Go(52, 0x93aa2577, 0x561e0689, 0xcd85b8cb, 0x1688dc85, 0x655b59c3, 0x5625a114);
    Go(53, 0x1688dc85, 0x5625a114, 0x561e0689, 0xcd85b8cb, 0x8f0ccc92, 0x3450f42b);
    Go(54, 0xcd85b8cb, 0x3450f42b, 0x5625a114, 0x561e0689, 0xffeff47d, 0x392ad0d0);
    Go(55, 0x561e0689, 0x392ad0d0, 0x3450f42b, 0x5625a114, 0x85845dd1, 0x1e77fa61);
  }

  lemma Sines14()
    ensures Sine(56) == 0x6fa87e4f && Sine(57) == 0xfe2ce6e0
    ensures Sine(58) == 0xa3014314 && Sine(59) == 0x4e0811a1
  {
  }

  lemma Turn14()
    requires At(56, 0x5625a114, 0x1e77fa61, 0x392ad0d0, 0x3450f42b)
    ensures At(60, 0x474a9c8c, 0x30130182, 0x36594b14, 0xdfce00bc)
  {
    hide At, Sine;
    Sines14();
    Go(56, 0x5625a114, 0x1e77fa61, 0x392ad0d0, 0x3450f42b, 0x6fa87e4f, 0x474a9c8c);
    Go(57, 0x3450f42b, 0x474a9c8c, 0x1e77fa61, 0x392ad0d0, 0xfe2ce6e0, 0xdfce00bc);
    Go(58, 0x392ad0d0, 0xdfce00bc, 0x474a9c8c, 0x1e77fa61, 0xa3014314, 0x36594b14);
    Go(59, 0x1e77fa61, 0x36594b14, 0xdfce00bc, 0x474a9c8c, 0x4e0811a1, 0x30130182);
  }

  lemma Sines15()
    ensures Sine(60) == 0xf7537e82 && Sine(61) == 0xbd3af235
    ensures Sine(62) == 0x2ad7d2bb && Sine(63) == 0xeb86d391
  {
  }

  lemma Turn15()
    requires At(60, 0x474a9c8c, 0x30130182, 0x36594b14, 0xdfce00bc)
    ensures At(64, 0x7246fad3, 0x14e45506, 0xff4ea3eb, 0x6e10a476)
  {
    hide At, Sine;
    Sines15();
    Go(60, 0x474a9c8c, 0x30130182, 0x36594b14, 0xdfce00bc, 0xf7537e82, 0x7246fad3);
    Go(61, 0xdfce00bc, 0x7246fad3, 0x30130182, 0x36594b14, 0xbd3af235, 0x6e10a476);
    Go(62, 0x36594b14, 0x6e10a476, 0x7246fad3, 0x30130182, 0x2ad7d2bb, 0xff4ea3eb);
    Go(63, 0x30130182, 0xff4ea3eb, 0x6e10a476, 0x7246fad3, 0xeb86d391, 0x14e45506);
  }

  lemma AllOperations()
    ensures At(64, 0x7246fad3, 0x14e45506, 0xff4ea3eb, 0x6e10a476)
  {
    hide At;
    Turn0();
    Turn1();
    Turn2();
    Turn3();
    Turn4();
    Turn5();
    Turn6();
    Turn7();
    Turn8();
    Turn9();
    Turn10();
    Turn11();
    Turn12();
    Turn13();
    Turn14();
    Turn15();
  }

  lemma EmptyProcessed()
    ensures Process(START, EmptyBlock()) == [0xd98c1dd4, 0x04b2008f, 0x980980e9, 0x7e42f8ec]
  {
    hide Operations, Register;
    AllOperations();
    AllTurned();
    Added();
  }

  lemma Added()
    ensures Add(0x67452301, 0x7246fad3) == 0xd98c1dd4 && Add(0xefcdab89, 0x14e45506) == 0x04b2008f
    ensures Add(0x98badcfe, 0xff4ea3eb) == 0x980980e9 && Add(0x10325476, 0x6e10a476) == 0x7e42f8ec
  {
  }

  /** The empty message is one block: the bit 1, and zeros to its end. */
  lemma EmptyPadded()
    ensures |PaddedOf([])| == 64 && BlockAt(PaddedOf([]), 0) == EmptyBlock()
  {
    hide PaddedOf, WordSum, EmptyBlock;
    var p, x := PaddedOf([]), EmptyBlock();
    EmptyBytes();
    EmptySums();
    forall i | 0 <= i < 16 ensures WordAt(p, 4 * i) == x[i] {
      assert p[4 * i] == (if i == 0 then 0x80 else 0) && p[4 * i + 1] == p[4 * i + 2] == p[4 * i + 3] == 0;
    }
    assert forall i :: 0 <= i < 16 ==> BlockAt(p, 0)[i] == WordAt(p, 0 + 4 * i);
  }

  lemma EmptyBytes()
    ensures |PaddedOf([])| == 64 && forall i :: 0 <= i < 64 ==> PaddedOf([])[i] == if i == 0 then 0x80 else 0
  {
    hide PaddedOf, ByteAt;
    assert PaddedLength(0) == 64;
    forall i | 0 <= i < 64 ensures PaddedOf([])[i] == if i == 0 then 0x80 else 0 { EmptyByte(i); }
  }

  lemma EmptyByte(i: nat)
    requires i < PaddedLength(0)
    ensures ByteAt([], i) == if i == 0 then 0x80 else 0
  {
    hide Byte, Pow256;
    if i >= 56 { NoLength(Pow256(i - 56)); }
  }

  lemma NoLength(p: nat)
    requires p >= 1
    ensures Byte(0 / p % 256) == 0
  {
    assert 0 / p == 0;
  }

  lemma EmptySums()
    ensures WordSum(0x80, 0, 0, 0) == 0x80 && WordSum(0, 0, 0, 0) == 0
  {
  }

  /** d41d8cd98f00b204e9800998ecf8427e. */
  lemma EmptyDigest()
    ensures DigestBytes(Digest(PaddedOf([]), |PaddedOf([])| / 64))
         == [0xd4, 0x1d, 0x8c, 0xd9, 0x8f, 0x00, 0xb2, 0x04, 0xe9, 0x80, 0x09, 0x98, 0xec, 0xf8, 0x42, 0x7e]
  {
    hide PaddedOf, BlockAt, Process, WordBytesOf, EmptyBlock;
    EmptyPadded();
    EmptyProcessed();
    OneBlock();
    DigestWords();
  }

  lemma OneBlock()
    requires |PaddedOf([])| == 64
    ensures Digest(PaddedOf([]), 1) == Process(START, BlockAt(PaddedOf([]), 0))
  {
    hide PaddedOf, BlockAt, Process;
    assert Digest(PaddedOf([]), 0) == START;
  }

  lemma DigestWords()
    ensures WordBytesOf(0xd98c1dd4) == [0xd4, 0x1d, 0x8c, 0xd9] && WordBytesOf(0x04b2008f) == [0x8f, 0x00, 0xb2, 0x04]
    ensures WordBytesOf(0x980980e9) == [0xe9, 0x80, 0x09, 0x98] && WordBytesOf(0x7e42f8ec) == [0xec, 0xf8, 0x42, 0x7e]
  {
  }
}
