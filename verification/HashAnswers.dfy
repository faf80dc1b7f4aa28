/** What the standards list out and answer, against the formulas of the model: MD5's 64 operations, the
    roots that SHA-256's constants come from, the length as a number, and the digests of "abc". */
module HashAnswers {
  import opened HashStandards
  import StreamingHash

  // ---- MD5: the 64 operations as RFC 1321 section 3.4 lists them

  lemma Md5FourSteps(r: Md5Registers, x: seq<Word>, n: nat)
    requires |x| == 16 && n <= 60
    ensures Md5Steps(r, x, n + 4)
            == Md5Step(Md5Step(Md5Step(Md5Step(Md5Steps(r, x, n), x, n), x, n + 1), x, n + 2), x, n + 3)
  {
    hide Md5Step;
    assert Md5Steps(r, x, n + 3) == Md5Step(Md5Steps(r, x, n + 2), x, n + 2);
  }

  /** Round 1: which word, which constant and which amount each of its sixteen operations takes. */
  function Md5Round1(r: Md5Registers, x: seq<Word>): Md5Registers
    requires |x| == 16
  {
    var r := Md5Operation(0, r, x[0], 0xd76aa478, 7);
    var r := Md5Operation(1, r, x[1], 0xe8c7b756, 12);
    var r := Md5Operation(2, r, x[2], 0x242070db, 17);
    var r := Md5Operation(3, r, x[3], 0xc1bdceee, 22);
    var r := Md5Operation(4, r, x[4], 0xf57c0faf, 7);
    var r := Md5Operation(5, r, x[5], 0x4787c62a, 12);
    var r := Md5Operation(6, r, x[6], 0xa8304613, 17);
    var r := Md5Operation(7, r, x[7], 0xfd469501, 22);
    var r := Md5Operation(8, r, x[8], 0x698098d8, 7);
    var r := Md5Operation(9, r, x[9], 0x8b44f7af, 12);
    var r := Md5Operation(10, r, x[10], 0xffff5bb1, 17);
    var r := Md5Operation(11, r, x[11], 0x895cd7be, 22);
    var r := Md5Operation(12, r, x[12], 0x6b901122, 7);
    var r := Md5Operation(13, r, x[13], 0xfd987193, 12);
    var r := Md5Operation(14, r, x[14], 0xa679438e, 17);
    var r := Md5Operation(15, r, x[15], 0x49b40821, 22);
    r
  }

  lemma Md5Round1IsListed(r: Md5Registers, x: seq<Word>)
    requires |x| == 16
    ensures Md5Steps(r, x, 16) == Md5Round1(Md5Steps(r, x, 0), x)
  {
    hide Md5Operation, Md5T, Md5Shift, Md5Steps, Md5Index;
    Md5Words1();
    Md5Table1();
    Md5FourSteps(r, x, 0);
    Md5FourSteps(r, x, 4);
    Md5FourSteps(r, x, 8);
    Md5FourSteps(r, x, 12);
  }

  lemma Md5Words1()
    ensures Md5Index(0) == 0 && Md5Index(1) == 1 && Md5Index(2) == 2 && Md5Index(3) == 3
    ensures Md5Index(4) == 4 && Md5Index(5) == 5 && Md5Index(6) == 6 && Md5Index(7) == 7
    ensures Md5Index(8) == 8 && Md5Index(9) == 9 && Md5Index(10) == 10 && Md5Index(11) == 11
    ensures Md5Index(12) == 12 && Md5Index(13) == 13 && Md5Index(14) == 14 && Md5Index(15) == 15
  {
  }

  lemma Md5Table1()
    ensures Md5T(0) == 0xd76aa478 && Md5T(1) == 0xe8c7b756 && Md5T(2) == 0x242070db && Md5T(3) == 0xc1bdceee
    ensures Md5T(4) == 0xf57c0faf && Md5T(5) == 0x4787c62a && Md5T(6) == 0xa8304613 && Md5T(7) == 0xfd469501
    ensures Md5T(8) == 0x698098d8 && Md5T(9) == 0x8b44f7af && Md5T(10) == 0xffff5bb1 && Md5T(11) == 0x895cd7be
    ensures Md5T(12) == 0x6b901122 && Md5T(13) == 0xfd987193 && Md5T(14) == 0xa679438e && Md5T(15) == 0x49b40821
    ensures Md5Shift(0) == 7 && Md5Shift(1) == 12 && Md5Shift(2) == 17 && Md5Shift(3) == 22
    ensures Md5Shift(4) == 7 && Md5Shift(5) == 12 && Md5Shift(6) == 17 && Md5Shift(7) == 22
    ensures Md5Shift(8) == 7 && Md5Shift(9) == 12 && Md5Shift(10) == 17 && Md5Shift(11) == 22
    ensures Md5Shift(12) == 7 && Md5Shift(13) == 12 && Md5Shift(14) == 17 && Md5Shift(15) == 22
  {
  }

  lemma Md5AbcRuns1()
    ensures Md5Operation(3, Md5Operation(2, Md5Operation(1, Md5Operation(0,
      Md5Registers(0x67452301, 0xefcdab89, 0x98badcfe, 0x10325476),
      0x80636261, 0xd76aa478, 7), 0x00000000, 0xe8c7b756, 12), 0x00000000, 0x242070db, 17), 0x00000000, 0xc1bdceee, 22)
            == Md5Registers(0xd6d117b4, 0x7ad956f2, 0x2f6fbd72, 0x344a8432)
    ensures Md5Operation(7, Md5Operation(6, Md5Operation(5, Md5Operation(4,
      Md5Registers(0xd6d117b4, 0x7ad956f2, 0x2f6fbd72, 0x344a8432),
      0x00000000, 0xf57c0faf, 7), 0x00000000, 0x4787c62a, 12), 0x00000000, 0xa8304613, 17), 0x00000000, 0xfd469501, 22)
            == Md5Registers(0xc73741ef, 0x928d99f6, 0x207dc67b, 0x8bac3051)
    ensures Md5Operation(11, Md5Operation(10, Md5Operation(9, Md5Operation(8,
      Md5Registers(0xc73741ef, 0x928d99f6, 0x207dc67b, 0x8bac3051),
      0x00000000, 0x698098d8, 7), 0x00000000, 0x8b44f7af, 12), 0x00000000, 0xffff5bb1, 17), 0x00000000, 0x895cd7be, 22)
            == Md5Registers(0x854b3712, 0x5ed49596, 0x3020401c, 0x74e2f284)
    ensures Md5Operation(15, Md5Operation(14, Md5Operation(13, Md5Operation(12,
      Md5Registers(0x854b3712, 0x5ed49596, 0x3020401c, 0x74e2f284),
      0x00000000, 0x6b901122, 7), 0x00000000, 0xfd987193, 12), 0x00000018, 0xa679438e, 17), 0x00000000, 0x49b40821, 22)
            == Md5Registers(0xdda9b9a6, 0x72aff2e0, 0xe396856b, 0xa1051895)
  {
  }

  lemma Md5AbcRound1(x: seq<Word>)
    requires AbcLittleEndian(x)
    ensures Md5Round1(Md5Registers(0x67452301, 0xefcdab89, 0x98badcfe, 0x10325476), x)
            == Md5Registers(0xdda9b9a6, 0x72aff2e0, 0xe396856b, 0xa1051895)
  {
    hide Md5Operation;
    Md5AbcRuns1();
  }

  /** Round 2: which word, which constant and which amount each of its sixteen operations takes. */
  function Md5Round2(r: Md5Registers, x: seq<Word>): Md5Registers
    requires |x| == 16
  {
    var r := Md5Operation(16, r, x[1], 0xf61e2562, 5);
    var r := Md5Operation(17, r, x[6], 0xc040b340, 9);
    var r := Md5Operation(18, r, x[11], 0x265e5a51, 14);
    var r := Md5Operation(19, r, x[0], 0xe9b6c7aa, 20);
    var r := Md5Operation(20, r, x[5], 0xd62f105d, 5);
    var r := Md5Operation(21, r, x[10], 0x02441453, 9);
    var r := Md5Operation(22, r, x[15], 0xd8a1e681, 14);
    var r := Md5Operation(23, r, x[4], 0xe7d3fbc8, 20);
    var r := Md5Operation(24, r, x[9], 0x21e1cde6, 5);
    var r := Md5Operation(25, r, x[14], 0xc33707d6, 9);
    var r := Md5Operation(26, r, x[3], 0xf4d50d87, 14);
    var r := Md5Operation(27, r, x[8], 0x455a14ed, 20);
    var r := Md5Operation(28, r, x[13], 0xa9e3e905, 5);
    var r := Md5Operation(29, r, x[2], 0xfcefa3f8, 9);
    var r := Md5Operation(30, r, x[7], 0x676f02d9, 14);
    var r := Md5Operation(31, r, x[12], 0x8d2a4c8a, 20);
    r
  }

  lemma Md5Round2IsListed(r: Md5Registers, x: seq<Word>)
    requires |x| == 16
    ensures Md5Steps(r, x, 32) == Md5Round2(Md5Steps(r, x, 16), x)
  {
    hide Md5Operation, Md5T, Md5Shift, Md5Steps, Md5Index;
    Md5Words2();
    Md5Table2();
    Md5FourSteps(r, x, 16);
    Md5FourSteps(r, x, 20);
    Md5FourSteps(r, x, 24);
    Md5FourSteps(r, x, 28);
  }

  lemma Md5Words2()
    ensures Md5Index(16) == 1 && Md5Index(17) == 6 && Md5Index(18) == 11 && Md5Index(19) == 0
    ensures Md5Index(20) == 5 && Md5Index(21) == 10 && Md5Index(22) == 15 && Md5Index(23) == 4
    ensures Md5Index(24) == 9 && Md5Index(25) == 14 && Md5Index(26) == 3 && Md5Index(27) == 8
    ensures Md5Index(28) == 13 && Md5Index(29) == 2 && Md5Index(30) == 7 && Md5Index(31) == 12
  {
  }

  lemma Md5Table2()
    ensures Md5T(16) == 0xf61e2562 && Md5T(17) == 0xc040b340 && Md5T(18) == 0x265e5a51 && Md5T(19) == 0xe9b6c7aa
    ensures Md5T(20) == 0xd62f105d && Md5T(21) == 0x02441453 && Md5T(22) == 0xd8a1e681 && Md5T(23) == 0xe7d3fbc8
    ensures Md5T(24) == 0x21e1cde6 && Md5T(25) == 0xc33707d6 && Md5T(26) == 0xf4d50d87 && Md5T(27) == 0x455a14ed
    ensures Md5T(28) == 0xa9e3e905 && Md5T(29) == 0xfcefa3f8 && Md5T(30) == 0x676f02d9 && Md5T(31) == 0x8d2a4c8a
    ensures Md5Shift(16) == 5 && Md5Shift(17) == 9 && Md5Shift(18) == 14 && Md5Shift(19) == 20
    ensures Md5Shift(20) == 5 && Md5Shift(21) == 9 && Md5Shift(22) == 14 && Md5Shift(23) == 20
    ensures Md5Shift(24) == 5 && Md5Shift(25) == 9 && Md5Shift(26) == 14 && Md5Shift(27) == 20
    ensures Md5Shift(28) == 5 && Md5Shift(29) == 9 && Md5Shift(30) == 14 && Md5Shift(31) == 20
  {
  }

  lemma Md5AbcRuns2()
    ensures Md5Operation(19, Md5Operation(18, Md5Operation(17, Md5Operation(16,
      Md5Registers(0xdda9b9a6, 0x72aff2e0, 0xe396856b, 0xa1051895),
      0x00000000, 0xf61e2562, 5), 0x00000000, 0xc040b340, 9), 0x00000000, 0x265e5a51, 14), 0x80636261, 0xe9b6c7aa, 20)
            == Md5Registers(0x3e9e9126, 0xb5b204e4, 0xe25e1652, 0x4a1d804e)
    ensures Md5Operation(23, Md5Operation(22, Md5Operation(21, Md5Operation(20,
      Md5Registers(0x3e9e9126, 0xb5b204e4, 0xe25e1652, 0x4a1d804e),
      0x00000000, 0xd62f105d, 5), 0x00000000, 0x02441453, 9), 0x00000000, 0xd8a1e681, 14), 0x00000000, 0xe7d3fbc8, 20)
            == Md5Registers(0x59a8ffda, 0x47092c07, 0xabfc7920, 0x6d002f1e)
    ensures Md5Operation(27, Md5Operation(26, Md5Operation(25, Md5Operation(24,
      Md5Registers(0x59a8ffda, 0x47092c07, 0xabfc7920, 0x6d002f1e),
      0x00000000, 0x21e1cde6, 5), 0x00000018, 0xc33707d6, 9), 0x00000000, 0xf4d50d87, 14), 0x00000000, 0x455a14ed, 20)
            == Md5Registers(0xb7f268cf, 0x786acb8f, 0xfe1623b1, 0x09388eff)
    ensures Md5Operation(31, Md5Operation(30, Md5Operation(29, Md5Operation(28,
      Md5Registers(0xb7f268cf, 0x786acb8f, 0xfe1623b1, 0x09388eff),
      0x00000000, 0xa9e3e905, 5), 0x00000000, 0xfcefa3f8, 9), 0x00000000, 0x676f02d9, 14), 0x00000000, 0x8d2a4c8a, 20)
            == Md5Registers(0x790a77fb, 0x726342d3, 0xa62884aa, 0x9f47e4f8)
  {
  }

  lemma Md5AbcRound2(x: seq<Word>)
    requires AbcLittleEndian(x)
    ensures Md5Round2(Md5Registers(0xdda9b9a6, 0x72aff2e0, 0xe396856b, 0xa1051895), x)
            == Md5Registers(0x790a77fb, 0x726342d3, 0xa62884aa, 0x9f47e4f8)
  {
    hide Md5Operation;
    Md5AbcRuns2();
  }

  /** Round 3: which word, which constant and which amount each of its sixteen operations takes. */
  function Md5Round3(r: Md5Registers, x: seq<Word>): Md5Registers
    requires |x| == 16
  {
    var r := Md5Operation(32, r, x[5], 0xfffa3942, 4);
    var r := Md5Operation(33, r, x[8], 0x8771f681, 11);
    var r := Md5Operation(34, r, x[11], 0x6d9d6122, 16);
    var r := Md5Operation(35, r, x[14], 0xfde5380c, 23);
    var r := Md5Operation(36, r, x[1], 0xa4beea44, 4);
    var r := Md5Operation(37, r, x[4], 0x4bdecfa9, 11);
    var r := Md5Operation(38, r, x[7], 0xf6bb4b60, 16);
    var r := Md5Operation(39, r, x[10], 0xbebfbc70, 23);
    var r := Md5Operation(40, r, x[13], 0x289b7ec6, 4);
    var r := Md5Operation(41, r, x[0], 0xeaa127fa, 11);
    var r := Md5Operation(42, r, x[3], 0xd4ef3085, 16);
    var r := Md5Operation(43, r, x[6], 0x04881d05, 23);
    var r := Md5Operation(44, r, x[9], 0xd9d4d039, 4);
    var r := Md5Operation(45, r, x[12], 0xe6db99e5, 11);
    var r := Md5Operation(46, r, x[15], 0x1fa27cf8, 16);
    var r := Md5Operation(47, r, x[2], 0xc4ac5665, 23);
    r
  }

  lemma Md5Round3IsListed(r: Md5Registers, x: seq<Word>)
    requires |x| == 16
    ensures Md5Steps(r, x, 48) == Md5Round3(Md5Steps(r, x, 32), x)
  {
    hide Md5Operation, Md5T, Md5Shift, Md5Steps, Md5Index;
    Md5Words3();
    Md5Table3();
    Md5FourSteps(r, x, 32);
    Md5FourSteps(r, x, 36);
    Md5FourSteps(r, x, 40);
    Md5FourSteps(r, x, 44);
  }

  lemma Md5Words3()
    ensures Md5Index(32) == 5 && Md5Index(33) == 8 && Md5Index(34) == 11 && Md5Index(35) == 14
    ensures Md5Index(36) == 1 && Md5Index(37) == 4 && Md5Index(38) == 7 && Md5Index(39) == 10
    ensures Md5Index(40) == 13 && Md5Index(41) == 0 && Md5Index(42) == 3 && Md5Index(43) == 6
    ensures Md5Index(44) == 9 && Md5Index(45) == 12 && Md5Index(46) == 15 && Md5Index(47) == 2
  {
  }

  lemma Md5Table3()
    ensures Md5T(32) == 0xfffa3942 && Md5T(33) == 0x8771f681 && Md5T(34) == 0x6d9d6122 && Md5T(35) == 0xfde5380c
    ensures Md5T(36) == 0xa4beea44 && Md5T(37) == 0x4bdecfa9 && Md5T(38) == 0xf6bb4b60 && Md5T(39) == 0xbebfbc70
    ensures Md5T(40) == 0x289b7ec6 && Md5T(41) == 0xeaa127fa && Md5T(42) == 0xd4ef3085 && Md5T(43) == 0x04881d05
    ensures Md5T(44) == 0xd9d4d039 && Md5T(45) == 0xe6db99e5 && Md5T(46) == 0x1fa27cf8 && Md5T(47) == 0xc4ac5665
    ensures Md5Shift(32) == 4 && Md5Shift(33) == 11 && Md5Shift(34) == 16 && Md5Shift(35) == 23
    ensures Md5Shift(36) == 4 && Md5Shift(37) == 11 && Md5Shift(38) == 16 && Md5Shift(39) == 23
    ensures Md5Shift(40) == 4 && Md5Shift(41) == 11 && Md5Shift(42) == 16 && Md5Shift(43) == 23
    ensures Md5Shift(44) == 4 && Md5Shift(45) == 11 && Md5Shift(46) == 16 && Md5Shift(47) == 23
  {
  }

  lemma Md5AbcRuns3()
    ensures Md5Operation(35, Md5Operation(34, Md5Operation(33, Md5Operation(32,
      Md5Registers(0x790a77fb, 0x726342d3, 0xa62884aa, 0x9f47e4f8),
      0x00000000, 0xfffa3942, 4), 0x00000000, 0x8771f681, 11), 0x00000000, 0x6d9d6122, 16), 0x00000018, 0xfde5380c, 23)
            == Md5Registers(0xb3707ebf, 0x3b0875c7, 0x8d212ff5, 0x60127b2e)
    ensures Md5Operation(39, Md5Operation(38, Md5Operation(37, Md5Operation(36,
      Md5Registers(0xb3707ebf, 0x3b0875c7, 0x8d212ff5, 0x60127b2e),
      0x00000000, 0xa4beea44, 4), 0x00000000, 0x4bdecfa9, 11), 0x00000000, 0xf6bb4b60, 16), 0x00000000, 0xbebfbc70, 23)
            == Md5Registers(0x21b117b9, 0x5a2f5ea5, 0x3575227e, 0x6e7429d5)
    ensures Md5Operation(43, Md5Operation(42, Md5Operation(41, Md5Operation(40,
      Md5Registers(0x21b117b9, 0x5a2f5ea5, 0x3575227e, 0x6e7429d5),
      0x00000000, 0x289b7ec6, 4), 0x80636261, 0xeaa127fa, 11), 0x00000000, 0xd4ef3085, 16), 0x00000000, 0x04881d05, 23)
            == Md5Registers(0x11de1779, 0x4c6124f4, 0x31c465ca, 0xfadcaa38)
    ensures Md5Operation(47, Md5Operation(46, Md5Operation(45, Md5Operation(44,
      Md5Registers(0x11de1779, 0x4c6124f4, 0x31c465ca, 0xfadcaa38),
      0x00000000, 0xd9d4d039, 4), 0x00000000, 0xe6db99e5, 11), 0x00000000, 0x1fa27cf8, 16), 0x00000000, 0xc4ac5665, 23)
            == Md5Registers(0x7f2e507b, 0x7beb9700, 0x8fae6399, 0x99d9679d)
  {
  }

  lemma Md5AbcRound3(x: seq<Word>)
    requires AbcLittleEndian(x)
    ensures Md5Round3(Md5Registers(0x790a77fb, 0x726342d3, 0xa62884aa, 0x9f47e4f8), x)
            == Md5Registers(0x7f2e507b, 0x7beb9700, 0x8fae6399, 0x99d9679d)
  {
    hide Md5Operation;
    Md5AbcRuns3();
  }

  /** Round 4: which word, which constant and which amount each of its sixteen operations takes. */
  function Md5Round4(r: Md5Registers, x: seq<Word>): Md5Registers
    requires |x| == 16
  {
    var r := Md5Operation(48, r, x[0], 0xf4292244, 6);
    var r := Md5Operation(49, r, x[7], 0x432aff97, 10);
    var r := Md5Operation(50, r, x[14], 0xab9423a7, 15);
    var r := Md5Operation(51, r, x[5], 0xfc93a039, 21);
    var r := Md5Operation(52, r, x[12], 0x655b59c3, 6);
    var r := Md5Operation(53, r, x[3], 0x8f0ccc92, 10);
    var r := Md5Operation(54, r, x[10], 0xffeff47d, 15);
    var r := Md5Operation(55, r, x[1], 0x85845dd1, 21);
    var r := Md5Operation(56, r, x[8], 0x6fa87e4f, 6);
    var r := Md5Operation(57, r, x[15], 0xfe2ce6e0, 10);
    var r := Md5Operation(58, r, x[6], 0xa3014314, 15);
    var r := Md5Operation(59, r, x[13], 0x4e0811a1, 21);
    var r := Md5Operation(60, r, x[4], 0xf7537e82, 6);
    var r := Md5Operation(61, r, x[11], 0xbd3af235, 10);
    var r := Md5Operation(62, r, x[2], 0x2ad7d2bb, 15);
    var r := Md5Operation(63, r, x[9], 0xeb86d391, 21);
    r
  }

  lemma Md5Round4IsListed(r: Md5Registers, x: seq<Word>)
    requires |x| == 16
    ensures Md5Steps(r, x, 64) == Md5Round4(Md5Steps(r, x, 48), x)
  {
    hide Md5Operation, Md5T, Md5Shift, Md5Steps, Md5Index;
    Md5Words4();
    Md5Table4();
    Md5FourSteps(r, x, 48);
    Md5FourSteps(r, x, 52);
    Md5FourSteps(r, x, 56);
    Md5FourSteps(r, x, 60);
  }

  lemma Md5Words4()
    ensures Md5Index(48) == 0 && Md5Index(49) == 7 && Md5Index(50) == 14 && Md5Index(51) == 5
    ensures Md5Index(52) == 12 && Md5Index(53) == 3 && Md5Index(54) == 10 && Md5Index(55) == 1
    ensures Md5Index(56) == 8 && Md5Index(57) == 15 && Md5Index(58) == 6 && Md5Index(59) == 13
    ensures Md5Index(60) == 4 && Md5Index(61) == 11 && Md5Index(62) == 2 && Md5Index(63) == 9
  {
  }

  lemma Md5Table4()
    ensures Md5T(48) == 0xf4292244 && Md5T(49) == 0x432aff97 && Md5T(50) == 0xab9423a7 && Md5T(51) == 0xfc93a039
    ensures Md5T(52) == 0x655b59c3 && Md5T(53) == 0x8f0ccc92 && Md5T(54) == 0xffeff47d && Md5T(55) == 0x85845dd1
    ensures Md5T(56) == 0x6fa87e4f && Md5T(57) == 0xfe2ce6e0 && Md5T(58) == 0xa3014314 && Md5T(59) == 0x4e0811a1
    ensures Md5T(60) == 0xf7537e82 && Md5T(61) == 0xbd3af235 && Md5T(62) == 0x2ad7d2bb && Md5T(63) == 0xeb86d391
    ensures Md5Shift(48) == 6 && Md5Shift(49) == 10 && Md5Shift(50) == 15 && Md5Shift(51) == 21
    ensures Md5Shift(52) == 6 && Md5Shift(53) == 10 && Md5Shift(54) == 15 && Md5Shift(55) == 21
    ensures Md5Shift(56) == 6 && Md5Shift(57) == 10 && Md5Shift(58) == 15 && Md5Shift(59) == 21
    ensures Md5Shift(60) == 6 && Md5Shift(61) == 10 && Md5Shift(62) == 15 && Md5Shift(63) == 21
  {
  }

  lemma Md5AbcRuns4()
    ensures Md5Operation(51, Md5Operation(50, Md5Operation(49, Md5Operation(48,
      Md5Registers(0x7f2e507b, 0x7beb9700, 0x8fae6399, 0x99d9679d),
      0x80636261, 0xf4292244, 6), 0x00000000, 0x432aff97, 10), 0x00000018, 0xab9423a7, 15), 0x00000000, 0xfc93a039, 21)
            == Md5Registers(0x7b201df8, 0x8bf025c4, 0xb298cefd, 0xf4e8e96e)
    ensures Md5Operation(55, Md5Operation(54, Md5Operation(53, Md5Operation(52,
      Md5Registers(0x7b201df8, 0x8bf025c4, 0xb298cefd, 0xf4e8e96e),
      0x00000000, 0x655b59c3, 6), 0x00000000, 0x8f0ccc92, 10), 0x00000000, 0xffeff47d, 15), 0x00000000, 0x85845dd1, 21)
            == Md5Registers(0x06cc5e8a, 0x3bfa2c27, 0x7d632dd0, 0x5b0d97aa)
    ensures Md5Operation(59, Md5Operation(58, Md5Operation(57, Md5Operation(56,
      Md5Registers(0x06cc5e8a, 0x3bfa2c27, 0x7d632dd0, 0x5b0d97aa),
      0x00000000, 0x6fa87e4f, 6), 0x00000000, 0xfe2ce6e0, 10), 0x00000000, 0xa3014314, 15), 0x00000000, 0x4e0811a1, 21)
            == Md5Registers(0x7f81cc35, 0x7327d604, 0x4f9dbe3f, 0x094454ab)
    ensures Md5Operation(63, Md5Operation(62, Md5Operation(61, Md5Operation(60,
      Md5Registers(0x7f81cc35, 0x7327d604, 0x4f9dbe3f, 0x094454ab),
      0x00000000, 0xf7537e82, 6), 0x00000000, 0xbd3af235, 10), 0x00000000, 0x2ad7d2bb, 15), 0x00000000, 0xeb86d391, 21)
            == Md5Registers(0x310ade8f, 0xc08226b3, 0xe484b9d8, 0x624d8cb2)
  {
  }

  lemma Md5AbcRound4(x: seq<Word>)
    requires AbcLittleEndian(x)
    ensures Md5Round4(Md5Registers(0x7f2e507b, 0x7beb9700, 0x8fae6399, 0x99d9679d), x)
            == Md5Registers(0x310ade8f, 0xc08226b3, 0xe484b9d8, 0x624d8cb2)
  {
    hide Md5Operation;
    Md5AbcRuns4();
  }

  /** The words of the one block of "abc", least significant byte first. */
  predicate AbcLittleEndian(x: seq<Word>) {
    |x| == 16 && x[0] == 0x80636261 && x[14] == 24 && forall i :: 0 < i < 16 && i != 14 ==> x[i] == 0
  }

  // ---- SHA-1 of "abc", sixteen steps at a time

  /** The same, most significant byte first. */
  predicate AbcBigEndian(block: seq<Byte>) {
    |block| == 64 && BlockWord(block, 0) == 0x61626380 && BlockWord(block, 15) == 24
    && forall t :: 0 < t < 15 ==> BlockWord(block, t) == 0
  }

  function Sha1Four(r: Sha1Registers, t: nat, w0: Word, w1: Word, w2: Word, w3: Word): Sha1Registers {
    Sha1Step(Sha1Step(Sha1Step(Sha1Step(r, t, w0), t + 1, w1), t + 2, w2), t + 3, w3)
  }

  lemma Sha1FourSteps(r: Sha1Registers, block: seq<Byte>, n: nat)
    requires |block| == 64
    ensures Sha1Steps(r, block, n + 4)
            == Sha1Four(Sha1Steps(r, block, n), n, Sha1Schedule(block, n), Sha1Schedule(block, n + 1),
                        Sha1Schedule(block, n + 2), Sha1Schedule(block, n + 3))
  {
    hide Sha1Step, Sha1Schedule;
    assert Sha1Steps(r, block, n + 1) == Sha1Step(Sha1Steps(r, block, n), n, Sha1Schedule(block, n));
    assert Sha1Steps(r, block, n + 2) == Sha1Step(Sha1Steps(r, block, n + 1), n + 1, Sha1Schedule(block, n + 1));
    assert Sha1Steps(r, block, n + 3) == Sha1Step(Sha1Steps(r, block, n + 2), n + 2, Sha1Schedule(block, n + 2));
  }

  lemma Sha1AbcWords1(block: seq<Byte>)
    requires AbcBigEndian(block)
    ensures Sha1Schedule(block, 0) == 0x61626380 && Sha1Schedule(block, 1) == 0x00000000
    ensures Sha1Schedule(block, 2) == 0x00000000 && Sha1Schedule(block, 3) == 0x00000000
    ensures Sha1Schedule(block, 4) == 0x00000000 && Sha1Schedule(block, 5) == 0x00000000
    ensures Sha1Schedule(block, 6) == 0x00000000 && Sha1Schedule(block, 7) == 0x00000000
    ensures Sha1Schedule(block, 8) == 0x00000000 && Sha1Schedule(block, 9) == 0x00000000
    ensures Sha1Schedule(block, 10) == 0x00000000 && Sha1Schedule(block, 11) == 0x00000000
    ensures Sha1Schedule(block, 12) == 0x00000000 && Sha1Schedule(block, 13) == 0x00000000
    ensures Sha1Schedule(block, 14) == 0x00000000 && Sha1Schedule(block, 15) == 0x00000018
  {
  }

  lemma Sha1AbcWords2(block: seq<Byte>)
    requires AbcBigEndian(block)
    ensures Sha1Schedule(block, 16) == 0xc2c4c700 && Sha1Schedule(block, 17) == 0x00000000
    ensures Sha1Schedule(block, 18) == 0x00000030 && Sha1Schedule(block, 19) == 0x85898e01
    ensures Sha1Schedule(block, 20) == 0x00000000 && Sha1Schedule(block, 21) == 0x00000060
    ensures Sha1Schedule(block, 22) == 0x0b131c03 && Sha1Schedule(block, 23) == 0x00000030
    ensures Sha1Schedule(block, 24) == 0x85898ec1 && Sha1Schedule(block, 25) == 0x16263806
    ensures Sha1Schedule(block, 26) == 0x00000000 && Sha1Schedule(block, 27) == 0x00000180
    ensures Sha1Schedule(block, 28) == 0x2c4c700c && Sha1Schedule(block, 29) == 0x000000f0
    ensures Sha1Schedule(block, 30) == 0x93afb507 && Sha1Schedule(block, 31) == 0x5898e048
  {
    Sha1AbcWords1(block);
    hide BlockWord;
  }

  lemma Sha1AbcWords3(block: seq<Byte>)
    requires AbcBigEndian(block)
    ensures Sha1Schedule(block, 32) == 0x8e9a9202 && Sha1Schedule(block, 33) == 0x00000600
    ensures Sha1Schedule(block, 34) == 0xb131c0f0 && Sha1Schedule(block, 35) == 0x16263bc6
    ensures Sha1Schedule(block, 36) == 0x4ebed41e && Sha1Schedule(block, 37) == 0x626380a1
    ensures Sha1Schedule(block, 38) == 0x16263806 && Sha1Schedule(block, 39) == 0x000018c0
    ensures Sha1Schedule(block, 40) == 0xd2e138c4 && Sha1Schedule(block, 41) == 0x00000f00
    ensures Sha1Schedule(block, 42) == 0x3afb5079 && Sha1Schedule(block, 43) == 0x898e04e5
    ensures Sha1Schedule(block, 44) == 0xe2ba3c2b && Sha1Schedule(block, 45) == 0x000060c0
    ensures Sha1Schedule(block, 46) == 0x053a37cd && Sha1Schedule(block, 47) == 0x74458547
  {
    Sha1AbcWords2(block);
    hide BlockWord;
  }

  lemma Sha1AbcWords4(block: seq<Byte>)
    requires AbcBigEndian(block)
    ensures Sha1Schedule(block, 48) == 0xda9415ed && Sha1Schedule(block, 49) == 0x26380a16
    ensures Sha1Schedule(block, 50) == 0x626383a1 && Sha1Schedule(block, 51) == 0x4ebf54de
    ensures Sha1Schedule(block, 52) == 0x3835b44b && Sha1Schedule(block, 53) == 0x0000f600
    ensures Sha1Schedule(block, 54) == 0x1e84c7a3 && Sha1Schedule(block, 55) == 0x98e04d98
    ensures Sha1Schedule(block, 56) == 0x651d16a0 && Sha1Schedule(block, 57) == 0x62658ca1
    ensures Sha1Schedule(block, 58) == 0x458544d6 && Sha1Schedule(block, 59) == 0x44584cb7
    ensures Sha1Schedule(block, 60) == 0x7ba06619 && Sha1Schedule(block, 61) == 0x6380aea2
    ensures Sha1Schedule(block, 62) == 0x0ae55269 && Sha1Schedule(block, 63) == 0x627b49a1
  {
    Sha1AbcWords3(block);
    hide BlockWord;
  }

  lemma Sha1AbcWords5(block: seq<Byte>)
    requires AbcBigEndian(block)
    ensures Sha1Schedule(block, 64) == 0x7cd45c9d && Sha1Schedule(block, 65) == 0x000f0000
    ensures Sha1Schedule(block, 66) == 0xfb50753a && Sha1Schedule(block, 67) == 0xec6765e8
    ensures Sha1Schedule(block, 68) == 0xba3c2be2 && Sha1Schedule(block, 69) == 0x0060c000
    ensures Sha1Schedule(block, 70) == 0x3a37cd05 && Sha1Schedule(block, 71) == 0x458546f4
    ensures Sha1Schedule(block, 72) == 0xb8599dd6 && Sha1Schedule(block, 73) == 0x380a1a26
    ensures Sha1Schedule(block, 74) == 0x01e02203 && Sha1Schedule(block, 75) == 0xe7cc3456
    ensures Sha1Schedule(block, 76) == 0xe6e60b69 && Sha1Schedule(block, 77) == 0x00f60a00
    ensures Sha1Schedule(block, 78) == 0x5795ef4f && Sha1Schedule(block, 79) == 0x822e0879
  {
    Sha1AbcWords4(block);
    hide BlockWord;
  }

  lemma Sha1AbcRun1()
    ensures Sha1Four(Sha1Registers(0x67452301, 0xefcdab89, 0x98badcfe, 0x10325476, 0xc3d2e1f0),
                     0, 0x61626380, 0x00000000, 0x00000000, 0x00000000)
            == Sha1Registers(0xcdd8e11b, 0xa1390f08, 0x626414db, 0xc045bf0c, 0x59d148c0)
    ensures Sha1Four(Sha1Registers(0xcdd8e11b, 0xa1390f08, 0x626414db, 0xc045bf0c, 0x59d148c0),
                     4, 0x00000000, 0x00000000, 0x00000000, 0x00000000)
            == Sha1Registers(0x9e8c07d4, 0x993e30c1, 0x0ff1f290, 0xb3f52677, 0xf3763846)
    ensures Sha1Four(Sha1Registers(0x9e8c07d4, 0x993e30c1, 0x0ff1f290, 0xb3f52677, 0xf3763846),
                     8, 0x00000000, 0x00000000, 0x00000000, 0x00000000)
            == Sha1Registers(0x63188fe4, 0xfbda9e89, 0x60d47e4a, 0x12dab8ca, 0x27a301f5)
    ensures Sha1Four(Sha1Registers(0x63188fe4, 0xfbda9e89, 0x60d47e4a, 0x12dab8ca, 0x27a301f5),
                     12, 0x00000000, 0x00000000, 0x00000000, 0x00000018)
            == Sha1Registers(0x20bdd62f, 0x196bee77, 0x644a3da5, 0x1181ed99, 0x18c623f9)
  {
  }

  lemma Sha1AbcRun2()
    ensures Sha1Four(Sha1Registers(0x20bdd62f, 0x196bee77, 0x644a3da5, 0x1181ed99, 0x18c623f9),
                     16, 0xc2c4c700, 0x00000000, 0x00000030, 0x85898e01)
            == Sha1Registers(0xfd9e1d7d, 0xdc64901d, 0x20aa99ca, 0xd3a49608, 0xc82f758b)
    ensures Sha1Four(Sha1Registers(0xfd9e1d7d, 0xdc64901d, 0x20aa99ca, 0xd3a49608, 0xc82f758b),
                     20, 0x00000000, 0x00000060, 0x0b131c03, 0x00000030)
            == Sha1Registers(0xd541f12d, 0x21283486, 0x0ce88eff, 0x868dec32, 0x7f67875f)
    ensures Sha1Four(Sha1Registers(0xd541f12d, 0x21283486, 0x0ce88eff, 0x868dec32, 0x7f67875f),
                     24, 0x85898ec1, 0x16263806, 0x00000000, 0x00000180)
            == Sha1Registers(0x4aa84d97, 0xbe35fbd5, 0x12104ee9, 0xb1d59f71, 0x75507c4b)
    ensures Sha1Four(Sha1Registers(0x4aa84d97, 0xbe35fbd5, 0x12104ee9, 0xb1d59f71, 0x75507c4b),
                     28, 0x2c4c700c, 0x000000f0, 0x93afb507, 0x5898e048)
            == Sha1Registers(0x3b845d33, 0x1267b407, 0x717eebd7, 0xa0dc2d4b, 0xd2aa1365)
  {
  }

  lemma Sha1AbcRun3()
    ensures Sha1Four(Sha1Registers(0x3b845d33, 0x1267b407, 0x717eebd7, 0xa0dc2d4b, 0xd2aa1365),
                     32, 0x8e9a9202, 0x00000600, 0xb131c0f0, 0x16263bc6)
            == Sha1Registers(0xdcbbb0cb, 0x21796ad4, 0x4b03af04, 0x811bea82, 0xcee1174c)
    ensures Sha1Four(Sha1Registers(0xdcbbb0cb, 0x21796ad4, 0x4b03af04, 0x811bea82, 0xcee1174c),
                     36, 0x4ebed41e, 0x626380a1, 0x16263806, 0x000018c0)
            == Sha1Registers(0x32de1cba, 0x4c986405, 0xf718e5cf, 0x03d447f6, 0xf72eec32)
    ensures Sha1Four(Sha1Registers(0x32de1cba, 0x4c986405, 0xf718e5cf, 0x03d447f6, 0xf72eec32),
                     40, 0xd2e138c4, 0x00000f00, 0x3afb5079, 0x898e04e5)
            == Sha1Registers(0xee1b1aaf, 0x7f193dc5, 0x25c28357, 0xff21f7b7, 0x8cb7872e)
    ensures Sha1Four(Sha1Registers(0xee1b1aaf, 0x7f193dc5, 0x25c28357, 0xff21f7b7, 0x8cb7872e),
                     44, 0xe2ba3c2b, 0x000060c0, 0x053a37cd, 0x74458547)
            == Sha1Registers(0xbead02ca, 0xa01b846c, 0x8714787c, 0x503ca382, 0xfb86c6ab)
  {
  }

  lemma Sha1AbcRun4()
    ensures Sha1Four(Sha1Registers(0xbead02ca, 0xa01b846c, 0x8714787c, 0x503ca382, 0xfb86c6ab),
                     48, 0xda9415ed, 0x26380a16, 0x626383a1, 0x4ebf54de)
            == Sha1Registers(0x3847ad66, 0x641db2ce, 0x4481cc71, 0xeebce4cd, 0xafab40b2)
    ensures Sha1Four(Sha1Registers(0x3847ad66, 0x641db2ce, 0x4481cc71, 0xeebce4cd, 0xafab40b2),
                     52, 0x3835b44b, 0x0000f600, 0x1e84c7a3, 0x98e04d98)
            == Sha1Registers(0x5e6456af, 0x7b71f76d, 0x09fa7c76, 0x792410db, 0x8e11eb59)
    ensures Sha1Four(Sha1Registers(0x5e6456af, 0x7b71f76d, 0x09fa7c76, 0x792410db, 0x8e11eb59),
                     56, 0x651d16a0, 0x62658ca1, 0x458544d6, 0x44584cb7)
            == Sha1Registers(0x3f52de5a, 0x09d785fd, 0x3498bfd4, 0xf211824f, 0xd79915ab)
    ensures Sha1Four(Sha1Registers(0x3f52de5a, 0x09d785fd, 0x3498bfd4, 0xf211824f, 0xd79915ab),
                     60, 0x7ba06619, 0x6380aea2, 0x0ae55269, 0x627b49a1)
            == Sha1Registers(0x6b61c9e1, 0xb66c020b, 0x9523272c, 0xf5d5b051, 0x8fd4b796)
  {
  }

  lemma Sha1AbcRun5()
    ensures Sha1Four(Sha1Registers(0x6b61c9e1, 0xb66c020b, 0x9523272c, 0xf5d5b051, 0x8fd4b796),
                     64, 0x7cd45c9d, 0x000f0000, 0xfb50753a, 0xec6765e8)
            == Sha1Registers(0x78dd4d2b, 0x0c3df2b4, 0x4405957e, 0x0677e9eb, 0x5ad87278)
    ensures Sha1Four(Sha1Registers(0x78dd4d2b, 0x0c3df2b4, 0x4405957e, 0x0677e9eb, 0x5ad87278),
                     68, 0xba3c2be2, 0x0060c000, 0x3a37cd05, 0x458546f4)
            == Sha1Registers(0x39859de7, 0xc199f8c7, 0x8fc96230, 0x125c24f0, 0xde37534a)
    ensures Sha1Four(Sha1Registers(0x39859de7, 0xc199f8c7, 0x8fc96230, 0x125c24f0, 0xde37534a),
                     72, 0xb8599dd6, 0x380a1a26, 0x01e02203, 0xe7cc3456)
            == Sha1Registers(0x63f7dab7, 0x5ee76897, 0xc45e4fdb, 0x3b6d0b79, 0xce616779)
    ensures Sha1Four(Sha1Registers(0x63f7dab7, 0x5ee76897, 0xc45e4fdb, 0x3b6d0b79, 0xce616779),
                     76, 0xe6e60b69, 0x00f60a00, 0x5795ef4f, 0x822e0879)
            == Sha1Registers(0x42541b35, 0x5738d5e1, 0x21834873, 0x681e6df6, 0xd8fdf6ad)
  {
  }

  lemma Sha1AbcRound1(block: seq<Byte>)
    requires AbcBigEndian(block)
    requires Sha1Steps(Sha1Registers(0x67452301, 0xefcdab89, 0x98badcfe, 0x10325476, 0xc3d2e1f0), block, 0)
             == Sha1Registers(0x67452301, 0xefcdab89, 0x98badcfe, 0x10325476, 0xc3d2e1f0)
    ensures Sha1Steps(Sha1Registers(0x67452301, 0xefcdab89, 0x98badcfe, 0x10325476, 0xc3d2e1f0), block, 16)
            == Sha1Registers(0x20bdd62f, 0x196bee77, 0x644a3da5, 0x1181ed99, 0x18c623f9)
  {
    hide Sha1Steps, Sha1Schedule, BlockWord, Sha1Four;
    var r := Sha1Registers(0x67452301, 0xefcdab89, 0x98badcfe, 0x10325476, 0xc3d2e1f0);
    Sha1AbcWords1(block);
    Sha1AbcRun1();
    Sha1FourSteps(r, block, 0);
    Sha1FourSteps(r, block, 4);
    Sha1FourSteps(r, block, 8);
    Sha1FourSteps(r, block, 12);
  }

  lemma Sha1AbcRound2(block: seq<Byte>)
    requires AbcBigEndian(block)
    requires Sha1Steps(Sha1Registers(0x67452301, 0xefcdab89, 0x98badcfe, 0x10325476, 0xc3d2e1f0), block, 16)
             == Sha1Registers(0x20bdd62f, 0x196bee77, 0x644a3da5, 0x1181ed99, 0x18c623f9)
    ensures Sha1Steps(Sha1Registers(0x67452301, 0xefcdab89, 0x98badcfe, 0x10325476, 0xc3d2e1f0), block, 32)
            == Sha1Registers(0x3b845d33, 0x1267b407, 0x717eebd7, 0xa0dc2d4b, 0xd2aa1365)
  {
    hide Sha1Steps, Sha1Schedule, BlockWord, Sha1Four;
    var r := Sha1Registers(0x67452301, 0xefcdab89, 0x98badcfe, 0x10325476, 0xc3d2e1f0);
    Sha1AbcWords2(block);
    Sha1AbcRun2();
    Sha1FourSteps(r, block, 16);
    Sha1FourSteps(r, block, 20);
    Sha1FourSteps(r, block, 24);
    Sha1FourSteps(r, block, 28);
  }

  lemma Sha1AbcRound3(block: seq<Byte>)
    requires AbcBigEndian(block)
    requires Sha1Steps(Sha1Registers(0x67452301, 0xefcdab89, 0x98badcfe, 0x10325476, 0xc3d2e1f0), block, 32)
             == Sha1Registers(0x3b845d33, 0x1267b407, 0x717eebd7, 0xa0dc2d4b, 0xd2aa1365)
    ensures Sha1Steps(Sha1Registers(0x67452301, 0xefcdab89, 0x98badcfe, 0x10325476, 0xc3d2e1f0), block, 48)
            == Sha1Registers(0xbead02ca, 0xa01b846c, 0x8714787c, 0x503ca382, 0xfb86c6ab)
  {
    hide Sha1Steps, Sha1Schedule, BlockWord, Sha1Four;
    var r := Sha1Registers(0x67452301, 0xefcdab89, 0x98badcfe, 0x10325476, 0xc3d2e1f0);
    Sha1AbcWords3(block);
    Sha1AbcRun3();
    Sha1FourSteps(r, block, 32);
    Sha1FourSteps(r, block, 36);
    Sha1FourSteps(r, block, 40);
    Sha1FourSteps(r, block, 44);
  }

  lemma Sha1AbcRound4(block: seq<Byte>)
    requires AbcBigEndian(block)
    requires Sha1Steps(Sha1Registers(0x67452301, 0xefcdab89, 0x98badcfe, 0x10325476, 0xc3d2e1f0), block, 48)
             == Sha1Registers(0xbead02ca, 0xa01b846c, 0x8714787c, 0x503ca382, 0xfb86c6ab)
    ensures Sha1Steps(Sha1Registers(0x67452301, 0xefcdab89, 0x98badcfe, 0x10325476, 0xc3d2e1f0), block, 64)
            == Sha1Registers(0x6b61c9e1, 0xb66c020b, 0x9523272c, 0xf5d5b051, 0x8fd4b796)
  {
    hide Sha1Steps, Sha1Schedule, BlockWord, Sha1Four;
    var r := Sha1Registers(0x67452301, 0xefcdab89, 0x98badcfe, 0x10325476, 0xc3d2e1f0);
    Sha1AbcWords4(block);
    Sha1AbcRun4();
    Sha1FourSteps(r, block, 48);
    Sha1FourSteps(r, block, 52);
    Sha1FourSteps(r, block, 56);
    Sha1FourSteps(r, block, 60);
  }

  lemma Sha1AbcRound5(block: seq<Byte>)
    requires AbcBigEndian(block)
    requires Sha1Steps(Sha1Registers(0x67452301, 0xefcdab89, 0x98badcfe, 0x10325476, 0xc3d2e1f0), block, 64)
             == Sha1Registers(0x6b61c9e1, 0xb66c020b, 0x9523272c, 0xf5d5b051, 0x8fd4b796)
    ensures Sha1Steps(Sha1Registers(0x67452301, 0xefcdab89, 0x98badcfe, 0x10325476, 0xc3d2e1f0), block, 80)
            == Sha1Registers(0x42541b35, 0x5738d5e1, 0x21834873, 0x681e6df6, 0xd8fdf6ad)
  {
    hide Sha1Steps, Sha1Schedule, BlockWord, Sha1Four;
    var r := Sha1Registers(0x67452301, 0xefcdab89, 0x98badcfe, 0x10325476, 0xc3d2e1f0);
    Sha1AbcWords5(block);
    Sha1AbcRun5();
    Sha1FourSteps(r, block, 64);
    Sha1FourSteps(r, block, 68);
    Sha1FourSteps(r, block, 72);
    Sha1FourSteps(r, block, 76);
  }

  // ---- SHA-256 of "abc"

  lemma Sha256TwoSteps(r: Sha256Registers, block: seq<Byte>, n: nat)
    requires |block| == 64 && n <= 62
    ensures Sha256Steps(r, block, n + 2)
            == Sha256Step(Sha256Step(Sha256Steps(r, block, n), Sha256K(n), Sha256Schedule(block, n)),
                          Sha256K(n + 1), Sha256Schedule(block, n + 1))
  {
    hide Sha256Step, Sha256Schedule;
  }

  lemma Sha256AbcWords1(block: seq<Byte>)
    requires AbcBigEndian(block)
    ensures Sha256Schedule(block, 0) == 0x61626380 && Sha256Schedule(block, 1) == 0x00000000
    ensures Sha256Schedule(block, 2) == 0x00000000 && Sha256Schedule(block, 3) == 0x00000000
    ensures Sha256Schedule(block, 4) == 0x00000000 && Sha256Schedule(block, 5) == 0x00000000
    ensures Sha256Schedule(block, 6) == 0x00000000 && Sha256Schedule(block, 7) == 0x00000000
    ensures Sha256Schedule(block, 8) == 0x00000000 && Sha256Schedule(block, 9) == 0x00000000
    ensures Sha256Schedule(block, 10) == 0x00000000 && Sha256Schedule(block, 11) == 0x00000000
    ensures Sha256Schedule(block, 12) == 0x00000000 && Sha256Schedule(block, 13) == 0x00000000
    ensures Sha256Schedule(block, 14) == 0x00000000 && Sha256Schedule(block, 15) == 0x00000018
  {
  }

  lemma Sha256AbcWords2(block: seq<Byte>)
    requires AbcBigEndian(block)
    ensures Sha256Schedule(block, 16) == 0x61626380 && Sha256Schedule(block, 17) == 0x000f0000
    ensures Sha256Schedule(block, 18) == 0x7da86405 && Sha256Schedule(block, 19) == 0x600003c6
    ensures Sha256Schedule(block, 20) == 0x3e9d7b78 && Sha256Schedule(block, 21) == 0x0183fc00
    ensures Sha256Schedule(block, 22) == 0x12dcbfdb && Sha256Schedule(block, 23) == 0xe2e2c38e
    ensures Sha256Schedule(block, 24) == 0xc8215c1a && Sha256Schedule(block, 25) == 0xb73679a2
    ensures Sha256Schedule(block, 26) == 0xe5bc3909 && Sha256Schedule(block, 27) == 0x32663c5b
    ensures Sha256Schedule(block, 28) == 0x9d209d67 && Sha256Schedule(block, 29) == 0xec8726cb
    ensures Sha256Schedule(block, 30) == 0x702138a4 && Sha256Schedule(block, 31) == 0xd3b7973b
  {
    Sha256AbcWords1(block);
    hide BlockWord;
  }

  lemma Sha256AbcWords3(block: seq<Byte>)
    requires AbcBigEndian(block)
    ensures Sha256Schedule(block, 32) == 0x93f5997f && Sha256Schedule(block, 33) == 0x3b68ba73
    ensures Sha256Schedule(block, 34) == 0xaff4ffc1 && Sha256Schedule(block, 35) == 0xf10a5c62
    ensures Sha256Schedule(block, 36) == 0x0a8b3996 && Sha256Schedule(block, 37) == 0x72af830a
    ensures Sha256Schedule(block, 38) == 0x9409e33e && Sha256Schedule(block, 39) == 0x24641522
    ensures Sha256Schedule(block, 40) == 0x9f47bf94 && Sha256Schedule(block, 41) == 0xf0a64f5a
    ensures Sha256Schedule(block, 42) == 0x3e246a79 && Sha256Schedule(block, 43) == 0x27333ba3
    ensures Sha256Schedule(block, 44) == 0x0c4763f2 && Sha256Schedule(block, 45) == 0x840abf27
    ensures Sha256Schedule(block, 46) == 0x7a290d5d && Sha256Schedule(block, 47) == 0x065c43da
  {
    Sha256AbcWords2(block);
    hide BlockWord;
  }

  lemma Sha256AbcWords4(block: seq<Byte>)
    requires AbcBigEndian(block)
    ensures Sha256Schedule(block, 48) == 0xfb3e89cb && Sha256Schedule(block, 49) == 0xcc7617db
    ensures Sha256Schedule(block, 50) == 0xb9e66c34 && Sha256Schedule(block, 51) == 0xa9993667
    ensures Sha256Schedule(block, 52) == 0x84badedd && Sha256Schedule(block, 53) == 0xc21462bc
    ensures Sha256Schedule(block, 54) == 0x1487472c && Sha256Schedule(block, 55) == 0xb20f7a99
    ensures Sha256Schedule(block, 56) == 0xef57b9cd && Sha256Schedule(block, 57) == 0xebe6b238
    ensures Sha256Schedule(block, 58) == 0x9fe3095e && Sha256Schedule(block, 59) == 0x78bc8d4b
    ensures Sha256Schedule(block, 60) == 0xa43fcf15 && Sha256Schedule(block, 61) == 0x668b2ff8
    ensures Sha256Schedule(block, 62) == 0xeeaba2cc && Sha256Schedule(block, 63) == 0x12b1edeb
  {
    Sha256AbcWords3(block);
    hide BlockWord;
  }

  lemma Sha256Table1()
    ensures Sha256K(0) == 0x428a2f98 && Sha256K(1) == 0x71374491
    ensures Sha256K(2) == 0xb5c0fbcf && Sha256K(3) == 0xe9b5dba5
    ensures Sha256K(4) == 0x3956c25b && Sha256K(5) == 0x59f111f1
    ensures Sha256K(6) == 0x923f82a4 && Sha256K(7) == 0xab1c5ed5
    ensures Sha256K(8) == 0xd807aa98 && Sha256K(9) == 0x12835b01
    ensures Sha256K(10) == 0x243185be && Sha256K(11) == 0x550c7dc3
    ensures Sha256K(12) == 0x72be5d74 && Sha256K(13) == 0x80deb1fe
    ensures Sha256K(14) == 0x9bdc06a7 && Sha256K(15) == 0xc19bf174
  {
  }

  lemma Sha256Table2()
    ensures Sha256K(16) == 0xe49b69c1 && Sha256K(17) == 0xefbe4786
    ensures Sha256K(18) == 0x0fc19dc6 && Sha256K(19) == 0x240ca1cc
    ensures Sha256K(20) == 0x2de92c6f && Sha256K(21) == 0x4a7484aa
    ensures Sha256K(22) == 0x5cb0a9dc && Sha256K(23) == 0x76f988da
    ensures Sha256K(24) == 0x983e5152 && Sha256K(25) == 0xa831c66d
    ensures Sha256K(26) == 0xb00327c8 && Sha256K(27) == 0xbf597fc7
    ensures Sha256K(28) == 0xc6e00bf3 && Sha256K(29) == 0xd5a79147
    ensures Sha256K(30) == 0x06ca6351 && Sha256K(31) == 0x14292967
  {
  }

  lemma Sha256Table3()
    ensures Sha256K(32) == 0x27b70a85 && Sha256K(33) == 0x2e1b2138
    ensures Sha256K(34) == 0x4d2c6dfc && Sha256K(35) == 0x53380d13
    ensures Sha256K(36) == 0x650a7354 && Sha256K(37) == 0x766a0abb
    ensures Sha256K(38) == 0x81c2c92e && Sha256K(39) == 0x92722c85
    ensures Sha256K(40) == 0xa2bfe8a1 && Sha256K(41) == 0xa81a664b
    ensures Sha256K(42) == 0xc24b8b70 && Sha256K(43) == 0xc76c51a3
    ensures Sha256K(44) == 0xd192e819 && Sha256K(45) == 0xd6990624
    ensures Sha256K(46) == 0xf40e3585 && Sha256K(47) == 0x106aa070
  {
  }

  lemma Sha256Table4()
    ensures Sha256K(48) == 0x19a4c116 && Sha256K(49) == 0x1e376c08
    ensures Sha256K(50) == 0x2748774c && Sha256K(51) == 0x34b0bcb5
    ensures Sha256K(52) == 0x391c0cb3 && Sha256K(53) == 0x4ed8aa4a
    ensures Sha256K(54) == 0x5b9cca4f && Sha256K(55) == 0x682e6ff3
    ensures Sha256K(56) == 0x748f82ee && Sha256K(57) == 0x78a5636f
    ensures Sha256K(58) == 0x84c87814 && Sha256K(59) == 0x8cc70208
    ensures Sha256K(60) == 0x90befffa && Sha256K(61) == 0xa4506ceb
    ensures Sha256K(62) == 0xbef9a3f7 && Sha256K(63) == 0xc67178f2
  {
  }

  lemma Sha256AbcRun1()
    ensures Sha256Step(Sha256Step(
      Sha256Registers(0x6a09e667, 0xbb67ae85, 0x3c6ef372, 0xa54ff53a, 0x510e527f, 0x9b05688c, 0x1f83d9ab, 0x5be0cd19),
      0x428a2f98, 0x61626380), 0x71374491, 0x00000000)
            == Sha256Registers(0x5a6ad9ad, 0x5d6aebcd, 0x6a09e667, 0xbb67ae85, 0x78ce7989, 0xfa2a4622, 0x510e527f, 0x9b05688c)
    ensures Sha256Step(Sha256Step(
      Sha256Registers(0x5a6ad9ad, 0x5d6aebcd, 0x6a09e667, 0xbb67ae85, 0x78ce7989, 0xfa2a4622, 0x510e527f, 0x9b05688c),
      0xb5c0fbcf, 0x00000000), 0xe9b5dba5, 0x00000000)
            == Sha256Registers(0xd550f666, 0xc8c347a7, 0x5a6ad9ad, 0x5d6aebcd, 0x24e00850, 0xf92939eb, 0x78ce7989, 0xfa2a4622)
    ensures Sha256Step(Sha256Step(
      Sha256Registers(0xd550f666, 0xc8c347a7, 0x5a6ad9ad, 0x5d6aebcd, 0x24e00850, 0xf92939eb, 0x78ce7989, 0xfa2a4622),
      0x3956c25b, 0x00000000), 0x59f111f1, 0x00000000)
            == Sha256Registers(0x2b4209f5, 0x04409a6a, 0xd550f666, 0xc8c347a7, 0x714260ad, 0x43ada245, 0x24e00850, 0xf92939eb)
    ensures Sha256Step(Sha256Step(
      Sha256Registers(0x2b4209f5, 0x04409a6a, 0xd550f666, 0xc8c347a7, 0x714260ad, 0x43ada245, 0x24e00850, 0xf92939eb),
      0x923f82a4, 0x00000000), 0xab1c5ed5, 0x00000000)
            == Sha256Registers(0x85a07b5f, 0xe5030380, 0x2b4209f5, 0x04409a6a, 0x0c657a79, 0x9b27a401, 0x714260ad, 0x43ada245)
  {
  }

  lemma Sha256AbcRun2()
    ensures Sha256Step(Sha256Step(
      Sha256Registers(0x85a07b5f, 0xe5030380, 0x2b4209f5, 0x04409a6a, 0x0c657a79, 0x9b27a401, 0x714260ad, 0x43ada245),
      0xd807aa98, 0x00000000), 0x12835b01, 0x00000000)
            == Sha256Registers(0x8c87346b, 0x8e04ecb9, 0x85a07b5f, 0xe5030380, 0x1cc92596, 0x32ca2d8c, 0x0c657a79, 0x9b27a401)
    ensures Sha256Step(Sha256Step(
      Sha256Registers(0x8c87346b, 0x8e04ecb9, 0x85a07b5f, 0xe5030380, 0x1cc92596, 0x32ca2d8c, 0x0c657a79, 0x9b27a401),
      0x243185be, 0x00000000), 0x550c7dc3, 0x00000000)
            == Sha256Registers(0xf71fc5a9, 0x4798a3f4, 0x8c87346b, 0x8e04ecb9, 0x816fd6e9, 0x436b23e8, 0x1cc92596, 0x32ca2d8c)
    ensures Sha256Step(Sha256Step(
      Sha256Registers(0xf71fc5a9, 0x4798a3f4, 0x8c87346b, 0x8e04ecb9, 0x816fd6e9, 0x436b23e8, 0x1cc92596, 0x32ca2d8c),
      0x72be5d74, 0x00000000), 0x80deb1fe, 0x00000000)
            == Sha256Registers(0xd932eb16, 0x87912990, 0xf71fc5a9, 0x4798a3f4, 0x745a48de, 0x1e578218, 0x816fd6e9, 0x436b23e8)
    ensures Sha256Step(Sha256Step(
      Sha256Registers(0xd932eb16, 0x87912990, 0xf71fc5a9, 0x4798a3f4, 0x745a48de, 0x1e578218, 0x816fd6e9, 0x436b23e8),
      0x9bdc06a7, 0x00000000), 0xc19bf174, 0x00000018)
            == Sha256Registers(0xb0fa238e, 0xc0645fde, 0xd932eb16, 0x87912990, 0x07590dcd, 0x0b92f20c, 0x745a48de, 0x1e578218)
  {
  }

  lemma Sha256AbcRun3()
    ensures Sha256Step(Sha256Step(
      Sha256Registers(0xb0fa238e, 0xc0645fde, 0xd932eb16, 0x87912990, 0x07590dcd, 0x0b92f20c, 0x745a48de, 0x1e578218),
      0xe49b69c1, 0x61626380), 0xefbe4786, 0x000f0000)
            == Sha256Registers(0xc2fbd9d1, 0x21da9a9b, 0xb0fa238e, 0xc0645fde, 0x846ee454, 0x8034229c, 0x07590dcd, 0x0b92f20c)
    ensures Sha256Step(Sha256Step(
      Sha256Registers(0xc2fbd9d1, 0x21da9a9b, 0xb0fa238e, 0xc0645fde, 0x846ee454, 0x8034229c, 0x07590dcd, 0x0b92f20c),
      0x0fc19dc6, 0x7da86405), 0x240ca1cc, 0x600003c6)
            == Sha256Registers(0xe1f20c33, 0xfe777bbf, 0xc2fbd9d1, 0x21da9a9b, 0xb0638179, 0xcc899961, 0x846ee454, 0x8034229c)
    ensures Sha256Step(Sha256Step(
      Sha256Registers(0xe1f20c33, 0xfe777bbf, 0xc2fbd9d1, 0x21da9a9b, 0xb0638179, 0xcc899961, 0x846ee454, 0x8034229c),
      0x2de92c6f, 0x3e9d7b78), 0x4a7484aa, 0x0183fc00)
            == Sha256Registers(0xc2606d6d, 0x9dc68b63, 0xe1f20c33, 0xfe777bbf, 0xe1257970, 0x8ada8930, 0xb0638179, 0xcc899961)
    ensures Sha256Step(Sha256Step(
      Sha256Registers(0xc2606d6d, 0x9dc68b63, 0xe1f20c33, 0xfe777bbf, 0xe1257970, 0x8ada8930, 0xb0638179, 0xcc899961),
      0x5cb0a9dc, 0x12dcbfdb), 0x76f988da, 0xe2e2c38e)
            == Sha256Registers(0xc5d53d8d, 0xa7a3623f, 0xc2606d6d, 0x9dc68b63, 0xaa47c347, 0x49f5114a, 0xe1257970, 0x8ada8930)
  {
  }

  lemma Sha256AbcRun4()
    ensures Sha256Step(Sha256Step(
      Sha256Registers(0xc5d53d8d, 0xa7a3623f, 0xc2606d6d, 0x9dc68b63, 0xaa47c347, 0x49f5114a, 0xe1257970, 0x8ada8930),
      0x983e5152, 0xc8215c1a), 0xa831c66d, 0xb73679a2)
            == Sha256Registers(0xcde8037d, 0x1c2c2838, 0xc5d53d8d, 0xa7a3623f, 0x14383d8e, 0x2823ef91, 0xaa47c347, 0x49f5114a)
    ensures Sha256Step(Sha256Step(
      Sha256Registers(0xcde8037d, 0x1c2c2838, 0xc5d53d8d, 0xa7a3623f, 0x14383d8e, 0x2823ef91, 0xaa47c347, 0x49f5114a),
      0xb00327c8, 0xe5bc3909), 0xbf597fc7, 0x32663c5b)
            == Sha256Registers(0x77d37528, 0xb62ec4bc, 0xcde8037d, 0x1c2c2838, 0xedffbff8, 0xc74c6516, 0x14383d8e, 0x2823ef91)
    ensures Sha256Step(Sha256Step(
      Sha256Registers(0x77d37528, 0xb62ec4bc, 0xcde8037d, 0x1c2c2838, 0xedffbff8, 0xc74c6516, 0x14383d8e, 0x2823ef91),
      0xc6e00bf3, 0x9d209d67), 0xd5a79147, 0xec8726cb)
            == Sha256Registers(0xa0060b30, 0x363482c9, 0x77d37528, 0xb62ec4bc, 0xade79437, 0x6112a3b7, 0xedffbff8, 0xc74c6516)
    ensures Sha256Step(Sha256Step(
      Sha256Registers(0xa0060b30, 0x363482c9, 0x77d37528, 0xb62ec4bc, 0xade79437, 0x6112a3b7, 0xedffbff8, 0xc74c6516),
      0x06ca6351, 0x702138a4), 0x14292967, 0xd3b7973b)
            == Sha256Registers(0x73b33bf5, 0xea992a22, 0xa0060b30, 0x363482c9, 0xba591112, 0x0109ab3a, 0xade79437, 0x6112a3b7)
  {
  }

  lemma Sha256AbcRun5()
    ensures Sha256Step(Sha256Step(
      Sha256Registers(0x73b33bf5, 0xea992a22, 0xa0060b30, 0x363482c9, 0xba591112, 0x0109ab3a, 0xade79437, 0x6112a3b7),
      0x27b70a85, 0x93f5997f), 0x2e1b2138, 0x3b68ba73)
            == Sha256Registers(0xfe604df5, 0x98e12507, 0x73b33bf5, 0xea992a22, 0x59249dd3, 0x9cd9f5f6, 0xba591112, 0x0109ab3a)
    ensures Sha256Step(Sha256Step(
      Sha256Registers(0xfe604df5, 0x98e12507, 0x73b33bf5, 0xea992a22, 0x59249dd3, 0x9cd9f5f6, 0xba591112, 0x0109ab3a),
      0x4d2c6dfc, 0xaff4ffc1), 0x53380d13, 0xf10a5c62)
            == Sha256Registers(0x65a0cfe4, 0xa9a7738c, 0xfe604df5, 0x98e12507, 0xf4b002d6, 0x085f3833, 0x59249dd3, 0x9cd9f5f6)
    ensures Sha256Step(Sha256Step(
      Sha256Registers(0x65a0cfe4, 0xa9a7738c, 0xfe604df5, 0x98e12507, 0xf4b002d6, 0x085f3833, 0x59249dd3, 0x9cd9f5f6),
      0x650a7354, 0x0a8b3996), 0x766a0abb, 0x72af830a)
            == Sha256Registers(0x34df1604, 0x41a65cb1, 0x65a0cfe4, 0xa9a7738c, 0xa507a53d, 0x0772a26b, 0xf4b002d6, 0x085f3833)
    ensures Sha256Step(Sha256Step(
      Sha256Registers(0x34df1604, 0x41a65cb1, 0x65a0cfe4, 0xa9a7738c, 0xa507a53d, 0x0772a26b, 0xf4b002d6, 0x085f3833),
      0x81c2c92e, 0x9409e33e), 0x92722c85, 0x24641522)
            == Sha256Registers(0x79ea687a, 0x6dc57a8a, 0x34df1604, 0x41a65cb1, 0x1efbc0a0, 0xf0781bc8, 0xa507a53d, 0x0772a26b)
  {
  }

  lemma Sha256AbcRun6()
    ensures Sha256Step(Sha256Step(
      Sha256Registers(0x79ea687a, 0x6dc57a8a, 0x34df1604, 0x41a65cb1, 0x1efbc0a0, 0xf0781bc8, 0xa507a53d, 0x0772a26b),
      0xa2bfe8a1, 0x9f47bf94), 0xa81a664b, 0xf0a64f5a)
            == Sha256Registers(0xdf46652f, 0xd6670766, 0x79ea687a, 0x6dc57a8a, 0x838b2711, 0x26352d63, 0x1efbc0a0, 0xf0781bc8)
    ensures Sha256Step(Sha256Step(
      Sha256Registers(0xdf46652f, 0xd6670766, 0x79ea687a, 0x6dc57a8a, 0x838b2711, 0x26352d63, 0x1efbc0a0, 0xf0781bc8),
      0xc24b8b70, 0x3e246a79), 0xc76c51a3, 0x27333ba3)
            == Sha256Registers(0x9d4baf93, 0x17aa0dfe, 0xdf46652f, 0xd6670766, 0xfda24c2e, 0xdecd4715, 0x838b2711, 0x26352d63)
    ensures Sha256Step(Sha256Step(
      Sha256Registers(0x9d4baf93, 0x17aa0dfe, 0xdf46652f, 0xd6670766, 0xfda24c2e, 0xdecd4715, 0x838b2711, 0x26352d63),
      0xd192e819, 0x0c4763f2), 0xd6990624, 0x840abf27)
            == Sha256Registers(0x72ab4b91, 0x26628815, 0x9d4baf93, 0x17aa0dfe, 0xb7755da1, 0xa80f11f0, 0xfda24c2e, 0xdecd4715)
    ensures Sha256Step(Sha256Step(
      Sha256Registers(0x72ab4b91, 0x26628815, 0x9d4baf93, 0x17aa0dfe, 0xb7755da1, 0xa80f11f0, 0xfda24c2e, 0xdecd4715),
      0xf40e3585, 0x7a290d5d), 0x106aa070, 0x065c43da)
            == Sha256Registers(0x4172328d, 0xa14c14b0, 0x72ab4b91, 0x26628815, 0xfecf0bc6, 0xd57b94a9, 0xb7755da1, 0xa80f11f0)
  {
  }

  lemma Sha256AbcRun7()
    ensures Sha256Step(Sha256Step(
      Sha256Registers(0x4172328d, 0xa14c14b0, 0x72ab4b91, 0x26628815, 0xfecf0bc6, 0xd57b94a9, 0xb7755da1, 0xa80f11f0),
      0x19a4c116, 0xfb3e89cb), 0x1e376c08, 0xcc7617db)
            == Sha256Registers(0xf11bfaa8, 0x05757ceb, 0x4172328d, 0xa14c14b0, 0x6e5c390c, 0xbd714038, 0xfecf0bc6, 0xd57b94a9)
    ensures Sha256Step(Sha256Step(
      Sha256Registers(0xf11bfaa8, 0x05757ceb, 0x4172328d, 0xa14c14b0, 0x6e5c390c, 0xbd714038, 0xfecf0bc6, 0xd57b94a9),
      0x2748774c, 0xb9e66c34), 0x34b0bcb5, 0xa9993667)
            == Sha256Registers(0x886e7a22, 0x7a0508a1, 0xf11bfaa8, 0x05757ceb, 0x49231c1e, 0x52f1ccf7, 0x6e5c390c, 0xbd714038)
    ensures Sha256Step(Sha256Step(
      Sha256Registers(0x886e7a22, 0x7a0508a1, 0xf11bfaa8, 0x05757ceb, 0x49231c1e, 0x52f1ccf7, 0x6e5c390c, 0xbd714038),
      0x391c0cb3, 0x84badedd), 0x4ed8aa4a, 0xc21462bc)
            == Sha256Registers(0xf5702fdb, 0x101fd28f, 0x886e7a22, 0x7a0508a1, 0x9f4787c3, 0x529e7d00, 0x49231c1e, 0x52f1ccf7)
    ensures Sha256Step(Sha256Step(
      Sha256Registers(0xf5702fdb, 0x101fd28f, 0x886e7a22, 0x7a0508a1, 0x9f4787c3, 0x529e7d00, 0x49231c1e, 0x52f1ccf7),
      0x5b9cca4f, 0x1487472c), 0x682e6ff3, 0xb20f7a99)
            == Sha256Registers(0x38cc9913, 0x3ec45cdb, 0xf5702fdb, 0x101fd28f, 0x54cb266b, 0xe50e1b4f, 0x9f4787c3, 0x529e7d00)
  {
  }

  lemma Sha256AbcRun8()
    ensures Sha256Step(Sha256Step(
      Sha256Registers(0x38cc9913, 0x3ec45cdb, 0xf5702fdb, 0x101fd28f, 0x54cb266b, 0xe50e1b4f, 0x9f4787c3, 0x529e7d00),
      0x748f82ee, 0xef57b9cd), 0x78a5636f, 0xebe6b238)
            == Sha256Registers(0xc062d46f, 0xfcd1887b, 0x38cc9913, 0x3ec45cdb, 0x7e44008e, 0x9b5e906c, 0x54cb266b, 0xe50e1b4f)
    ensures Sha256Step(Sha256Step(
      Sha256Registers(0xc062d46f, 0xfcd1887b, 0x38cc9913, 0x3ec45cdb, 0x7e44008e, 0x9b5e906c, 0x54cb266b, 0xe50e1b4f),
      0x84c87814, 0x9fe3095e), 0x8cc70208, 0x78bc8d4b)
            == Sha256Registers(0xb6ae8fff, 0xffb70472, 0xc062d46f, 0xfcd1887b, 0xb21bad3d, 0x6d83bfc6, 0x7e44008e, 0x9b5e906c)
    ensures Sha256Step(Sha256Step(
      Sha256Registers(0xb6ae8fff, 0xffb70472, 0xc062d46f, 0xfcd1887b, 0xb21bad3d, 0x6d83bfc6, 0x7e44008e, 0x9b5e906c),
      0x90befffa, 0xa43fcf15), 0xa4506ceb, 0x668b2ff8)
            == Sha256Registers(0x04d24d6c, 0xb85e2ce9, 0xb6ae8fff, 0xffb70472, 0x948d25b6, 0x961f4894, 0xb21bad3d, 0x6d83bfc6)
    ensures Sha256Step(Sha256Step(
      Sha256Registers(0x04d24d6c, 0xb85e2ce9, 0xb6ae8fff, 0xffb70472, 0x948d25b6, 0x961f4894, 0xb21bad3d, 0x6d83bfc6),
      0xbef9a3f7, 0xeeaba2cc), 0xc67178f2, 0x12b1edeb)
            == Sha256Registers(0x506e3058, 0xd39a2165, 0x04d24d6c, 0xb85e2ce9, 0x5ef50f24, 0xfb121210, 0x948d25b6, 0x961f4894)
  {
  }

  lemma Sha256AbcRound1(block: seq<Byte>)
    requires AbcBigEndian(block)
    requires Sha256Steps(Sha256Registers(0x6a09e667, 0xbb67ae85, 0x3c6ef372, 0xa54ff53a, 0x510e527f, 0x9b05688c, 0x1f83d9ab, 0x5be0cd19), block, 0)
             == Sha256Registers(0x6a09e667, 0xbb67ae85, 0x3c6ef372, 0xa54ff53a, 0x510e527f, 0x9b05688c, 0x1f83d9ab, 0x5be0cd19)
    ensures Sha256Steps(Sha256Registers(0x6a09e667, 0xbb67ae85, 0x3c6ef372, 0xa54ff53a, 0x510e527f, 0x9b05688c, 0x1f83d9ab, 0x5be0cd19), block, 16)
            == Sha256Registers(0xb0fa238e, 0xc0645fde, 0xd932eb16, 0x87912990, 0x07590dcd, 0x0b92f20c, 0x745a48de, 0x1e578218)
  {
    hide Sha256Steps, Sha256Schedule, Sha256K, Sha256Step, BlockWord;
    var r := Sha256Registers(0x6a09e667, 0xbb67ae85, 0x3c6ef372, 0xa54ff53a, 0x510e527f, 0x9b05688c, 0x1f83d9ab, 0x5be0cd19);
    Sha256AbcWords1(block);
    Sha256Table1();
    Sha256AbcRun1();
    Sha256AbcRun2();
    Sha256TwoSteps(r, block, 0);
    Sha256TwoSteps(r, block, 2);
    Sha256TwoSteps(r, block, 4);
    Sha256TwoSteps(r, block, 6);
    Sha256TwoSteps(r, block, 8);
    Sha256TwoSteps(r, block, 10);
    Sha256TwoSteps(r, block, 12);
    Sha256TwoSteps(r, block, 14);
  }

  lemma Sha256AbcRound2(block: seq<Byte>)
    requires AbcBigEndian(block)
    requires Sha256Steps(Sha256Registers(0x6a09e667, 0xbb67ae85, 0x3c6ef372, 0xa54ff53a, 0x510e527f, 0x9b05688c, 0x1f83d9ab, 0x5be0cd19), block, 16)
             == Sha256Registers(0xb0fa238e, 0xc0645fde, 0xd932eb16, 0x87912990, 0x07590dcd, 0x0b92f20c, 0x745a48de, 0x1e578218)
    ensures Sha256Steps(Sha256Registers(0x6a09e667, 0xbb67ae85, 0x3c6ef372, 0xa54ff53a, 0x510e527f, 0x9b05688c, 0x1f83d9ab, 0x5be0cd19), block, 32)
            == Sha256Registers(0x73b33bf5, 0xea992a22, 0xa0060b30, 0x363482c9, 0xba591112, 0x0109ab3a, 0xade79437, 0x6112a3b7)
  {
    hide Sha256Steps, Sha256Schedule, Sha256K, Sha256Step, BlockWord;
    var r := Sha256Registers(0x6a09e667, 0xbb67ae85, 0x3c6ef372, 0xa54ff53a, 0x510e527f, 0x9b05688c, 0x1f83d9ab, 0x5be0cd19);
    Sha256AbcWords2(block);
    Sha256Table2();
    Sha256AbcRun3();
    Sha256AbcRun4();
    Sha256TwoSteps(r, block, 16);
    Sha256TwoSteps(r, block, 18);
    Sha256TwoSteps(r, block, 20);
    Sha256TwoSteps(r, block, 22);
    Sha256TwoSteps(r, block, 24);
    Sha256TwoSteps(r, block, 26);
    Sha256TwoSteps(r, block, 28);
    Sha256TwoSteps(r, block, 30);
  }

  lemma Sha256AbcRound3(block: seq<Byte>)
    requires AbcBigEndian(block)
    requires Sha256Steps(Sha256Registers(0x6a09e667, 0xbb67ae85, 0x3c6ef372, 0xa54ff53a, 0x510e527f, 0x9b05688c, 0x1f83d9ab, 0x5be0cd19), block, 32)
             == Sha256Registers(0x73b33bf5, 0xea992a22, 0xa0060b30, 0x363482c9, 0xba591112, 0x0109ab3a, 0xade79437, 0x6112a3b7)
    ensures Sha256Steps(Sha256Registers(0x6a09e667, 0xbb67ae85, 0x3c6ef372, 0xa54ff53a, 0x510e527f, 0x9b05688c, 0x1f83d9ab, 0x5be0cd19), block, 48)
            == Sha256Registers(0x4172328d, 0xa14c14b0, 0x72ab4b91, 0x26628815, 0xfecf0bc6, 0xd57b94a9, 0xb7755da1, 0xa80f11f0)
  {
    hide Sha256Steps, Sha256Schedule, Sha256K, Sha256Step, BlockWord;
    var r := Sha256Registers(0x6a09e667, 0xbb67ae85, 0x3c6ef372, 0xa54ff53a, 0x510e527f, 0x9b05688c, 0x1f83d9ab, 0x5be0cd19);
    Sha256AbcWords3(block);
    Sha256Table3();
    Sha256AbcRun5();
    Sha256AbcRun6();
    Sha256TwoSteps(r, block, 32);
    Sha256TwoSteps(r, block, 34);
    Sha256TwoSteps(r, block, 36);
    Sha256TwoSteps(r, block, 38);
    Sha256TwoSteps(r, block, 40);
    Sha256TwoSteps(r, block, 42);
    Sha256TwoSteps(r, block, 44);
    Sha256TwoSteps(r, block, 46);
  }

  lemma Sha256AbcRound4(block: seq<Byte>)
    requires AbcBigEndian(block)
    requires Sha256Steps(Sha256Registers(0x6a09e667, 0xbb67ae85, 0x3c6ef372, 0xa54ff53a, 0x510e527f, 0x9b05688c, 0x1f83d9ab, 0x5be0cd19), block, 48)
             == Sha256Registers(0x4172328d, 0xa14c14b0, 0x72ab4b91, 0x26628815, 0xfecf0bc6, 0xd57b94a9, 0xb7755da1, 0xa80f11f0)
    ensures Sha256Steps(Sha256Registers(0x6a09e667, 0xbb67ae85, 0x3c6ef372, 0xa54ff53a, 0x510e527f, 0x9b05688c, 0x1f83d9ab, 0x5be0cd19), block, 64)
            == Sha256Registers(0x506e3058, 0xd39a2165, 0x04d24d6c, 0xb85e2ce9, 0x5ef50f24, 0xfb121210, 0x948d25b6, 0x961f4894)
  {
    hide Sha256Steps, Sha256Schedule, Sha256K, Sha256Step, BlockWord;
    var r := Sha256Registers(0x6a09e667, 0xbb67ae85, 0x3c6ef372, 0xa54ff53a, 0x510e527f, 0x9b05688c, 0x1f83d9ab, 0x5be0cd19);
    Sha256AbcWords4(block);
    Sha256Table4();
    Sha256AbcRun7();
    Sha256AbcRun8();
    Sha256TwoSteps(r, block, 48);
    Sha256TwoSteps(r, block, 50);
    Sha256TwoSteps(r, block, 52);
    Sha256TwoSteps(r, block, 54);
    Sha256TwoSteps(r, block, 56);
    Sha256TwoSteps(r, block, 58);
    Sha256TwoSteps(r, block, 60);
    Sha256TwoSteps(r, block, 62);
  }

  // ---- SHA-256: FIPS 180-4 sections 4.2.2 and 5.3.3

  /** `k` is the first 32 bits of the fraction of the cube root of `prime`, whose integer part is `whole`. */
  predicate CubeRootFraction(k: Word, whole: nat, prime: nat) {
    var root := whole * 0x1_0000_0000 + k as int;
    root * root * root <= prime * 0x1_0000_0000_0000_0000_0000_0000 < (root + 1) * (root + 1) * (root + 1)
  }

  /** The same for the square root. */
  predicate SquareRootFraction(h: Word, whole: nat, prime: nat) {
    var root := whole * 0x1_0000_0000 + h as int;
    root * root <= prime * 0x1_0000_0000_0000_0000 < (root + 1) * (root + 1)
  }

  lemma Sha256Constants1()
    ensures CubeRootFraction(Sha256K(0), 1, 2) && CubeRootFraction(Sha256K(1), 1, 3)
    ensures CubeRootFraction(Sha256K(2), 1, 5) && CubeRootFraction(Sha256K(3), 1, 7)
  {
    Sha256Table1();
    hide Sha256K;
  }

  lemma Sha256Constants2()
    ensures CubeRootFraction(Sha256K(4), 2, 11) && CubeRootFraction(Sha256K(5), 2, 13)
    ensures CubeRootFraction(Sha256K(6), 2, 17) && CubeRootFraction(Sha256K(7), 2, 19)
  {
    Sha256Table1();
    hide Sha256K;
  }

  lemma Sha256Constants3()
    ensures CubeRootFraction(Sha256K(8), 2, 23) && CubeRootFraction(Sha256K(9), 3, 29)
    ensures CubeRootFraction(Sha256K(10), 3, 31) && CubeRootFraction(Sha256K(11), 3, 37)
  {
    Sha256Table1();
    hide Sha256K;
  }

  lemma Sha256Constants4()
    ensures CubeRootFraction(Sha256K(12), 3, 41) && CubeRootFraction(Sha256K(13), 3, 43)
    ensures CubeRootFraction(Sha256K(14), 3, 47) && CubeRootFraction(Sha256K(15), 3, 53)
  {
    Sha256Table1();
    hide Sha256K;
  }

  lemma Sha256Constants5()
    ensures CubeRootFraction(Sha256K(16), 3, 59) && CubeRootFraction(Sha256K(17), 3, 61)
    ensures CubeRootFraction(Sha256K(18), 4, 67) && CubeRootFraction(Sha256K(19), 4, 71)
  {
    Sha256Table2();
    hide Sha256K;
  }

  lemma Sha256Constants6()
    ensures CubeRootFraction(Sha256K(20), 4, 73) && CubeRootFraction(Sha256K(21), 4, 79)
    ensures CubeRootFraction(Sha256K(22), 4, 83) && CubeRootFraction(Sha256K(23), 4, 89)
  {
    Sha256Table2();
    hide Sha256K;
  }

  lemma Sha256Constants7()
    ensures CubeRootFraction(Sha256K(24), 4, 97) && CubeRootFraction(Sha256K(25), 4, 101)
    ensures CubeRootFraction(Sha256K(26), 4, 103) && CubeRootFraction(Sha256K(27), 4, 107)
  {
    Sha256Table2();
    hide Sha256K;
  }

  lemma Sha256Constants8()
    ensures CubeRootFraction(Sha256K(28), 4, 109) && CubeRootFraction(Sha256K(29), 4, 113)
    ensures CubeRootFraction(Sha256K(30), 5, 127) && CubeRootFraction(Sha256K(31), 5, 131)
  {
    Sha256Table2();
    hide Sha256K;
  }

  lemma Sha256Constants9()
    ensures CubeRootFraction(Sha256K(32), 5, 137) && CubeRootFraction(Sha256K(33), 5, 139)
    ensures CubeRootFraction(Sha256K(34), 5, 149) && CubeRootFraction(Sha256K(35), 5, 151)
  {
    Sha256Table3();
    hide Sha256K;
  }

  lemma Sha256Constants10()
    ensures CubeRootFraction(Sha256K(36), 5, 157) && CubeRootFraction(Sha256K(37), 5, 163)
    ensures CubeRootFraction(Sha256K(38), 5, 167) && CubeRootFraction(Sha256K(39), 5, 173)
  {
    Sha256Table3();
    hide Sha256K;
  }

  lemma Sha256Constants11()
    ensures CubeRootFraction(Sha256K(40), 5, 179) && CubeRootFraction(Sha256K(41), 5, 181)
    ensures CubeRootFraction(Sha256K(42), 5, 191) && CubeRootFraction(Sha256K(43), 5, 193)
  {
    Sha256Table3();
    hide Sha256K;
  }

  lemma Sha256Constants12()
    ensures CubeRootFraction(Sha256K(44), 5, 197) && CubeRootFraction(Sha256K(45), 5, 199)
    ensures CubeRootFraction(Sha256K(46), 5, 211) && CubeRootFraction(Sha256K(47), 6, 223)
  {
    Sha256Table3();
    hide Sha256K;
  }

  lemma Sha256Constants13()
    ensures CubeRootFraction(Sha256K(48), 6, 227) && CubeRootFraction(Sha256K(49), 6, 229)
    ensures CubeRootFraction(Sha256K(50), 6, 233) && CubeRootFraction(Sha256K(51), 6, 239)
  {
    Sha256Table4();
    hide Sha256K;
  }

  lemma Sha256Constants14()
    ensures CubeRootFraction(Sha256K(52), 6, 241) && CubeRootFraction(Sha256K(53), 6, 251)
    ensures CubeRootFraction(Sha256K(54), 6, 257) && CubeRootFraction(Sha256K(55), 6, 263)
  {
    Sha256Table4();
    hide Sha256K;
  }

  lemma Sha256Constants15()
    ensures CubeRootFraction(Sha256K(56), 6, 269) && CubeRootFraction(Sha256K(57), 6, 271)
    ensures CubeRootFraction(Sha256K(58), 6, 277) && CubeRootFraction(Sha256K(59), 6, 281)
  {
    Sha256Table4();
    hide Sha256K;
  }

  lemma Sha256Constants16()
    ensures CubeRootFraction(Sha256K(60), 6, 283) && CubeRootFraction(Sha256K(61), 6, 293)
    ensures CubeRootFraction(Sha256K(62), 6, 307) && CubeRootFraction(Sha256K(63), 6, 311)
  {
    Sha256Table4();
    hide Sha256K;
  }

  /** The first 64 primes. */
  const PRIMES: seq<seq<nat>> := [
    [2, 3, 5, 7, 11, 13, 17, 19],
    [23, 29, 31, 37, 41, 43, 47, 53],
    [59, 61, 67, 71, 73, 79, 83, 89],
    [97, 101, 103, 107, 109, 113, 127, 131],
    [137, 139, 149, 151, 157, 163, 167, 173],
    [179, 181, 191, 193, 197, 199, 211, 223],
    [227, 229, 233, 239, 241, 251, 257, 263],
    [269, 271, 277, 281, 283, 293, 307, 311]
  ]

  function Prime(t: nat): nat
    requires t < 64
  {
    PRIMES[t / 8][t % 8]
  }

  lemma Primes1()
    ensures Prime(0) == 2 && Prime(1) == 3 && Prime(2) == 5 && Prime(3) == 7
    ensures Prime(4) == 11 && Prime(5) == 13 && Prime(6) == 17 && Prime(7) == 19
    ensures Prime(8) == 23 && Prime(9) == 29 && Prime(10) == 31 && Prime(11) == 37
    ensures Prime(12) == 41 && Prime(13) == 43 && Prime(14) == 47 && Prime(15) == 53
  {
  }

  lemma Primes2()
    ensures Prime(16) == 59 && Prime(17) == 61 && Prime(18) == 67 && Prime(19) == 71
    ensures Prime(20) == 73 && Prime(21) == 79 && Prime(22) == 83 && Prime(23) == 89
    ensures Prime(24) == 97 && Prime(25) == 101 && Prime(26) == 103 && Prime(27) == 107
    ensures Prime(28) == 109 && Prime(29) == 113 && Prime(30) == 127 && Prime(31) == 131
  {
  }

  lemma Primes3()
    ensures Prime(32) == 137 && Prime(33) == 139 && Prime(34) == 149 && Prime(35) == 151
    ensures Prime(36) == 157 && Prime(37) == 163 && Prime(38) == 167 && Prime(39) == 173
    ensures Prime(40) == 179 && Prime(41) == 181 && Prime(42) == 191 && Prime(43) == 193
    ensures Prime(44) == 197 && Prime(45) == 199 && Prime(46) == 211 && Prime(47) == 223
  {
  }

  lemma Primes4()
    ensures Prime(48) == 227 && Prime(49) == 229 && Prime(50) == 233 && Prime(51) == 239
    ensures Prime(52) == 241 && Prime(53) == 251 && Prime(54) == 257 && Prime(55) == 263
    ensures Prime(56) == 269 && Prime(57) == 271 && Prime(58) == 277 && Prime(59) == 281
    ensures Prime(60) == 283 && Prime(61) == 293 && Prime(62) == 307 && Prime(63) == 311
  {
  }

  lemma Sha256Row1(t: nat)
    requires 0 <= t < 16
    ensures exists whole: nat :: CubeRootFraction(Sha256K(t), whole, Prime(t))
  {
    hide CubeRootFraction, Sha256K, Prime;
    Primes1();
    Sha256Constants1();
    Sha256Constants2();
    Sha256Constants3();
    Sha256Constants4();
  }

  lemma Sha256Row2(t: nat)
    requires 16 <= t < 32
    ensures exists whole: nat :: CubeRootFraction(Sha256K(t), whole, Prime(t))
  {
    hide CubeRootFraction, Sha256K, Prime;
    Primes2();
    Sha256Constants5();
    Sha256Constants6();
    Sha256Constants7();
    Sha256Constants8();
  }

  lemma Sha256Row3(t: nat)
    requires 32 <= t < 48
    ensures exists whole: nat :: CubeRootFraction(Sha256K(t), whole, Prime(t))
  {
    hide CubeRootFraction, Sha256K, Prime;
    Primes3();
    Sha256Constants9();
    Sha256Constants10();
    Sha256Constants11();
    Sha256Constants12();
  }

  lemma Sha256Row4(t: nat)
    requires 48 <= t < 64
    ensures exists whole: nat :: CubeRootFraction(Sha256K(t), whole, Prime(t))
  {
    hide CubeRootFraction, Sha256K, Prime;
    Primes4();
    Sha256Constants13();
    Sha256Constants14();
    Sha256Constants15();
    Sha256Constants16();
  }

  /** The constant of every step is the first 32 bits of the fraction of a prime's cube root. */
  lemma Sha256Constants(t: nat)
    requires t < 64
    ensures exists whole: nat :: CubeRootFraction(Sha256K(t), whole, Prime(t))
  {
    hide CubeRootFraction, Sha256K, Prime;
    if t < 16 {
      Sha256Row1(t);
    } else if t < 32 {
      Sha256Row2(t);
    } else if t < 48 {
      Sha256Row3(t);
    } else {
      Sha256Row4(t);
    }
  }

  lemma Sha256InitialState1()
    ensures var h := InitialState(Sha256);
            && SquareRootFraction(h[0], 1, 2) && SquareRootFraction(h[1], 1, 3)
            && SquareRootFraction(h[2], 2, 5) && SquareRootFraction(h[3], 2, 7)
  {
    var h := InitialState(Sha256);
    assert h[0] == 0x6a09e667 && h[1] == 0xbb67ae85 && h[2] == 0x3c6ef372 && h[3] == 0xa54ff53a;
    hide InitialState;
  }

  lemma Sha256InitialState2()
    ensures var h := InitialState(Sha256);
            && SquareRootFraction(h[4], 3, 11) && SquareRootFraction(h[5], 3, 13)
            && SquareRootFraction(h[6], 4, 17) && SquareRootFraction(h[7], 4, 19)
  {
    var h := InitialState(Sha256);
    assert h[4] == 0x510e527f && h[5] == 0x9b05688c && h[6] == 0x1f83d9ab && h[7] == 0x5be0cd19;
    hide InitialState;
  }

  // ---- the length that ends the padding

  function LittleEndianNumber(bytes: seq<Byte>): nat {
    if bytes == [] then 0 else bytes[0] as nat + 256 * LittleEndianNumber(bytes[1..])
  }

  function BigEndianNumber(bytes: seq<Byte>): nat {
    if bytes == [] then 0 else 256 * BigEndianNumber(bytes[..|bytes| - 1]) + bytes[|bytes| - 1] as nat
  }

  lemma ByteAtIsDigit(n: nat, k: nat)
    ensures n / Pow256(k) == ByteAt(n, k) as nat + 256 * (n / Pow256(k + 1))
  {
    var p := Pow256(k);
    StreamingHash.ByteBack(n / p % 256);
    QuotientInParts(n, p);
  }

  lemma QuotientInParts(n: nat, p: nat)
    requires p > 0
    ensures n / (256 * p) == n / p / 256
  {
    var q := n / p;
    var r := q / 256;
    MultiplesInOrder(p, 256 * r, q);
    MultiplesInOrder(p, q + 1, 256 * (r + 1));
    Regrouped(p, r);
    Regrouped(p, r + 1);
    QuotientIs(n, 256 * p, r);
  }

  lemma Regrouped(p: nat, r: nat)
    ensures p * (256 * r) == 256 * p * r
  {
  }

  lemma QuotientIs(n: nat, d: nat, r: nat)
    requires d > 0 && d * r <= n < d * (r + 1)
    ensures n / d == r
  {
    var m := n / d;
    MultiplesInOrder(d, m + 1, r);
    MultiplesInOrder(d, r + 1, m);
  }

  lemma MultiplesInOrder(d: nat, a: nat, b: nat)
    ensures a <= b ==> d * a <= d * b
  {
    if a <= b {
      assert d * b == d * a + d * (b - a);
    }
  }

  lemma {:induction false} LittleEndianDigits(bytes: seq<Byte>, n: nat, k: nat)
    requires forall i :: 0 <= i < |bytes| ==> bytes[i] == ByteAt(n, k + i)
    requires n / Pow256(k + |bytes|) == 0
    ensures LittleEndianNumber(bytes) == n / Pow256(k)
  {
    if bytes != [] {
      LittleEndianDigits(bytes[1..], n, k + 1);
      ByteAtIsDigit(n, k);
    }
  }

  lemma {:induction false} BigEndianDigits(bytes: seq<Byte>, n: nat, k: nat)
    requires forall i :: 0 <= i < |bytes| ==> bytes[i] == ByteAt(n, k + |bytes| - 1 - i)
    requires n / Pow256(k + |bytes|) == 0
    ensures BigEndianNumber(bytes) == n / Pow256(k)
  {
    if bytes != [] {
      BigEndianDigits(bytes[..|bytes| - 1], n, k + 1);
      ByteAtIsDigit(n, k);
    }
  }

  /** The eight bytes spell the number of bits, for every message whose bit count has 64 bits. */
  lemma LengthInBits(alg: Algorithm, length: nat)
    requires length < 0x2000_0000_0000_0000
    ensures (if alg == Md5 then LittleEndianNumber(LengthBytes(alg, length))
             else BigEndianNumber(LengthBytes(alg, length))) == 8 * length
  {
    hide ByteAt;
    var bytes := LengthBytes(alg, length);
    assert Pow256(8) == 0x1_0000_0000_0000_0000 by {
      StreamingHash.Powers();
      assert Pow256(8) == 256 * Pow256(7);
    }
    assert Pow256(0) == 1;
    if alg == Md5 {
      LittleEndianDigits(bytes, 8 * length, 0);
    } else {
      BigEndianDigits(bytes, 8 * length, 0);
    }
  }

  // ---- "abc": RFC 1321 appendix A.5, FIPS 180-4 sections 6.1.2 and 6.2.2

  const ABC: seq<Byte> := [0x61, 0x62, 0x63]

  lemma SmallQuotient(n: nat, d: nat)
    requires n < d
    ensures n / d == 0
  {
  }

  lemma ByteOf24(k: nat)
    ensures ByteAt(24, k) == if k == 0 then 24 else 0
  {
    assert ToByte(0) == 0 && ToByte(24) == 24;
    hide ToByte;
    if k > 0 {
      assert Pow256(k) >= 256;
      SmallQuotient(24, Pow256(k));
    } else {
      assert Pow256(0) == 1;
    }
  }

  lemma LengthOfAbc(alg: Algorithm)
    ensures var bytes := LengthBytes(alg, 3);
            if alg == Md5 then bytes == [24, 0, 0, 0, 0, 0, 0, 0] else bytes == [0, 0, 0, 0, 0, 0, 0, 24]
  {
    hide ByteAt;
    forall k: nat ensures ByteAt(24, k) == if k == 0 then 24 else 0 {
      ByteOf24(k);
    }
  }

  lemma AbcPadded(alg: Algorithm)
    ensures var p := StandardPadded(alg, ABC);
            && |p| == 64 && p[0] == 0x61 && p[1] == 0x62 && p[2] == 0x63 && p[3] == 0x80
            && (forall i :: 4 <= i < 64 && i != (if alg == Md5 then 56 else 63) ==> p[i] == 0)
            && p[if alg == Md5 then 56 else 63] == 24
  {
    LengthOfAbc(alg);
  }

  lemma AbcWords()
    ensures AbcLittleEndian(LittleEndianWords(StandardPadded(Md5, ABC)))
    ensures AbcBigEndian(StandardPadded(Sha1, ABC)) && AbcBigEndian(StandardPadded(Sha256, ABC))
  {
    AbcPadded(Md5);
    AbcPadded(Sha1);
    AbcPadded(Sha256);
    hide StandardPadded;
  }

  lemma OneBlock(alg: Algorithm, bytes: seq<Byte>)
    requires |bytes| == 64
    ensures Fold(alg, bytes) == Compress(alg, InitialState(alg), bytes)
  {
    hide Compress, InitialState;
    assert bytes[..0] == [] && bytes[0..] == bytes;
  }

  lemma Md5OfAbcState()
    ensures Fold(Md5, StandardPadded(Md5, ABC)) == [0x98500190, 0xb04fd23c, 0x7d3f96d6, 0x727fe128]
  {
    AbcWords();
    var bytes := StandardPadded(Md5, ABC);
    var x, r := LittleEndianWords(bytes), Md5Registers(0x67452301, 0xefcdab89, 0x98badcfe, 0x10325476);
    AbcPadded(Md5);
    hide StandardPadded, LittleEndianWords, AbcLittleEndian, Md5Steps, Md5Operation;
    OneBlock(Md5, bytes);
    Md5Round1IsListed(r, x);
    Md5Round2IsListed(r, x);
    Md5Round3IsListed(r, x);
    Md5Round4IsListed(r, x);
    hide Md5Round1, Md5Round2, Md5Round3, Md5Round4;
    Md5AbcRound1(x);
    Md5AbcRound2(x);
    Md5AbcRound3(x);
    Md5AbcRound4(x);
    NoMd5Steps(r, x);
  }

  lemma NoMd5Steps(r: Md5Registers, x: seq<Word>)
    requires |x| == 16
    ensures Md5Steps(r, x, 0) == r
  {
  }

  lemma Sha1OfAbcState()
    ensures Fold(Sha1, StandardPadded(Sha1, ABC)) ==
            [0xa9993e36, 0x4706816a, 0xba3e2571, 0x7850c26c, 0x9cd0d89d]
  {
    AbcWords();
    AbcPadded(Sha1);
    var bytes := StandardPadded(Sha1, ABC);
    hide StandardPadded, AbcBigEndian, Sha1Schedule;
    OneBlock(Sha1, bytes);
    assert Sha1Steps(Sha1Registers(0x67452301, 0xefcdab89, 0x98badcfe, 0x10325476, 0xc3d2e1f0), bytes, 0)
           == Sha1Registers(0x67452301, 0xefcdab89, 0x98badcfe, 0x10325476, 0xc3d2e1f0);
    hide Sha1Steps;
    Sha1AbcRound1(bytes);
    Sha1AbcRound2(bytes);
    Sha1AbcRound3(bytes);
    Sha1AbcRound4(bytes);
    Sha1AbcRound5(bytes);
  }

  lemma Sha256OfAbcState()
    ensures Fold(Sha256, StandardPadded(Sha256, ABC)) ==
            [0xba7816bf, 0x8f01cfea, 0x414140de, 0x5dae2223, 0xb00361a3, 0x96177a9c, 0xb410ff61, 0xf20015ad]
  {
    AbcWords();
    AbcPadded(Sha256);
    var bytes := StandardPadded(Sha256, ABC);
    hide StandardPadded, AbcBigEndian, Sha256Schedule;
    OneBlock(Sha256, bytes);
    assert Sha256Steps(Sha256Registers(0x6a09e667, 0xbb67ae85, 0x3c6ef372, 0xa54ff53a, 0x510e527f, 0x9b05688c, 0x1f83d9ab, 0x5be0cd19), bytes, 0)
           == Sha256Registers(0x6a09e667, 0xbb67ae85, 0x3c6ef372, 0xa54ff53a, 0x510e527f, 0x9b05688c, 0x1f83d9ab, 0x5be0cd19);
    hide Sha256Steps;
    Sha256AbcRound1(bytes);
    Sha256AbcRound2(bytes);
    Sha256AbcRound3(bytes);
    Sha256AbcRound4(bytes);
  }

  lemma Md5AbcTexts()
    ensures WordText(Md5, 0x98500190) == "90015098"
    ensures WordText(Md5, 0xb04fd23c) == "3cd24fb0"
    ensures WordText(Md5, 0x7d3f96d6) == "d6963f7d"
    ensures WordText(Md5, 0x727fe128) == "28e17f72"
  {
  }

  lemma Md5OfAbc()
    ensures DigestText(Md5, Fold(Md5, StandardPadded(Md5, ABC)))
            == "900150983cd24fb0d6963f7d28e17f72"
  {
    hide Fold, StandardPadded, WordText, DigestText;
    Md5OfAbcState();
    Md5AbcTexts();
    var h := Fold(Md5, StandardPadded(Md5, ABC));
    NoText(Md5);
    LastFourTexts(Md5, h);
    assert h[..0] == [];
    assert DigestText(Md5, h) ==
           "90015098" + "3cd24fb0" + "d6963f7d" + "28e17f72";
  }

  lemma Sha1AbcTexts()
    ensures WordText(Sha1, 0xa9993e36) == "a9993e36"
    ensures WordText(Sha1, 0x4706816a) == "4706816a"
    ensures WordText(Sha1, 0xba3e2571) == "ba3e2571"
    ensures WordText(Sha1, 0x7850c26c) == "7850c26c"
    ensures WordText(Sha1, 0x9cd0d89d) == "9cd0d89d"
  {
  }

  lemma Sha1OfAbc()
    ensures DigestText(Sha1, Fold(Sha1, StandardPadded(Sha1, ABC)))
            == "a9993e364706816aba3e25717850c26c9cd0d89d"
  {
    hide Fold, StandardPadded, WordText, DigestText;
    Sha1OfAbcState();
    Sha1AbcTexts();
    var h := Fold(Sha1, StandardPadded(Sha1, ABC));
    NoText(Sha1);
    LastFourTexts(Sha1, h);
    assert h[..1] == [] + [h[0]];
    LastText(Sha1, [], h[0]);
    assert DigestText(Sha1, h) ==
           "a9993e36" + "4706816a" + "ba3e2571" + "7850c26c" +
           "9cd0d89d";
  }

  lemma Sha256AbcTexts1()
    ensures WordText(Sha256, 0xba7816bf) == "ba7816bf"
    ensures WordText(Sha256, 0x8f01cfea) == "8f01cfea"
    ensures WordText(Sha256, 0x414140de) == "414140de"
    ensures WordText(Sha256, 0x5dae2223) == "5dae2223"
  {
  }

  lemma Sha256AbcTexts2()
    ensures WordText(Sha256, 0xb00361a3) == "b00361a3"
    ensures WordText(Sha256, 0x96177a9c) == "96177a9c"
    ensures WordText(Sha256, 0xb410ff61) == "b410ff61"
    ensures WordText(Sha256, 0xf20015ad) == "f20015ad"
  {
  }

  lemma Sha256AbcHalves()
    ensures "ba7816bf" + "8f01cfea" + "414140de" + "5dae2223" == "ba7816bf8f01cfea414140de5dae2223"
    ensures "b00361a3" + "96177a9c" + "b410ff61" + "f20015ad" == "b00361a396177a9cb410ff61f20015ad"
  {
  }

  lemma Sha256OfAbc()
    ensures DigestText(Sha256, Fold(Sha256, StandardPadded(Sha256, ABC)))
            == "ba7816bf8f01cfea414140de5dae2223" + "b00361a396177a9cb410ff61f20015ad"
  {
    hide Fold, StandardPadded, WordText, DigestText;
    Sha256OfAbcState();
    Sha256AbcTexts1();
    Sha256AbcTexts2();
    var h := Fold(Sha256, StandardPadded(Sha256, ABC));
    NoText(Sha256);
    LastFourTexts(Sha256, h);
    LastFourTexts(Sha256, h[..4]);
    assert h[..4][..0] == [];
    Sha256AbcHalves();
    assert DigestText(Sha256, h) == DigestText(Sha256, h[..4])
                                    + ("b00361a3" + "96177a9c" + "b410ff61" + "f20015ad");
  }

  function AbcDigest(alg: Algorithm): string {
    match alg
    case Md5 => "900150983cd24fb0d6963f7d28e17f72"
    case Sha1 => "a9993e364706816aba3e25717850c26c9cd0d89d"
    case Sha256 => "ba7816bf8f01cfea414140de5dae2223" + "b00361a396177a9cb410ff61f20015ad"
  }

  /** The answers of the standards. */
  lemma DigestTextOfAbc(alg: Algorithm)
    ensures DigestText(alg, Fold(alg, StandardPadded(alg, ABC))) == AbcDigest(alg)
  {
    hide DigestText, Fold, StandardPadded;
    match alg
    case Md5 => Md5OfAbc();
    case Sha1 => Sha1OfAbc();
    case Sha256 => Sha256OfAbc();
  }

  /** The program's digest of "abc". */
  method DigestOfAbc(alg: Algorithm) returns (text: string)
    ensures text == AbcDigest(alg)
  {
    hide DigestText, Fold, StandardPadded, AbcDigest, StreamingHash.Padded;
    DigestTextOfAbc(alg);
    var hash := new StreamingHash.Hash(alg);
    hash.Update(ABC);
    assert hash.stream == ABC;
    text := hash.Digest();
  }

  lemma NoText(alg: Algorithm)
    ensures DigestText(alg, []) == ""
  {
  }

  lemma LastText(alg: Algorithm, h: seq<Word>, x: Word)
    ensures DigestText(alg, h + [x]) == DigestText(alg, h) + WordText(alg, x)
  {
    hide WordText;
    assert (h + [x])[..|h|] == h;
  }

  lemma LastFourTexts(alg: Algorithm, h: seq<Word>)
    requires |h| >= 4
    ensures var n := |h| - 4;
            DigestText(alg, h) == DigestText(alg, h[..n]) + WordText(alg, h[n]) + WordText(alg, h[n + 1])
                                  + WordText(alg, h[n + 2]) + WordText(alg, h[n + 3])
  {
    hide DigestText, WordText;
    var n := |h| - 4;
    forall i | n <= i < |h| ensures DigestText(alg, h[..i + 1]) == DigestText(alg, h[..i]) + WordText(alg, h[i]) {
      assert h[..i + 1] == h[..i] + [h[i]];
      LastText(alg, h[..i], h[i]);
    }
    assert h[..n + 4] == h;
  }
}
