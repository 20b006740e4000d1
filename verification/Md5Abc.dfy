/** The digest of "abc", as the test suite of RFC 1321, appendix A.5, has it, step by step. */
module Md5Abc {
  import opened Bytes
  import opened Md5

  const ABC: seq<Byte> := [0x61, 0x62, 0x63]

  /** The only block of the padded message, as sixteen words. */
  predicate AbcWords(block: seq<Byte>) {
    && |block| == 64 && Word(block, 0) == 0x80636261 && Word(block, 14) == 24
    && forall i :: 0 < i < 16 && i != 14 ==> Word(block, i) == 0
  }

  lemma AbcBlock()
    ensures |Padded(ABC)| == 64 && AbcWords(Padded(ABC))
  {
    hide Word, LE;
    var block := Padded(ABC);
    SmallLE(24);
    assert Gap(3) == 52;
    assert |block| == 64;
    assert block == ABC + [0x80] + Zeros(52) + [24, 0, 0, 0, 0, 0, 0, 0];
    assert block[0] == 0x61 && block[1] == 0x62 && block[2] == 0x63 && block[3] == 0x80 && block[56] == 24;
    assert forall k :: 4 <= k < 64 && k != 56 ==> block[k] == 0;
    WordOf(block, 0, 0x80636261);
    WordOf(block, 14, 24);
    forall i | 0 < i < 16 && i != 14 ensures Word(block, i) == 0 { WordOf(block, i, 0); }
  }

  lemma WordOf(block: seq<Byte>, i: nat, v: bv32)
    requires |block| == 64 && i < 16
    requires var b0: int, b1: int, b2: int, b3: int := block[4 * i], block[4 * i + 1], block[4 * i + 2], block[4 * i + 3];
      b0 + 0x100 * b1 + 0x1_0000 * b2 + 0x100_0000 * b3 == v as int
    ensures Word(block, i) == v
  {
  }

  lemma SmallLE(v: Byte)
    ensures LE(v, 8) == [v, 0, 0, 0, 0, 0, 0, 0]
  {
    assert forall n: nat :: n <= 7 ==> LE(0, n) == Zeros(n) by {
      forall n: nat | n <= 7 ensures LE(0, n) == Zeros(n) { ZeroLE(n); }
    }
  }

  lemma {:induction false} ZeroLE(n: nat)
    ensures LE(0, n) == Zeros(n)
    decreases n
  {
    if n > 0 { ZeroLE(n - 1); }
  }

  lemma Next(block: seq<Byte>, i: nat, r: State, w: bv32, next: State)
    requires |block| == 64 && i < 64 && Steps(INITIAL, block, i) == r && Word(block, WordIndex(i)) == w && Turn(r, w, i) == next
    ensures Steps(INITIAL, block, i + 1) == next
  {
    hide Word, Turn, WordIndex;
  }

  lemma Constants1()
    ensures Constant(0) == 0xd76aa478 && Constant(1) == 0xe8c7b756 && Constant(2) == 0x242070db && Constant(3) == 0xc1bdceee
    ensures Constant(4) == 0xf57c0faf && Constant(5) == 0x4787c62a && Constant(6) == 0xa8304613 && Constant(7) == 0xfd469501
  {
  }

  lemma Constants2()
    ensures Constant(8) == 0x698098d8 && Constant(9) == 0x8b44f7af && Constant(10) == 0xffff5bb1 && Constant(11) == 0x895cd7be
    ensures Constant(12) == 0x6b901122 && Constant(13) == 0xfd987193 && Constant(14) == 0xa679438e && Constant(15) == 0x49b40821
  {
  }

  lemma Words1()
    ensures WordIndex(0) == 0 && WordIndex(1) == 1 && WordIndex(2) == 2 && WordIndex(3) == 3 && WordIndex(4) == 4 && WordIndex(5) == 5 && WordIndex(6) == 6 && WordIndex(7) == 7
    ensures WordIndex(8) == 8 && WordIndex(9) == 9 && WordIndex(10) == 10 && WordIndex(11) == 11 && WordIndex(12) == 12 && WordIndex(13) == 13 && WordIndex(14) == 14 && WordIndex(15) == 15
  {
  }

  lemma Rotations1()
    ensures Rotation(0) == Rotation(4) == Rotation(8) == Rotation(12) == 7 && Rotation(1) == Rotation(5) == Rotation(9) == Rotation(13) == 12
    ensures Rotation(2) == Rotation(6) == Rotation(10) == Rotation(14) == 17 && Rotation(3) == Rotation(7) == Rotation(11) == Rotation(15) == 22
  {
  }

  lemma Constants3()
    ensures Constant(16) == 0xf61e2562 && Constant(17) == 0xc040b340 && Constant(18) == 0x265e5a51 && Constant(19) == 0xe9b6c7aa
    ensures Constant(20) == 0xd62f105d && Constant(21) == 0x02441453 && Constant(22) == 0xd8a1e681 && Constant(23) == 0xe7d3fbc8
  {
  }

  lemma Constants4()
    ensures Constant(24) == 0x21e1cde6 && Constant(25) == 0xc33707d6 && Constant(26) == 0xf4d50d87 && Constant(27) == 0x455a14ed
    ensures Constant(28) == 0xa9e3e905 && Constant(29) == 0xfcefa3f8 && Constant(30) == 0x676f02d9 && Constant(31) == 0x8d2a4c8a
  {
  }

  lemma Words2()
    ensures WordIndex(16) == 1 && WordIndex(17) == 6 && WordIndex(18) == 11 && WordIndex(19) == 0 && WordIndex(20) == 5 && WordIndex(21) == 10 && WordIndex(22) == 15 && WordIndex(23) == 4
    ensures WordIndex(24) == 9 && WordIndex(25) == 14 && WordIndex(26) == 3 && WordIndex(27) == 8 && WordIndex(28) == 13 && WordIndex(29) == 2 && WordIndex(30) == 7 && WordIndex(31) == 12
  {
  }

  lemma Rotations2()
    ensures Rotation(16) == Rotation(20) == Rotation(24) == Rotation(28) == 5 && Rotation(17) == Rotation(21) == Rotation(25) == Rotation(29) == 9
    ensures Rotation(18) == Rotation(22) == Rotation(26) == Rotation(30) == 14 && Rotation(19) == Rotation(23) == Rotation(27) == Rotation(31) == 20
  {
  }

  lemma Constants5()
    ensures Constant(32) == 0xfffa3942 && Constant(33) == 0x8771f681 && Constant(34) == 0x6d9d6122 && Constant(35) == 0xfde5380c
    ensures Constant(36) == 0xa4beea44 && Constant(37) == 0x4bdecfa9 && Constant(38) == 0xf6bb4b60 && Constant(39) == 0xbebfbc70
  {
  }

  lemma Constants6()
    ensures Constant(40) == 0x289b7ec6 && Constant(41) == 0xeaa127fa && Constant(42) == 0xd4ef3085 && Constant(43) == 0x04881d05
    ensures Constant(44) == 0xd9d4d039 && Constant(45) == 0xe6db99e5 && Constant(46) == 0x1fa27cf8 && Constant(47) == 0xc4ac5665
  {
  }

  lemma Words3()
    ensures WordIndex(32) == 5 && WordIndex(33) == 8 && WordIndex(34) == 11 && WordIndex(35) == 14 && WordIndex(36) == 1 && WordIndex(37) == 4 && WordIndex(38) == 7 && WordIndex(39) == 10
    ensures WordIndex(40) == 13 && WordIndex(41) == 0 && WordIndex(42) == 3 && WordIndex(43) == 6 && WordIndex(44) == 9 && WordIndex(45) == 12 && WordIndex(46) == 15 && WordIndex(47) == 2
  {
  }

  lemma Rotations3()
    ensures Rotation(32) == Rotation(36) == Rotation(40) == Rotation(44) == 4 && Rotation(33) == Rotation(37) == Rotation(41) == Rotation(45) == 11
    ensures Rotation(34) == Rotation(38) == Rotation(42) == Rotation(46) == 16 && Rotation(35) == Rotation(39) == Rotation(43) == Rotation(47) == 23
  {
  }

  lemma Constants7()
    ensures Constant(48) == 0xf4292244 && Constant(49) == 0x432aff97 && Constant(50) == 0xab9423a7 && Constant(51) == 0xfc93a039
    ensures Constant(52) == 0x655b59c3 && Constant(53) == 0x8f0ccc92 && Constant(54) == 0xffeff47d && Constant(55) == 0x85845dd1
  {
  }

  lemma Constants8()
    ensures Constant(56) == 0x6fa87e4f && Constant(57) == 0xfe2ce6e0 && Constant(58) == 0xa3014314 && Constant(59) == 0x4e0811a1
    ensures Constant(60) == 0xf7537e82 && Constant(61) == 0xbd3af235 && Constant(62) == 0x2ad7d2bb && Constant(63) == 0xeb86d391
  {
  }

  lemma Words4()
    ensures WordIndex(48) == 0 && WordIndex(49) == 7 && WordIndex(50) == 14 && WordIndex(51) == 5 && WordIndex(52) == 12 && WordIndex(53) == 3 && WordIndex(54) == 10 && WordIndex(55) == 1
    ensures WordIndex(56) == 8 && WordIndex(57) == 15 && WordIndex(58) == 6 && WordIndex(59) == 13 && WordIndex(60) == 4 && WordIndex(61) == 11 && WordIndex(62) == 2 && WordIndex(63) == 9
  {
  }

  lemma Rotations4()
    ensures Rotation(48) == Rotation(52) == Rotation(56) == Rotation(60) == 6 && Rotation(49) == Rotation(53) == Rotation(57) == Rotation(61) == 10
    ensures Rotation(50) == Rotation(54) == Rotation(58) == Rotation(62) == 15 && Rotation(51) == Rotation(55) == Rotation(59) == Rotation(63) == 21
  {
  }

  lemma Steps16(block: seq<Byte>)
    requires AbcWords(block) && Steps(INITIAL, block, 0) == State(0x67452301, 0xefcdab89, 0x98badcfe, 0x10325476)
    ensures Steps(INITIAL, block, 16) == State(0xdda9b9a6, 0x72aff2e0, 0xe396856b, 0xa1051895)
  {
    hide Word, Steps, Constant, Rotation, WordIndex;
    Constants1();
    Constants2();
    Words1();
    Rotations1();
    Next(block, 0, State(0x67452301, 0xefcdab89, 0x98badcfe, 0x10325476), 0x80636261, State(0x10325476, 0xd6d117b4, 0xefcdab89, 0x98badcfe));
    Next(block, 1, State(0x10325476, 0xd6d117b4, 0xefcdab89, 0x98badcfe), 0x0, State(0x98badcfe, 0x344a8432, 0xd6d117b4, 0xefcdab89));
    Next(block, 2, State(0x98badcfe, 0x344a8432, 0xd6d117b4, 0xefcdab89), 0x0, State(0xefcdab89, 0x2f6fbd72, 0x344a8432, 0xd6d117b4));
    Next(block, 3, State(0xefcdab89, 0x2f6fbd72, 0x344a8432, 0xd6d117b4), 0x0, State(0xd6d117b4, 0x7ad956f2, 0x2f6fbd72, 0x344a8432));
    Next(block, 4, State(0xd6d117b4, 0x7ad956f2, 0x2f6fbd72, 0x344a8432), 0x0, State(0x344a8432, 0xc73741ef, 0x7ad956f2, 0x2f6fbd72));
    Next(block, 5, State(0x344a8432, 0xc73741ef, 0x7ad956f2, 0x2f6fbd72), 0x0, State(0x2f6fbd72, 0x8bac3051, 0xc73741ef, 0x7ad956f2));
    Next(block, 6, State(0x2f6fbd72, 0x8bac3051, 0xc73741ef, 0x7ad956f2), 0x0, State(0x7ad956f2, 0x207dc67b, 0x8bac3051, 0xc73741ef));
    Next(block, 7, State(0x7ad956f2, 0x207dc67b, 0x8bac3051, 0xc73741ef), 0x0, State(0xc73741ef, 0x928d99f6, 0x207dc67b, 0x8bac3051));
    Next(block, 8, State(0xc73741ef, 0x928d99f6, 0x207dc67b, 0x8bac3051), 0x0, State(0x8bac3051, 0x854b3712, 0x928d99f6, 0x207dc67b));
    Next(block, 9, State(0x8bac3051, 0x854b3712, 0x928d99f6, 0x207dc67b), 0x0, State(0x207dc67b, 0x74e2f284, 0x854b3712, 0x928d99f6));
    Next(block, 10, State(0x207dc67b, 0x74e2f284, 0x854b3712, 0x928d99f6), 0x0, State(0x928d99f6, 0x3020401c, 0x74e2f284, 0x854b3712));
    Next(block, 11, State(0x928d99f6, 0x3020401c, 0x74e2f284, 0x854b3712), 0x0, State(0x854b3712, 0x5ed49596, 0x3020401c, 0x74e2f284));
    Next(block, 12, State(0x854b3712, 0x5ed49596, 0x3020401c, 0x74e2f284), 0x0, State(0x74e2f284, 0xdda9b9a6, 0x5ed49596, 0x3020401c));
    Next(block, 13, State(0x74e2f284, 0xdda9b9a6, 0x5ed49596, 0x3020401c), 0x0, State(0x3020401c, 0xa1051895, 0xdda9b9a6, 0x5ed49596));
    Next(block, 14, State(0x3020401c, 0xa1051895, 0xdda9b9a6, 0x5ed49596), 0x18, State(0x5ed49596, 0xe396856b, 0xa1051895, 0xdda9b9a6));
    Next(block, 15, State(0x5ed49596, 0xe396856b, 0xa1051895, 0xdda9b9a6), 0x0, State(0xdda9b9a6, 0x72aff2e0, 0xe396856b, 0xa1051895));
  }

  lemma Steps32(block: seq<Byte>)
    requires AbcWords(block) && Steps(INITIAL, block, 16) == State(0xdda9b9a6, 0x72aff2e0, 0xe396856b, 0xa1051895)
    ensures Steps(INITIAL, block, 32) == State(0x790a77fb, 0x726342d3, 0xa62884aa, 0x9f47e4f8)
  {
    hide Word, Steps, Constant, Rotation, WordIndex;
    Constants3();
    Constants4();
    Words2();
    Rotations2();
    Next(block, 16, State(0xdda9b9a6, 0x72aff2e0, 0xe396856b, 0xa1051895), 0x0, State(0xa1051895, 0x3e9e9126, 0x72aff2e0, 0xe396856b));
    Next(block, 17, State(0xa1051895, 0x3e9e9126, 0x72aff2e0, 0xe396856b), 0x0, State(0xe396856b, 0x4a1d804e, 0x3e9e9126, 0x72aff2e0));
    Next(block, 18, State(0xe396856b, 0x4a1d804e, 0x3e9e9126, 0x72aff2e0), 0x0, State(0x72aff2e0, 0xe25e1652, 0x4a1d804e, 0x3e9e9126));
    Next(block, 19, State(0x72aff2e0, 0xe25e1652, 0x4a1d804e, 0x3e9e9126), 0x80636261, State(0x3e9e9126, 0xb5b204e4, 0xe25e1652, 0x4a1d804e));
    Next(block, 20, State(0x3e9e9126, 0xb5b204e4, 0xe25e1652, 0x4a1d804e), 0x0, State(0x4a1d804e, 0x59a8ffda, 0xb5b204e4, 0xe25e1652));
    Next(block, 21, State(0x4a1d804e, 0x59a8ffda, 0xb5b204e4, 0xe25e1652), 0x0, State(0xe25e1652, 0x6d002f1e, 0x59a8ffda, 0xb5b204e4));
    Next(block, 22, State(0xe25e1652, 0x6d002f1e, 0x59a8ffda, 0xb5b204e4), 0x0, State(0xb5b204e4, 0xabfc7920, 0x6d002f1e, 0x59a8ffda));
    Next(block, 23, State(0xb5b204e4, 0xabfc7920, 0x6d002f1e, 0x59a8ffda), 0x0, State(0x59a8ffda, 0x47092c07, 0xabfc7920, 0x6d002f1e));
    Next(block, 24, State(0x59a8ffda, 0x47092c07, 0xabfc7920, 0x6d002f1e), 0x0, State(0x6d002f1e, 0xb7f268cf, 0x47092c07, 0xabfc7920));
    Next(block, 25, State(0x6d002f1e, 0xb7f268cf, 0x47092c07, 0xabfc7920), 0x18, State(0xabfc7920, 0x09388eff, 0xb7f268cf, 0x47092c07));
    Next(block, 26, State(0xabfc7920, 0x09388eff, 0xb7f268cf, 0x47092c07), 0x0, State(0x47092c07, 0xfe1623b1, 0x09388eff, 0xb7f268cf));
    Next(block, 27, State(0x47092c07, 0xfe1623b1, 0x09388eff, 0xb7f268cf), 0x0, State(0xb7f268cf, 0x786acb8f, 0xfe1623b1, 0x09388eff));
    Next(block, 28, State(0xb7f268cf, 0x786acb8f, 0xfe1623b1, 0x09388eff), 0x0, State(0x09388eff, 0x790a77fb, 0x786acb8f, 0xfe1623b1));
    Next(block, 29, State(0x09388eff, 0x790a77fb, 0x786acb8f, 0xfe1623b1), 0x0, State(0xfe1623b1, 0x9f47e4f8, 0x790a77fb, 0x786acb8f));
    Next(block, 30, State(0xfe1623b1, 0x9f47e4f8, 0x790a77fb, 0x786acb8f), 0x0, State(0x786acb8f, 0xa62884aa, 0x9f47e4f8, 0x790a77fb));
    Next(block, 31, State(0x786acb8f, 0xa62884aa, 0x9f47e4f8, 0x790a77fb), 0x0, State(0x790a77fb, 0x726342d3, 0xa62884aa, 0x9f47e4f8));
  }

  lemma Steps48(block: seq<Byte>)
    requires AbcWords(block) && Steps(INITIAL, block, 32) == State(0x790a77fb, 0x726342d3, 0xa62884aa, 0x9f47e4f8)
    ensures Steps(INITIAL, block, 48) == State(0x7f2e507b, 0x7beb9700, 0x8fae6399, 0x99d9679d)
  {
    hide Word, Steps, Constant, Rotation, WordIndex;
    Constants5();
    Constants6();
    Words3();
    Rotations3();
    Next(block, 32, State(0x790a77fb, 0x726342d3, 0xa62884aa, 0x9f47e4f8), 0x0, State(0x9f47e4f8, 0xb3707ebf, 0x726342d3, 0xa62884aa));
    Next(block, 33, State(0x9f47e4f8, 0xb3707ebf, 0x726342d3, 0xa62884aa), 0x0, State(0xa62884aa, 0x60127b2e, 0xb3707ebf, 0x726342d3));
    Next(block, 34, State(0xa62884aa, 0x60127b2e, 0xb3707ebf, 0x726342d3), 0x0, State(0x726342d3, 0x8d212ff5, 0x60127b2e, 0xb3707ebf));
    Next(block, 35, State(0x726342d3, 0x8d212ff5, 0x60127b2e, 0xb3707ebf), 0x18, State(0xb3707ebf, 0x3b0875c7, 0x8d212ff5, 0x60127b2e));
    Next(block, 36, State(0xb3707ebf, 0x3b0875c7, 0x8d212ff5, 0x60127b2e), 0x0, State(0x60127b2e, 0x21b117b9, 0x3b0875c7, 0x8d212ff5));
    Next(block, 37, State(0x60127b2e, 0x21b117b9, 0x3b0875c7, 0x8d212ff5), 0x0, State(0x8d212ff5, 0x6e7429d5, 0x21b117b9, 0x3b0875c7));
    Next(block, 38, State(0x8d212ff5, 0x6e7429d5, 0x21b117b9, 0x3b0875c7), 0x0, State(0x3b0875c7, 0x3575227e, 0x6e7429d5, 0x21b117b9));
    Next(block, 39, State(0x3b0875c7, 0x3575227e, 0x6e7429d5, 0x21b117b9), 0x0, State(0x21b117b9, 0x5a2f5ea5, 0x3575227e, 0x6e7429d5));
    Next(block, 40, State(0x21b117b9, 0x5a2f5ea5, 0x3575227e, 0x6e7429d5), 0x0, State(0x6e7429d5, 0x11de1779, 0x5a2f5ea5, 0x3575227e));
    Next(block, 41, State(0x6e7429d5, 0x11de1779, 0x5a2f5ea5, 0x3575227e), 0x80636261, State(0x3575227e, 0xfadcaa38, 0x11de1779, 0x5a2f5ea5));
    Next(block, 42, State(0x3575227e, 0xfadcaa38, 0x11de1779, 0x5a2f5ea5), 0x0, State(0x5a2f5ea5, 0x31c465ca, 0xfadcaa38, 0x11de1779));
    Next(block, 43, State(0x5a2f5ea5, 0x31c465ca, 0xfadcaa38, 0x11de1779), 0x0, State(0x11de1779, 0x4c6124f4, 0x31c465ca, 0xfadcaa38));
    Next(block, 44, State(0x11de1779, 0x4c6124f4, 0x31c465ca, 0xfadcaa38), 0x0, State(0xfadcaa38, 0x7f2e507b, 0x4c6124f4, 0x31c465ca));
    Next(block, 45, State(0xfadcaa38, 0x7f2e507b, 0x4c6124f4, 0x31c465ca), 0x0, State(0x31c465ca, 0x99d9679d, 0x7f2e507b, 0x4c6124f4));
    Next(block, 46, State(0x31c465ca, 0x99d9679d, 0x7f2e507b, 0x4c6124f4), 0x0, State(0x4c6124f4, 0x8fae6399, 0x99d9679d, 0x7f2e507b));
    Next(block, 47, State(0x4c6124f4, 0x8fae6399, 0x99d9679d, 0x7f2e507b), 0x0, State(0x7f2e507b, 0x7beb9700, 0x8fae6399, 0x99d9679d));
  }

  lemma Steps64(block: seq<Byte>)
    requires AbcWords(block) && Steps(INITIAL, block, 48) == State(0x7f2e507b, 0x7beb9700, 0x8fae6399, 0x99d9679d)
    ensures Steps(INITIAL, block, 64) == State(0x310ade8f, 0xc08226b3, 0xe484b9d8, 0x624d8cb2)
  {
    hide Word, Steps, Constant, Rotation, WordIndex;
    Constants7();
    Constants8();
    Words4();
    Rotations4();
    Next(block, 48, State(0x7f2e507b, 0x7beb9700, 0x8fae6399, 0x99d9679d), 0x80636261, State(0x99d9679d, 0x7b201df8, 0x7beb9700, 0x8fae6399));
    Next(block, 49, State(0x99d9679d, 0x7b201df8, 0x7beb9700, 0x8fae6399), 0x0, State(0x8fae6399, 0xf4e8e96e, 0x7b201df8, 0x7beb9700));
    Next(block, 50, State(0x8fae6399, 0xf4e8e96e, 0x7b201df8, 0x7beb9700), 0x18, State(0x7beb9700, 0xb298cefd, 0xf4e8e96e, 0x7b201df8));
    Next(block, 51, State(0x7beb9700, 0xb298cefd, 0xf4e8e96e, 0x7b201df8), 0x0, State(0x7b201df8, 0x8bf025c4, 0xb298cefd, 0xf4e8e96e));
    Next(block, 52, State(0x7b201df8, 0x8bf025c4, 0xb298cefd, 0xf4e8e96e), 0x0, State(0xf4e8e96e, 0x06cc5e8a, 0x8bf025c4, 0xb298cefd));
    Next(block, 53, State(0xf4e8e96e, 0x06cc5e8a, 0x8bf025c4, 0xb298cefd), 0x0, State(0xb298cefd, 0x5b0d97aa, 0x06cc5e8a, 0x8bf025c4));
    Next(block, 54, State(0xb298cefd, 0x5b0d97aa, 0x06cc5e8a, 0x8bf025c4), 0x0, State(0x8bf025c4, 0x7d632dd0, 0x5b0d97aa, 0x06cc5e8a));
    Next(block, 55, State(0x8bf025c4, 0x7d632dd0, 0x5b0d97aa, 0x06cc5e8a), 0x0, State(0x06cc5e8a, 0x3bfa2c27, 0x7d632dd0, 0x5b0d97aa));
    Next(block, 56, State(0x06cc5e8a, 0x3bfa2c27, 0x7d632dd0, 0x5b0d97aa), 0x0, State(0x5b0d97aa, 0x7f81cc35, 0x3bfa2c27, 0x7d632dd0));
    Next(block, 57, State(0x5b0d97aa, 0x7f81cc35, 0x3bfa2c27, 0x7d632dd0), 0x0, State(0x7d632dd0, 0x094454ab, 0x7f81cc35, 0x3bfa2c27));
    Next(block, 58, State(0x7d632dd0, 0x094454ab, 0x7f81cc35, 0x3bfa2c27), 0x0, State(0x3bfa2c27, 0x4f9dbe3f, 0x094454ab, 0x7f81cc35));
    Next(block, 59, State(0x3bfa2c27, 0x4f9dbe3f, 0x094454ab, 0x7f81cc35), 0x0, State(0x7f81cc35, 0x7327d604, 0x4f9dbe3f, 0x094454ab));
    Next(block, 60, State(0x7f81cc35, 0x7327d604, 0x4f9dbe3f, 0x094454ab), 0x0, State(0x094454ab, 0x310ade8f, 0x7327d604, 0x4f9dbe3f));
    Next(block, 61, State(0x094454ab, 0x310ade8f, 0x7327d604, 0x4f9dbe3f), 0x0, State(0x4f9dbe3f, 0x624d8cb2, 0x310ade8f, 0x7327d604));
    Next(block, 62, State(0x4f9dbe3f, 0x624d8cb2, 0x310ade8f, 0x7327d604), 0x0, State(0x7327d604, 0xe484b9d8, 0x624d8cb2, 0x310ade8f));
    Next(block, 63, State(0x7327d604, 0xe484b9d8, 0x624d8cb2, 0x310ade8f), 0x0, State(0x310ade8f, 0xc08226b3, 0xe484b9d8, 0x624d8cb2));
  }

  lemma AbcState()
    ensures Absorb(INITIAL, Padded(ABC)) == State(0x98500190, 0xb04fd23c, 0x7d3f96d6, 0x727fe128)
  {
    AbcBlock();
    var block := Padded(ABC);
    Steps16(block);
    Steps32(block);
    Steps48(block);
    Steps64(block);
    assert block[..64] == block && block[64..] == [];
    hide Steps, Padded;
    assert Transform(INITIAL, block) == State(0x98500190, 0xb04fd23c, 0x7d3f96d6, 0x727fe128);
    assert Absorb(INITIAL, block) == Absorb(Transform(INITIAL, block), []);
  }

  lemma FourBytes(v: int, b0: Byte, b1: Byte, b2: Byte, b3: Byte)
    requires v == b0 + 0x100 * b1 + 0x1_0000 * b2 + 0x100_0000 * b3
    ensures LE(v, 4) == [b0, b1, b2, b3]
  {
    assert v % 256 == b0 && v / 256 == b1 + 0x100 * b2 + 0x1_0000 * b3;
    assert LE(v / 256, 3) == [b1, b2, b3] by {
      assert (v / 256) % 256 == b1 && v / 256 / 256 == b2 + 0x100 * b3;
      assert LE(v / 256 / 256, 2) == [b2, b3];
    }
  }

  /** MD5 ("abc") = 900150983cd24fb0d6963f7d28e17f72. */
  lemma DigestOfAbc()
    ensures Md5Of(ABC) == [
      0x90, 0x01, 0x50, 0x98, 0x3c, 0xd2, 0x4f, 0xb0,
      0xd6, 0x96, 0x3f, 0x7d, 0x28, 0xe1, 0x7f, 0x72]
  {
    hide Absorb, Padded, LE;
    AbcState();
    FourBytes(0x98500190, 0x90, 0x01, 0x50, 0x98);
    FourBytes(0xb04fd23c, 0x3c, 0xd2, 0x4f, 0xb0);
    FourBytes(0x7d3f96d6, 0xd6, 0x96, 0x3f, 0x7d);
    FourBytes(0x727fe128, 0x28, 0xe1, 0x7f, 0x72);
  }
}
