/** The example that is published with FIPS 180: the digest of "abc", round by round. */
module Sha1Example {
  import opened Sha1

  /** The one block that "abc" is padded to. */
  const BLOCK: seq<Byte> := [0x61, 0x62, 0x63] + [0x80] + Zeros(59) + [24]

  /** The rule of the message schedule. */
  predicate ScheduleAt(w: seq<Word>, t: nat)
    requires 16 <= t < |w|
  {
    w[t] == Expand(w[t - 3], w[t - 8], w[t - 14], w[t - 16])
  }

  ghost predicate Schedule(w: seq<Word>) {
    |w| == 80 && forall t :: 16 <= t < 80 ==> ScheduleAt(w, t)
  }

  /**
    The five working variables after `t` rounds are all values of a, some of them rotated. Five values that stand
    for the initial hash value come before those after each round.
   */
  function StateAt(a: seq<Word>, t: nat): Digest
    requires t + 4 < |a|
  {
    Digest(a[t + 4], a[t + 3], Rotl(30, a[t + 2]), Rotl(30, a[t + 1]), Rotl(30, a[t]))
  }

  /** The rule of the rounds, in terms of the variable a alone. */
  predicate TraceAt(a: seq<Word>, w: seq<Word>, t: nat)
    requires t + 5 < |a| && t < |w|
  {
    a[t + 5] == Round(t, StateAt(a, t), w[t]).a
  }

  ghost predicate Trace(a: seq<Word>, w: seq<Word>) {
    |a| == 85 && |w| == 80 && forall t :: 0 <= t < 80 ==> TraceAt(a, w, t)
  }

  /** The words of the schedule, as published. */
  predicate Words0(w: seq<Word>)
    requires |w| == 80
  {
    && w[0] == 0x61626380 && w[1] == 0x00000000 && w[2] == 0x00000000 && w[3] == 0x00000000
    && w[4] == 0x00000000 && w[5] == 0x00000000 && w[6] == 0x00000000 && w[7] == 0x00000000
  }

  predicate Words1(w: seq<Word>)
    requires |w| == 80
  {
    && w[8] == 0x00000000 && w[9] == 0x00000000 && w[10] == 0x00000000 && w[11] == 0x00000000
    && w[12] == 0x00000000 && w[13] == 0x00000000 && w[14] == 0x00000000 && w[15] == 0x00000018
  }

  predicate Words2(w: seq<Word>)
    requires |w| == 80
  {
    && w[16] == 0xc2c4c700 && w[17] == 0x00000000 && w[18] == 0x00000030 && w[19] == 0x85898e01
    && w[20] == 0x00000000 && w[21] == 0x00000060 && w[22] == 0x0b131c03 && w[23] == 0x00000030
  }

  predicate Words3(w: seq<Word>)
    requires |w| == 80
  {
    && w[24] == 0x85898ec1 && w[25] == 0x16263806 && w[26] == 0x00000000 && w[27] == 0x00000180
    && w[28] == 0x2c4c700c && w[29] == 0x000000f0 && w[30] == 0x93afb507 && w[31] == 0x5898e048
  }

  predicate Words4(w: seq<Word>)
    requires |w| == 80
  {
    && w[32] == 0x8e9a9202 && w[33] == 0x00000600 && w[34] == 0xb131c0f0 && w[35] == 0x16263bc6
    && w[36] == 0x4ebed41e && w[37] == 0x626380a1 && w[38] == 0x16263806 && w[39] == 0x000018c0
  }

  predicate Words5(w: seq<Word>)
    requires |w| == 80
  {
    && w[40] == 0xd2e138c4 && w[41] == 0x00000f00 && w[42] == 0x3afb5079 && w[43] == 0x898e04e5
    && w[44] == 0xe2ba3c2b && w[45] == 0x000060c0 && w[46] == 0x053a37cd && w[47] == 0x74458547
  }

  predicate Words6(w: seq<Word>)
    requires |w| == 80
  {
    && w[48] == 0xda9415ed && w[49] == 0x26380a16 && w[50] == 0x626383a1 && w[51] == 0x4ebf54de
    && w[52] == 0x3835b44b && w[53] == 0x0000f600 && w[54] == 0x1e84c7a3 && w[55] == 0x98e04d98
  }

  predicate Words7(w: seq<Word>)
    requires |w| == 80
  {
    && w[56] == 0x651d16a0 && w[57] == 0x62658ca1 && w[58] == 0x458544d6 && w[59] == 0x44584cb7
    && w[60] == 0x7ba06619 && w[61] == 0x6380aea2 && w[62] == 0x0ae55269 && w[63] == 0x627b49a1
  }

  predicate Words8(w: seq<Word>)
    requires |w| == 80
  {
    && w[64] == 0x7cd45c9d && w[65] == 0x000f0000 && w[66] == 0xfb50753a && w[67] == 0xec6765e8
    && w[68] == 0xba3c2be2 && w[69] == 0x0060c000 && w[70] == 0x3a37cd05 && w[71] == 0x458546f4
  }

  predicate Words9(w: seq<Word>)
    requires |w| == 80
  {
    && w[72] == 0xb8599dd6 && w[73] == 0x380a1a26 && w[74] == 0x01e02203 && w[75] == 0xe7cc3456
    && w[76] == 0xe6e60b69 && w[77] == 0x00f60a00 && w[78] == 0x5795ef4f && w[79] == 0x822e0879
  }

  lemma NextWord(w: seq<Word>, t: nat)
    requires Schedule(w) && 16 <= t < 80
    ensures w[t] == Expand(w[t - 3], w[t - 8], w[t - 14], w[t - 16])
  {
    assert ScheduleAt(w, t);
  }

  lemma NextWords2(w: seq<Word>)
    requires Schedule(w) && Words0(w) && Words1(w)
    ensures Words2(w)
  {
    NextWord(w, 16); NextWord(w, 17); NextWord(w, 18); NextWord(w, 19);
    NextWord(w, 20); NextWord(w, 21); NextWord(w, 22); NextWord(w, 23);
  }

  lemma NextWords3(w: seq<Word>)
    requires Schedule(w) && Words1(w) && Words2(w)
    ensures Words3(w)
  {
    NextWord(w, 24); NextWord(w, 25); NextWord(w, 26); NextWord(w, 27);
    NextWord(w, 28); NextWord(w, 29); NextWord(w, 30); NextWord(w, 31);
  }

  lemma NextWords4(w: seq<Word>)
    requires Schedule(w) && Words2(w) && Words3(w)
    ensures Words4(w)
  {
    NextWord(w, 32); NextWord(w, 33); NextWord(w, 34); NextWord(w, 35);
    NextWord(w, 36); NextWord(w, 37); NextWord(w, 38); NextWord(w, 39);
  }

  lemma NextWords5(w: seq<Word>)
    requires Schedule(w) && Words3(w) && Words4(w)
    ensures Words5(w)
  {
    NextWord(w, 40); NextWord(w, 41); NextWord(w, 42); NextWord(w, 43);
    NextWord(w, 44); NextWord(w, 45); NextWord(w, 46); NextWord(w, 47);
  }

  lemma NextWords6(w: seq<Word>)
    requires Schedule(w) && Words4(w) && Words5(w)
    ensures Words6(w)
  {
    NextWord(w, 48); NextWord(w, 49); NextWord(w, 50); NextWord(w, 51);
    NextWord(w, 52); NextWord(w, 53); NextWord(w, 54); NextWord(w, 55);
  }

  lemma NextWords7(w: seq<Word>)
    requires Schedule(w) && Words5(w) && Words6(w)
    ensures Words7(w)
  {
    NextWord(w, 56); NextWord(w, 57); NextWord(w, 58); NextWord(w, 59);
    NextWord(w, 60); NextWord(w, 61); NextWord(w, 62); NextWord(w, 63);
  }

  lemma NextWords8(w: seq<Word>)
    requires Schedule(w) && Words6(w) && Words7(w)
    ensures Words8(w)
  {
    NextWord(w, 64); NextWord(w, 65); NextWord(w, 66); NextWord(w, 67);
    NextWord(w, 68); NextWord(w, 69); NextWord(w, 70); NextWord(w, 71);
  }

  lemma NextWords9(w: seq<Word>)
    requires Schedule(w) && Words7(w) && Words8(w)
    ensures Words9(w)
  {
    NextWord(w, 72); NextWord(w, 73); NextWord(w, 74); NextWord(w, 75);
    NextWord(w, 76); NextWord(w, 77); NextWord(w, 78); NextWord(w, 79);
  }

  /** The published value of a after round `t`. */
  lemma NextValue(a: seq<Word>, w: seq<Word>, t: nat, x: Word)
    requires Trace(a, w) && t < 80 && Round(t, StateAt(a, t), w[t]).a == x
    ensures a[t + 5] == x
  {
    assert TraceAt(a, w, t);
  }

  lemma Rounds0(a: seq<Word>, w: seq<Word>)
    requires Trace(a, w) && Words0(w)
    requires StateAt(a, 0) == Digest(0x67452301, 0xefcdab89, 0x98badcfe, 0x10325476, 0xc3d2e1f0)
    ensures StateAt(a, 8) == Digest(0x9e8c07d4, 0x993e30c1, 0x0ff1f290, 0xb3f52677, 0xf3763846)
  {
    NextValue(a, w, 0, 0x0116fc33); NextValue(a, w, 1, 0x8990536d);
    NextValue(a, w, 2, 0xa1390f08); NextValue(a, w, 3, 0xcdd8e11b);
    NextValue(a, w, 4, 0xcfd499de); NextValue(a, w, 5, 0x3fc7ca40);
    NextValue(a, w, 6, 0x993e30c1); NextValue(a, w, 7, 0x9e8c07d4);
  }

  lemma Rounds1(a: seq<Word>, w: seq<Word>)
    requires Trace(a, w) && Words1(w)
    requires StateAt(a, 8) == Digest(0x9e8c07d4, 0x993e30c1, 0x0ff1f290, 0xb3f52677, 0xf3763846)
    ensures StateAt(a, 16) == Digest(0x20bdd62f, 0x196bee77, 0x644a3da5, 0x1181ed99, 0x18c623f9)
  {
    NextValue(a, w, 8, 0x4b6ae328); NextValue(a, w, 9, 0x8351f929);
    NextValue(a, w, 10, 0xfbda9e89); NextValue(a, w, 11, 0x63188fe4);
    NextValue(a, w, 12, 0x4607b664); NextValue(a, w, 13, 0x9128f695);
    NextValue(a, w, 14, 0x196bee77); NextValue(a, w, 15, 0x20bdd62f);
  }

  lemma Rounds2(a: seq<Word>, w: seq<Word>)
    requires Trace(a, w) && Words2(w)
    requires StateAt(a, 16) == Digest(0x20bdd62f, 0x196bee77, 0x644a3da5, 0x1181ed99, 0x18c623f9)
    ensures StateAt(a, 24) == Digest(0xd541f12d, 0x21283486, 0x0ce88eff, 0x868dec32, 0x7f67875f)
  {
    NextValue(a, w, 16, 0x4e925823); NextValue(a, w, 17, 0x82aa6728);
    NextValue(a, w, 18, 0xdc64901d); NextValue(a, w, 19, 0xfd9e1d7d);
    NextValue(a, w, 20, 0x1a37b0ca); NextValue(a, w, 21, 0x33a23bfc);
    NextValue(a, w, 22, 0x21283486); NextValue(a, w, 23, 0xd541f12d);
  }

  lemma Rounds3(a: seq<Word>, w: seq<Word>)
    requires Trace(a, w) && Words3(w)
    requires StateAt(a, 24) == Digest(0xd541f12d, 0x21283486, 0x0ce88eff, 0x868dec32, 0x7f67875f)
    ensures StateAt(a, 32) == Digest(0x3b845d33, 0x1267b407, 0x717eebd7, 0xa0dc2d4b, 0xd2aa1365)
  {
    NextValue(a, w, 24, 0xc7567dc6); NextValue(a, w, 25, 0x48413ba4);
    NextValue(a, w, 26, 0xbe35fbd5); NextValue(a, w, 27, 0x4aa84d97);
    NextValue(a, w, 28, 0x8370b52e); NextValue(a, w, 29, 0xc5fbaf5d);
    NextValue(a, w, 30, 0x1267b407); NextValue(a, w, 31, 0x3b845d33);
  }

  lemma Rounds4(a: seq<Word>, w: seq<Word>)
    requires Trace(a, w) && Words4(w)
    requires StateAt(a, 32) == Digest(0x3b845d33, 0x1267b407, 0x717eebd7, 0xa0dc2d4b, 0xd2aa1365)
    ensures StateAt(a, 40) == Digest(0x32de1cba, 0x4c986405, 0xf718e5cf, 0x03d447f6, 0xf72eec32)
  {
    NextValue(a, w, 32, 0x046faa0a); NextValue(a, w, 33, 0x2c0ebc11);
    NextValue(a, w, 34, 0x21796ad4); NextValue(a, w, 35, 0xdcbbb0cb);
    NextValue(a, w, 36, 0x0f511fd8); NextValue(a, w, 37, 0xdc63973f);
    NextValue(a, w, 38, 0x4c986405); NextValue(a, w, 39, 0x32de1cba);
  }

  lemma Rounds5(a: seq<Word>, w: seq<Word>)
    requires Trace(a, w) && Words5(w)
    requires StateAt(a, 40) == Digest(0x32de1cba, 0x4c986405, 0xf718e5cf, 0x03d447f6, 0xf72eec32)
    ensures StateAt(a, 48) == Digest(0xbead02ca, 0xa01b846c, 0x8714787c, 0x503ca382, 0xfb86c6ab)
  {
    NextValue(a, w, 40, 0xfc87dedf); NextValue(a, w, 41, 0x970a0d5c);
    NextValue(a, w, 42, 0x7f193dc5); NextValue(a, w, 43, 0xee1b1aaf);
    NextValue(a, w, 44, 0x40f28e09); NextValue(a, w, 45, 0x1c51e1f2);
    NextValue(a, w, 46, 0xa01b846c); NextValue(a, w, 47, 0xbead02ca);
  }

  lemma Rounds6(a: seq<Word>, w: seq<Word>)
    requires Trace(a, w) && Words6(w)
    requires StateAt(a, 48) == Digest(0xbead02ca, 0xa01b846c, 0x8714787c, 0x503ca382, 0xfb86c6ab)
    ensures StateAt(a, 56) == Digest(0x5e6456af, 0x7b71f76d, 0x09fa7c76, 0x792410db, 0x8e11eb59)
  {
    NextValue(a, w, 48, 0xbaf39337); NextValue(a, w, 49, 0x120731c5);
    NextValue(a, w, 50, 0x641db2ce); NextValue(a, w, 51, 0x3847ad66);
    NextValue(a, w, 52, 0xe490436d); NextValue(a, w, 53, 0x27e9f1d8);
    NextValue(a, w, 54, 0x7b71f76d); NextValue(a, w, 55, 0x5e6456af);
  }

  lemma Rounds7(a: seq<Word>, w: seq<Word>)
    requires Trace(a, w) && Words7(w)
    requires StateAt(a, 56) == Digest(0x5e6456af, 0x7b71f76d, 0x09fa7c76, 0x792410db, 0x8e11eb59)
    ensures StateAt(a, 64) == Digest(0x6b61c9e1, 0xb66c020b, 0x9523272c, 0xf5d5b051, 0x8fd4b796)
  {
    NextValue(a, w, 56, 0xc846093f); NextValue(a, w, 57, 0xd262ff50);
    NextValue(a, w, 58, 0x09d785fd); NextValue(a, w, 59, 0x3f52de5a);
    NextValue(a, w, 60, 0xd756c147); NextValue(a, w, 61, 0x548c9cb2);
    NextValue(a, w, 62, 0xb66c020b); NextValue(a, w, 63, 0x6b61c9e1);
  }

  lemma Rounds8(a: seq<Word>, w: seq<Word>)
    requires Trace(a, w) && Words8(w)
    requires StateAt(a, 64) == Digest(0x6b61c9e1, 0xb66c020b, 0x9523272c, 0xf5d5b051, 0x8fd4b796)
    ensures StateAt(a, 72) == Digest(0x39859de7, 0xc199f8c7, 0x8fc96230, 0x125c24f0, 0xde37534a)
  {
    NextValue(a, w, 64, 0x19dfa7ac); NextValue(a, w, 65, 0x101655f9);
    NextValue(a, w, 66, 0x0c3df2b4); NextValue(a, w, 67, 0x78dd4d2b);
    NextValue(a, w, 68, 0x497093c0); NextValue(a, w, 69, 0x3f2588c2);
    NextValue(a, w, 70, 0xc199f8c7); NextValue(a, w, 71, 0x39859de7);
  }

  lemma Rounds9(a: seq<Word>, w: seq<Word>)
    requires Trace(a, w) && Words9(w)
    requires StateAt(a, 72) == Digest(0x39859de7, 0xc199f8c7, 0x8fc96230, 0x125c24f0, 0xde37534a)
    ensures StateAt(a, 80) == Digest(0x42541b35, 0x5738d5e1, 0x21834873, 0x681e6df6, 0xd8fdf6ad)
  {
    NextValue(a, w, 72, 0xedb42de4); NextValue(a, w, 73, 0x11793f6f);
    NextValue(a, w, 74, 0x5ee76897); NextValue(a, w, 75, 0x63f7dab7);
    NextValue(a, w, 76, 0xa079b7d9); NextValue(a, w, 77, 0x860d21cc);
    NextValue(a, w, 78, 0x5738d5e1); NextValue(a, w, 79, 0x42541b35);
  }

  // ---- the schedule and the rounds follow these rules ----

  function Scheduled(s: seq<Byte>): (w: seq<Word>)
    requires |s| == 64
    ensures |w| == 80 && forall t :: 0 <= t < 80 ==> w[t] == W(s, 0, t)
  {
    seq(80, t requires 0 <= t < 80 => W(s, 0, t))
  }

  lemma FollowsSchedule(s: seq<Byte>)
    requires |s| == 64
    ensures Schedule(Scheduled(s))
  {
    forall t | 16 <= t < 80
      ensures ScheduleAt(Scheduled(s), t)
    {
      UnfoldW(s, t);
    }
  }

  lemma UnfoldW(s: seq<Byte>, t: nat)
    requires |s| == 64 && t >= 16
    ensures W(s, 0, t) == Expand(W(s, 0, t - 3), W(s, 0, t - 8), W(s, 0, t - 14), W(s, 0, t - 16))
  {
  }

  /** The variable a after `t - 4` rounds, for `t` from 4 on. */
  function History(s: seq<Byte>, t: nat): Word
    requires |s| == 64
  {
    if t == 0 then 0x0f4b87c3 else if t == 1 then 0x40c951d8 else if t == 2 then 0x62eb73fa else if t == 3 then INITIAL.b
    else Rounds(s, 0, INITIAL, t - 4).a
  }

  function Traced(s: seq<Byte>): (a: seq<Word>)
    requires |s| == 64
    ensures |a| == 85 && forall t :: 0 <= t < 85 ==> a[t] == History(s, t)
  {
    seq(85, t requires 0 <= t < 85 => History(s, t))
  }

  lemma {:induction false} RoundsAreTraced(s: seq<Byte>, t: nat)
    requires |s| == 64 && t <= 80
    ensures Rounds(s, 0, INITIAL, t) == StateAt(Traced(s), t)
  {
    if t == 0 {
      RotatedInitial();
    } else {
      RoundsAreTraced(s, t - 1);
      NextState(Traced(s), t - 1, Rounds(s, 0, INITIAL, t), W(s, 0, t - 1));
    }
  }

  lemma NextState(a: seq<Word>, t: nat, v: Digest, w: Word)
    requires t + 5 < |a| && v == Round(t, StateAt(a, t), w) && v.a == a[t + 5]
    ensures v == StateAt(a, t + 1)
  {
  }

  lemma RotatedInitial()
    ensures Rotl(30, 0x0f4b87c3) == INITIAL.e && Rotl(30, 0x40c951d8) == INITIAL.d && Rotl(30, 0x62eb73fa) == INITIAL.c
  {
  }

  lemma FollowsTrace(s: seq<Byte>)
    requires |s| == 64
    ensures Trace(Traced(s), Scheduled(s))
  {
    forall t | 0 <= t < 80
      ensures TraceAt(Traced(s), Scheduled(s), t)
    {
      RoundsAreTraced(s, t);
      NextIsRound(s, t);
    }
  }

  lemma NextIsRound(s: seq<Byte>, t: nat)
    requires |s| == 64
    ensures History(s, t + 5) == Round(t, Rounds(s, 0, INITIAL, t), W(s, 0, t)).a
  {
    OneMoreRound(s, INITIAL, t);
  }

  lemma OneMoreRound(s: seq<Byte>, v: Digest, t: nat)
    requires |s| == 64
    ensures Rounds(s, 0, v, t + 1) == Round(t, Rounds(s, 0, v, t), W(s, 0, t))
  {
  }

  // ---- the digest ----

  lemma PaddedAbc()
    ensures |BLOCK| == 64 && Padded([0x61, 0x62, 0x63]) == BLOCK
  {
    Length64Of24();
    assert Zeros(52) + [0, 0, 0, 0, 0, 0, 0] == Zeros(59);
  }

  lemma Length64Of24()
    ensures Length64(24) == [0, 0, 0, 0, 0, 0, 0] + [24]
  {
    assert Octet(0) == 0 && Octet(24) == 24;
    assert 24 / 0x100_0000_0000_0000 == 24 / 0x1_0000_0000_0000 == 24 / 0x100_0000_0000 == 24 / 0x1_0000_0000 == 0;
    assert 24 / 0x100_0000 == 24 / 0x1_0000 == 24 / 0x100 == 0;
  }

  lemma WordsOfBlock(w: seq<Word>)
    requires |BLOCK| == 64 && w == Scheduled(BLOCK)
    ensures Words0(w) && Words1(w)
  {
    assert BLOCK[0] == 0x61 && BLOCK[1] == 0x62 && BLOCK[2] == 0x63 && BLOCK[3] == 0x80 && BLOCK[63] == 24;
    assert forall i :: 4 <= i < 63 ==> BLOCK[i] == 0;
    assert Join(0x61, 0x62, 0x63, 0x80) == 0x61626380 && Join(0, 0, 0, 0) == 0 && Join(0, 0, 0, 24) == 24;
    forall t | 0 <= t < 16
      ensures w[t] == if t == 0 then 0x61626380 else if t == 15 then 24 else 0
    {
      assert w[t] == Join(BLOCK[4 * t], BLOCK[4 * t + 1], BLOCK[4 * t + 2], BLOCK[4 * t + 3]);
    }
  }

  lemma AllWords(w: seq<Word>)
    requires Schedule(w) && Words0(w) && Words1(w)
    ensures Words2(w) && Words3(w) && Words4(w) && Words5(w) && Words6(w) && Words7(w) && Words8(w) && Words9(w)
  {
    NextWords2(w);
    NextWords3(w);
    NextWords4(w);
    NextWords5(w);
    NextWords6(w);
    NextWords7(w);
    NextWords8(w);
    NextWords9(w);
  }

  lemma AllRounds(a: seq<Word>, w: seq<Word>)
    requires Schedule(w) && Trace(a, w) && Words0(w) && Words1(w) && StateAt(a, 0) == INITIAL
    ensures StateAt(a, 80) == Digest(0x42541b35, 0x5738d5e1, 0x21834873, 0x681e6df6, 0xd8fdf6ad)
  {
    AllWords(w);
    Rounds0(a, w);
    Rounds1(a, w);
    Rounds2(a, w);
    Rounds3(a, w);
    Rounds4(a, w);
    Rounds5(a, w);
    Rounds6(a, w);
    Rounds7(a, w);
    Rounds8(a, w);
    Rounds9(a, w);
  }

  lemma Total(v: Digest)
    requires v == Digest(0x42541b35, 0x5738d5e1, Rotl(30, 0x860d21cc), Rotl(30, 0xa079b7d9), Rotl(30, 0x63f7dab7))
    ensures Add(INITIAL, v) == Digest(0xa9993e36, 0x4706816a, 0xba3e2571, 0x7850c26c, 0x9cd0d89d)
  {
  }

  lemma RoundsOfAbc()
    requires |BLOCK| == 64
    ensures Rounds(BLOCK, 0, INITIAL, 80) == Digest(0x42541b35, 0x5738d5e1, 0x21834873, 0x681e6df6, 0xd8fdf6ad)
  {
    var a, w := Traced(BLOCK), Scheduled(BLOCK);
    FollowsSchedule(BLOCK);
    FollowsTrace(BLOCK);
    WordsOfBlock(w);
    RoundsAreTraced(BLOCK, 0);
    AllRounds(a, w);
    RoundsAreTraced(BLOCK, 80);
  }

  /** The published digest. */
  lemma HashOfAbc()
    ensures Hash([0x61, 0x62, 0x63]) == Digest(0xa9993e36, 0x4706816a, 0xba3e2571, 0x7850c26c, 0x9cd0d89d)
  {
    PaddedAbc();
    RoundsOfAbc();
    Total(Rounds(BLOCK, 0, INITIAL, 80));
    assert Blocks(BLOCK, 0) == INITIAL;
    assert Blocks(BLOCK, 1) == Add(INITIAL, Rounds(BLOCK, 0, INITIAL, 80));
  }
}
