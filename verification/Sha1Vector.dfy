/** The test vector of RFC 3174, section 7.3: the digest of "abc". Word by word and four rounds at a time. */
module Sha1Vector {
  import opened Bytes
  import opened Sha1

  /** "abc" with its padding: one block. */
  const ABC: Block := [0x61, 0x62, 0x63, 0x80] + Zeros(59) + [0x18]

  lemma AbcPadded()
    ensures Padded([0x61, 0x62, 0x63]) == ABC
  {
    var p := Padded([0x61, 0x62, 0x63]);
    assert p[56..] == BigEndian(24);
    forall i | 0 <= i < 8
      ensures BigEndian(24)[i] == ABC[56 + i]
    {
      assert BigEndian(24)[i] == ByteOf(24, i);
    }
    assert forall i :: 0 <= i < 56 ==> p[i] == ABC[i];
    assert p == p[..56] + p[56..];
    assert ABC == ABC[..56] + ABC[56..];
  }

  // ---------------------------------------------------------------- the words

  lemma Words0()
    ensures W(ABC, 0) == 0x61626380 && W(ABC, 15) == 0x00000018
    ensures forall t :: 1 <= t < 15 ==> W(ABC, t) == 0
  {
    assert Pack(0x61, 0x62, 0x63, 0x80) == 0x61626380 && Pack(0, 0, 0, 0x18) == 0x18 && Pack(0, 0, 0, 0) == 0;
    forall t | 1 <= t < 15
      ensures W(ABC, t) == 0
    {
      assert ABC[4 * t] == 0 && ABC[4 * t + 1] == 0 && ABC[4 * t + 2] == 0 && ABC[4 * t + 3] == 0;
    }
  }

  lemma Words16()
    ensures W(ABC, 16) == 0xC2C4C700 && W(ABC, 17) == 0x00000000
    ensures W(ABC, 18) == 0x00000030 && W(ABC, 19) == 0x85898E01
    ensures W(ABC, 20) == 0x00000000 && W(ABC, 21) == 0x00000060
    ensures W(ABC, 22) == 0x0B131C03 && W(ABC, 23) == 0x00000030
  {
    Words0();
  }

  lemma Words24()
    ensures W(ABC, 24) == 0x85898EC1 && W(ABC, 25) == 0x16263806
    ensures W(ABC, 26) == 0x00000000 && W(ABC, 27) == 0x00000180
    ensures W(ABC, 28) == 0x2C4C700C && W(ABC, 29) == 0x000000F0
    ensures W(ABC, 30) == 0x93AFB507 && W(ABC, 31) == 0x5898E048
  {
    Words0();
    Words16();
  }

  lemma Words32()
    ensures W(ABC, 32) == 0x8E9A9202 && W(ABC, 33) == 0x00000600
    ensures W(ABC, 34) == 0xB131C0F0 && W(ABC, 35) == 0x16263BC6
    ensures W(ABC, 36) == 0x4EBED41E && W(ABC, 37) == 0x626380A1
    ensures W(ABC, 38) == 0x16263806 && W(ABC, 39) == 0x000018C0
  {
    Words16();
    Words24();
  }

  lemma Words40()
    ensures W(ABC, 40) == 0xD2E138C4 && W(ABC, 41) == 0x00000F00
    ensures W(ABC, 42) == 0x3AFB5079 && W(ABC, 43) == 0x898E04E5
    ensures W(ABC, 44) == 0xE2BA3C2B && W(ABC, 45) == 0x000060C0
    ensures W(ABC, 46) == 0x053A37CD && W(ABC, 47) == 0x74458547
  {
    Words24();
    Words32();
  }

  lemma Words48()
    ensures W(ABC, 48) == 0xDA9415ED && W(ABC, 49) == 0x26380A16
    ensures W(ABC, 50) == 0x626383A1 && W(ABC, 51) == 0x4EBF54DE
    ensures W(ABC, 52) == 0x3835B44B && W(ABC, 53) == 0x0000F600
    ensures W(ABC, 54) == 0x1E84C7A3 && W(ABC, 55) == 0x98E04D98
  {
    Words32();
    Words40();
  }

  lemma Words56()
    ensures W(ABC, 56) == 0x651D16A0 && W(ABC, 57) == 0x62658CA1
    ensures W(ABC, 58) == 0x458544D6 && W(ABC, 59) == 0x44584CB7
    ensures W(ABC, 60) == 0x7BA06619 && W(ABC, 61) == 0x6380AEA2
    ensures W(ABC, 62) == 0x0AE55269 && W(ABC, 63) == 0x627B49A1
  {
    Words40();
    Words48();
  }

  lemma Words64()
    ensures W(ABC, 64) == 0x7CD45C9D && W(ABC, 65) == 0x000F0000
    ensures W(ABC, 66) == 0xFB50753A && W(ABC, 67) == 0xEC6765E8
    ensures W(ABC, 68) == 0xBA3C2BE2 && W(ABC, 69) == 0x0060C000
    ensures W(ABC, 70) == 0x3A37CD05 && W(ABC, 71) == 0x458546F4
  {
    Words48();
    Words56();
  }

  lemma Words72()
    ensures W(ABC, 72) == 0xB8599DD6 && W(ABC, 73) == 0x380A1A26
    ensures W(ABC, 74) == 0x01E02203 && W(ABC, 75) == 0xE7CC3456
    ensures W(ABC, 76) == 0xE6E60B69 && W(ABC, 77) == 0x00F60A00
    ensures W(ABC, 78) == 0x5795EF4F && W(ABC, 79) == 0x822E0879
  {
    Words56();
    Words64();
  }

  // ---------------------------------------------------------------- the rounds

  /** The buffer after t rounds. */
  function After(t: nat): Words {
    Rounds(INITIAL, ABC, t)
  }

  lemma Rounds4()
    ensures After(4) == Words(0xCDD8E11B, 0xA1390F08, 0x626414DB, 0xC045BF0C, 0x59D148C0)
  {
    Words0();
    hide W;
    assert After(0) == Words(0x67452301, 0xEFCDAB89, 0x98BADCFE, 0x10325476, 0xC3D2E1F0);
    assert After(1) == Words(0x0116FC33, 0x67452301, 0x7BF36AE2, 0x98BADCFE, 0x10325476);
    assert After(2) == Words(0x8990536D, 0x0116FC33, 0x59D148C0, 0x7BF36AE2, 0x98BADCFE);
    assert After(3) == Words(0xA1390F08, 0x8990536D, 0xC045BF0C, 0x59D148C0, 0x7BF36AE2);
  }

  lemma Rounds8()
    ensures After(8) == Words(0x9E8C07D4, 0x993E30C1, 0x0FF1F290, 0xB3F52677, 0xF3763846)
  {
    Rounds4();
    Words0();
    hide W;
    assert After(5) == Words(0xCFD499DE, 0xCDD8E11B, 0x284E43C2, 0x626414DB, 0xC045BF0C);
    assert After(6) == Words(0x3FC7CA40, 0xCFD499DE, 0xF3763846, 0x284E43C2, 0x626414DB);
    assert After(7) == Words(0x993E30C1, 0x3FC7CA40, 0xB3F52677, 0xF3763846, 0x284E43C2);
  }

  lemma Rounds12()
    ensures After(12) == Words(0x63188FE4, 0xFBDA9E89, 0x60D47E4A, 0x12DAB8CA, 0x27A301F5)
  {
    Rounds8();
    Words0();
    hide W;
    assert After(9) == Words(0x4B6AE328, 0x9E8C07D4, 0x664F8C30, 0x0FF1F290, 0xB3F52677);
    assert After(10) == Words(0x8351F929, 0x4B6AE328, 0x27A301F5, 0x664F8C30, 0x0FF1F290);
    assert After(11) == Words(0xFBDA9E89, 0x8351F929, 0x12DAB8CA, 0x27A301F5, 0x664F8C30);
  }

  lemma Rounds16()
    ensures After(16) == Words(0x20BDD62F, 0x196BEE77, 0x644A3DA5, 0x1181ED99, 0x18C623F9)
  {
    Rounds12();
    Words0();
    hide W;
    assert After(13) == Words(0x4607B664, 0x63188FE4, 0x7EF6A7A2, 0x60D47E4A, 0x12DAB8CA);
    assert After(14) == Words(0x9128F695, 0x4607B664, 0x18C623F9, 0x7EF6A7A2, 0x60D47E4A);
    assert After(15) == Words(0x196BEE77, 0x9128F695, 0x1181ED99, 0x18C623F9, 0x7EF6A7A2);
  }

  lemma Rounds20()
    ensures After(20) == Words(0xFD9E1D7D, 0xDC64901D, 0x20AA99CA, 0xD3A49608, 0xC82F758B)
  {
    Rounds16();
    Words16();
    hide W;
    assert After(17) == Words(0x4E925823, 0x20BDD62F, 0xC65AFB9D, 0x644A3DA5, 0x1181ED99);
    assert After(18) == Words(0x82AA6728, 0x4E925823, 0xC82F758B, 0xC65AFB9D, 0x644A3DA5);
    assert After(19) == Words(0xDC64901D, 0x82AA6728, 0xD3A49608, 0xC82F758B, 0xC65AFB9D);
  }

  lemma Rounds24()
    ensures After(24) == Words(0xD541F12D, 0x21283486, 0x0CE88EFF, 0x868DEC32, 0x7F67875F)
  {
    Rounds20();
    Words16();
    hide W;
    assert After(21) == Words(0x1A37B0CA, 0xFD9E1D7D, 0x77192407, 0x20AA99CA, 0xD3A49608);
    assert After(22) == Words(0x33A23BFC, 0x1A37B0CA, 0x7F67875F, 0x77192407, 0x20AA99CA);
    assert After(23) == Words(0x21283486, 0x33A23BFC, 0x868DEC32, 0x7F67875F, 0x77192407);
  }

  lemma Rounds28()
    ensures After(28) == Words(0x4AA84D97, 0xBE35FBD5, 0x12104EE9, 0xB1D59F71, 0x75507C4B)
  {
    Rounds24();
    Words24();
    hide W;
    assert After(25) == Words(0xC7567DC6, 0xD541F12D, 0x884A0D21, 0x0CE88EFF, 0x868DEC32);
    assert After(26) == Words(0x48413BA4, 0xC7567DC6, 0x75507C4B, 0x884A0D21, 0x0CE88EFF);
    assert After(27) == Words(0xBE35FBD5, 0x48413BA4, 0xB1D59F71, 0x75507C4B, 0x884A0D21);
  }

  lemma Rounds32()
    ensures After(32) == Words(0x3B845D33, 0x1267B407, 0x717EEBD7, 0xA0DC2D4B, 0xD2AA1365)
  {
    Rounds28();
    Words24();
    hide W;
    assert After(29) == Words(0x8370B52E, 0x4AA84D97, 0x6F8D7EF5, 0x12104EE9, 0xB1D59F71);
    assert After(30) == Words(0xC5FBAF5D, 0x8370B52E, 0xD2AA1365, 0x6F8D7EF5, 0x12104EE9);
    assert After(31) == Words(0x1267B407, 0xC5FBAF5D, 0xA0DC2D4B, 0xD2AA1365, 0x6F8D7EF5);
  }

  lemma Rounds36()
    ensures After(36) == Words(0xDCBBB0CB, 0x21796AD4, 0x4B03AF04, 0x811BEA82, 0xCEE1174C)
  {
    Rounds32();
    Words32();
    hide W;
    assert After(33) == Words(0x046FAA0A, 0x3B845D33, 0xC499ED01, 0x717EEBD7, 0xA0DC2D4B);
    assert After(34) == Words(0x2C0EBC11, 0x046FAA0A, 0xCEE1174C, 0xC499ED01, 0x717EEBD7);
    assert After(35) == Words(0x21796AD4, 0x2C0EBC11, 0x811BEA82, 0xCEE1174C, 0xC499ED01);
  }

  lemma Rounds40()
    ensures After(40) == Words(0x32DE1CBA, 0x4C986405, 0xF718E5CF, 0x03D447F6, 0xF72EEC32)
  {
    Rounds36();
    Words32();
    hide W;
    assert After(37) == Words(0x0F511FD8, 0xDCBBB0CB, 0x085E5AB5, 0x4B03AF04, 0x811BEA82);
    assert After(38) == Words(0xDC63973F, 0x0F511FD8, 0xF72EEC32, 0x085E5AB5, 0x4B03AF04);
    assert After(39) == Words(0x4C986405, 0xDC63973F, 0x03D447F6, 0xF72EEC32, 0x085E5AB5);
  }

  lemma Rounds44()
    ensures After(44) == Words(0xEE1B1AAF, 0x7F193DC5, 0x25C28357, 0xFF21F7B7, 0x8CB7872E)
  {
    Rounds40();
    Words40();
    hide W;
    assert After(41) == Words(0xFC87DEDF, 0x32DE1CBA, 0x53261901, 0xF718E5CF, 0x03D447F6);
    assert After(42) == Words(0x970A0D5C, 0xFC87DEDF, 0x8CB7872E, 0x53261901, 0xF718E5CF);
    assert After(43) == Words(0x7F193DC5, 0x970A0D5C, 0xFF21F7B7, 0x8CB7872E, 0x53261901);
  }

  lemma Rounds48()
    ensures After(48) == Words(0xBEAD02CA, 0xA01B846C, 0x8714787C, 0x503CA382, 0xFB86C6AB)
  {
    Rounds44();
    Words40();
    hide W;
    assert After(45) == Words(0x40F28E09, 0xEE1B1AAF, 0x5FC64F71, 0x25C28357, 0xFF21F7B7);
    assert After(46) == Words(0x1C51E1F2, 0x40F28E09, 0xFB86C6AB, 0x5FC64F71, 0x25C28357);
    assert After(47) == Words(0xA01B846C, 0x1C51E1F2, 0x503CA382, 0xFB86C6AB, 0x5FC64F71);
  }

  lemma Rounds52()
    ensures After(52) == Words(0x3847AD66, 0x641DB2CE, 0x4481CC71, 0xEEBCE4CD, 0xAFAB40B2)
  {
    Rounds48();
    Words48();
    hide W;
    assert After(49) == Words(0xBAF39337, 0xBEAD02CA, 0x2806E11B, 0x8714787C, 0x503CA382);
    assert After(50) == Words(0x120731C5, 0xBAF39337, 0xAFAB40B2, 0x2806E11B, 0x8714787C);
    assert After(51) == Words(0x641DB2CE, 0x120731C5, 0xEEBCE4CD, 0xAFAB40B2, 0x2806E11B);
  }

  lemma Rounds56()
    ensures After(56) == Words(0x5E6456AF, 0x7B71F76D, 0x09FA7C76, 0x792410DB, 0x8E11EB59)
  {
    Rounds52();
    Words48();
    hide W;
    assert After(53) == Words(0xE490436D, 0x3847AD66, 0x99076CB3, 0x4481CC71, 0xEEBCE4CD);
    assert After(54) == Words(0x27E9F1D8, 0xE490436D, 0x8E11EB59, 0x99076CB3, 0x4481CC71);
    assert After(55) == Words(0x7B71F76D, 0x27E9F1D8, 0x792410DB, 0x8E11EB59, 0x99076CB3);
  }

  lemma Rounds60()
    ensures After(60) == Words(0x3F52DE5A, 0x09D785FD, 0x3498BFD4, 0xF211824F, 0xD79915AB)
  {
    Rounds56();
    Words56();
    hide W;
    assert After(57) == Words(0xC846093F, 0x5E6456AF, 0x5EDC7DDB, 0x09FA7C76, 0x792410DB);
    assert After(58) == Words(0xD262FF50, 0xC846093F, 0xD79915AB, 0x5EDC7DDB, 0x09FA7C76);
    assert After(59) == Words(0x09D785FD, 0xD262FF50, 0xF211824F, 0xD79915AB, 0x5EDC7DDB);
  }

  lemma Rounds64()
    ensures After(64) == Words(0x6B61C9E1, 0xB66C020B, 0x9523272C, 0xF5D5B051, 0x8FD4B796)
  {
    Rounds60();
    Words56();
    hide W;
    assert After(61) == Words(0xD756C147, 0x3F52DE5A, 0x4275E17F, 0x3498BFD4, 0xF211824F);
    assert After(62) == Words(0x548C9CB2, 0xD756C147, 0x8FD4B796, 0x4275E17F, 0x3498BFD4);
    assert After(63) == Words(0xB66C020B, 0x548C9CB2, 0xF5D5B051, 0x8FD4B796, 0x4275E17F);
  }

  lemma Rounds68()
    ensures After(68) == Words(0x78DD4D2B, 0x0C3DF2B4, 0x4405957E, 0x0677E9EB, 0x5AD87278)
  {
    Rounds64();
    Words64();
    hide W;
    assert After(65) == Words(0x19DFA7AC, 0x6B61C9E1, 0xED9B0082, 0x9523272C, 0xF5D5B051);
    assert After(66) == Words(0x101655F9, 0x19DFA7AC, 0x5AD87278, 0xED9B0082, 0x9523272C);
    assert After(67) == Words(0x0C3DF2B4, 0x101655F9, 0x0677E9EB, 0x5AD87278, 0xED9B0082);
  }

  lemma Rounds72()
    ensures After(72) == Words(0x39859DE7, 0xC199F8C7, 0x8FC96230, 0x125C24F0, 0xDE37534A)
  {
    Rounds68();
    Words64();
    hide W;
    assert After(69) == Words(0x497093C0, 0x78DD4D2B, 0x030F7CAD, 0x4405957E, 0x0677E9EB);
    assert After(70) == Words(0x3F2588C2, 0x497093C0, 0xDE37534A, 0x030F7CAD, 0x4405957E);
    assert After(71) == Words(0xC199F8C7, 0x3F2588C2, 0x125C24F0, 0xDE37534A, 0x030F7CAD);
  }

  lemma Rounds76()
    ensures After(76) == Words(0x63F7DAB7, 0x5EE76897, 0xC45E4FDB, 0x3B6D0B79, 0xCE616779)
  {
    Rounds72();
    Words72();
    hide W;
    assert After(73) == Words(0xEDB42DE4, 0x39859DE7, 0xF0667E31, 0x8FC96230, 0x125C24F0);
    assert After(74) == Words(0x11793F6F, 0xEDB42DE4, 0xCE616779, 0xF0667E31, 0x8FC96230);
    assert After(75) == Words(0x5EE76897, 0x11793F6F, 0x3B6D0B79, 0xCE616779, 0xF0667E31);
  }

  lemma Rounds80()
    ensures After(80) == Words(0x42541B35, 0x5738D5E1, 0x21834873, 0x681E6DF6, 0xD8FDF6AD)
  {
    Rounds76();
    Words72();
    hide W;
    assert After(77) == Words(0xA079B7D9, 0x63F7DAB7, 0xD7B9DA25, 0xC45E4FDB, 0x3B6D0B79);
    assert After(78) == Words(0x860D21CC, 0xA079B7D9, 0xD8FDF6AD, 0xD7B9DA25, 0xC45E4FDB);
    assert After(79) == Words(0x5738D5E1, 0x860D21CC, 0x681E6DF6, 0xD8FDF6AD, 0xD7B9DA25);
  }

  // ---------------------------------------------------------------- the digest

  /** SHA-1 of "abc" is A9993E36 4706816A BA3E2571 7850C26C 9CD0D89D. */
  lemma AbcDigest()
    ensures Digest([0x61, 0x62, 0x63])
            == [0xA9, 0x99, 0x3E, 0x36, 0x47, 0x06, 0x81, 0x6A, 0xBA, 0x3E,
                0x25, 0x71, 0x78, 0x50, 0xC2, 0x6C, 0x9C, 0xD0, 0xD8, 0x9D]
  {
    AbcPadded();
    AbcCompressed();
    AbcOutput();
    AbcAbsorbed();
    hide Padded;
    hide Absorb;
    hide Output;
    hide Compress;
    hide ABC;
  }

  lemma AbcCompressed()
    ensures Compress(INITIAL, ABC) == Words(0xA9993E36, 0x4706816A, 0xBA3E2571, 0x7850C26C, 0x9CD0D89D)
  {
    Rounds80();
    hide Rounds;
  }

  lemma AbcAbsorbed()
    ensures Absorb(INITIAL, ABC) == Compress(INITIAL, ABC)
  {
    hide Compress;
    hide ABC;
    assert ABC[..64] == ABC && ABC[64..] == [];
  }

  lemma AbcOutput()
    ensures Output(Words(0xA9993E36, 0x4706816A, 0xBA3E2571, 0x7850C26C, 0x9CD0D89D))
            == [0xA9, 0x99, 0x3E, 0x36, 0x47, 0x06, 0x81, 0x6A, 0xBA, 0x3E,
                0x25, 0x71, 0x78, 0x50, 0xC2, 0x6C, 0x9C, 0xD0, 0xD8, 0x9D]
  {
  }
}
