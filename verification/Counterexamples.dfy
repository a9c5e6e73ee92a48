/**
 * Where the promises end. Two torn records whose checksum is the erased value, so that the
 * readers accept them, and what the store and the boot protocol then do. The registers
 * along the way are written out; each step of them is checked.
 */
module Counterexamples {
  import opened Bytes
  import opened Types
  import opened Records
  import opened TornWrites
  import opened PingPong
  import opened Flash
  import opened Stores
  import opened CrashRuns
  import opened Derivation
  import opened BootProtocol
  import opened CrcEvaluation
  import Boot
  import Crc32

  // ---- The check value of the algorithm ----

  const DIGITS_0: seq<byte> := [0x31, 0x32, 0x33, 0x34]
  const DIGITS_1: seq<byte> := [0x35, 0x36, 0x37, 0x38]
  const DIGITS_2: seq<byte> := [0x39]

  lemma Digits0()
    ensures Feeds(0xFFFF_FFFF, DIGITS_0, 0x641C_1F5C)
  {
    FeedFour(0xFFFF_FFFF, 0x31, 0x31, 0x7C23_1048, 0x32, 0x32, 0xB0AC_BB32, 0x33, 0x33, 0x77B7_9C2D, 0x34, 0x34,
      0x641C_1F5C);
  }

  lemma Digits1()
    ensures Feeds(0x641C_1F5C, DIGITS_1, 0x651F_2550)
  {
    FeedFour(0x641C_1F5C, 0x35, 0x35, 0x340A_C5E3, 0x36, 0x36, 0xF68D_2C9E, 0x37, 0x37, 0xAFFC_9660, 0x38, 0x38,
      0x651F_2550);
  }

  lemma Digits2()
    ensures Feeds(0x651F_2550, DIGITS_2, 0x340B_C6D9)
  {
    FeedOne(0x651F_2550, 0x39, 0x39, 0x340B_C6D9);
  }

  const DIGITS: seq<byte> :=
    DIGITS_0 + DIGITS_1 + DIGITS_2

  lemma DigitsRegister()
    ensures Feeds(0xFFFF_FFFF, DIGITS, 0x340B_C6D9)
  {
    var s := DIGITS_0;
    Digits0();
    Digits1();
    FeedsChain(0xFFFF_FFFF, s, 0x641C_1F5C, DIGITS_1, 0x651F_2550);
    s := s + DIGITS_1;
    Digits2();
    FeedsChain(0xFFFF_FFFF, s, 0x651F_2550, DIGITS_2, 0x340B_C6D9);
    s := s + DIGITS_2;
  }

  /** The model computes the published check value of CRC-32/ISO-HDLC, over "123456789". */
  lemma CheckValue()
    ensures Crc32.Checksum([0x31, 0x32, 0x33, 0x34, 0x35, 0x36, 0x37, 0x38, 0x39]) == 0xCBF4_3926
  {
    DigitsRegister();
    ChecksumOf(DIGITS, 0x340B_C6D9, 0xCBF4_3926);
    assert DIGITS == [0x31, 0x32, 0x33, 0x34, 0x35, 0x36, 0x37, 0x38, 0x39];
  }

  // ---- A receipt consumed by a power cut ----

  const RECEIPT_0: seq<byte> := [0x4D, 0x52, 0x30, 0x31]
  const RECEIPT_1: seq<byte> := [0x00, 0x01, 0x00, 0x00]
  const RECEIPT_2: seq<byte> := [0x00, 0x01, 0x02, 0x52]
  const RECEIPT_3: seq<byte> := [0x31, 0x00, 0x00, 0x00]
  const RECEIPT_4: seq<byte> := [0x00, 0x00, 0x00, 0x00]
  const RECEIPT_5: seq<byte> := [0x00, 0x00, 0x00, 0x00]
  const RECEIPT_6: seq<byte> := [0x00, 0x00]
  const RECEIPT_7: seq<byte> := [0x00]
  const RECEIPT_8: seq<byte> := [0x00, 0x00, 0x00, 0x00]
  const RECEIPT_9: seq<byte> := [0x00, 0x00, 0x00, 0x01]
  const RECEIPT_10: seq<byte> := [0x00, 0x00, 0x00, 0x00]
  const RECEIPT_11: seq<byte> := [0xB3, 0xFA, 0x11, 0xDA]
  const RECEIPT_12: seq<byte> := [0x41, 0x42, 0x43, 0x44]
  const RECEIPT_13: seq<byte> := [0x45, 0x46, 0x47, 0x48]
  const RECEIPT_14: seq<byte> := [0x4A, 0x4B]
  const RECEIPT_15: seq<byte> := [0x4C]
  const RECEIPT_16: seq<byte> := [0xFF]

  lemma Receipt0()
    ensures Feeds(0xFFFF_FFFF, RECEIPT_0, 0x5665_6C14)
  {
    FeedFour(0xFFFF_FFFF, 0x4D, 0x4D, 0x2590_2D5F, 0x52, 0x52, 0x7E94_EC90, 0x30, 0x30, 0xD6A8_3704, 0x31, 0x31,
      0x5665_6C14);
  }

  lemma Receipt1()
    ensures Feeds(0x5665_6C14, RECEIPT_1, 0x05F6_F398)
  {
    FeedFour(0x5665_6C14, 0x00, 0x00, 0x1A8C_B111, 0x01, 0x01, 0x1DAD_9CD5, 0x00, 0x00, 0xF6A4_8BC7, 0x00, 0x00,
      0x05F6_F398);
  }

  lemma Receipt2()
    ensures Feeds(0x05F6_F398, RECEIPT_2, 0x4B6B_8E1B)
  {
    FeedFour(0x05F6_F398, 0x00, 0x00, 0xFED1_ED85, 0x01, 0x01, 0xEA2B_96D4, 0x02, 0x02, 0x6F5A_5C77, 0x52, 0x52,
      0x4B6B_8E1B);
  }

  lemma Receipt3()
    ensures Feeds(0x4B6B_8E1B, RECEIPT_3, 0x4323_53A4)
  {
    FeedFour(0x4B6B_8E1B, 0x31, 0x31, 0xDBF0_A258, 0x00, 0x00, 0x656B_2964, 0x00, 0x00, 0x4ABA_CE68, 0x00, 0x00,
      0x4323_53A4);
  }

  lemma Receipt4()
    ensures Feeds(0x4323_53A4, RECEIPT_4, 0xFD8F_79F0)
  {
    FeedFour(0x4323_53A4, 0x00, 0x00, 0xD1F8_44A2, 0x00, 0x00, 0x3809_3A80, 0x00, 0x00, 0xED80_8A1A, 0x00, 0x00,
      0xFD8F_79F0);
  }

  lemma Receipt5()
    ensures Feeds(0xFD8F_79F0, RECEIPT_5, 0xA251_4F5D)
  {
    FeedFour(0xFD8F_79F0, 0x00, 0x00, 0xBD40_7D65, 0x00, 0x00, 0x3D65_D5AA, 0x00, 0x00, 0x363E_2F23, 0x00, 0x00,
      0xA251_4F5D);
  }

  lemma Receipt6()
    ensures Feeds(0xA251_4F5D, RECEIPT_6, 0xE976_DD49)
  {
    FeedTwo(0xA251_4F5D, 0x00, 0x00, 0x1578_7C06, 0x00, 0x00, 0xE976_DD49);
  }

  lemma Receipt7()
    ensures Feeds(0xE976_DD49, RECEIPT_7, 0x0FE9_8FE9)
  {
    FeedOne(0xE976_DD49, 0x00, 0x00, 0x0FE9_8FE9);
  }

  lemma Receipt8()
    ensures Feeds(0x0FE9_8FE9, RECEIPT_8, 0x5E1D_073B)
  {
    FeedFour(0x0FE9_8FE9, 0x00, 0x00, 0xD9D9_B353, 0x00, 0x00, 0xF2BB_D9FD, 0x00, 0x00, 0xC3FE_3578, 0x00, 0x00,
      0x5E1D_073B);
  }

  lemma Receipt9()
    ensures Feeds(0x5E1D_073B, RECEIPT_9, 0x26DD_495C)
  {
    FeedFour(0x5E1D_073B, 0x00, 0x00, 0xB155_F423, 0x00, 0x00, 0xA2D6_2486, 0x00, 0x00, 0x0479_F031, 0x01, 0x01,
      0x26DD_495C);
  }

  lemma Receipt10()
    ensures Feeds(0x26DD_495C, RECEIPT_10, 0x180B_38FA)
  {
    FeedFour(0x26DD_495C, 0x00, 0x00, 0x62FB_C096, 0x00, 0x00, 0x190E_CDB1, 0x00, 0x00, 0xBC7F_8DD7, 0x00, 0x00,
      0x180B_38FA);
  }

  lemma Receipt11()
    ensures Feeds(0x180B_38FA, RECEIPT_11, 0xB170_0CDE)
  {
    FeedFour(0x180B_38FA, 0xB3, 0xB3, 0x0F18_F20C, 0xFA, 0xFA, 0x54D1_4FDB, 0x11, 0x11, 0x7BE5_FAE1, 0xDA, 0xDA,
      0xB170_0CDE);
  }

  lemma Receipt12()
    ensures Feeds(0xB170_0CDE, RECEIPT_12, 0xA69B_329B)
  {
    FeedFour(0xB170_0CDE, 0x41, 0x41, 0x6001_FED9, 0x42, 0x42, 0x67BD_4B32, 0x43, 0x43, 0x2765_FCE1, 0x44, 0x44,
      0xA69B_329B);
  }

  lemma Receipt13()
    ensures Feeds(0xA69B_329B, RECEIPT_13, 0xFF4C_4B4A)
  {
    FeedFour(0xA69B_329B, 0x45, 0x45, 0x61CD_64E1, 0x46, 0x46, 0x48D3_FB2F, 0x47, 0x47, 0x4321_3A91, 0x48, 0x48,
      0xFF4C_4B4A);
  }

  lemma Receipt14()
    ensures Feeds(0xFF4C_4B4A, RECEIPT_14, 0x0000_FF4C)
  {
    FeedTwo(0xFF4C_4B4A, 0x4A, 0x4A, 0x00FF_4C4B, 0x4B, 0x4B, 0x0000_FF4C);
  }

  lemma Receipt15()
    ensures Feeds(0x0000_FF4C, RECEIPT_15, 0x0000_00FF)
  {
    FeedOne(0x0000_FF4C, 0x4C, 0x4C, 0x0000_00FF);
  }

  lemma Receipt16()
    ensures Feeds(0x0000_00FF, RECEIPT_16, 0x0000_0000)
  {
    FeedOne(0x0000_00FF, 0xFF, 0xFF, 0x0000_0000);
  }

  const RECEIPT: seq<byte> :=
    RECEIPT_0 + RECEIPT_1 + RECEIPT_2 + RECEIPT_3 + RECEIPT_4 + RECEIPT_5 + RECEIPT_6 + RECEIPT_7 + RECEIPT_8
    + RECEIPT_9 + RECEIPT_10 + RECEIPT_11 + RECEIPT_12 + RECEIPT_13 + RECEIPT_14 + RECEIPT_15 + RECEIPT_16

  lemma ReceiptRegister()
    ensures Feeds(0xFFFF_FFFF, RECEIPT, 0x0000_0000)
  {
    var s := RECEIPT_0;
    Receipt0();
    Receipt1();
    FeedsChain(0xFFFF_FFFF, s, 0x5665_6C14, RECEIPT_1, 0x05F6_F398);
    s := s + RECEIPT_1;
    Receipt2();
    FeedsChain(0xFFFF_FFFF, s, 0x05F6_F398, RECEIPT_2, 0x4B6B_8E1B);
    s := s + RECEIPT_2;
    Receipt3();
    FeedsChain(0xFFFF_FFFF, s, 0x4B6B_8E1B, RECEIPT_3, 0x4323_53A4);
    s := s + RECEIPT_3;
    Receipt4();
    FeedsChain(0xFFFF_FFFF, s, 0x4323_53A4, RECEIPT_4, 0xFD8F_79F0);
    s := s + RECEIPT_4;
    Receipt5();
    FeedsChain(0xFFFF_FFFF, s, 0xFD8F_79F0, RECEIPT_5, 0xA251_4F5D);
    s := s + RECEIPT_5;
    Receipt6();
    FeedsChain(0xFFFF_FFFF, s, 0xA251_4F5D, RECEIPT_6, 0xE976_DD49);
    s := s + RECEIPT_6;
    Receipt7();
    FeedsChain(0xFFFF_FFFF, s, 0xE976_DD49, RECEIPT_7, 0x0FE9_8FE9);
    s := s + RECEIPT_7;
    Receipt8();
    FeedsChain(0xFFFF_FFFF, s, 0x0FE9_8FE9, RECEIPT_8, 0x5E1D_073B);
    s := s + RECEIPT_8;
    Receipt9();
    FeedsChain(0xFFFF_FFFF, s, 0x5E1D_073B, RECEIPT_9, 0x26DD_495C);
    s := s + RECEIPT_9;
    Receipt10();
    FeedsChain(0xFFFF_FFFF, s, 0x26DD_495C, RECEIPT_10, 0x180B_38FA);
    s := s + RECEIPT_10;
    Receipt11();
    FeedsChain(0xFFFF_FFFF, s, 0x180B_38FA, RECEIPT_11, 0xB170_0CDE);
    s := s + RECEIPT_11;
    Receipt12();
    FeedsChain(0xFFFF_FFFF, s, 0xB170_0CDE, RECEIPT_12, 0xA69B_329B);
    s := s + RECEIPT_12;
    Receipt13();
    FeedsChain(0xFFFF_FFFF, s, 0xA69B_329B, RECEIPT_13, 0xFF4C_4B4A);
    s := s + RECEIPT_13;
    Receipt14();
    FeedsChain(0xFFFF_FFFF, s, 0xFF4C_4B4A, RECEIPT_14, 0x0000_FF4C);
    s := s + RECEIPT_14;
    Receipt15();
    FeedsChain(0xFFFF_FFFF, s, 0x0000_FF4C, RECEIPT_15, 0x0000_00FF);
    s := s + RECEIPT_15;
    Receipt16();
    FeedsChain(0xFFFF_FFFF, s, 0x0000_00FF, RECEIPT_16, 0x0000_0000);
    s := s + RECEIPT_16;
  }

  const SID: SeedId := [0x52, 0x31]
  const CODE: Code := [0x41, 0x42, 0x43, 0x44, 0x45, 0x46, 0x47, 0x48, 0x4A, 0x4B, 0x4C]
  const UNPAID: PersistedReceipt := PersistedReceipt(SID, 1, 3019510234, CODE, false)

  lemma HeadBytes(magic: seq<byte>, saveSeq: u32, n0: byte, n1: byte, n2: byte, n3: byte)
    requires |magic| == 4 && ToBE(saveSeq, 4) == [n0, n1, n2, n3]
    ensures Head(magic, saveSeq, SID) ==
            magic + [0x00, 0x01, n0, n1] + [n2, n3, 0x02, 0x52] + [0x31, 0x00, 0x00, 0x00]
            + [0x00, 0x00, 0x00, 0x00] + [0x00, 0x00, 0x00, 0x00] + [0x00, 0x00] + [0x00]
  {
    assert ToBE(VERSION, 2) == [0x00, 0x01];
  }

  lemma TornBeforeFlag(saveSeq: u32, r: PersistedReceipt)
    ensures Torn(RetainedBody(saveSeq, r), 54) ==
            Head(MAGIC_RETAINED, saveSeq, r.seedId) + ToBE(r.counter, 8) + ToBE(r.amountCents, 8)
            + r.expectedC2 + [ERASED]
  {
  }

  lemma UnpaidHead()
    ensures Head(MAGIC_RETAINED, 1, SID) ==
            RECEIPT_0 + RECEIPT_1 + RECEIPT_2 + RECEIPT_3 + RECEIPT_4 + RECEIPT_5 + RECEIPT_6 + RECEIPT_7
  {
    assert ToBE(1, 4) == [0, 0, 0, 1];
    HeadBytes(MAGIC_RETAINED, 1, 0, 0, 0, 1);
  }

  lemma UnpaidCounter()
    ensures ToBE(1, 8) == RECEIPT_8 + RECEIPT_9
  {
  }

  lemma UnpaidAmount()
    ensures ToBE(3019510234, 8) == RECEIPT_10 + RECEIPT_11
  {
    assert ToBE(0, 4) == [0, 0, 0, 0];
    assert ToBE(0xB3, 5) == [0, 0, 0, 0, 0xB3];
    assert ToBE(0xB3FA, 6) == [0, 0, 0, 0, 0xB3, 0xFA];
    assert ToBE(0xB3_FA11, 7) == [0, 0, 0, 0, 0xB3, 0xFA, 0x11];
  }

  lemma UnpaidFields()
    ensures ToBE(1, 8) == RECEIPT_8 + RECEIPT_9
    ensures ToBE(3019510234, 8) == RECEIPT_10 + RECEIPT_11
    ensures CODE == RECEIPT_12 + RECEIPT_13 + RECEIPT_14 + RECEIPT_15
  {
    UnpaidCounter();
    UnpaidAmount();
  }

  lemma UnpaidBytes()
    ensures Torn(RetainedBody(1, UNPAID), 54) == RECEIPT
  {
    var head := Head(MAGIC_RETAINED, 1, SID);
    TornBeforeFlag(1, UNPAID);
    UnpaidHead();
    UnpaidFields();
    Pairs(head, RECEIPT_8, RECEIPT_9, RECEIPT_10, RECEIPT_11);
    Quadruple(head + RECEIPT_8 + RECEIPT_9 + RECEIPT_10 + RECEIPT_11, RECEIPT_12, RECEIPT_13, RECEIPT_14, RECEIPT_15);
  }

  lemma Pairs(p: seq<byte>, q: seq<byte>, r: seq<byte>, s: seq<byte>, t: seq<byte>)
    ensures p + (q + r) + (s + t) == p + q + r + s + t
  {
  }

  lemma Quadruple(p: seq<byte>, q: seq<byte>, r: seq<byte>, s: seq<byte>, t: seq<byte>)
    ensures p + (q + r + s + t) == p + q + r + s + t
  {
  }

  lemma UnpaidAccepted()
    ensures Crc32.Checksum(Torn(RetainedBody(1, UNPAID), 54)) == U32_MAX
  {
    UnpaidBytes();
    ReceiptRegister();
    ChecksumOf(RECEIPT, 0x0000_0000, U32_MAX);
  }

  /** A receipt torn in its last body byte, where the torn body is accepted, lands consumed. */
  lemma FlagTorn(saveSeq: u32, r: PersistedReceipt)
    requires Crc32.Checksum(Torn(RetainedBody(saveSeq, r), 54)) == U32_MAX
    ensures RetainedFate(saveSeq, r, SLOT_SIZE + 54) == Wrote(r.(consumed := true))
  {
    RetainedFates(saveSeq, r, 54);
    LastByteTorn(saveSeq, r);
  }

  lemma UnpaidFate()
    ensures RetainedFate(1, UNPAID, SLOT_SIZE + 54) == Wrote(UNPAID.(consumed := true))
  {
    UnpaidAccepted();
    FlagTorn(1, UNPAID);
  }

  /**
   * Cold-cut atomicity fails without its hypothesis: the first save of an unconsumed receipt
   * on a blank flash, cut one byte before the end of its body, loads as that receipt, consumed.
   */
  lemma ConsumedByACut(size: nat, a: nat, b: nat)
    requires Layout(Erased(size), a, b)
    ensures Load(ReceiptSlots(Erased(size), a, b)) == None
    ensures Load(ReceiptSlots(SaveReceiptCut(Erased(size), a, b, UNPAID, SLOT_SIZE + 54), a, b)) ==
            Some(UNPAID.(consumed := true))
  {
    UnpaidFate();
    BlankReceipts(size, a, b);
    FirstSave(Erased(size), a, b, UNPAID, SLOT_SIZE + 54, Wrote(UNPAID.(consumed := true)));
  }

  lemma BlankReceipts(size: nat, a: nat, b: nat)
    requires Layout(Erased(size), a, b)
    ensures ReceiptSlots(Erased(size), a, b) == Blank()
  {
    ErasedMagic(MAGIC_RETAINED, RETAINED_BODY, SlotAt(Erased(size), a));
    ErasedMagic(MAGIC_RETAINED, RETAINED_BODY, SlotAt(Erased(size), b));
  }

  lemma FirstSave(img: seq<byte>, a: nat, b: nat, r: PersistedReceipt, n: nat, fate: Fate<PersistedReceipt>)
    requires Layout(img, a, b) && ReceiptSlots(img, a, b) == Blank() && fate == RetainedFate(1, r, n)
    ensures Load(ReceiptSlots(SaveReceiptCut(img, a, b, r, n), a, b)) == if fate.Wrote? then Some(fate.value) else None
  {
    LoadAfterSave(img, a, b, 0, 1, r, n, fate);
  }

  // ---- A counter driven to its limit by a power cut ----

  const COUNTER_0: seq<byte> := [0x4D, 0x43, 0x30, 0x31]
  const COUNTER_1: seq<byte> := [0x00, 0x01, 0xB2, 0xF6]
  const COUNTER_2: seq<byte> := [0xEC, 0x6C, 0x02, 0x52]
  const COUNTER_3: seq<byte> := [0x31, 0x00, 0x00, 0x00]
  const COUNTER_4: seq<byte> := [0x00, 0x00, 0x00, 0x00]
  const COUNTER_5: seq<byte> := [0x00, 0x00, 0x00, 0x00]
  const COUNTER_6: seq<byte> := [0x00, 0x00]
  const COUNTER_7: seq<byte> := [0x00]
  const COUNTER_8: seq<byte> := [0xFF, 0xFF, 0xFF, 0xFF]
  const COUNTER_9: seq<byte> := [0xFF, 0xFF, 0xFF, 0xFF]

  lemma Counter0()
    ensures Feeds(0xFFFF_FFFF, COUNTER_0, 0x4B81_A553)
  {
    FeedFour(0xFFFF_FFFF, 0x4D, 0x4D, 0x2590_2D5F, 0x43, 0x43, 0x1424_CC62, 0x30, 0x30, 0x8571_1414, 0x31, 0x31,
      0x4B81_A553);
  }

  lemma Counter1()
    ensures Feeds(0x4B81_A553, COUNTER_1, 0x4672_FFF1)
  {
    FeedFour(0x4B81_A553, 0x00, 0x00, 0xF229_81EB, 0x01, 0x01, 0x402D_22E7, 0xB2, 0xB2, 0x1B41_8859, 0xF6, 0xF6,
      0x4672_FFF1);
  }

  lemma Counter2()
    ensures Feeds(0x4672_FFF1, COUNTER_2, 0x68C3_2460)
  {
    FeedFour(0x4672_FFF1, 0xEC, 0xEC, 0x6340_1E26, 0x6C, 0x6C, 0x966A_E890, 0x02, 0x02, 0x1E97_9880, 0x52, 0x52,
      0x68C3_2460);
  }

  lemma Counter3()
    ensures Feeds(0x68C3_2460, COUNTER_3, 0xEF4B_EB1C)
  {
    FeedFour(0x68C3_2460, 0x31, 0x31, 0x1C04_A246, 0x00, 0x00, 0x9FA3_E007, 0x00, 0x00, 0x9EFB_3643, 0x00, 0x00,
      0xEF4B_EB1C);
  }

  lemma Counter4()
    ensures Feeds(0xEF4B_EB1C, COUNTER_4, 0x9C40_BE41)
  {
    FeedFour(0xEF4B_EB1C, 0x00, 0x00, 0x14EE_17A4, 0x00, 0x00, 0xD1AF_89E6, 0x00, 0x00, 0x49B8_E8C4, 0x00, 0x00,
      0x9C40_BE41);
  }

  lemma Counter5()
    ensures Feeds(0x9C40_BE41, COUNTER_5, 0xE5A8_7C28)
  {
    FeedFour(0x9C40_BE41, 0x00, 0x00, 0x0147_31B8, 0x00, 0x00, 0xC5BB_7C8F, 0x00, 0x00, 0x7DC2_25CD, 0x00, 0x00,
      0xE5A8_7C28);
  }

  lemma Counter6()
    ensures Feeds(0xE5A8_7C28, COUNTER_6, 0x04EE_7615)
  {
    FeedTwo(0xE5A8_7C28, 0x00, 0x00, 0x3550_0086, 0x00, 0x00, 0x04EE_7615);
  }

  lemma Counter7()
    ensures Feeds(0x04EE_7615, COUNTER_7, 0x6DD9_0A9D)
  {
    FeedOne(0x04EE_7615, 0x00, 0x00, 0x6DD9_0A9D);
  }

  lemma Counter8()
    ensures Feeds(0x6DD9_0A9D, COUNTER_8, 0xFFFF_FFFF)
  {
    FeedFour(0x6DD9_0A9D, 0xFF, 0xFF, 0xA3D1_D97E, 0xFF, 0xFF, 0x9A1C_626F, 0xFF, 0xFF, 0xF095_8F26, 0xFF, 0xFF,
      0xFFFF_FFFF);
  }

  lemma Counter9()
    ensures Feeds(0xFFFF_FFFF, COUNTER_9, 0x0000_0000)
  {
    FeedFour(0xFFFF_FFFF, 0xFF, 0xFF, 0x00FF_FFFF, 0xFF, 0xFF, 0x0000_FFFF, 0xFF, 0xFF, 0x0000_00FF, 0xFF, 0xFF,
      0x0000_0000);
  }

  const COUNTER: seq<byte> :=
    COUNTER_0 + COUNTER_1 + COUNTER_2 + COUNTER_3 + COUNTER_4
    + COUNTER_5 + COUNTER_6 + COUNTER_7 + COUNTER_8 + COUNTER_9

  lemma CounterRegister()
    ensures Feeds(0xFFFF_FFFF, COUNTER, 0x0000_0000)
  {
    var s := COUNTER_0;
    Counter0();
    Counter1();
    FeedsChain(0xFFFF_FFFF, s, 0x4B81_A553, COUNTER_1, 0x4672_FFF1);
    s := s + COUNTER_1;
    Counter2();
    FeedsChain(0xFFFF_FFFF, s, 0x4672_FFF1, COUNTER_2, 0x68C3_2460);
    s := s + COUNTER_2;
    Counter3();
    FeedsChain(0xFFFF_FFFF, s, 0x68C3_2460, COUNTER_3, 0xEF4B_EB1C);
    s := s + COUNTER_3;
    Counter4();
    FeedsChain(0xFFFF_FFFF, s, 0xEF4B_EB1C, COUNTER_4, 0x9C40_BE41);
    s := s + COUNTER_4;
    Counter5();
    FeedsChain(0xFFFF_FFFF, s, 0x9C40_BE41, COUNTER_5, 0xE5A8_7C28);
    s := s + COUNTER_5;
    Counter6();
    FeedsChain(0xFFFF_FFFF, s, 0xE5A8_7C28, COUNTER_6, 0x04EE_7615);
    s := s + COUNTER_6;
    Counter7();
    FeedsChain(0xFFFF_FFFF, s, 0x04EE_7615, COUNTER_7, 0x6DD9_0A9D);
    s := s + COUNTER_7;
    Counter8();
    FeedsChain(0xFFFF_FFFF, s, 0x6DD9_0A9D, COUNTER_8, 0xFFFF_FFFF);
    s := s + COUNTER_8;
    Counter9();
    FeedsChain(0xFFFF_FFFF, s, 0xFFFF_FFFF, COUNTER_9, 0x0000_0000);
    s := s + COUNTER_9;
  }

  const FATAL: u32 := 3002526828

  lemma TornBeforeT(saveSeq: u32, c: PersistedCounter)
    ensures Torn(CounterBody(saveSeq, c), 27) == Head(MAGIC_COUNTER, saveSeq, c.seedId) + Repeat(ERASED, 8)
  {
  }

  lemma CounterHead()
    ensures Head(MAGIC_COUNTER, FATAL, SID) ==
            COUNTER_0 + COUNTER_1 + COUNTER_2 + COUNTER_3 + COUNTER_4 + COUNTER_5 + COUNTER_6 + COUNTER_7
  {
    assert ToBE(FATAL, 4) == [0xB2, 0xF6, 0xEC, 0x6C];
    HeadBytes(MAGIC_COUNTER, FATAL, 0xB2, 0xF6, 0xEC, 0x6C);
  }

  lemma TornCounterBytes(t: u64)
    ensures Torn(CounterBody(FATAL, PersistedCounter(SID, t)), 27) == COUNTER
  {
    TornBeforeT(FATAL, PersistedCounter(SID, t));
    CounterHead();
    assert Repeat(ERASED, 8) == COUNTER_8 + COUNTER_9;
  }

  lemma AllOnes(bs: seq<byte>)
    requires bs == Repeat(ERASED, 8)
    ensures FromBE(bs) == U64_MAX
  {
    EncodeDecode(bs);
    DecodeEncode(U64_MAX, 8) by {
      Widths();
    }
    assert ToBE(U64_MAX, 8) == bs;
  }

  /** Whatever counter is being saved under this sequence number, a cut after 27 bytes leaves the largest one. */
  lemma TornToTheLimit(t: u64)
    ensures CounterFate(FATAL, PersistedCounter(SID, t), SLOT_SIZE + 27) == Wrote(PersistedCounter(SID, U64_MAX))
  {
    TornCounterBytes(t);
    CounterRegister();
    ChecksumOf(COUNTER, 0x0000_0000, U32_MAX);
    var torn := Torn(CounterBody(FATAL, PersistedCounter(SID, t)), 27);
    assert torn[27..35] == Repeat(ERASED, 8);
    AllOnes(torn[27..35]);
  }

  /** The supplies that matter: cut in the middle of the counter save, and two complete boots. */
  const CUT_THEN_TWO: seq<nat> := [SLOT_SIZE + 27, 3 * FULL, 3 * FULL]

  /** A boot cut under the fatal number leaves the largest counter, whichever it was saving. */
  ghost predicate FatalCut(f: Fates) {
    forall t: u64 :: f.counter(FATAL, PersistedCounter(SID, t), SLOT_SIZE + 27) == Wrote(PersistedCounter(SID, U64_MAX))
  }

  lemma CutToTheLimit(f: Fates, d: Device, m: Memory)
    requires Faithful(f) && FatalCut(f) && Reached(m.counters, FATAL - 1) && d.seedId == SID
    ensures var r := BootProtocol.Boot(f, d, m, SLOT_SIZE + 27);
            EmittedBy(r) == [] && LastT(r.memory) == U64_MAX && Reached(r.memory.counters, FATAL)
  {
    ReachedStep(m.counters, FATAL - 1, Lost);
    assert BootFate(f, d, m, SLOT_SIZE + 27) == f.counter(FATAL, PersistedCounter(SID, NextT(m)), SLOT_SIZE + 27);
    BootAdvances(f, d, m, SLOT_SIZE + 27, FATAL - 1);
  }

  /** One boot cut there, and two complete ones: the counter starts over. */
  lemma StartsOver(f: Fates, d: Device, m: Memory)
    requires Faithful(f) && FatalCut(f) && Reached(m.counters, FATAL - 1) && d.seedId == SID
    ensures Emitted(f, d, m, CUT_THEN_TWO) == [0, 1]
  {
    CutToTheLimit(f, d, m);
    var m1 := BootProtocol.Boot(f, d, m, SLOT_SIZE + 27).memory;
    BootAdvances(f, d, m1, 3 * FULL, FATAL);
    var m2 := BootProtocol.Boot(f, d, m1, 3 * FULL).memory;
    BootAdvances(f, d, m2, 3 * FULL, FATAL + 1);
    ThreeBoots(f, d, m, SLOT_SIZE + 27, 3 * FULL, 3 * FULL);
  }

  lemma ThreeBoots(f: Fates, d: Device, m: Memory, p: nat, q: nat, r: nat)
    ensures var b1 := BootProtocol.Boot(f, d, m, p);
            var b2 := BootProtocol.Boot(f, d, b1.memory, q);
            var b3 := BootProtocol.Boot(f, d, b2.memory, r);
            Emitted(f, d, m, [p, q, r]) == EmittedBy(b1) + EmittedBy(b2) + EmittedBy(b3)
  {
    var b1 := BootProtocol.Boot(f, d, m, p);
    var b2 := BootProtocol.Boot(f, d, b1.memory, q);
    RunCons(f, d, m, [p, q, r]);
    RunCons(f, d, b1.memory, [q, r]);
    RunCons(f, d, b2.memory, [r]);
    assert [p, q, r][1..] == [q, r] && [q, r][1..] == [r] && [r][1..] == [];
  }

  /** A new device, and what it emits. */
  lemma FromBlank(mac: Mac, seed: Seed, qr: Boot.QrEncoder, powers: seq<nat>) returns (d: Device, m: Memory)
    ensures d.seedId == SID && Reached(m.counters, 0) && LastT(m) == 0
    ensures Boot.EmittedTs(mac, seed, qr, Boot.Blank(), powers) == Emitted(Boot.FATES, d, m, powers)
  {
    d, m := Boot.DeviceOf(mac, seed, qr), Boot.MemoryOf(Boot.Blank());
    Boot.BlankStart();
    Boot.RunRefines(mac, seed, qr, Boot.Blank(), powers);
  }

  lemma ReusedFromBlank(f: Fates, d: Device, m: Memory)
    requires Faithful(f) && FatalCut(f) && Reached(m.counters, 0) && LastT(m) == 0 && d.seedId == SID
    ensures Emitted(f, d, m, Uncut(FATAL - 1) + CUT_THEN_TWO) == Numbers(1, FATAL - 1) + [0, 1]
  {
    var uncut := Uncut(FATAL - 1);
    UncutBoots(f, d, m, FATAL - 1, 0);
    StartsOver(f, d, BootProtocol.Run(f, d, m, uncut));
    EmittedThen(f, d, m, uncut, CUT_THEN_TWO, Numbers(1, FATAL - 1), [0, 1]);
  }

  lemma FatesCutFatally()
    ensures FatalCut(Boot.FATES)
  {
    forall t: u64
      ensures Boot.FATES.counter(FATAL, PersistedCounter(SID, t), SLOT_SIZE + 27) ==
              Wrote(PersistedCounter(SID, U64_MAX))
    {
      TornToTheLimit(t);
    }
  }

  /**
   * T is reused when a boot starts from the largest counter, and a power cut can bring that
   * about: from a blank flash, after FATAL - 1 complete boots and one cut in the middle of
   * its counter save, the next two boots emit 0 and 1, and 1 was the first counter ever emitted.
   */
  lemma CounterReused(mac: Mac, seed: Seed, qr: Boot.QrEncoder)
    ensures Boot.EmittedTs(mac, seed, qr, Boot.Blank(), Uncut(FATAL - 1) + CUT_THEN_TWO) ==
            Numbers(1, FATAL - 1) + [0, 1]
  {
    var d, m := FromBlank(mac, seed, qr, Uncut(FATAL - 1) + CUT_THEN_TWO);
    Boot.FatesFaithful();
    FatesCutFatally();
    ReusedFromBlank(Boot.FATES, d, m);
  }

  // ---- A counter store without numbers ----

  /**
   * T is reused without any power cut when the sequence numbers run out: after 2^32 - 1
   * complete boots from a blank flash, every further boot that emits, cut or not, emits 2^32.
   */
  lemma NumbersRunOut(mac: Mac, seed: Seed, qr: Boot.QrEncoder, more: seq<nat>)
    ensures Boot.EmittedTs(mac, seed, qr, Boot.Blank(), Uncut(U32_MAX) + more) ==
            Numbers(1, U32_MAX) + Repeat(0x1_0000_0000, Emitting(more))
  {
    var d, m := FromBlank(mac, seed, qr, Uncut(U32_MAX) + more);
    Boot.FatesFaithful();
    RunsOut(Boot.FATES, d, m, more);
  }

  lemma TwoEmit(p: nat, q: nat)
    requires p >= FULL && q >= FULL
    ensures Emitting([p, q]) == 2
  {
    assert [p, q][1..] == [q] && [q][1..] == [];
    assert Emitting([q]) == 1 + Emitting([]);
  }

  lemma RepeatTwice<T>(x: T)
    ensures Repeat(x, 2) == [x, x]
  {
  }

  /** Two complete boots more, and the same T has been derived twice. */
  lemma ReusedWithoutACut(mac: Mac, seed: Seed, qr: Boot.QrEncoder, p: nat, q: nat)
    requires p >= FULL && q >= FULL
    ensures Boot.EmittedTs(mac, seed, qr, Boot.Blank(), Uncut(U32_MAX) + [p, q]) ==
            Numbers(1, U32_MAX) + [0x1_0000_0000, 0x1_0000_0000]
  {
    var t: u64 := 0x1_0000_0000;
    NumbersRunOut(mac, seed, qr, [p, q]);
    TwoEmit(p, q);
    RepeatTwice(t);
  }
}
