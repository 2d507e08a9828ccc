/** The special purpose registers of include/bedbug/tables.h and regs.h. */
module SprMap {
  import opened Sprs

  const SPRS0: seq<SprInfo> := [
    SprInfo(1, "XER"), SprInfo(8, "LR"), SprInfo(9, "CTR"), SprInfo(18, "DSISR"), SprInfo(19, "DAR")
  ]
  const SPRS1: seq<SprInfo> := [
    SprInfo(22, "DEC"), SprInfo(26, "SRR0"), SprInfo(27, "SRR1"), SprInfo(80, "EIE"), SprInfo(81, "EID")
  ]
  const SPRS2: seq<SprInfo> := [
    SprInfo(144, "CMPA"), SprInfo(145, "CMPB"), SprInfo(146, "CMPC"), SprInfo(147, "CMPD"), SprInfo(148, "ICR")
  ]
  const SPRS3: seq<SprInfo> := [
    SprInfo(149, "DER"), SprInfo(150, "COUNTA"), SprInfo(151, "COUNTB"), SprInfo(152, "CMPE"), SprInfo(153, "CMPF")
  ]
  const SPRS4: seq<SprInfo> := [
    SprInfo(154, "CMPG"), SprInfo(155, "CMPH"), SprInfo(156, "LCTRL1"), SprInfo(157, "LCTRL2"), SprInfo(158, "ICTRL")
  ]
  const SPRS5: seq<SprInfo> := [
    SprInfo(159, "BAR"), SprInfo(256, "USPRG0"), SprInfo(260, "SPRG4_RO"), SprInfo(261, "SPRG5_RO"), SprInfo(262, "SPRG6_RO")
  ]
  const SPRS6: seq<SprInfo> := [
    SprInfo(263, "SPRG7_RO"), SprInfo(272, "SPRG0"), SprInfo(273, "SPRG1"), SprInfo(274, "SPRG2"), SprInfo(275, "SPRG3")
  ]
  const SPRS7: seq<SprInfo> := [
    SprInfo(276, "SPRG4"), SprInfo(277, "SPRG5"), SprInfo(278, "SPRG6"), SprInfo(279, "SPRG7"), SprInfo(282, "EAR")
  ]
  const SPRS8: seq<SprInfo> := [
    SprInfo(284, "TBL"), SprInfo(285, "TBU"), SprInfo(560, "IC_CST"), SprInfo(561, "IC_ADR"), SprInfo(562, "IC_DAT")
  ]
  const SPRS9: seq<SprInfo> := [
    SprInfo(568, "DC_CST"), SprInfo(569, "DC_ADR"), SprInfo(570, "DC_DAT"), SprInfo(630, "DPDR"), SprInfo(638, "IMMR")
  ]
  const SPRS10: seq<SprInfo> := [
    SprInfo(784, "MI_CTR"), SprInfo(786, "MI_AP"), SprInfo(787, "MI_EPN"), SprInfo(789, "MI_TWC"), SprInfo(790, "MI_RPN")
  ]
  const SPRS11: seq<SprInfo> := [
    SprInfo(792, "MD_CTR"), SprInfo(793, "M_CASID"), SprInfo(794, "MD_AP"), SprInfo(795, "MD_EPN"), SprInfo(796, "M_TWB")
  ]
  const SPRS12: seq<SprInfo> := [
    SprInfo(797, "MD_TWC"), SprInfo(798, "MD_RPN"), SprInfo(799, "M_TW"), SprInfo(816, "MI_DBCAM"), SprInfo(817, "MI_DBRAM0")
  ]
  const SPRS13: seq<SprInfo> := [
    SprInfo(818, "MI_DBRAM1"), SprInfo(824, "MD_DBCAM"), SprInfo(825, "MD_DBRAM0"), SprInfo(826, "MD_DBRAM1"), SprInfo(944, "ZPR")
  ]
  const SPRS14: seq<SprInfo> := [
    SprInfo(945, "PID"), SprInfo(947, "CCR0"), SprInfo(948, "IAC3"), SprInfo(949, "IAC4"), SprInfo(950, "DVC1")
  ]
  const SPRS15: seq<SprInfo> := [
    SprInfo(951, "DVC2"), SprInfo(953, "SGR"), SprInfo(954, "DCWR"), SprInfo(955, "SLER"), SprInfo(956, "SU0R")
  ]
  const SPRS16: seq<SprInfo> := [
    SprInfo(957, "DBCR1"), SprInfo(979, "ICDBDR"), SprInfo(980, "ESR"), SprInfo(981, "DEAR"), SprInfo(982, "EVPR")
  ]
  const SPRS17: seq<SprInfo> := [
    SprInfo(984, "TSR"), SprInfo(986, "TCR"), SprInfo(987, "PIT"), SprInfo(990, "SRR2"), SprInfo(991, "SRR3")
  ]
  const SPRS18: seq<SprInfo> := [
    SprInfo(1008, "DBSR"), SprInfo(1010, "DBCR0"), SprInfo(1012, "IAC1"), SprInfo(1013, "IAC2"), SprInfo(1014, "DAC1")
  ]
  const SPRS19: seq<SprInfo> := [
    SprInfo(1015, "DAC2"), SprInfo(1018, "DCCR"), SprInfo(1019, "ICCR")
  ]

  const SPR_MAP: seq<SprInfo> :=
    SPRS0 + SPRS1 + SPRS2 + SPRS3 + SPRS4 + SPRS5 + SPRS6 + SPRS7 + SPRS8 + SPRS9 +
    SPRS10 + SPRS11 + SPRS12 + SPRS13 + SPRS14 + SPRS15 + SPRS16 + SPRS17 + SPRS18 + SPRS19

  lemma Sprs0Ok() ensures SprsOk(SPRS0) { }
  lemma Sprs1Ok() ensures SprsOk(SPRS1) { }
  lemma Sprs2Ok() ensures SprsOk(SPRS2) { }
  lemma Sprs3Ok() ensures SprsOk(SPRS3) { }
  lemma Sprs4Ok() ensures SprsOk(SPRS4) { }
  lemma Sprs5Ok() ensures SprsOk(SPRS5) { }
  lemma Sprs6Ok() ensures SprsOk(SPRS6) { }
  lemma Sprs7Ok() ensures SprsOk(SPRS7) { }
  lemma Sprs8Ok() ensures SprsOk(SPRS8) { }
  lemma Sprs9Ok() ensures SprsOk(SPRS9) { }
  lemma Sprs10Ok() ensures SprsOk(SPRS10) { }
  lemma Sprs11Ok() ensures SprsOk(SPRS11) { }
  lemma Sprs12Ok() ensures SprsOk(SPRS12) { }
  lemma Sprs13Ok() ensures SprsOk(SPRS13) { }
  lemma Sprs14Ok() ensures SprsOk(SPRS14) { }
  lemma Sprs15Ok() ensures SprsOk(SPRS15) { }
  lemma Sprs16Ok() ensures SprsOk(SPRS16) { }
  lemma Sprs17Ok() ensures SprsOk(SPRS17) { }
  lemma Sprs18Ok() ensures SprsOk(SPRS18) { }
  lemma Sprs19Ok() ensures SprsOk(SPRS19) { }

  /** The shipped names are capital letters, digits and underscores. */
  lemma SprMapOk()
    ensures SprsOk(SPR_MAP)
  {
    Sprs0Ok(); Sprs1Ok(); Sprs2Ok(); Sprs3Ok(); Sprs4Ok();
    Sprs5Ok(); Sprs6Ok(); Sprs7Ok(); Sprs8Ok(); Sprs9Ok();
    Sprs10Ok(); Sprs11Ok(); Sprs12Ok(); Sprs13Ok(); Sprs14Ok();
    Sprs15Ok(); Sprs16Ok(); Sprs17Ok(); Sprs18Ok(); Sprs19Ok();
  }
}
