/** The operand lists of the opcode table (include/bedbug/tables.h), typed by the low opcode bits of
    the forms that use them. */
module OperandLists {
  import opened Ppc

  type DFields = fs: seq<Operand> | FieldsFit(fs, 0) witness []
  type MFields = fs: seq<Operand> | FieldsFit(fs, 1) witness []
  type BFields = fs: seq<Operand> | FieldsFit(fs, 2) witness []
  type XFields = fs: seq<Operand> | FieldsFit(fs, 11) witness []

  const BC_FIELDS: BFields := [O_BO, O_BI, O_BD, O_AA, O_LK]
  const B_FIELDS: BFields := [O_LI, O_AA, O_LK]
  const BCXR_FIELDS: XFields := [O_BO, O_BI, O_LK]
  const TO_RA_SIMM: DFields := [O_TO, O_rA, O_SIMM]
  const RD_RA_SIMM: DFields := [O_rD, O_rA, O_SIMM]
  const CRFD_L_RA_UIMM: DFields := [O_crfD, O_L, O_rA, O_UIMM]
  const CRFD_L_RA_SIMM: DFields := [O_crfD, O_L, O_rA, O_SIMM]
  const NO_OPERANDS: seq<Operand> := []
  const CRFD_CRFS: XFields := [O_crfD, O_crfS]
  const CRBD_CRBA_CRBB: XFields := [O_crbD, O_crbA, O_crbB]
  const RA_RS_SH_MB_ME_RC: MFields := [O_rA, O_rS, O_SH, O_MB, O_ME, O_Rc]
  const RA_RS_RB_MB_ME_RC: MFields := [O_rA, O_rS, O_rB, O_MB, O_ME, O_Rc]
  const RA_RS_UIMM: DFields := [O_rA, O_rS, O_UIMM]
  const CRFD_L_RA_RB: XFields := [O_crfD, O_L, O_rA, O_rB]
  const TO_RA_RB: XFields := [O_TO, O_rA, O_rB]
  const RD_RA_RB_OE_RC: XFields := [O_rD, O_rA, O_rB, O_OE, O_Rc]
  const RD_RA_RB_RC: XFields := [O_rD, O_rA, O_rB, O_Rc]
  const RD: XFields := [O_rD]
  const RD_RA_RB: XFields := [O_rD, O_rA, O_rB]
  const RA_RS_RB_RC: XFields := [O_rA, O_rS, O_rB, O_Rc]
  const RA_RS_RC: XFields := [O_rA, O_rS, O_Rc]
  const RA_RB: XFields := [O_rA, O_rB]
  const RD_RA_OE_RC: XFields := [O_rD, O_rA, O_OE, O_Rc]
  const CRM_RS: XFields := [O_CRM, O_rS]
  const RS: XFields := [O_rS]
  const RS_RA_RB: XFields := [O_rS, O_rA, O_rB]
  const SR_RS: XFields := [O_SR, O_rS]
  const RS_RB: XFields := [O_rS, O_rB]
  const RB: XFields := [O_rB]
  const RD_SPR: XFields := [O_rD, O_spr]
  const RD_TBR: XFields := [O_rD, O_tbr]
  const SPR_RS: XFields := [O_spr, O_rS]
  const CRFD: XFields := [O_crfD]
  const RD_SR: XFields := [O_rD, O_SR]
  const RD_RA_NB: XFields := [O_rD, O_rA, O_NB]
  const RD_RB: XFields := [O_rD, O_rB]
  const RS_RA_NB: XFields := [O_rS, O_rA, O_NB]
  const RA_RS_SH_RC: XFields := [O_rA, O_rS, O_SH, O_Rc]
  const RD_D_RA: DFields := [O_rD, O_d, O_rA]
  const RS_D_RA: DFields := [O_rS, O_d, O_rA]
}
