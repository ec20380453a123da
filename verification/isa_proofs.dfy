/** How the assembler's instruction table and the emulator's `execute` switch fit
    together: every table entry is one `case` of the switch under the mnemonic its comment
    gives, names and opcodes are unique, and the operand bytes the assembler demands after
    an instruction are exactly the bytes the emulator fetches for it. */
module IsaProofs {
  import opened Base
  import opened Js
  import CodeParts
  import opened Instructions
  import opened Emulator
  import opened EmulatorProofs

  /** The operand bytes `execute` fetches after the opcode: `ADR` pulls the two bytes of an
      address, `CLA`, `CLB` and `CLQ` pull one byte, and nothing else pulls any. */
  function Operands(o: Opcode): seq<CodeParts.Kind>
  {
    match o
    case ADR => [CodeParts.AddressByte, CodeParts.AddressByte]
    case CLA => [CodeParts.Byte]
    case CLB => [CodeParts.Byte]
    case CLQ => [CodeParts.Byte]
    case _ => []
  }

  /** The table entry the emulator's view of an opcode calls for. */
  function EntryFor(o: Opcode): Entry
  {
    Entry(Mnemonic(o), CaseLabel(o), Operands(o))
  }

  /** Where an opcode sits in the table: its label, minus the gap of 16 to 19. */
  function Index(o: Opcode): nat
  {
    var n := CaseLabel(o);
    if n < 16 then n else n - 4
  }

  // Stated one opcode at a time: a single quantified lemma over all 42 opcodes would
  // unfold the whole 42-row table in one proof obligation, beyond the verifier's
  // resource bound, while each opcode alone is immediate. A `match` combines them.
  // The table, row by row.
  lemma RowHLT() ensures Table[0] == EntryFor(HLT) {}
  lemma RowNOP() ensures Table[1] == EntryFor(NOP) {}
  lemma RowADR() ensures Table[2] == EntryFor(ADR) {}
  lemma RowLDA() ensures Table[3] == EntryFor(LDA) {}
  lemma RowSTA() ensures Table[4] == EntryFor(STA) {}
  lemma RowLDB() ensures Table[5] == EntryFor(LDB) {}
  lemma RowSWP() ensures Table[6] == EntryFor(SWP) {}
  lemma RowLDH() ensures Table[7] == EntryFor(LDH) {}
  lemma RowLDL() ensures Table[8] == EntryFor(LDL) {}
  lemma RowSTH() ensures Table[9] == EntryFor(STH) {}
  lemma RowSTL() ensures Table[10] == EntryFor(STL) {}
  lemma RowLDQ() ensures Table[11] == EntryFor(LDQ) {}
  lemma RowSTQ() ensures Table[12] == EntryFor(STQ) {}
  lemma RowCLA() ensures Table[13] == EntryFor(CLA) {}
  lemma RowCLB() ensures Table[14] == EntryFor(CLB) {}
  lemma RowCLQ() ensures Table[15] == EntryFor(CLQ) {}
  lemma RowADD() ensures Table[16] == EntryFor(ADD) {}
  lemma RowADDC() ensures Table[17] == EntryFor(ADDC) {}
  lemma RowSUB() ensures Table[18] == EntryFor(SUB) {}
  lemma RowSUBC() ensures Table[19] == EntryFor(SUBC) {}
  lemma RowSHL() ensures Table[20] == EntryFor(SHL) {}
  lemma RowSHLC() ensures Table[21] == EntryFor(SHLC) {}
  lemma RowSHR() ensures Table[22] == EntryFor(SHR) {}
  lemma RowSHRC() ensures Table[23] == EntryFor(SHRC) {}
  lemma RowAND() ensures Table[24] == EntryFor(AND) {}
  lemma RowOR() ensures Table[25] == EntryFor(OR) {}
  lemma RowXOR() ensures Table[26] == EntryFor(XOR) {}
  lemma RowNAND() ensures Table[27] == EntryFor(NAND) {}
  lemma RowNOR() ensures Table[28] == EntryFor(NOR) {}
  lemma RowXNOR() ensures Table[29] == EntryFor(XNOR) {}
  lemma RowCKSM() ensures Table[30] == EntryFor(CKSM) {}
  lemma RowCKSMC() ensures Table[31] == EntryFor(CKSMC) {}
  lemma RowINCR() ensures Table[32] == EntryFor(INCR) {}
  lemma RowDECR() ensures Table[33] == EntryFor(DECR) {}
  lemma RowJMP() ensures Table[34] == EntryFor(JMP) {}
  lemma RowJMPC() ensures Table[35] == EntryFor(JMPC) {}
  lemma RowJMPZ() ensures Table[36] == EntryFor(JMPZ) {}
  lemma RowJMPQ() ensures Table[37] == EntryFor(JMPQ) {}
  lemma RowPSH() ensures Table[38] == EntryFor(PSH) {}
  lemma RowPOP() ensures Table[39] == EntryFor(POP) {}
  lemma RowSUBR() ensures Table[40] == EntryFor(SUBR) {}
  lemma RowRET() ensures Table[41] == EntryFor(RET) {}

  /** Every opcode has its entry in the table, at its index. */
  lemma EntryOf(o: Opcode)
    ensures Index(o) < |Table| && Table[Index(o)] == EntryFor(o)
  {
    match o
    case HLT => RowHLT();
    case NOP => RowNOP();
    case ADR => RowADR();
    case LDA => RowLDA();
    case STA => RowSTA();
    case LDB => RowLDB();
    case SWP => RowSWP();
    case LDH => RowLDH();
    case LDL => RowLDL();
    case STH => RowSTH();
    case STL => RowSTL();
    case LDQ => RowLDQ();
    case STQ => RowSTQ();
    case CLA => RowCLA();
    case CLB => RowCLB();
    case CLQ => RowCLQ();
    case ADD => RowADD();
    case ADDC => RowADDC();
    case SUB => RowSUB();
    case SUBC => RowSUBC();
    case SHL => RowSHL();
    case SHLC => RowSHLC();
    case SHR => RowSHR();
    case SHRC => RowSHRC();
    case AND => RowAND();
    case OR => RowOR();
    case XOR => RowXOR();
    case NAND => RowNAND();
    case NOR => RowNOR();
    case XNOR => RowXNOR();
    case CKSM => RowCKSM();
    case CKSMC => RowCKSMC();
    case INCR => RowINCR();
    case DECR => RowDECR();
    case JMP => RowJMP();
    case JMPC => RowJMPC();
    case JMPZ => RowJMPZ();
    case JMPQ => RowJMPQ();
    case PSH => RowPSH();
    case POP => RowPOP();
    case SUBR => RowSUBR();
    case RET => RowRET();
  }

  /** The ids run from 0 to 15 and then from 20 to 45, in table order. */
  lemma TableIds()
    ensures |Table| == 42
    ensures forall k :: 0 <= k < |Table| ==> Table[k].id == if k < 16 then k else k + 4
  {
  }

  /** Each row of the table is the entry of the opcode its id selects, and sits at that
      opcode's index. */
  lemma OpcodeAt(k: nat)
    requires k < |Table|
    ensures Decode(Table[k].id).Some?
    ensures Index(Decode(Table[k].id).value) == k && Table[k] == EntryFor(Decode(Table[k].id).value)
  {
    TableIds();
    DecodeNone(Initial, Table[k].id);
    var o := Decode(Table[k].id).value;
    DecodeGivesLabel(Table[k].id);
    EntryOf(o);
  }

  // Stated one opcode at a time: a single quantified lemma over all 42 opcodes would
  // unfold every mnemonic and the instruction pattern in one proof obligation, beyond
  // the verifier's resource bound, while each opcode alone is immediate. A `match`
  // combines them.
  // Each mnemonic, name by name: a run of capitals that no other opcode carries.
  lemma NamedHLT(o: Opcode) ensures CodeParts.IsInstructionText("HLT") && (Mnemonic(o) == "HLT" ==> o == HLT) {}
  lemma NamedNOP(o: Opcode) ensures CodeParts.IsInstructionText("NOP") && (Mnemonic(o) == "NOP" ==> o == NOP) {}
  lemma NamedADR(o: Opcode) ensures CodeParts.IsInstructionText("ADR") && (Mnemonic(o) == "ADR" ==> o == ADR) {}
  lemma NamedLDA(o: Opcode) ensures CodeParts.IsInstructionText("LDA") && (Mnemonic(o) == "LDA" ==> o == LDA) {}
  lemma NamedSTA(o: Opcode) ensures CodeParts.IsInstructionText("STA") && (Mnemonic(o) == "STA" ==> o == STA) {}
  lemma NamedLDB(o: Opcode) ensures CodeParts.IsInstructionText("LDB") && (Mnemonic(o) == "LDB" ==> o == LDB) {}
  lemma NamedSWP(o: Opcode) ensures CodeParts.IsInstructionText("SWP") && (Mnemonic(o) == "SWP" ==> o == SWP) {}
  lemma NamedLDH(o: Opcode) ensures CodeParts.IsInstructionText("LDH") && (Mnemonic(o) == "LDH" ==> o == LDH) {}
  lemma NamedLDL(o: Opcode) ensures CodeParts.IsInstructionText("LDL") && (Mnemonic(o) == "LDL" ==> o == LDL) {}
  lemma NamedSTH(o: Opcode) ensures CodeParts.IsInstructionText("STH") && (Mnemonic(o) == "STH" ==> o == STH) {}
  lemma NamedSTL(o: Opcode) ensures CodeParts.IsInstructionText("STL") && (Mnemonic(o) == "STL" ==> o == STL) {}
  lemma NamedLDQ(o: Opcode) ensures CodeParts.IsInstructionText("LDQ") && (Mnemonic(o) == "LDQ" ==> o == LDQ) {}
  lemma NamedSTQ(o: Opcode) ensures CodeParts.IsInstructionText("STQ") && (Mnemonic(o) == "STQ" ==> o == STQ) {}
  lemma NamedCLA(o: Opcode) ensures CodeParts.IsInstructionText("CLA") && (Mnemonic(o) == "CLA" ==> o == CLA) {}
  lemma NamedCLB(o: Opcode) ensures CodeParts.IsInstructionText("CLB") && (Mnemonic(o) == "CLB" ==> o == CLB) {}
  lemma NamedCLQ(o: Opcode) ensures CodeParts.IsInstructionText("CLQ") && (Mnemonic(o) == "CLQ" ==> o == CLQ) {}
  lemma NamedADD(o: Opcode) ensures CodeParts.IsInstructionText("ADD") && (Mnemonic(o) == "ADD" ==> o == ADD) {}
  lemma NamedADDC(o: Opcode) ensures CodeParts.IsInstructionText("ADDC") && (Mnemonic(o) == "ADDC" ==> o == ADDC) {}
  lemma NamedSUB(o: Opcode) ensures CodeParts.IsInstructionText("SUB") && (Mnemonic(o) == "SUB" ==> o == SUB) {}
  lemma NamedSUBC(o: Opcode) ensures CodeParts.IsInstructionText("SUBC") && (Mnemonic(o) == "SUBC" ==> o == SUBC) {}
  lemma NamedSHL(o: Opcode) ensures CodeParts.IsInstructionText("SHL") && (Mnemonic(o) == "SHL" ==> o == SHL) {}
  lemma NamedSHLC(o: Opcode) ensures CodeParts.IsInstructionText("SHLC") && (Mnemonic(o) == "SHLC" ==> o == SHLC) {}
  lemma NamedSHR(o: Opcode) ensures CodeParts.IsInstructionText("SHR") && (Mnemonic(o) == "SHR" ==> o == SHR) {}
  lemma NamedSHRC(o: Opcode) ensures CodeParts.IsInstructionText("SHRC") && (Mnemonic(o) == "SHRC" ==> o == SHRC) {}
  lemma NamedAND(o: Opcode) ensures CodeParts.IsInstructionText("AND") && (Mnemonic(o) == "AND" ==> o == AND) {}
  lemma NamedOR(o: Opcode) ensures CodeParts.IsInstructionText("OR") && (Mnemonic(o) == "OR" ==> o == OR) {}
  lemma NamedXOR(o: Opcode) ensures CodeParts.IsInstructionText("XOR") && (Mnemonic(o) == "XOR" ==> o == XOR) {}
  lemma NamedNAND(o: Opcode) ensures CodeParts.IsInstructionText("NAND") && (Mnemonic(o) == "NAND" ==> o == NAND) {}
  lemma NamedNOR(o: Opcode) ensures CodeParts.IsInstructionText("NOR") && (Mnemonic(o) == "NOR" ==> o == NOR) {}
  lemma NamedXNOR(o: Opcode) ensures CodeParts.IsInstructionText("XNOR") && (Mnemonic(o) == "XNOR" ==> o == XNOR) {}
  lemma NamedCKSM(o: Opcode) ensures CodeParts.IsInstructionText("CKSM") && (Mnemonic(o) == "CKSM" ==> o == CKSM) {}
  lemma NamedCKSMC(o: Opcode) ensures CodeParts.IsInstructionText("CKSMC") && (Mnemonic(o) == "CKSMC" ==> o == CKSMC) {}
  lemma NamedINCR(o: Opcode) ensures CodeParts.IsInstructionText("INCR") && (Mnemonic(o) == "INCR" ==> o == INCR) {}
  lemma NamedDECR(o: Opcode) ensures CodeParts.IsInstructionText("DECR") && (Mnemonic(o) == "DECR" ==> o == DECR) {}
  lemma NamedJMP(o: Opcode) ensures CodeParts.IsInstructionText("JMP") && (Mnemonic(o) == "JMP" ==> o == JMP) {}
  lemma NamedJMPC(o: Opcode) ensures CodeParts.IsInstructionText("JMPC") && (Mnemonic(o) == "JMPC" ==> o == JMPC) {}
  lemma NamedJMPZ(o: Opcode) ensures CodeParts.IsInstructionText("JMPZ") && (Mnemonic(o) == "JMPZ" ==> o == JMPZ) {}
  lemma NamedJMPQ(o: Opcode) ensures CodeParts.IsInstructionText("JMPQ") && (Mnemonic(o) == "JMPQ" ==> o == JMPQ) {}
  lemma NamedPSH(o: Opcode) ensures CodeParts.IsInstructionText("PSH") && (Mnemonic(o) == "PSH" ==> o == PSH) {}
  lemma NamedPOP(o: Opcode) ensures CodeParts.IsInstructionText("POP") && (Mnemonic(o) == "POP" ==> o == POP) {}
  lemma NamedSUBR(o: Opcode) ensures CodeParts.IsInstructionText("SUBR") && (Mnemonic(o) == "SUBR" ==> o == SUBR) {}
  lemma NamedRET(o: Opcode) ensures CodeParts.IsInstructionText("RET") && (Mnemonic(o) == "RET" ==> o == RET) {}

  /** Every mnemonic is a run of capitals, and no two opcodes share one. */
  lemma MnemonicFacts(o1: Opcode, o2: Opcode)
    ensures CodeParts.IsInstructionText(Mnemonic(o1))
    ensures Mnemonic(o1) == Mnemonic(o2) ==> o1 == o2
  {
    match o1
    case HLT => NamedHLT(o2);
    case NOP => NamedNOP(o2);
    case ADR => NamedADR(o2);
    case LDA => NamedLDA(o2);
    case STA => NamedSTA(o2);
    case LDB => NamedLDB(o2);
    case SWP => NamedSWP(o2);
    case LDH => NamedLDH(o2);
    case LDL => NamedLDL(o2);
    case STH => NamedSTH(o2);
    case STL => NamedSTL(o2);
    case LDQ => NamedLDQ(o2);
    case STQ => NamedSTQ(o2);
    case CLA => NamedCLA(o2);
    case CLB => NamedCLB(o2);
    case CLQ => NamedCLQ(o2);
    case ADD => NamedADD(o2);
    case ADDC => NamedADDC(o2);
    case SUB => NamedSUB(o2);
    case SUBC => NamedSUBC(o2);
    case SHL => NamedSHL(o2);
    case SHLC => NamedSHLC(o2);
    case SHR => NamedSHR(o2);
    case SHRC => NamedSHRC(o2);
    case AND => NamedAND(o2);
    case OR => NamedOR(o2);
    case XOR => NamedXOR(o2);
    case NAND => NamedNAND(o2);
    case NOR => NamedNOR(o2);
    case XNOR => NamedXNOR(o2);
    case CKSM => NamedCKSM(o2);
    case CKSMC => NamedCKSMC(o2);
    case INCR => NamedINCR(o2);
    case DECR => NamedDECR(o2);
    case JMP => NamedJMP(o2);
    case JMPC => NamedJMPC(o2);
    case JMPZ => NamedJMPZ(o2);
    case JMPQ => NamedJMPQ(o2);
    case PSH => NamedPSH(o2);
    case POP => NamedPOP(o2);
    case SUBR => NamedSUBR(o2);
    case RET => NamedRET(o2);
  }

  /** No two opcodes share a mnemonic. */
  lemma MnemonicInjective(o1: Opcode, o2: Opcode)
    ensures Mnemonic(o1) == Mnemonic(o2) ==> o1 == o2
  {
    MnemonicFacts(o1, o2);
  }

  /** Two rows with the same mnemonic are the same row. */
  lemma SameName(i: nat, j: nat)
    requires i < |Table| && j < |Table| && Table[i].short == Table[j].short
    ensures i == j
  {
    OpcodeAt(i);
    OpcodeAt(j);
    MnemonicInjective(Decode(Table[i].id).value, Decode(Table[j].id).value);
  }

  /** Mnemonics are pairwise distinct, so no entry shadows another. */
  lemma NamesDistinct()
    ensures forall i, j :: 0 <= i < |Table| && 0 <= j < |Table| && Table[i].short == Table[j].short ==> i == j
  {
    forall i, j | 0 <= i < |Table| && 0 <= j < |Table| && Table[i].short == Table[j].short
      ensures i == j
    {
      SameName(i, j);
    }
  }

  /** Ids are pairwise distinct, lie in 0 to 45 and skip 16 to 19, and each is the label
      of a `case` of `execute` whose mnemonic is the entry's name. */
  lemma IdsAreCaseLabels()
    ensures forall i, j :: 0 <= i < |Table| && 0 <= j < |Table| && Table[i].id == Table[j].id ==> i == j
    ensures forall k :: 0 <= k < |Table| ==> 0 <= Table[k].id <= 45 && !(16 <= Table[k].id < 20)
    ensures forall k :: 0 <= k < |Table| ==>
              Decode(Table[k].id).Some? && Mnemonic(Decode(Table[k].id).value) == Table[k].short
  {
    TableIds();
    forall k | 0 <= k < |Table|
      ensures Decode(Table[k].id).Some? && Mnemonic(Decode(Table[k].id).value) == Table[k].short
    {
      OpcodeAt(k);
    }
  }

  /** `ADR` takes two address bytes, `CLA`, `CLB` and `CLQ` take one byte, every other
      instruction takes no operand. */
  lemma ArgumentSignatures()
    ensures forall k :: 0 <= k < |Table| ==>
              Table[k].requiredArgs ==
                if Table[k].short == "ADR" then [CodeParts.AddressByte, CodeParts.AddressByte]
                else if Table[k].short in ["CLA", "CLB", "CLQ"] then [CodeParts.Byte]
                else []
  {
    forall k | 0 <= k < |Table|
      ensures Table[k].requiredArgs ==
                if Table[k].short == "ADR" then [CodeParts.AddressByte, CodeParts.AddressByte]
                else if Table[k].short in ["CLA", "CLB", "CLQ"] then [CodeParts.Byte]
                else []
    {
      OpcodeAt(k);
      var o := Decode(Table[k].id).value;
      MnemonicInjective(o, ADR);
      MnemonicInjective(o, CLA);
      MnemonicInjective(o, CLB);
      MnemonicInjective(o, CLQ);
    }
  }

  /** Every mnemonic is a run of capital letters, so a part with that text is classified as
      an instruction. */
  lemma MnemonicsAreInstructions(line: nat)
    ensures forall k :: 0 <= k < |Table| ==>
              CodeParts.IsInstructionText(Table[k].short)
              && CodeParts.NewCodePart(line, Table[k].short).kind == CodeParts.Instruction
  {
    forall k | 0 <= k < |Table|
      ensures CodeParts.IsInstructionText(Table[k].short)
    {
      OpcodeAt(k);
      MnemonicIsText(Decode(Table[k].id).value);
    }
  }

  lemma MnemonicIsText(o: Opcode)
    ensures CodeParts.IsInstructionText(Mnemonic(o))
  {
    MnemonicFacts(o, o);
  }

  /** `getInstrucion` finds every opcode of the emulator under its mnemonic, with the
      opcode's `case` label as id and the operands the emulator fetches. */
  lemma LookupFindsOpcode(o: Opcode)
    ensures GetInstruction(Mnemonic(o)) == EntryFor(o).AsInstruction()
  {
    var i := Index(o);
    EntryOf(o);
    ListsExists(Table, Mnemonic(o));
    assert Table[i].short == Mnemonic(o);
    FindFirst(Table, Mnemonic(o));
    var e := Find(Table, Mnemonic(o)).value;
    var k :| 0 <= k < |Table| && Table[k] == e && forall j :: 0 <= j < k ==> Table[j].short != Mnemonic(o);
    SameName(k, i);
  }

  /** A name is known exactly when it is some opcode's mnemonic; the id the assembler then
      emits selects that opcode in `execute`. */
  lemma KnownNames(s: string)
    ensures GetInstruction(s).isError <==> forall o :: Mnemonic(o) != s
    ensures !GetInstruction(s).isError ==>
              Decode(GetInstruction(s).id).Some? && Mnemonic(Decode(GetInstruction(s).id).value) == s
  {
    if !GetInstruction(s).isError {
      ListsExists(Table, s);
      var k :| 0 <= k < |Table| && Table[k].short == s;
      OpcodeAt(k);
      LookupFindsOpcode(Decode(Table[k].id).value);
    } else {
      forall o ensures Mnemonic(o) != s {
        LookupFindsOpcode(o);
      }
    }
  }

  /** The instructions that set `p` themselves. */
  predicate Transfers(o: Opcode)
  {
    o.JMP? || o.JMPC? || o.JMPZ? || o.JMPQ? || o.SUBR? || o.RET?
  }

  /** The emulator fetches exactly the operand bytes the table demands: `ADR` pulls two
      bytes at `p` into `h` and `l`, `CLA`, `CLB` and `CLQ` pull one, and every other
      instruction that does not jump leaves `p` where the opcode fetch put it. */
  lemma OperandsFetched(m: Machine, o: Opcode)
    ensures |Operands(o)| == 2 ==>
              && Run(m, o).m.regs.p == Pull(Pull(m).m).m.regs.p
              && Run(m, o).m.regs.h == Rem(Pull(m).value, 256)
              && Run(m, o).m.regs.l == Rem(Pull(Pull(m).m).value, 256)
    ensures |Operands(o)| == 1 ==> Run(m, o).m.regs.p == Pull(m).m.regs.p
    ensures |Operands(o)| == 0 && !Transfers(o) ==> Run(m, o).m.regs.p == m.regs.p
  {
    if o.ADR? {
      AddressFetched(m);
    } else if o.CLA? || o.CLB? || o.CLQ? {
      ConstantFetched(m, o);
    } else {
      NoOperandKeepsCounter(m, o);
    }
  }

  /** `ADR` pulls the high and then the low byte of an address. */
  lemma AddressFetched(m: Machine)
    ensures Run(m, ADR).m.regs.p == Pull(Pull(m).m).m.regs.p
    ensures Run(m, ADR).m.regs.h == Rem(Pull(m).value, 256)
    ensures Run(m, ADR).m.regs.l == Rem(Pull(Pull(m).m).value, 256)
  {
  }

  /** `CLA`, `CLB` and `CLQ` pull one byte. */
  lemma ConstantFetched(m: Machine, o: Opcode)
    requires o.CLA? || o.CLB? || o.CLQ?
    ensures Run(m, o).m.regs.p == Pull(m).m.regs.p
  {
  }

  /** An instruction without operands that does not jump leaves `p` alone. */
  lemma NoOperandKeepsCounter(m: Machine, o: Opcode)
    ensures |Operands(o)| == 0 && !Transfers(o) ==> Run(m, o).m.regs.p == m.regs.p
  {
    match o
    case HLT => KeepsHLT(m);
    case NOP => KeepsNOP(m);
    case LDA => KeepsLDA(m);
    case STA => KeepsSTA(m);
    case LDB => KeepsLDB(m);
    case SWP => KeepsSWP(m);
    case LDH => KeepsLDH(m);
    case LDL => KeepsLDL(m);
    case STH => KeepsSTH(m);
    case STL => KeepsSTL(m);
    case LDQ => KeepsLDQ(m);
    case STQ => KeepsSTQ(m);
    case ADD => KeepsADD(m);
    case ADDC => KeepsADDC(m);
    case SUB => KeepsSUB(m);
    case SUBC => KeepsSUBC(m);
    case SHL => KeepsSHL(m);
    case SHLC => KeepsSHLC(m);
    case SHR => KeepsSHR(m);
    case SHRC => KeepsSHRC(m);
    case AND => KeepsAND(m);
    case OR => KeepsOR(m);
    case XOR => KeepsXOR(m);
    case NAND => KeepsNAND(m);
    case NOR => KeepsNOR(m);
    case XNOR => KeepsXNOR(m);
    case CKSM => KeepsCKSM(m);
    case CKSMC => KeepsCKSMC(m);
    case INCR => KeepsINCR(m);
    case DECR => KeepsDECR(m);
    case PSH => KeepsPSH(m);
    case POP => KeepsPOP(m);
    case _ =>
  }

  // Stated one opcode at a time: a single quantified lemma over all 42 opcodes would
  // unfold the whole `execute` switch in one proof obligation, beyond the verifier's
  // resource bound, while each opcode alone is immediate. A `match` combines them.
  // Instruction by instruction: running it leaves `p` where the opcode fetch put it.
  lemma KeepsHLT(m: Machine) ensures Run(m, HLT).m.regs.p == m.regs.p {}
  lemma KeepsNOP(m: Machine) ensures Run(m, NOP).m.regs.p == m.regs.p {}
  lemma KeepsLDA(m: Machine) ensures Run(m, LDA).m.regs.p == m.regs.p {}
  lemma KeepsSTA(m: Machine) ensures Run(m, STA).m.regs.p == m.regs.p {}
  lemma KeepsLDB(m: Machine) ensures Run(m, LDB).m.regs.p == m.regs.p {}
  lemma KeepsSWP(m: Machine) ensures Run(m, SWP).m.regs.p == m.regs.p {}
  lemma KeepsLDH(m: Machine) ensures Run(m, LDH).m.regs.p == m.regs.p {}
  lemma KeepsLDL(m: Machine) ensures Run(m, LDL).m.regs.p == m.regs.p {}
  lemma KeepsSTH(m: Machine) ensures Run(m, STH).m.regs.p == m.regs.p {}
  lemma KeepsSTL(m: Machine) ensures Run(m, STL).m.regs.p == m.regs.p {}
  lemma KeepsLDQ(m: Machine) ensures Run(m, LDQ).m.regs.p == m.regs.p {}
  lemma KeepsSTQ(m: Machine) ensures Run(m, STQ).m.regs.p == m.regs.p {}
  lemma KeepsADD(m: Machine) ensures Run(m, ADD).m.regs.p == m.regs.p {}
  lemma KeepsADDC(m: Machine) ensures Run(m, ADDC).m.regs.p == m.regs.p {}
  lemma KeepsSUB(m: Machine) ensures Run(m, SUB).m.regs.p == m.regs.p {}
  lemma KeepsSUBC(m: Machine) ensures Run(m, SUBC).m.regs.p == m.regs.p {}
  lemma KeepsSHL(m: Machine) ensures Run(m, SHL).m.regs.p == m.regs.p {}
  lemma KeepsSHLC(m: Machine) ensures Run(m, SHLC).m.regs.p == m.regs.p {}
  lemma KeepsSHR(m: Machine) ensures Run(m, SHR).m.regs.p == m.regs.p {}
  lemma KeepsSHRC(m: Machine) ensures Run(m, SHRC).m.regs.p == m.regs.p {}
  lemma KeepsAND(m: Machine) ensures Run(m, AND).m.regs.p == m.regs.p {}
  lemma KeepsOR(m: Machine) ensures Run(m, OR).m.regs.p == m.regs.p {}
  lemma KeepsXOR(m: Machine) ensures Run(m, XOR).m.regs.p == m.regs.p {}
  lemma KeepsNAND(m: Machine) ensures Run(m, NAND).m.regs.p == m.regs.p {}
  lemma KeepsNOR(m: Machine) ensures Run(m, NOR).m.regs.p == m.regs.p {}
  lemma KeepsXNOR(m: Machine) ensures Run(m, XNOR).m.regs.p == m.regs.p {}
  lemma KeepsCKSM(m: Machine) ensures Run(m, CKSM).m.regs.p == m.regs.p {}
  lemma KeepsCKSMC(m: Machine) ensures Run(m, CKSMC).m.regs.p == m.regs.p {}
  lemma KeepsINCR(m: Machine) ensures Run(m, INCR).m.regs.p == m.regs.p {}
  lemma KeepsDECR(m: Machine) ensures Run(m, DECR).m.regs.p == m.regs.p {}
  lemma KeepsPSH(m: Machine) ensures Run(m, PSH).m.regs.p == m.regs.p {}
  lemma KeepsPOP(m: Machine) ensures Run(m, POP).m.regs.p == m.regs.p {}
}
