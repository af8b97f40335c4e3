/** The opcode tables, one per addressing mode, and the decoder they induce. */
module Opcodes {
  import opened Words

  /** The mnemonics, and `DBC`, a key of the zero page,X table that no source line can name
      (it stands where `SBC` belongs). */
  datatype Mnemonic =
    | ADC | AND | ASL | BCC | BCS | BEQ | BIT | BMI | BNE | BPL | BRK | BVC | BVS | CLC | CLD
    | CLI | CLV | CMP | CPX | CPY | DEC | DEX | DEY | EOR | INC | INX | INY | JMP | JSR | LDA
    | LDX | LDY | LSR | NOP | ORA | PHA | PHP | PLA | PLP | ROL | ROR | RTI | RTS | SBC | SEC
    | SED | SEI | STA | STX | STY | TAX | TAY | TSX | TXA | TXS | TYA | DBC

  datatype OpTable =
    | Implied | Immediate | Relative | AbsoluteX | ZeroPageX | AbsoluteY
    | ZeroPageY | Absolute | ZeroPage | IndexedIndirect | IndirectIndexed | Indirect

  function ImpliedOpcodes(m: Mnemonic): Option<Byte> {
    match m
    case BRK => Some(0x00) case PHP => Some(0x08) case ASL => Some(0x0A) case CLC => Some(0x18)
    case PLP => Some(0x28) case ROL => Some(0x2A) case SEC => Some(0x38) case RTI => Some(0x40)
    case PHA => Some(0x48) case LSR => Some(0x4A) case CLI => Some(0x58) case RTS => Some(0x60)
    case PLA => Some(0x68) case ROR => Some(0x6A) case SEI => Some(0x78) case DEY => Some(0x88)
    case TXA => Some(0x8A) case TYA => Some(0x98) case TXS => Some(0x9A) case TAY => Some(0xA8)
    case TAX => Some(0xAA) case CLV => Some(0xB8) case TSX => Some(0xBA) case INY => Some(0xC8)
    case DEX => Some(0xCA) case CLD => Some(0xD8) case INX => Some(0xE8) case NOP => Some(0xEA)
    case SED => Some(0xF8)
    case _ => None
  }

  function ImmediateOpcodes(m: Mnemonic): Option<Byte> {
    match m
    case ORA => Some(0x09) case AND => Some(0x29) case EOR => Some(0x49) case ADC => Some(0x69)
    case LDY => Some(0xA0) case LDX => Some(0xA2) case LDA => Some(0xA9) case CPY => Some(0xC0)
    case CMP => Some(0xC9) case CPX => Some(0xE0) case SBC => Some(0xE9)
    case _ => None
  }

  function RelativeOpcodes(m: Mnemonic): Option<Byte> {
    match m
    case BPL => Some(0x10) case BMI => Some(0x30) case BVC => Some(0x50) case BVS => Some(0x70)
    case BCC => Some(0x90) case BCS => Some(0xB0) case BNE => Some(0xD0) case BEQ => Some(0xF0)
    case _ => None
  }

  function AbsoluteXOpcodes(m: Mnemonic): Option<Byte> {
    match m
    case ORA => Some(0x1D) case ASL => Some(0x1E) case AND => Some(0x3D) case ROL => Some(0x3E)
    case EOR => Some(0x5D) case LSR => Some(0x5E) case ADC => Some(0x7D) case ROR => Some(0x7E)
    case STA => Some(0x9D) case LDY => Some(0xBC) case LDA => Some(0xBD) case CMP => Some(0xDD)
    case DEC => Some(0xDE) case SBC => Some(0xFD) case INC => Some(0xFE)
    case _ => None
  }

  function ZeroPageXOpcodes(m: Mnemonic): Option<Byte> {
    match m
    case ORA => Some(0x15) case ASL => Some(0x16) case AND => Some(0x35) case ROL => Some(0x36)
    case EOR => Some(0x55) case LSR => Some(0x56) case ADC => Some(0x75) case ROR => Some(0x76)
    case STY => Some(0x94) case STA => Some(0x95) case LDY => Some(0xB4) case LDA => Some(0xB5)
    case CMP => Some(0xD5) case DEC => Some(0xD6) case DBC => Some(0xF5) case INC => Some(0xF6)
    case _ => None
  }

  function AbsoluteYOpcodes(m: Mnemonic): Option<Byte> {
    match m
    case ORA => Some(0x19) case AND => Some(0x39) case EOR => Some(0x59) case ADC => Some(0x79)
    case STA => Some(0x99) case LDA => Some(0xB9) case LDX => Some(0xBE) case CMP => Some(0xD9)
    case SBC => Some(0xF9)
    case _ => None
  }

  function ZeroPageYOpcodes(m: Mnemonic): Option<Byte> {
    match m
    case STX => Some(0x96) case LDX => Some(0xB6)
    case _ => None
  }

  function AbsoluteOpcodes(m: Mnemonic): Option<Byte> {
    match m
    case ORA => Some(0x0D) case ASL => Some(0x0E) case JSR => Some(0x20) case BIT => Some(0x2C)
    case AND => Some(0x2D) case ROL => Some(0x2E) case JMP => Some(0x4C) case EOR => Some(0x4D)
    case LSR => Some(0x4E) case ADC => Some(0x6D) case ROR => Some(0x6E) case STY => Some(0x8C)
    case STA => Some(0x8D) case STX => Some(0x8E) case LDY => Some(0xAC) case LDA => Some(0xAD)
    case LDX => Some(0xAE) case CPY => Some(0xCC) case CMP => Some(0xCD) case DEC => Some(0xCE)
    case CPX => Some(0xEC) case SBC => Some(0xED) case INC => Some(0xEE)
    case _ => None
  }

  function ZeroPageOpcodes(m: Mnemonic): Option<Byte> {
    match m
    case ORA => Some(0x05) case ASL => Some(0x06) case BIT => Some(0x24) case AND => Some(0x25)
    case ROL => Some(0x26) case EOR => Some(0x45) case LSR => Some(0x46) case ADC => Some(0x65)
    case ROR => Some(0x66) case STY => Some(0x84) case STA => Some(0x85) case STX => Some(0x86)
    case LDY => Some(0xA4) case LDA => Some(0xA5) case LDX => Some(0xA6) case CPY => Some(0xC4)
    case CMP => Some(0xC5) case DEC => Some(0xC6) case CPX => Some(0xE4) case SBC => Some(0xE5)
    case INC => Some(0xE6)
    case _ => None
  }

  function IndexedIndirectOpcodes(m: Mnemonic): Option<Byte> {
    match m
    case ORA => Some(0x01) case AND => Some(0x21) case EOR => Some(0x41) case ADC => Some(0x61)
    case STA => Some(0x81) case LDA => Some(0xA1) case CMP => Some(0xC1) case SBC => Some(0xE1)
    case _ => None
  }

  function IndirectIndexedOpcodes(m: Mnemonic): Option<Byte> {
    match m
    case ORA => Some(0x11) case AND => Some(0x31) case EOR => Some(0x51) case ADC => Some(0x71)
    case STA => Some(0x91) case LDA => Some(0xB1) case CMP => Some(0xD1) case SBC => Some(0xF1)
    case _ => None
  }

  /** The lookup tables; `None` is a key the table lacks. */
  function Lookup(t: OpTable, m: Mnemonic): Option<Byte> {
    match t
    case Implied => ImpliedOpcodes(m)
    case Immediate => ImmediateOpcodes(m)
    case Relative => RelativeOpcodes(m)
    case AbsoluteX => AbsoluteXOpcodes(m)
    case ZeroPageX => ZeroPageXOpcodes(m)
    case AbsoluteY => AbsoluteYOpcodes(m)
    case ZeroPageY => ZeroPageYOpcodes(m)
    case Absolute => AbsoluteOpcodes(m)
    case ZeroPage => ZeroPageOpcodes(m)
    case IndexedIndirect => IndexedIndirectOpcodes(m)
    case IndirectIndexed => IndirectIndexedOpcodes(m)
    case Indirect => if m == JMP then Some(0x6C) else None
  }

  /** A failed lookup yields opcode 0, which is `BRK`. */
  function FindOpCode(t: OpTable, m: Mnemonic): Byte {
    match Lookup(t, m)
    case Some(b) => b
    case None => 0
  }

  function Candidates0(b: Byte): Option<(OpTable, Mnemonic)> {
    match b
    case 0x00 => Some((Implied, BRK)) case 0x01 => Some((IndexedIndirect, ORA)) case 0x05 => Some((ZeroPage, ORA))
    case 0x06 => Some((ZeroPage, ASL)) case 0x08 => Some((Implied, PHP)) case 0x09 => Some((Immediate, ORA))
    case 0x0A => Some((Implied, ASL)) case 0x0D => Some((Absolute, ORA)) case 0x0E => Some((Absolute, ASL))
    case 0x10 => Some((Relative, BPL)) case 0x11 => Some((IndirectIndexed, ORA)) case 0x15 => Some((ZeroPageX, ORA))
    case 0x16 => Some((ZeroPageX, ASL)) case 0x18 => Some((Implied, CLC)) case 0x19 => Some((AbsoluteY, ORA))
    case 0x1D => Some((AbsoluteX, ORA)) case 0x1E => Some((AbsoluteX, ASL))
    case _ => None
  }

  function Candidates1(b: Byte): Option<(OpTable, Mnemonic)> {
    match b
    case 0x20 => Some((Absolute, JSR)) case 0x21 => Some((IndexedIndirect, AND)) case 0x24 => Some((ZeroPage, BIT))
    case 0x25 => Some((ZeroPage, AND)) case 0x26 => Some((ZeroPage, ROL)) case 0x28 => Some((Implied, PLP))
    case 0x29 => Some((Immediate, AND)) case 0x2A => Some((Implied, ROL)) case 0x2C => Some((Absolute, BIT))
    case 0x2D => Some((Absolute, AND)) case 0x2E => Some((Absolute, ROL)) case 0x30 => Some((Relative, BMI))
    case 0x31 => Some((IndirectIndexed, AND)) case 0x35 => Some((ZeroPageX, AND)) case 0x36 => Some((ZeroPageX, ROL))
    case 0x38 => Some((Implied, SEC)) case 0x39 => Some((AbsoluteY, AND)) case 0x3D => Some((AbsoluteX, AND))
    case 0x3E => Some((AbsoluteX, ROL))
    case _ => None
  }

  function Candidates2(b: Byte): Option<(OpTable, Mnemonic)> {
    match b
    case 0x40 => Some((Implied, RTI)) case 0x41 => Some((IndexedIndirect, EOR)) case 0x45 => Some((ZeroPage, EOR))
    case 0x46 => Some((ZeroPage, LSR)) case 0x48 => Some((Implied, PHA)) case 0x49 => Some((Immediate, EOR))
    case 0x4A => Some((Implied, LSR)) case 0x4C => Some((Absolute, JMP)) case 0x4D => Some((Absolute, EOR))
    case 0x4E => Some((Absolute, LSR)) case 0x50 => Some((Relative, BVC)) case 0x51 => Some((IndirectIndexed, EOR))
    case 0x55 => Some((ZeroPageX, EOR)) case 0x56 => Some((ZeroPageX, LSR)) case 0x58 => Some((Implied, CLI))
    case 0x59 => Some((AbsoluteY, EOR)) case 0x5D => Some((AbsoluteX, EOR)) case 0x5E => Some((AbsoluteX, LSR))
    case _ => None
  }

  function Candidates3(b: Byte): Option<(OpTable, Mnemonic)> {
    match b
    case 0x60 => Some((Implied, RTS)) case 0x61 => Some((IndexedIndirect, ADC)) case 0x65 => Some((ZeroPage, ADC))
    case 0x66 => Some((ZeroPage, ROR)) case 0x68 => Some((Implied, PLA)) case 0x69 => Some((Immediate, ADC))
    case 0x6A => Some((Implied, ROR)) case 0x6C => Some((Indirect, JMP)) case 0x6D => Some((Absolute, ADC))
    case 0x6E => Some((Absolute, ROR)) case 0x70 => Some((Relative, BVS)) case 0x71 => Some((IndirectIndexed, ADC))
    case 0x75 => Some((ZeroPageX, ADC)) case 0x76 => Some((ZeroPageX, ROR)) case 0x78 => Some((Implied, SEI))
    case 0x79 => Some((AbsoluteY, ADC)) case 0x7D => Some((AbsoluteX, ADC)) case 0x7E => Some((AbsoluteX, ROR))
    case _ => None
  }

  function Candidates4(b: Byte): Option<(OpTable, Mnemonic)> {
    match b
    case 0x81 => Some((IndexedIndirect, STA)) case 0x84 => Some((ZeroPage, STY)) case 0x85 => Some((ZeroPage, STA))
    case 0x86 => Some((ZeroPage, STX)) case 0x88 => Some((Implied, DEY)) case 0x8A => Some((Implied, TXA))
    case 0x8C => Some((Absolute, STY)) case 0x8D => Some((Absolute, STA)) case 0x8E => Some((Absolute, STX))
    case 0x90 => Some((Relative, BCC)) case 0x91 => Some((IndirectIndexed, STA)) case 0x94 => Some((ZeroPageX, STY))
    case 0x95 => Some((ZeroPageX, STA)) case 0x96 => Some((ZeroPageY, STX)) case 0x98 => Some((Implied, TYA))
    case 0x99 => Some((AbsoluteY, STA)) case 0x9A => Some((Implied, TXS)) case 0x9D => Some((AbsoluteX, STA))
    case _ => None
  }

  function Candidates5(b: Byte): Option<(OpTable, Mnemonic)> {
    match b
    case 0xA0 => Some((Immediate, LDY)) case 0xA1 => Some((IndexedIndirect, LDA)) case 0xA2 => Some((Immediate, LDX))
    case 0xA4 => Some((ZeroPage, LDY)) case 0xA5 => Some((ZeroPage, LDA)) case 0xA6 => Some((ZeroPage, LDX))
    case 0xA8 => Some((Implied, TAY)) case 0xA9 => Some((Immediate, LDA)) case 0xAA => Some((Implied, TAX))
    case 0xAC => Some((Absolute, LDY)) case 0xAD => Some((Absolute, LDA)) case 0xAE => Some((Absolute, LDX))
    case 0xB0 => Some((Relative, BCS)) case 0xB1 => Some((IndirectIndexed, LDA)) case 0xB4 => Some((ZeroPageX, LDY))
    case 0xB5 => Some((ZeroPageX, LDA)) case 0xB6 => Some((ZeroPageY, LDX)) case 0xB8 => Some((Implied, CLV))
    case 0xB9 => Some((AbsoluteY, LDA)) case 0xBA => Some((Implied, TSX)) case 0xBC => Some((AbsoluteX, LDY))
    case 0xBD => Some((AbsoluteX, LDA)) case 0xBE => Some((AbsoluteY, LDX))
    case _ => None
  }

  function Candidates6(b: Byte): Option<(OpTable, Mnemonic)> {
    match b
    case 0xC0 => Some((Immediate, CPY)) case 0xC1 => Some((IndexedIndirect, CMP)) case 0xC4 => Some((ZeroPage, CPY))
    case 0xC5 => Some((ZeroPage, CMP)) case 0xC6 => Some((ZeroPage, DEC)) case 0xC8 => Some((Implied, INY))
    case 0xC9 => Some((Immediate, CMP)) case 0xCA => Some((Implied, DEX)) case 0xCC => Some((Absolute, CPY))
    case 0xCD => Some((Absolute, CMP)) case 0xCE => Some((Absolute, DEC)) case 0xD0 => Some((Relative, BNE))
    case 0xD1 => Some((IndirectIndexed, CMP)) case 0xD5 => Some((ZeroPageX, CMP)) case 0xD6 => Some((ZeroPageX, DEC))
    case 0xD8 => Some((Implied, CLD)) case 0xD9 => Some((AbsoluteY, CMP)) case 0xDD => Some((AbsoluteX, CMP))
    case 0xDE => Some((AbsoluteX, DEC))
    case _ => None
  }

  function Candidates7(b: Byte): Option<(OpTable, Mnemonic)> {
    match b
    case 0xE0 => Some((Immediate, CPX)) case 0xE1 => Some((IndexedIndirect, SBC)) case 0xE4 => Some((ZeroPage, CPX))
    case 0xE5 => Some((ZeroPage, SBC)) case 0xE6 => Some((ZeroPage, INC)) case 0xE8 => Some((Implied, INX))
    case 0xE9 => Some((Immediate, SBC)) case 0xEA => Some((Implied, NOP)) case 0xEC => Some((Absolute, CPX))
    case 0xED => Some((Absolute, SBC)) case 0xEE => Some((Absolute, INC)) case 0xF0 => Some((Relative, BEQ))
    case 0xF1 => Some((IndirectIndexed, SBC)) case 0xF5 => Some((ZeroPageX, DBC)) case 0xF6 => Some((ZeroPageX, INC))
    case 0xF8 => Some((Implied, SED)) case 0xF9 => Some((AbsoluteY, SBC)) case 0xFD => Some((AbsoluteX, SBC))
    case 0xFE => Some((AbsoluteX, INC))
    case _ => None
  }

  function Candidate(b: Byte): Option<(OpTable, Mnemonic)> {
    if b < 0x80 then
      if b < 0x20 then Candidates0(b) else if b < 0x40 then Candidates1(b)
      else if b < 0x60 then Candidates2(b) else Candidates3(b)
    else
      if b < 0xA0 then Candidates4(b) else if b < 0xC0 then Candidates5(b)
      else if b < 0xE0 then Candidates6(b) else Candidates7(b)
  }

  /** The instruction decoder: which table, and which key of it, holds an opcode. */
  function DecodeOpcode(b: Byte): Option<(OpTable, Mnemonic)> {
    match Candidate(b)
    case Some((t, m)) => if Lookup(t, m) == Some(b) then Some((t, m)) else None
    case None => None
  }

  lemma ImpliedHasCandidate(m: Mnemonic)
    requires ImpliedOpcodes(m).Some?
    ensures Candidate(ImpliedOpcodes(m).value) == Some((Implied, m))
  {
  }

  lemma ImmediateHasCandidate(m: Mnemonic)
    requires ImmediateOpcodes(m).Some?
    ensures Candidate(ImmediateOpcodes(m).value) == Some((Immediate, m))
  {
  }

  lemma RelativeHasCandidate(m: Mnemonic)
    requires RelativeOpcodes(m).Some?
    ensures Candidate(RelativeOpcodes(m).value) == Some((Relative, m))
  {
  }

  lemma AbsoluteXHasCandidate(m: Mnemonic)
    requires AbsoluteXOpcodes(m).Some?
    ensures Candidate(AbsoluteXOpcodes(m).value) == Some((AbsoluteX, m))
  {
  }

  lemma ZeroPageXHasCandidate(m: Mnemonic)
    requires ZeroPageXOpcodes(m).Some?
    ensures Candidate(ZeroPageXOpcodes(m).value) == Some((ZeroPageX, m))
  {
  }

  lemma AbsoluteYHasCandidate(m: Mnemonic)
    requires AbsoluteYOpcodes(m).Some?
    ensures Candidate(AbsoluteYOpcodes(m).value) == Some((AbsoluteY, m))
  {
  }

  lemma ZeroPageYHasCandidate(m: Mnemonic)
    requires ZeroPageYOpcodes(m).Some?
    ensures Candidate(ZeroPageYOpcodes(m).value) == Some((ZeroPageY, m))
  {
  }

  lemma AbsoluteHasCandidate(m: Mnemonic)
    requires AbsoluteOpcodes(m).Some?
    ensures Candidate(AbsoluteOpcodes(m).value) == Some((Absolute, m))
  {
  }

  lemma ZeroPageHasCandidate(m: Mnemonic)
    requires ZeroPageOpcodes(m).Some?
    ensures Candidate(ZeroPageOpcodes(m).value) == Some((ZeroPage, m))
  {
  }

  lemma IndexedIndirectHasCandidate(m: Mnemonic)
    requires IndexedIndirectOpcodes(m).Some?
    ensures Candidate(IndexedIndirectOpcodes(m).value) == Some((IndexedIndirect, m))
  {
  }

  lemma IndirectIndexedHasCandidate(m: Mnemonic)
    requires IndirectIndexedOpcodes(m).Some?
    ensures Candidate(IndirectIndexedOpcodes(m).value) == Some((IndirectIndexed, m))
  {
  }

  /** No opcode belongs to two table entries, and the decoder finds the one it belongs to. */
  lemma DecodeInvertsLookup(b: Byte, t: OpTable, m: Mnemonic)
    ensures DecodeOpcode(b) == Some((t, m)) <==> Lookup(t, m) == Some(b)
  {
    if Lookup(t, m) == Some(b) {
      match t {
        case Implied => ImpliedHasCandidate(m);
        case Immediate => ImmediateHasCandidate(m);
        case Relative => RelativeHasCandidate(m);
        case AbsoluteX => AbsoluteXHasCandidate(m);
        case ZeroPageX => ZeroPageXHasCandidate(m);
        case AbsoluteY => AbsoluteYHasCandidate(m);
        case ZeroPageY => ZeroPageYHasCandidate(m);
        case Absolute => AbsoluteHasCandidate(m);
        case ZeroPage => ZeroPageHasCandidate(m);
        case IndexedIndirect => IndexedIndirectHasCandidate(m);
        case IndirectIndexed => IndirectIndexedHasCandidate(m);
        case Indirect =>
      }
    }
  }
}
