/** The instruction set seen from the opcode: three high bits say which operation, five low bits
    how its operand is found.  Every statement of the source gets the opcode its addressing mode
    calls for.  Nothing here looks into the opcode tables to say which that is. */
module Instructions {
  import opened Words
  import opened Expressions
  import opened Opcodes
  import opened Source
  import opened OnePass
  import opened TwoPass
  import opened Layers
  import opened EmissionProofs
  import opened Refinement
  import opened Patching
  import opened Decoder
  import opened SourceLines

  // ----- the grid -----

  /** The three high bits. */
  function Row(m: Mnemonic): nat {
    match m
    case BRK | ORA | ASL | PHP | BPL | CLC => 0
    case JSR | BIT | AND | ROL | PLP | BMI | SEC => 1
    case RTI | JMP | EOR | LSR | PHA | BVC | CLI => 2
    case RTS | ADC | ROR | PLA | BVS | SEI => 3
    case STY | STA | STX | DEY | TXA | BCC | TYA | TXS => 4
    case LDY | LDA | LDX | TAY | TAX | BCS | CLV | TSX => 5
    case CPY | CMP | DEC | INY | DEX | BNE | CLD => 6
    case CPX | SBC | INC | INX | NOP | BEQ | SED | DBC => 7
  }

  /** The two lowest bits: accumulator operations, shifts and X, the rest. */
  function Group(m: Mnemonic): nat {
    match m
    case ORA | AND | EOR | ADC | STA | LDA | CMP | SBC => 1
    case ASL | ROL | LSR | ROR | STX | LDX | DEC | INC => 2
    case _ => 0
  }

  function ImpliedColumn(m: Mnemonic): nat {
    match m
    case PHP | PLP | PHA | PLA | DEY | TAY | INY | INX => 0x08
    case ASL | ROL | LSR | ROR | TXA | TAX | DEX | NOP => 0x0A
    case CLC | SEC | CLI | SEI | TYA | CLV | CLD | SED => 0x18
    case TXS | TSX => 0x1A
    case _ => 0x00
  }

  /** The five low bits of a statement with an operand expression. */
  function Column(mode: Mode, m: Mnemonic, short: bool): nat {
    match mode
    case Imm => if Group(m) == 1 then 0x09 else Group(m)
    case IdxIdr => 0x01
    case IdrIdx => 0x11
    case Idr => 0x0C
    case Abs => if m == JSR then 0x00 else (if short then 0x04 else 0x0C) + Group(m)
    case IdxX => (if short then 0x14 else 0x1C) + Group(m)
    case IdxY => if Group(m) == 1 then 0x19 else if short then 0x16 else 0x1E
  }

  /** Two bytes instead of three: the operand is known when the line is reached and fits a byte,
      and the operation has such a form.  (`SBC ..,X` should, but its key is misspelt.) */
  predicate Shortens(mode: Mode, m: Mnemonic) {
    match mode
    case Abs => m != JMP && m != JSR
    case IdxX => m != SBC
    case IdxY => m == STX || m == LDX
    case _ => false
  }

  predicate IsShort(body: Body, t: Table) {
    match body
    case Operation(mode, m, e) => Shortens(mode, m) && Meaning(e, t).Known? && Meaning(e, t).v <= 0xff
    case _ => false
  }

  /** `STY ..,X` and `STX ..,Y` exist in the short form only. */
  predicate HasOpcode(body: Body, t: Table) {
    match body
    case Operation(mode, m, _) => (mode == IdxX && m == STY) || (mode == IdxY && m == STX) ==> IsShort(body, t)
    case _ => !body.Data? && Emits(body)
  }

  function GridOpcode(body: Body, short: bool): nat {
    match body
    case Direct(m) => 0x20 * Row(m) + ImpliedColumn(m)
    case Branching(m, _) => 0x20 * Row(m) + 0x10
    case Operation(Idr, _, _) => 0x6C
    case Operation(mode, m, _) => 0x20 * Row(m) + Column(mode, m, short)
    case _ => 0
  }

  function OperandLength(body: Body, short: bool): nat {
    match body
    case Branching(_, _) => 1
    case Operation(mode, _, _) => if short || mode == Imm || mode == IdxIdr || mode == IdrIdx then 1 else 2
    case _ => 0
  }

  // ----- the tables are on the grid -----

  lemma ImpliedIsOnGrid(m: Mnemonic)
    requires ImpliedOpcodes(m).Some?
    ensures ImpliedOpcodes(m).value == 0x20 * Row(m) + ImpliedColumn(m)
  {
  }

  lemma RelativeIsOnGrid(m: Mnemonic)
    requires RelativeOpcodes(m).Some?
    ensures RelativeOpcodes(m).value == 0x20 * Row(m) + 0x10
  {
  }

  lemma ImmediateIsOnGrid(m: Mnemonic)
    requires ImmediateOpcodes(m).Some?
    ensures ImmediateOpcodes(m).value == 0x20 * Row(m) + Column(Imm, m, false)
  {
  }

  lemma IndexedIndirectIsOnGrid(m: Mnemonic)
    requires IndexedIndirectOpcodes(m).Some?
    ensures IndexedIndirectOpcodes(m).value == 0x20 * Row(m) + 0x01
  {
  }

  lemma IndirectIndexedIsOnGrid(m: Mnemonic)
    requires IndirectIndexedOpcodes(m).Some?
    ensures IndirectIndexedOpcodes(m).value == 0x20 * Row(m) + 0x11
  {
  }

  lemma AbsoluteIsOnGrid(m: Mnemonic)
    requires AbsoluteOpcodes(m).Some?
    ensures AbsoluteOpcodes(m).value == 0x20 * Row(m) + Column(Abs, m, false)
  {
  }

  lemma ZeroPageIsWhereItShould(m: Mnemonic)
    requires AbsoluteOpcodes(m).Some?
    ensures ZeroPageOpcodes(m).Some? <==> Shortens(Abs, m)
  {
  }

  lemma ZeroPageIsOnGrid(m: Mnemonic)
    requires ZeroPageOpcodes(m).Some? && m != DBC
    ensures ZeroPageOpcodes(m).value == 0x20 * Row(m) + Column(Abs, m, true)
  {
  }

  lemma AbsoluteXIsOnGrid(m: Mnemonic)
    requires AbsoluteXOpcodes(m).Some?
    ensures AbsoluteXOpcodes(m).value == 0x20 * Row(m) + Column(IdxX, m, false)
  {
  }

  lemma ZeroPageXIsWhereItShould(m: Mnemonic)
    requires m == STY || AbsoluteXOpcodes(m).Some?
    ensures ZeroPageXOpcodes(m).Some? <==> Shortens(IdxX, m)
  {
  }

  lemma ZeroPageXIsOnGrid(m: Mnemonic)
    requires ZeroPageXOpcodes(m).Some? && m != DBC
    ensures ZeroPageXOpcodes(m).value == 0x20 * Row(m) + Column(IdxX, m, true)
  {
  }

  lemma AbsoluteYIsOnGrid(m: Mnemonic)
    requires AbsoluteYOpcodes(m).Some?
    ensures AbsoluteYOpcodes(m).value == 0x20 * Row(m) + Column(IdxY, m, false)
  {
  }

  lemma ZeroPageYIsWhereItShould(m: Mnemonic)
    requires m == STX || AbsoluteYOpcodes(m).Some?
    ensures ZeroPageYOpcodes(m).Some? <==> Shortens(IdxY, m)
  {
  }

  lemma ZeroPageYIsOnGrid(m: Mnemonic)
    requires ZeroPageYOpcodes(m).Some? && m != DBC
    ensures ZeroPageYOpcodes(m).value == 0x20 * Row(m) + Column(IdxY, m, true)
  {
  }

  /** The opcode and the operand size a statement is assembled with are those of the grid. */
  ghost predicate FormIsRight(mode: Mode, m: Mnemonic, e: Tree, t: Table) {
    var body, form := Operation(mode, m, e), Form(mode, m, e, t);
    && FindOpCode(form, m) == GridOpcode(body, IsShort(body, t))
    && OperandSize(form) == OperandLength(body, IsShort(body, t))
  }

  lemma ImmediateFormIsRight(m: Mnemonic, e: Tree, t: Table)
    requires ImmediateOpcodes(m).Some?
    ensures FormIsRight(Imm, m, e, t)
  {
    ImmediateIsOnGrid(m);
    assert Form(Imm, m, e, t) == Immediate;
  }

  lemma IndexedIndirectFormIsRight(m: Mnemonic, e: Tree, t: Table)
    requires IndexedIndirectOpcodes(m).Some?
    ensures FormIsRight(IdxIdr, m, e, t)
  {
    IndexedIndirectIsOnGrid(m);
    assert Form(IdxIdr, m, e, t) == IndexedIndirect;
  }

  lemma IndirectIndexedFormIsRight(m: Mnemonic, e: Tree, t: Table)
    requires IndirectIndexedOpcodes(m).Some?
    ensures FormIsRight(IdrIdx, m, e, t)
  {
    IndirectIndexedIsOnGrid(m);
    assert Form(IdrIdx, m, e, t) == IndirectIndexed;
  }

  lemma OneByteFormIsRight(mode: Mode, m: Mnemonic, e: Tree, t: Table)
    requires Grammatical(Operation(mode, m, e)) && (OneByteOnly(mode) || mode == Idr)
    ensures FormIsRight(mode, m, e, t)
  {
    match mode {
      case Imm => ImmediateFormIsRight(m, e, t);
      case IdxIdr => IndexedIndirectFormIsRight(m, e, t);
      case IdrIdx => IndirectIndexedFormIsRight(m, e, t);
      case Idr => assert Form(mode, m, e, t) == Indirect;
    }
  }

  lemma AbsoluteForm(m: Mnemonic, e: Tree, t: Table)
    requires AbsoluteOpcodes(m).Some?
    ensures Form(Abs, m, e, t) == if IsShort(Operation(Abs, m, e), t) then ZeroPage else Absolute
  {
    ZeroPageIsWhereItShould(m);
    if Shortens(Abs, m) { ZeroPageIsOnGrid(m); }
  }

  lemma AbsoluteFormIsRight(m: Mnemonic, e: Tree, t: Table)
    requires AbsoluteOpcodes(m).Some?
    ensures FormIsRight(Abs, m, e, t)
  {
    AbsoluteForm(m, e, t);
    ZeroPageIsWhereItShould(m);
    if IsShort(Operation(Abs, m, e), t) { ZeroPageIsOnGrid(m); } else { AbsoluteIsOnGrid(m); }
  }

  lemma IndexedXForm(m: Mnemonic, e: Tree, t: Table)
    requires m == STY || AbsoluteXOpcodes(m).Some?
    ensures Form(IdxX, m, e, t) == if IsShort(Operation(IdxX, m, e), t) then ZeroPageX else AbsoluteX
  {
    ZeroPageXIsWhereItShould(m);
    if Shortens(IdxX, m) { ZeroPageXIsOnGrid(m); }
  }

  lemma IndexedXFormIsRight(m: Mnemonic, e: Tree, t: Table)
    requires m == STY || AbsoluteXOpcodes(m).Some?
    requires HasOpcode(Operation(IdxX, m, e), t)
    ensures FormIsRight(IdxX, m, e, t)
  {
    IndexedXForm(m, e, t);
    ZeroPageXIsWhereItShould(m);
    if IsShort(Operation(IdxX, m, e), t) { ZeroPageXIsOnGrid(m); } else { AbsoluteXIsOnGrid(m); }
  }

  lemma IndexedYForm(m: Mnemonic, e: Tree, t: Table)
    requires m == STX || AbsoluteYOpcodes(m).Some?
    ensures Form(IdxY, m, e, t) == if IsShort(Operation(IdxY, m, e), t) then ZeroPageY else AbsoluteY
  {
    ZeroPageYIsWhereItShould(m);
    if Shortens(IdxY, m) { ZeroPageYIsOnGrid(m); }
  }

  lemma IndexedYFormIsRight(m: Mnemonic, e: Tree, t: Table)
    requires m == STX || AbsoluteYOpcodes(m).Some?
    requires HasOpcode(Operation(IdxY, m, e), t)
    ensures FormIsRight(IdxY, m, e, t)
  {
    IndexedYForm(m, e, t);
    ZeroPageYIsWhereItShould(m);
    if IsShort(Operation(IdxY, m, e), t) { ZeroPageYIsOnGrid(m); } else { AbsoluteYIsOnGrid(m); }
  }

  lemma WideFormIsRight(mode: Mode, m: Mnemonic, e: Tree, t: Table)
    requires Grammatical(Operation(mode, m, e)) && !OneByteOnly(mode) && mode != Idr
    requires HasOpcode(Operation(mode, m, e), t)
    ensures FormIsRight(mode, m, e, t)
  {
    match mode {
      case Abs => AbsoluteFormIsRight(m, e, t);
      case IdxX => IndexedXFormIsRight(m, e, t);
      case IdxY => IndexedYFormIsRight(m, e, t);
    }
  }

  lemma PieceIsOnGrid(body: Body, t: Table)
    requires Grammatical(body) && HasOpcode(body, t) && Emits(body) && !body.Data?
    ensures var p, short := PieceOf(body, t).value, IsShort(body, t);
            && FindOpCode(TableOf(p), MnemonicOf(p)) == GridOpcode(body, short)
            && Size(p) == 1 + OperandLength(body, short)
  {
    match body {
      case Direct(m) => ImpliedIsOnGrid(m);
      case Branching(m, _) => RelativeIsOnGrid(m);
      case Operation(mode, m, e) =>
        if OneByteOnly(mode) || mode == Idr { OneByteFormIsRight(mode, m, e, t); }
        else { WideFormIsRight(mode, m, e, t); }
    }
  }

  // ----- assembled programs -----

  /** -1 where the memory has nothing. */
  function ByteIn(mem: Memory, a: U32): int {
    if a in mem then mem[a] else -1
  }

  /** The byte or the word from `a` on. */
  function OperandIn(mem: Memory, a: U32, n: nat): int {
    if n == 0 then 0
    else if ByteIn(mem, a) < 0 then -1
    else if n == 1 then ByteIn(mem, a)
    else if ByteIn(mem, Wrap(a + 1)) < 0 then -1
    else ByteIn(mem, a) + 0x100 * ByteIn(mem, Wrap(a + 1))
  }

  /** The record of the statement, its opcode, and what its operand bytes say. */
  ghost predicate IsEncoded(mem: Memory, c: CodeLine, body: Body, known: Table, final: Table) {
    var short := IsShort(body, known);
    var operand := OperandIn(mem, Wrap(c.start + 1), OperandLength(body, short));
    && c.length == 1 + OperandLength(body, short)
    && ByteIn(mem, c.start) == GridOpcode(body, short)
    && (body.Branching? ==>
          && body.target in final && 0 <= operand <= 0xff
          && Wrap(c.start + 2 + SignExtend(operand)) == final[body.target])
    && (body.Operation? ==>
          Meaning(body.operand, final).Known? && operand == Meaning(body.operand, final).v % 0x1_0000)
  }

  lemma ShownOpcode(mem: Memory, p: Placed, body: Body, known: Table, final: Table)
    requires PieceOf(body, known) == Some(p.piece) && ShowsCode(mem, p, final)
    requires Grammatical(body) && HasOpcode(body, known) && Emits(body) && !body.Data?
    ensures var short := IsShort(body, known);
            && Size(p.piece) == 1 + OperandLength(body, short) && p.address + Size(p.piece) <= ADDR_INVALID
            && ByteIn(mem, p.address) == GridOpcode(body, short)
  {
    PieceIsOnGrid(body, known);
    ShownBytes(mem, p, final);
  }

  lemma ShownOperand(mem: Memory, p: Placed, t: Table)
    requires ShowsCode(mem, p, t) && !p.piece.Values?
    ensures var code := Code(p, t);
            OperandIn(mem, Wrap(p.address + 1), |code| - 1)
            == if |code| == 3 then (code[1] as int) + 0x100 * (code[2] as int) else if |code| == 2 then code[1] else 0
  {
    ShownBytes(mem, p, t);
  }

  lemma OperandIsEncoded(mem: Memory, p: Placed, t: Table)
    requires ShowsCode(mem, p, t) && Legal(p, t) && !p.piece.Values?
    ensures var operand := OperandIn(mem, Wrap(p.address + 1), Size(p.piece) - 1);
            && (p.piece.ToLabel? ==>
                  && p.piece.target in t && 0 <= operand <= 0xff
                  && Wrap(p.address + 2 + SignExtend(operand)) == t[p.piece.target])
            && (p.piece.WithOperand? && OperandSize(p.piece.table) > 0 ==>
                  Meaning(p.piece.operand, t).Known? && operand == Meaning(p.piece.operand, t).v % 0x1_0000)
  {
    ShownOperand(mem, p, t);
    match p.piece {
      case Bare(_) =>
      case ToLabel(_, target) => DistanceReaches(p.address, t[target]);
      case WithOperand(_, _, e, _) => WordIsRestored(ValueOf(e, t));
    }
  }

  lemma ShownIsEncoded(mem: Memory, p: Placed, body: Body, known: Table, final: Table)
    requires PieceOf(body, known) == Some(p.piece) && ShowsCode(mem, p, final) && Legal(p, final)
    requires Grammatical(body) && HasOpcode(body, known) && Emits(body) && !body.Data?
    ensures p.address + Size(p.piece) <= ADDR_INVALID
    ensures IsEncoded(mem, CodeLine(p.address, Size(p.piece)), body, known, final)
  {
    ShownOpcode(mem, p, body, known, final);
    OperandIsEncoded(mem, p, final);
    if body.Operation? { FormTakesOperand(body.mode, body.m, body.operand, known); }
  }

  lemma PieceIsShown(lines: seq<Line>, k: nat)
    requires Assembles(lines) && DisjointPieces(Pieces(START, lines)) && k < |Pieces(START, lines)|
    ensures ShowsCode(Assembled(lines).payload, Pieces(START, lines)[k], Assembled(lines).table)
    ensures Legal(Pieces(START, lines)[k], Assembled(lines).table)
  {
    AssemblingRun(lines);
    MemoryIsLayered(lines);
    DisjointPiecesAreIntact(Pieces(START, lines), k);
    IntactPieceIsShown(Pieces(START, lines), FinalTable(START, lines), k);
  }

  /** From the source line to the bytes, for every statement of the grammar that has an opcode,
      in every disjoint program that assembles: the record counts the bytes of the addressing
      mode, the first byte is the opcode on the grid, the operand bytes say what the operand
      means under the final symbols, or lead a branch to its target. */
  lemma StatementsAreEncoded(lines: seq<Line>, i: nat)
    requires Assembles(lines) && DisjointPieces(Pieces(START, lines)) && i < |lines|
    requires Grammatical(lines[i].body) && HasOpcode(lines[i].body, KnownAt(lines, i))
    ensures |Assembled(lines).codeLines| == |lines|
    ensures var final := Assembled(lines);
            IsEncoded(final.payload, final.codeLines[i], lines[i].body, KnownAt(lines, i), final.table)
  {
    var k := PieceOfLine(lines, i);
    PieceIsShown(lines, k);
    ShownIsEncoded(Assembled(lines).payload, Pieces(START, lines)[k], lines[i].body,
                   KnownAt(lines, i), Assembled(lines).table);
  }
}
