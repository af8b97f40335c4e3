/** Emitted code is uniquely decodable: a disassembler built from the same tables finds
    the instructions, the operands and the branch targets again. */
module Decoder {
  import opened Words
  import opened Expressions
  import opened Opcodes
  import opened Source
  import opened OnePass
  import opened TwoPass
  import opened Layers
  import opened EmissionProofs
  import opened Refinement
  import opened Patching

  /** An instruction: its table entry, and its operand value or branch target. */
  datatype Instruction = Instruction(table: OpTable, m: Mnemonic, operand: U32)

  // ----- the disassembler -----

  function OperandAt(p: Memory, t: OpTable, a: U32): Option<U32> {
    if t.Implied? then Some(0)
    else if Wrap(a + 1) !in p then None
    else if t.Relative? then Some(Wrap(a + 2 + SignExtend(p[Wrap(a + 1)])))
    else if OperandSize(t) == 1 then Some(p[Wrap(a + 1)])
    else if Wrap(a + 2) !in p then None
    else Some(p[Wrap(a + 1)] as int + 0x100 * (p[Wrap(a + 2)] as int))
  }

  function Fetch(p: Memory, a: U32): Option<Instruction> {
    if a !in p then None
    else
      match DecodeOpcode(p[a])
      case None => None
      case Some((t, m)) =>
        match OperandAt(p, t, a)
        case None => None
        case Some(v) => Some(Instruction(t, m, v))
  }

  /** The next `n` instructions from address `a` on. */
  function Disassemble(p: Memory, a: U32, n: nat): Option<seq<Instruction>>
    decreases n
  {
    if n == 0 then Some([])
    else
      match Fetch(p, a)
      case None => None
      case Some(i) =>
        match Disassemble(p, Wrap(a + 1 + OperandSize(i.table)), n - 1)
        case None => None
        case Some(more) => Some([i] + more)
  }

  // ----- what was meant -----

  function TableOf(p: Piece): OpTable {
    match p
    case Bare(_) => Implied
    case ToLabel(_, _) => Relative
    case WithOperand(t, _, _, _) => t
    case Values(_, _) => Implied
  }

  function MnemonicOf(p: Piece): Mnemonic {
    match p
    case Bare(m) => m
    case ToLabel(m, _) => m
    case WithOperand(_, m, _, _) => m
    case Values(_, _) => NOP
  }

  /** An instruction whose opcode lookup succeeds. */
  predicate Encodable(p: Piece) {
    && !p.Values?
    && (p.WithOperand? ==> !p.table.Implied? && !p.table.Relative?)
    && Lookup(TableOf(p), MnemonicOf(p)).Some?
  }

  function Meant(p: Placed, t: Table): Instruction {
    match p.piece
    case Bare(m) => Instruction(Implied, m, 0)
    case ToLabel(m, target) => Instruction(Relative, m, ValueOf(Name(target), t))
    case WithOperand(table, m, e, _) => Instruction(table, m, ValueOf(e, t) % 0x1_0000)
    case Values(_, _) => Instruction(Implied, NOP, 0)
  }

  ghost predicate ShowsBytes(m: Memory, start: U32, bytes: seq<Byte>) {
    && start + |bytes| <= ADDR_INVALID
    && forall a: U32 :: start <= a < start + |bytes| ==> a in m && m[a] == bytes[a - start]
  }

  /** The memory shows the piece's code at the piece's place. */
  ghost predicate ShowsCode(m: Memory, p: Placed, t: Table) {
    ShowsBytes(m, p.address, Code(p, t))
  }

  lemma ShownBytes(mem: Memory, p: Placed, t: Table)
    requires ShowsCode(mem, p, t) && !p.piece.Values?
    ensures var code := Code(p, t);
            && p.address in mem && mem[p.address] == code[0] == FindOpCode(TableOf(p.piece), MnemonicOf(p.piece))
            && (|code| >= 2 ==> Wrap(p.address + 1) in mem && mem[Wrap(p.address + 1)] == code[1])
            && (|code| >= 3 ==> Wrap(p.address + 2) in mem && mem[Wrap(p.address + 2)] == code[2])
  {
  }

  lemma OpcodeIsDecoded(p: Piece)
    requires Encodable(p)
    ensures DecodeOpcode(FindOpCode(TableOf(p), MnemonicOf(p))) == Some((TableOf(p), MnemonicOf(p)))
  {
    DecodeInvertsLookup(FindOpCode(TableOf(p), MnemonicOf(p)), TableOf(p), MnemonicOf(p));
  }

  lemma WordIsRestored(v: U32)
    ensures Low(v) as int + 0x100 * (High(v) as int) == v % 0x1_0000
    ensures v <= 0xff ==> Low(v) == v % 0x1_0000
  {
  }

  lemma OperandIsDecoded(mem: Memory, p: Placed, t: Table)
    requires Encodable(p.piece) && Legal(p, t) && ShowsCode(mem, p, t)
    ensures OperandAt(mem, TableOf(p.piece), p.address) == Some(Meant(p, t).operand)
  {
    ShownBytes(mem, p, t);
    match p.piece {
      case Bare(_) =>
      case ToLabel(_, target) => DistanceReaches(p.address, t[target]);
      case WithOperand(_, _, e, _) => WordIsRestored(ValueOf(e, t));
    }
  }

  lemma PieceIsDecoded(mem: Memory, p: Placed, t: Table)
    requires Encodable(p.piece) && Legal(p, t) && ShowsCode(mem, p, t)
    ensures Fetch(mem, p.address) == Some(Meant(p, t))
  {
    ShownBytes(mem, p, t);
    OpcodeIsDecoded(p.piece);
    OperandIsDecoded(mem, p, t);
  }

  lemma SizeOfMeant(p: Placed, t: Table)
    requires !p.piece.Values?
    ensures Size(p.piece) == 1 + OperandSize(Meant(p, t).table)
  {
  }

  /** Each piece begins where the one before it ends. */
  ghost predicate Contiguous(ps: seq<Placed>) {
    forall i :: 0 <= i < |ps| - 1 ==> ps[i + 1].address == Wrap(ps[i].address + Size(ps[i].piece))
  }

  function AllMeant(ps: seq<Placed>, t: Table): (r: seq<Instruction>)
    ensures |r| == |ps|
    ensures forall i :: 0 <= i < |ps| ==> r[i] == Meant(ps[i], t)
  {
    seq(|ps|, i requires 0 <= i < |ps| => Meant(ps[i], t))
  }

  ghost predicate Decodable(mem: Memory, p: Placed, t: Table) {
    Encodable(p.piece) && Legal(p, t) && ShowsCode(mem, p, t)
  }

  ghost predicate AllDecodable(mem: Memory, ps: seq<Placed>, t: Table) {
    forall i :: 0 <= i < |ps| ==> Decodable(mem, ps[i], t)
  }

  predicate FollowedBy(a: U32, i: Instruction, next: U32) {
    next == Wrap(a + 1 + OperandSize(i.table))
  }

  ghost predicate FetchesAs(mem: Memory, a: U32, i: Instruction) {
    Fetch(mem, a) == Some(i)
  }

  /** The walk finds instruction `found[i]` at address `at[i]`, and each address is where the
      instruction before it ends. */
  ghost predicate Chain(mem: Memory, at: seq<U32>, found: seq<Instruction>) {
    && |at| == |found|
    && (forall i :: 0 <= i < |at| ==> FetchesAs(mem, at[i], found[i]))
    && (forall i :: 0 <= i < |at| - 1 ==> FollowedBy(at[i], found[i], at[i + 1]))
  }

  lemma {:induction false} ChainIsDisassembled(mem: Memory, at: seq<U32>, found: seq<Instruction>, k: nat)
    requires Chain(mem, at, found) && k < |at|
    ensures Disassemble(mem, at[k], |at| - k) == Some(found[k..])
    decreases |at| - k
  {
    var i, next := found[k], Wrap(at[k] + 1 + OperandSize(found[k].table));
    assert FetchesAs(mem, at[k], i);
    assert found[k..] == [i] + found[k + 1..];
    if k + 1 == |at| {
      assert Disassemble(mem, next, 0) == Some(found[k + 1..]);
    } else {
      assert at[k + 1] == next;
      ChainIsDisassembled(mem, at, found, k + 1);
    }
  }

  function AddressesOf(ps: seq<Placed>): (r: seq<U32>)
    ensures |r| == |ps|
    ensures forall i :: 0 <= i < |ps| ==> r[i] == ps[i].address
  {
    seq<U32>(|ps|, i requires 0 <= i < |ps| => ps[i].address)
  }

  lemma PieceFetches(mem: Memory, ps: seq<Placed>, t: Table, i: nat)
    requires AllDecodable(mem, ps, t) && i < |ps|
    ensures FetchesAs(mem, AddressesOf(ps)[i], AllMeant(ps, t)[i])
  {
    assert Decodable(mem, ps[i], t);
    PieceIsDecoded(mem, ps[i], t);
  }

  lemma PieceIsFollowed(mem: Memory, ps: seq<Placed>, t: Table, i: nat)
    requires Contiguous(ps) && AllDecodable(mem, ps, t) && i < |ps| - 1
    ensures FollowedBy(AddressesOf(ps)[i], AllMeant(ps, t)[i], AddressesOf(ps)[i + 1])
  {
    assert Decodable(mem, ps[i], t);
    SizeOfMeant(ps[i], t);
  }

  lemma PiecesAreChained(mem: Memory, ps: seq<Placed>, t: Table, at: seq<U32>, meant: seq<Instruction>)
    requires Contiguous(ps) && AllDecodable(mem, ps, t) && at == AddressesOf(ps) && meant == AllMeant(ps, t)
    ensures Chain(mem, at, meant)
  {
    forall i | 0 <= i < |at| ensures FetchesAs(mem, at[i], meant[i]) {
      PieceFetches(mem, ps, t, i);
    }
    forall i | 0 <= i < |at| - 1 ensures FollowedBy(at[i], meant[i], at[i + 1]) {
      PieceIsFollowed(mem, ps, t, i);
    }
  }

  /** For every chain of encodable, legal pieces: walking the memory from the first one
      finds exactly the instructions that were meant. */
  lemma PiecesAreDecoded(mem: Memory, ps: seq<Placed>, t: Table)
    requires ps != [] && Contiguous(ps) && AllDecodable(mem, ps, t)
    ensures Disassemble(mem, ps[0].address, |ps|) == Some(AllMeant(ps, t))
  {
    var at, meant := AddressesOf(ps), AllMeant(ps, t);
    PiecesAreChained(mem, ps, t, at, meant);
    ChainIsDisassembled(mem, at, meant, 0);
    assert meant[0..] == meant;
  }

  // ----- which statements have an opcode -----

  /** `STY ..,X` and `STX ..,Y` have no long form. */
  predicate IndexedStoreInLongForm(p: Piece) {
    p.WithOperand? && ((p.table.AbsoluteX? && p.m == STY) || (p.table.AbsoluteY? && p.m == STX))
  }

  lemma ShortFormsAreFound(mode: Mode, m: Mnemonic, operand: Tree, t: Table)
    requires Form(mode, m, operand, t) != WideTable(mode)
    ensures ZeroPageTable(mode) == Some(Form(mode, m, operand, t))
    ensures Lookup(Form(mode, m, operand, t), m).Some?
  {
  }

  lemma OperationIsEncodable(mode: Mode, m: Mnemonic, operand: Tree, t: Table)
    requires Grammatical(Operation(mode, m, operand))
    ensures var p := OperandPiece(mode, m, operand, t);
            Encodable(p) <==> !IndexedStoreInLongForm(p)
  {
    if Form(mode, m, operand, t) != WideTable(mode) { ShortFormsAreFound(mode, m, operand, t); }
  }

  /** For statements the grammar admits, the opcode lookup succeeds exactly unless they are
      `STY ..,X` or `STX ..,Y` in the long form: then a `BRK` is emitted, without an error. */
  lemma StatementsAreEncodable(body: Body, t: Table)
    requires Grammatical(body) && Emits(body) && !body.Data?
    ensures Encodable(PieceOf(body, t).value) <==> !IndexedStoreInLongForm(PieceOf(body, t).value)
  {
    if body.Operation? { OperationIsEncodable(body.mode, body.m, body.operand, t); }
  }

  // ----- assembled programs -----

  /** A program of one indexed statement. */
  function Indexed(m: Mnemonic, v: U32): seq<Line> {
    [Line(None, Operation(IdxX, m, Literal(v)))]
  }

  lemma IndexedPieces(m: Mnemonic, v: U32)
    requires Form(IdxX, m, Literal(v), map[]) == AbsoluteX
    ensures Assembles(Indexed(m, v))
    ensures Pieces(START, Indexed(m, v)) == [Placed(0, WithOperand(AbsoluteX, m, Literal(v), false))]
  {
    var lines := Indexed(m, v);
    assert lines[1..] == [];
    assert PlacedAt(START, lines[0]) == [Placed(0, WithOperand(AbsoluteX, m, Literal(v), false))];
    assert Pieces(START, lines) == PlacedAt(START, lines[0]) + Pieces(Next(START, lines[0]), []);
    assert AllDefineWell(Next(START, lines[0]), lines[1..]);
  }

  lemma OnePieceImage(p: Placed, t: Table)
    requires p.address == 0 && |Code(p, t)| == 3
    ensures Image([p], t) == map[0 := Code(p, t)[0], 1 := Code(p, t)[1], 2 := Code(p, t)[2]]
  {
    assert [p][1..] == [];
    assert Block(0, Code(p, t)) + map[] == Block(0, Code(p, t));
    ShortBlock(0, Code(p, t));
  }

  lemma IndexedCode(m: Mnemonic, v: U32) returns (lines: seq<Line>)
    requires Form(IdxX, m, Literal(v), map[]) == AbsoluteX
    ensures lines == Indexed(m, v) && Assembled(lines).errors == []
    ensures Assembled(lines).payload == map[0 := FindOpCode(AbsoluteX, m), 1 := Low(v), 2 := High(v)]
  {
    lines := Indexed(m, v);
    var p, t := Placed(0, WithOperand(AbsoluteX, m, Literal(v), false)), FinalTable(START, lines);
    IndexedPieces(m, v);
    AssemblingRun(lines);
    DisjointProgramsAssembleExactly(lines);
    assert ValueOf(Literal(v), t) == v;
    OnePieceImage(p, t);
  }

  lemma StoreForm(v: U32)
    requires 0xff < v
    ensures Form(IdxX, STY, Literal(v), map[]) == AbsoluteX && FindOpCode(AbsoluteX, STY) == 0x00
  {
  }

  lemma SubtractForm(v: U32)
    ensures Form(IdxX, SBC, Literal(v), map[]) == AbsoluteX && FindOpCode(AbsoluteX, SBC) == 0xFD
  {
  }

  lemma IndexedCodeIs(m: Mnemonic, v: U32, opcode: Byte) returns (lines: seq<Line>)
    requires Form(IdxX, m, Literal(v), map[]) == AbsoluteX && FindOpCode(AbsoluteX, m) == opcode
    ensures |lines| == 1 && lines[0] == Line(None, Operation(IdxX, m, Literal(v)))
    ensures Assembled(lines).errors == []
    ensures Assembled(lines).payload == map[0 := opcode, 1 := Low(v), 2 := High(v)]
  {
    lines := IndexedCode(m, v);
  }

  /** `STY ..,X` in the long form: the failed lookup goes unnoticed, and the statement assembles
      without an error to 0x00, the opcode of `BRK`, and its operand as data. */
  lemma IndexedStoreBecomesBreak(v: U32) returns (lines: seq<Line>)
    requires 0xff < v
    ensures |lines| == 1 && lines[0] == Line(None, Operation(IdxX, STY, Literal(v)))
    ensures Assembled(lines).errors == []
    ensures Assembled(lines).payload == map[0 := 0x00, 1 := Low(v), 2 := High(v)]
  {
    StoreForm(v);
    lines := IndexedCodeIs(STY, v, 0x00);
  }

  /** `SBC ..,X`: its key in the short table is misspelt, so it takes three bytes for every
      operand. */
  lemma IndexedSubtractTakesThreeBytes(v: U32) returns (lines: seq<Line>)
    ensures |lines| == 1 && lines[0] == Line(None, Operation(IdxX, SBC, Literal(v)))
    ensures Assembled(lines).errors == []
    ensures Assembled(lines).payload == map[0 := 0xFD, 1 := Low(v), 2 := High(v)]
  {
    SubtractForm(v);
    lines := IndexedCodeIs(SBC, v, 0xFD);
  }

  /** Nothing that is written later touches the piece. */
  ghost predicate Intact(ps: seq<Placed>, k: nat) {
    k < |ps| && forall a: U32 :: Claims(ps[k], a) ==> Prevails(ps, a, k)
  }

  lemma IntactByteIsShown(ps: seq<Placed>, t: Table, k: nat, a: U32)
    requires Intact(ps, k) && Claims(ps[k], a)
    ensures a in LayeredImage(ps, t) && LayeredImage(ps, t)[a] == CodeAt(ps[k], a, t)
  {
    PrevailingPieceDecides(ps, t, a, k);
  }

  lemma ClaimedBytesAreShown(image: Memory, p: Placed, t: Table)
    requires p.address + Size(p.piece) <= ADDR_INVALID
    requires forall a: U32 :: Claims(p, a) ==> a in image && image[a] == CodeAt(p, a, t)
    ensures ShowsCode(image, p, t)
  {
  }

  lemma IntactPieceIsShown(ps: seq<Placed>, t: Table, k: nat)
    requires PiecesFit(ps) && Intact(ps, k)
    ensures ShowsCode(LayeredImage(ps, t), ps[k], t)
  {
    var image := LayeredImage(ps, t);
    forall a: U32 | Claims(ps[k], a) ensures a in image && image[a] == CodeAt(ps[k], a, t) {
      IntactByteIsShown(ps, t, k, a);
    }
    ClaimedBytesAreShown(image, ps[k], t);
  }

  lemma PieceIsDecodable(lines: seq<Line>, k: nat)
    requires Assembles(lines) && Intact(Pieces(START, lines), k) && Encodable(Pieces(START, lines)[k].piece)
    ensures Decodable(Assembled(lines).payload, Pieces(START, lines)[k], FinalTable(START, lines))
  {
    MemoryIsLayered(lines);
    IntactPieceIsShown(Pieces(START, lines), FinalTable(START, lines), k);
    assert AllLegal(Pieces(START, lines), FinalTable(START, lines));
  }

  /** For every program that assembles, overlaps elsewhere included: the bytes of a stretch
      of consecutive instructions disassemble to those instructions, with the operands modulo
      2^16 and the branch targets that the final symbols give them. */
  lemma AssembledCodeDisassembles(lines: seq<Line>, i: nat, n: nat)
    requires Assembles(lines) && n > 0 && i + n <= |Pieces(START, lines)|
    requires Contiguous(Pieces(START, lines)[i..i + n])
    requires forall k :: i <= k < i + n ==> Encodable(Pieces(START, lines)[k].piece)
    requires forall k :: i <= k < i + n ==> Intact(Pieces(START, lines), k)
    ensures var ps, t := Pieces(START, lines)[i..i + n], FinalTable(START, lines);
            Disassemble(Assembled(lines).payload, ps[0].address, n) == Some(AllMeant(ps, t))
  {
    var ps, t := Pieces(START, lines)[i..i + n], FinalTable(START, lines);
    forall k | 0 <= k < |ps| ensures Decodable(Assembled(lines).payload, ps[k], t) {
      PieceIsDecodable(lines, i + k);
    }
    PiecesAreDecoded(Assembled(lines).payload, ps, t);
  }

  /** Where no two pieces share an address, every piece is intact. */
  lemma DisjointPiecesAreIntact(ps: seq<Placed>, k: nat)
    requires DisjointPieces(ps) && k < |ps|
    ensures Intact(ps, k)
  {
    forall a: U32 | Claims(ps[k], a) ensures Prevails(ps, a, k) {
      DisjointPiecesPrevail(ps, a, k);
    }
  }

  /** In a disjoint program any stretch of consecutive instructions disassembles. */
  lemma DisjointCodeDisassembles(lines: seq<Line>, i: nat, n: nat)
    requires Assembles(lines) && DisjointPieces(Pieces(START, lines)) && n > 0 && i + n <= |Pieces(START, lines)|
    requires Contiguous(Pieces(START, lines)[i..i + n])
    requires forall k :: i <= k < i + n ==> Encodable(Pieces(START, lines)[k].piece)
    ensures var ps, t := Pieces(START, lines)[i..i + n], FinalTable(START, lines);
            Disassemble(Assembled(lines).payload, ps[0].address, n) == Some(AllMeant(ps, t))
  {
    forall k | i <= k < i + n ensures Intact(Pieces(START, lines), k) {
      DisjointPiecesAreIntact(Pieces(START, lines), k);
    }
    AssembledCodeDisassembles(lines, i, n);
  }
}
