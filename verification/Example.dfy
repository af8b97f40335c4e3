/** The example of the original's documentation: what a short program is documented to print. */
module DocumentedExample {
  import opened Words
  import opened Expressions
  import opened Opcodes
  import opened Source
  import opened OnePass
  import opened TwoPass
  import opened Layers
  import opened EmissionProofs
  import opened Refinement
  import opened SourceLines
  import opened Instructions
  import opened MemBlocks

  const EXAMPLE: seq<Line> := [
    Line(None, Org(Literal(0xC000))),
    Line(None, Operation(Imm, LDY, Literal(0))),
    Line(Some("label"), Operation(Abs, STY, Literal(0xD020))),
    Line(None, Direct(INY)),
    Line(None, Branching(BNE, "label")),
    Line(None, Direct(RTS))]

  const BYTES: seq<Byte> := [160, 0, 140, 32, 208, 200, 208, 250, 96]

  const LABEL: Table := map["label" := 0xC002]

  // ----- the first pass -----

  lemma FirstLine(p: Point, lines: seq<Line>)
    requires lines != []
    ensures AllDefineWell(p, lines) <==> DefinesWell(p, lines[0]) && AllDefineWell(Next(p, lines[0]), lines[1..])
    ensures Pieces(p, lines) == PlacedAt(p, lines[0]) + Pieces(Next(p, lines[0]), lines[1..])
    ensures FinalTable(p, lines) == FinalTable(Next(p, lines[0]), lines[1..])
  {
  }

  ghost predicate Gives(p: Point, lines: seq<Line>, ps: seq<Placed>) {
    AllDefineWell(p, lines) && Pieces(p, lines) == ps && FinalTable(p, lines) == LABEL
  }

  lemma Preceded(p: Point, l: Line, lines: seq<Line>, ps: seq<Placed>, next: Point)
    requires DefinesWell(p, l) && Next(p, l) == next && Gives(next, lines, ps)
    ensures Gives(p, [l] + lines, PlacedAt(p, l) + ps)
  {
    assert ([l] + lines)[1..] == lines;
    FirstLine(p, [l] + lines);
  }

  const PIECES: seq<Placed> := [
    Placed(0xC000, WithOperand(Immediate, LDY, Literal(0), false)),
    Placed(0xC002, WithOperand(Absolute, STY, Literal(0xD020), false)),
    Placed(0xC005, Bare(INY)),
    Placed(0xC006, ToLabel(BNE, "label")),
    Placed(0xC008, Bare(RTS))]

  lemma TailPieces()
    ensures Gives(Point(0xC005, LABEL), EXAMPLE[3..], PIECES[2..])
  {
    Preceded(Point(0xC008, LABEL), EXAMPLE[5], [], [], Point(0xC009, LABEL));
    assert [EXAMPLE[5]] + [] == EXAMPLE[5..] && PlacedAt(Point(0xC008, LABEL), EXAMPLE[5]) + [] == PIECES[4..];
    Preceded(Point(0xC006, LABEL), EXAMPLE[4], EXAMPLE[5..], PIECES[4..], Point(0xC008, LABEL));
    assert [EXAMPLE[4]] + EXAMPLE[5..] == EXAMPLE[4..];
    assert PlacedAt(Point(0xC006, LABEL), EXAMPLE[4]) + PIECES[4..] == PIECES[3..];
    Preceded(Point(0xC005, LABEL), EXAMPLE[3], EXAMPLE[4..], PIECES[3..], Point(0xC006, LABEL));
    assert [EXAMPLE[3]] + EXAMPLE[4..] == EXAMPLE[3..];
    assert PlacedAt(Point(0xC005, LABEL), EXAMPLE[3]) + PIECES[3..] == PIECES[2..];
  }

  lemma HeadPieces()
    ensures Gives(START, EXAMPLE, PIECES)
  {
    TailPieces();
    Preceded(Point(0xC002, map[]), EXAMPLE[2], EXAMPLE[3..], PIECES[2..], Point(0xC005, LABEL));
    assert [EXAMPLE[2]] + EXAMPLE[3..] == EXAMPLE[2..];
    assert PlacedAt(Point(0xC002, map[]), EXAMPLE[2]) + PIECES[2..] == PIECES[1..];
    Preceded(Point(0xC000, map[]), EXAMPLE[1], EXAMPLE[2..], PIECES[1..], Point(0xC002, map[]));
    assert [EXAMPLE[1]] + EXAMPLE[2..] == EXAMPLE[1..];
    assert PlacedAt(Point(0xC000, map[]), EXAMPLE[1]) + PIECES[1..] == PIECES;
    Preceded(START, EXAMPLE[0], EXAMPLE[1..], PIECES, Point(0xC000, map[]));
    assert [EXAMPLE[0]] + EXAMPLE[1..] == EXAMPLE;
    assert PlacedAt(START, EXAMPLE[0]) + PIECES == PIECES;
  }

  lemma PiecesAreLegal()
    ensures AllLegal(PIECES, LABEL) && PiecesFit(PIECES)
  {
    forall i | 0 <= i < |PIECES| ensures Legal(PIECES[i], LABEL) {
      if i == 3 { assert PIECES[3] == Placed(0xC006, ToLabel(BNE, "label")) && Distance(0xC006, 0xC002) == -6; }
    }
  }

  lemma PiecesAreDisjoint()
    ensures DisjointPieces(PIECES)
  {
    forall i, j, a: U32 | 0 <= i < j < |PIECES| && Claims(PIECES[i], a) ensures !Claims(PIECES[j], a) {
      assert PIECES[i].address + Size(PIECES[i].piece) <= PIECES[j].address;
    }
  }

  lemma ExampleAssembles()
    ensures Assembles(EXAMPLE) && DisjointPieces(Pieces(START, EXAMPLE))
    ensures Assembled(EXAMPLE).table == LABEL
  {
    HeadPieces();
    PiecesAreLegal();
    PiecesAreDisjoint();
    AssemblingRun(EXAMPLE);
  }

  lemma ExampleRecordCount()
    ensures |Assembled(EXAMPLE).codeLines| == |EXAMPLE| && Assembled(EXAMPLE).errors == []
  {
    ExampleAssembles();
    AssemblingRun(EXAMPLE);
    RecordOfLine(EXAMPLE, 0);
  }

  // ----- records and bytes -----

  const RECORDS: seq<CodeLine> := [
    CodeLine(0xC000, 0), CodeLine(0xC000, 2), CodeLine(0xC002, 3),
    CodeLine(0xC005, 1), CodeLine(0xC006, 2), CodeLine(0xC008, 1)]

  ghost predicate GoodProgram(lines: seq<Line>) {
    Assembles(lines) && DisjointPieces(Pieces(START, lines)) && |Assembled(lines).codeLines| == |lines|
  }

  /** The line has this record, and is encoded there. */
  ghost predicate LineIsRight(lines: seq<Line>, i: nat, c: CodeLine) {
    var final := Assembled(lines);
    && i < |lines| == |final.codeLines| && final.codeLines[i] == c
    && IsEncoded(final.payload, c, lines[i].body, KnownAt(lines, i), final.table)
  }

  lemma StatementIsRight(lines: seq<Line>, i: nat, a: U32, n: nat)
    requires GoodProgram(lines) && i < |lines| && Before(lines, i).cur == a
    requires Grammatical(lines[i].body) && HasOpcode(lines[i].body, KnownAt(lines, i)) && Emits(lines[i].body)
    requires n == 1 + OperandLength(lines[i].body, IsShort(lines[i].body, KnownAt(lines, i)))
    ensures a + n <= ADDR_INVALID && LineIsRight(lines, i, CodeLine(a, n)) && Before(lines, i + 1).cur == a + n
  {
    StatementsAreEncoded(lines, i);
    AddressesFollow(lines, i);
  }

  /** The statement has an opcode, and no short form applies. */
  ghost predicate IsLong(body: Body, t: Table) {
    !IsShort(body, t) && HasOpcode(body, t)
  }

  /** What the grid says about a statement. */
  ghost predicate Statement(body: Body, opcode: nat, n: nat) {
    && Grammatical(body) && Emits(body) && !body.Data?
    && OperandLength(body, false) == n && GridOpcode(body, false) == opcode
    && forall t: Table :: IsLong(body, t)
  }

  lemma StoreStatement(body: Body)
    requires body == Operation(Abs, STY, Literal(0xD020))
    ensures Statement(body, 0x8C, 2)
  {
    forall t: Table ensures IsLong(body, t) { assert Meaning(Literal(0xD020), t) == Known(0xD020); }
  }

  lemma LoadStatement(body: Body)
    requires body == Operation(Imm, LDY, Literal(0))
    ensures Statement(body, 0xA0, 1)
  {
    forall t: Table ensures IsLong(body, t) { assert !Shortens(Imm, LDY); }
  }

  lemma BareStatement(m: Mnemonic, opcode: nat)
    requires Lookup(Implied, m).Some? && opcode == 0x20 * Row(m) + ImpliedColumn(m)
    ensures Statement(Direct(m), opcode, 0)
  {
  }

  lemma BranchStatement(m: Mnemonic, target: string)
    requires Lookup(Relative, m).Some?
    ensures Statement(Branching(m, target), 0x20 * Row(m) + 0x10, 1)
  {
  }

  ghost predicate OperandSays(operand: int, body: Body, a: U32, final: Table) {
    && (body.Operation? ==>
          Meaning(body.operand, final).Known? && operand == Meaning(body.operand, final).v % 0x1_0000)
    && (body.Branching? ==>
          body.target in final && 0 <= operand <= 0xff && Wrap(a + 2 + SignExtend(operand)) == final[body.target])
  }

  /** What the record and the memory say about line `i`, whose body is `body`. */
  ghost predicate Encoded(lines: seq<Line>, i: nat, body: Body, a: U32, opcode: nat, n: nat) {
    var final := Assembled(lines);
    && a <= 0xFFFF && i < |lines| == |final.codeLines| && n <= 2
    && final.codeLines[i] == CodeLine(a, 1 + n) && Before(lines, i + 1).cur == a + 1 + n
    && ByteIn(final.payload, a) == opcode
    && OperandSays(OperandIn(final.payload, a + 1, n), body, a, final.table)
  }

  lemma EncodingSays(mem: Memory, a: U32, body: Body, known: Table, final: Table, opcode: nat, n: nat)
    requires a <= 0xFFFF && n <= 2 && Statement(body, opcode, n) && IsLong(body, known)
    requires IsEncoded(mem, CodeLine(a, 1 + n), body, known, final)
    ensures ByteIn(mem, a) == opcode && OperandSays(OperandIn(mem, a + 1, n), body, a, final)
  {
  }

  lemma BytesOfStatement(lines: seq<Line>, i: nat, body: Body, a: U32, opcode: nat, n: nat)
    requires GoodProgram(lines) && i < |lines| && Before(lines, i).cur == a && a <= 0xFFFF
    requires lines[i].body == body && Statement(body, opcode, n) && n <= 2
    ensures Encoded(lines, i, body, a, opcode, n)
  {
    assert IsLong(body, KnownAt(lines, i));
    StatementIsRight(lines, i, a, 1 + n);
    EncodingSays(Assembled(lines).payload, a, body, KnownAt(lines, i), Assembled(lines).table, opcode, n);
  }

  /** The bodies of the example. */
  ghost predicate IsExample(lines: seq<Line>) {
    && |lines| == 6 && GoodProgram(lines) && Assembled(lines).table == LABEL
    && lines[0].body == Org(Literal(0xC000)) && lines[1].body == Operation(Imm, LDY, Literal(0))
    && lines[2].body == Operation(Abs, STY, Literal(0xD020)) && lines[3].body == Direct(INY)
    && lines[4].body == Branching(BNE, "label") && lines[5].body == Direct(RTS)
  }

  lemma OriginIsRight(lines: seq<Line>)
    requires IsExample(lines)
    ensures Assembled(lines).codeLines[0] == CodeLine(0xC000, 0) && Before(lines, 1).cur == 0xC000
  {
    AddressesFollow(lines, 0);
    assert Meaning(Literal(0xC000), KnownAt(lines, 0)) == Known(0xC000);
  }

  /** The record of line `i`, where the next line goes, and the bytes of the line. */
  ghost predicate LineHas(lines: seq<Line>, i: nat, a: U32, bytes: seq<Byte>) {
    var final := Assembled(lines);
    && a + |bytes| <= ADDR_INVALID && i < |lines| == |final.codeLines|
    && final.codeLines[i] == CodeLine(a, |bytes|) && Before(lines, i + 1).cur == a + |bytes|
    && forall k: U32 :: a <= k < a + |bytes| ==> ByteIn(final.payload, k) == bytes[k - a]
  }

  lemma BareLine(lines: seq<Line>, i: nat, body: Body, a: U32, opcode: Byte)
    requires Encoded(lines, i, body, a, opcode, 0)
    ensures LineHas(lines, i, a, [opcode])
  {
  }

  lemma ByteLine(lines: seq<Line>, i: nat, body: Body, a: U32, opcode: Byte, b: Byte)
    requires Encoded(lines, i, body, a, opcode, 1) && body.Operation?
    requires Meaning(body.operand, Assembled(lines).table) == Known(b)
    ensures LineHas(lines, i, a, [opcode, b])
  {
  }

  lemma BranchLine(lines: seq<Line>, i: nat, body: Body, a: U32, opcode: Byte, offset: Byte)
    requires Encoded(lines, i, body, a, opcode, 1) && body.Branching?
    requires body.target in Assembled(lines).table
    requires Assembled(lines).table[body.target] == a + 2 + SignExtend(offset)
    ensures LineHas(lines, i, a, [opcode, offset])
  {
  }

  lemma WordIs(mem: Memory, a: U32, low: Byte, high: Byte)
    requires a < ADDR_INVALID && OperandIn(mem, a, 2) == low as int + 0x100 * (high as int)
    ensures ByteIn(mem, a) == low && ByteIn(mem, a + 1) == high
  {
  }

  lemma WordLine(lines: seq<Line>, i: nat, body: Body, a: U32, opcode: Byte, low: Byte, high: Byte)
    requires Encoded(lines, i, body, a, opcode, 2) && body.Operation?
    requires Meaning(body.operand, Assembled(lines).table) == Known(low as int + 0x100 * (high as int))
    ensures LineHas(lines, i, a, [opcode, low, high])
  {
    WordIs(Assembled(lines).payload, a + 1, low, high);
  }

  lemma FirstLines(lines: seq<Line>)
    requires IsExample(lines)
    ensures LineHas(lines, 1, 0xC000, [0xA0, 0x00]) && LineHas(lines, 2, 0xC002, [0x8C, 0x20, 0xD0])
  {
    var load, store := Operation(Imm, LDY, Literal(0)), Operation(Abs, STY, Literal(0xD020));
    OriginIsRight(lines);
    LoadStatement(load);
    BytesOfStatement(lines, 1, load, 0xC000, 0xA0, 1);
    ByteLine(lines, 1, load, 0xC000, 0xA0, 0x00);
    StoreStatement(store);
    BytesOfStatement(lines, 2, store, 0xC002, 0x8C, 2);
    WordLine(lines, 2, store, 0xC002, 0x8C, 0x20, 0xD0);
  }

  lemma BareLineHas(lines: seq<Line>, i: nat, m: Mnemonic, a: U32, opcode: Byte)
    requires GoodProgram(lines) && i < |lines| && Before(lines, i).cur == a && a <= 0xFFFF
    requires lines[i].body == Direct(m) && Lookup(Implied, m).Some? && opcode == 0x20 * Row(m) + ImpliedColumn(m)
    ensures LineHas(lines, i, a, [opcode])
  {
    BareStatement(m, opcode);
    BytesOfStatement(lines, i, Direct(m), a, opcode, 0);
    BareLine(lines, i, Direct(m), a, opcode);
  }

  lemma BranchLineHas(lines: seq<Line>)
    requires IsExample(lines) && Before(lines, 4).cur == 0xC006
    ensures LineHas(lines, 4, 0xC006, [0xD0, 0xFA])
  {
    BranchStatement(BNE, "label");
    BytesOfStatement(lines, 4, Branching(BNE, "label"), 0xC006, 0xD0, 1);
    BranchLine(lines, 4, Branching(BNE, "label"), 0xC006, 0xD0, 0xFA);
  }

  lemma IncrementLineHas(lines: seq<Line>)
    requires IsExample(lines) && Before(lines, 3).cur == 0xC005
    ensures LineHas(lines, 3, 0xC005, [0xC8])
  {
    BareLineHas(lines, 3, INY, 0xC005, 0xC8);
  }

  lemma ReturnLineHas(lines: seq<Line>)
    requires IsExample(lines) && Before(lines, 5).cur == 0xC008
    ensures LineHas(lines, 5, 0xC008, [0x60])
  {
    BareLineHas(lines, 5, RTS, 0xC008, 0x60);
  }

  lemma LastLines(lines: seq<Line>)
    requires IsExample(lines) && Before(lines, 3).cur == 0xC005
    ensures LineHas(lines, 3, 0xC005, [0xC8]) && LineHas(lines, 4, 0xC006, [0xD0, 0xFA])
    ensures LineHas(lines, 5, 0xC008, [0x60])
  {
    IncrementLineHas(lines);
    BranchLineHas(lines);
    ReturnLineHas(lines);
  }

  // ----- the block -----

  lemma LineByteIs(lines: seq<Line>, i: nat, a: U32, bytes: seq<Byte>, k: nat)
    requires LineHas(lines, i, a, bytes) && k < |bytes|
    ensures ByteOf(Assembled(lines).payload, Wrap(a + k)) == bytes[k]
  {
    var at: U32 := a + k;
    assert Wrap(a + k) == at;
    assert ByteIn(Assembled(lines).payload, at) == bytes[at - a];
  }

  lemma LineBytesAre(lines: seq<Line>, i: nat, a: U32, bytes: seq<Byte>)
    requires LineHas(lines, i, a, bytes)
    ensures LineBytes(Assembled(lines).payload, CodeLine(a, |bytes|)) == bytes
  {
    var found := LineBytes(Assembled(lines).payload, CodeLine(a, |bytes|));
    forall k | 0 <= k < |bytes| ensures found[k] == bytes[k] { LineByteIs(lines, i, a, bytes, k); }
  }

  lemma Joined(front: seq<CodeLine>, c: CodeLine, p: Memory, a: U32, bytes: seq<Byte>, all: seq<Byte>)
    requires Build(front, p) == Building([], a, bytes) && AreAdjacent(LastOf(front), c)
    requires all == bytes + LineBytes(p, c)
    ensures Build(front + [c], p) == Building([], a, all)
  {
    assert (front + [c])[..|front|] == front;
  }

  lemma OriginOpens(p: Memory)
    ensures Build([CodeLine(0xC000, 0)], p) == Building([], 0xC000, [])
  {
    assert [CodeLine(0xC000, 0)][..0] == [];
  }

  lemma FirstBuilt(p: Memory)
    requires LineBytes(p, CodeLine(0xC000, 2)) == [0xA0, 0x00]
    requires LineBytes(p, CodeLine(0xC002, 3)) == [0x8C, 0x20, 0xD0]
    ensures Build(RECORDS[..3], p) == Building([], 0xC000, BYTES[..5])
  {
    OriginOpens(p);
    assert RECORDS[..1] == [CodeLine(0xC000, 0)];
    Joined(RECORDS[..1], RECORDS[1], p, 0xC000, [], BYTES[..2]);
    assert RECORDS[..1] + [RECORDS[1]] == RECORDS[..2];
    Joined(RECORDS[..2], RECORDS[2], p, 0xC000, BYTES[..2], BYTES[..5]);
    assert RECORDS[..2] + [RECORDS[2]] == RECORDS[..3];
  }

  lemma LastBuilt(p: Memory)
    requires Build(RECORDS[..3], p) == Building([], 0xC000, BYTES[..5])
    requires LineBytes(p, CodeLine(0xC005, 1)) == [0xC8] && LineBytes(p, CodeLine(0xC006, 2)) == [0xD0, 0xFA]
    requires LineBytes(p, CodeLine(0xC008, 1)) == [0x60]
    ensures Coalesced(RECORDS, p) == [MemBlock(0xC000, BYTES)]
  {
    Joined(RECORDS[..3], RECORDS[3], p, 0xC000, BYTES[..5], BYTES[..6]);
    assert RECORDS[..3] + [RECORDS[3]] == RECORDS[..4];
    Joined(RECORDS[..4], RECORDS[4], p, 0xC000, BYTES[..6], BYTES[..8]);
    assert RECORDS[..4] + [RECORDS[4]] == RECORDS[..5];
    Joined(RECORDS[..5], RECORDS[5], p, 0xC000, BYTES[..8], BYTES);
    assert RECORDS[..5] + [RECORDS[5]] == RECORDS;
  }

  lemma RecordsAre(lines: seq<Line>)
    requires IsExample(lines)
    ensures Assembled(lines).codeLines == RECORDS
    ensures Coalesced(RECORDS, Assembled(lines).payload) == [MemBlock(0xC000, BYTES)]
  {
    OriginIsRight(lines);
    FirstLines(lines);
    LastLines(lines);
    LineBytesAre(lines, 1, 0xC000, [0xA0, 0x00]);
    LineBytesAre(lines, 2, 0xC002, [0x8C, 0x20, 0xD0]);
    LineBytesAre(lines, 3, 0xC005, [0xC8]);
    LineBytesAre(lines, 4, 0xC006, [0xD0, 0xFA]);
    LineBytesAre(lines, 5, 0xC008, [0x60]);
    FirstBuilt(Assembled(lines).payload);
    LastBuilt(Assembled(lines).payload);
  }
}
