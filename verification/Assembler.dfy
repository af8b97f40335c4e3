/** The whole assembler: the driver, and what its three outputs have in common. */
module Assembler {
  import opened Words
  import opened Expressions
  import opened Opcodes
  import opened Source
  import opened OnePass
  import opened TwoPass
  import opened Layers
  import opened EmissionProofs
  import opened RunProofs
  import opened Refinement
  import opened Coverage
  import opened Patching
  import opened Listeners
  import opened MemBlocks
  import opened BlockIndex
  import opened PrgImage
  import BasicListing
  import BasicReader
  import BasicMachine
  import BasicLoader
  import CommodoreLoader
  import CommodoreImages
  import opened MachineCodeListing

  /** `Crashed` is a division by zero, `Uncaught` a failed lookup in the block builder. */
  datatype AssemblyStatus =
    | Crashed
    | Rejected(parseErrors: seq<string>, errors: seq<ErrorKind>)
    | Uncaught
    | Program(codeLines: seq<CodeLine>, blocks: seq<MemBlock>)

  /** The parser hands over its complaints and the lines it recognised. */
  method AssembleStream(lines: seq<Line>, complaints: seq<string>) returns (ret: AssemblyStatus)
    ensures ret.Program? <==> complaints == [] && Accepts(lines)
    ensures ret.Crashed? <==> DivideTrap in Assembled(lines).errors
    ensures ret.Rejected? ==> ret.parseErrors == complaints && ret.errors == Assembled(lines).errors
    ensures !ret.Uncaught?
    ensures ret.Program? ==>
              && ret.codeLines == Assembled(lines).codeLines
              && BlocksOf(ret.blocks, ret.codeLines, Assembled(lines).payload)
  {
    var listener := new Listener();
    for i := 0 to |complaints|
      invariant fresh(listener) && fresh(listener.symbolTable)
      invariant listener.AtLineBoundary() && listener.Contents() == INITIAL
      invariant listener.parseErrors == complaints[..i]
    {
      listener.AddParseError(complaints[i]);
    }
    for i := 0 to |lines|
      invariant fresh(listener) && fresh(listener.symbolTable)
      invariant listener.AtLineBoundary() && listener.parseErrors == complaints
      invariant Run(listener.Contents(), lines[i..]) == Run(INITIAL, lines)
    {
      assert lines[i..][1..] == lines[i + 1..];
      listener.WalkLine(lines[i]);
    }
    listener.ResolveDeferredExpressions();
    listener.ResolveBranchTargets();
    assert listener.Contents() == Assembled(lines);
    ErrorFreeIffAccepted(lines);
    if listener.DetectedErrors() {
      ret := if DivideTrap in listener.semanticErrors then Crashed
             else Rejected(listener.parseErrors, listener.semanticErrors);
    } else {
      ErrorFreeRunIsReadable(lines);
      var blocks := GetMemBlocks(listener.codeLines, listener.payload);
      match blocks {
        case None => ret := Uncaught;
        case Some(bs) => ret := Program(listener.codeLines, bs);
      }
    }
  }

  // ----- the image -----

  lemma FitLinesNext(cs: seq<CodeLine>, after: seq<CodeLine>)
    requires FitLines(cs) && cs <= after && |after| == |cs| + 1
    requires after[|cs|].start + after[|cs|].length <= ADDR_INVALID
    ensures FitLines(after)
  {
    assert forall i :: 0 <= i < |cs| ==> after[i] == cs[i];
  }

  lemma NewLineFits(s: State, l: Line)
    requires LineFits(s, l)
    ensures |Step(s, l).codeLines| == |s.codeLines| + 1
    ensures var c := Step(s, l).codeLines[|s.codeLines|]; c.start + c.length <= ADDR_INVALID
  {
    StepGrows(s, l);
    if Emits(l.body) {
      EmitIsOrderly(l.body, s.cur, BindLabel(s, l).table, 0);
      StepEmits(s, l);
      EmittedCodeLine(BindLabel(s, l), EmissionOf(s, l));
    } else {
      QuietLineIsEmpty(s, l);
    }
  }

  lemma StepKeepsLinesFit(s: State, l: Line)
    requires FitLines(s.codeLines) && LineFits(s, l)
    ensures FitLines(Step(s, l).codeLines)
  {
    StepGrows(s, l);
    NewLineFits(s, l);
    FitLinesNext(s.codeLines, Step(s, l).codeLines);
  }

  lemma {:induction false} RunKeepsLinesFit(s: State, lines: seq<Line>)
    requires FitLines(s.codeLines) && RunFits(s, lines)
    ensures FitLines(Run(s, lines).codeLines)
    decreases |lines|
  {
    if lines == [] {
    } else {
      StepKeepsLinesFit(s, lines[0]);
      RunKeepsLinesFit(Step(s, lines[0]), lines[1..]);
    }
  }

  /** The blocks of a program that assembles. */
  ghost predicate Output(lines: seq<Line>, blocks: seq<MemBlock>) {
    Assembles(lines) && BlocksOf(blocks, Assembled(lines).codeLines, Assembled(lines).payload)
  }

  lemma OutputLines(lines: seq<Line>, blocks: seq<MemBlock>)
    requires Output(lines, blocks)
    ensures FitLines(Assembled(lines).codeLines)
    ensures AllReadable(Assembled(lines).payload, Assembled(lines).codeLines)
  {
    AssemblingRun(lines);
    ErrorFreeRunIsReadable(lines);
    RunKeepsLinesFit(INITIAL, lines);
    AssembledIsResolved(lines);
  }

  /** What a memory says an address reads as. */
  function Read(m: Memory, a: U32): Byte {
    if a in m then m[a] else 0xff
  }

  /** The two-pass code of a program, written rank by rank. */
  function LayeredProgram(lines: seq<Line>): Memory {
    LayeredImage(Pieces(START, lines), FinalTable(START, lines))
  }

  /** From source to index, at every address: the finished blocks answer with the layered
      code, and so with the two-pass image wherever no stale slot wins, and only there. */
  lemma IndexShowsTwoPassImage(lines: seq<Line>, blocks: seq<MemBlock>, a: U32)
    requires Output(lines, blocks)
    ensures ByteAt(blocks, a) == Read(LayeredProgram(lines), a)
    ensures Holds(blocks, a) <==> a in AssembledImage(lines)
    ensures ByteAt(blocks, a) == Read(AssembledImage(lines), a)
       <==> !StaleSlotWins(Pieces(START, lines), a, FinalTable(START, lines))
  {
    OutputLines(lines, blocks);
    AssemblingRun(lines);
    MemoryIsLayered(lines);
    AgreesUnlessStaleSlotWins(lines, a);
    ErrorFreeRunIsCovered(lines, a);
    IndexAgreesWithMemory(blocks, Assembled(lines).codeLines, Assembled(lines).payload, a);
  }

  lemma OutputBlocks(lines: seq<Line>, blocks: seq<MemBlock>)
    requires Output(lines, blocks)
    ensures NoneEmpty(blocks) && AllFaithful(blocks, Assembled(lines).payload) && FitBlocks(blocks)
  {
    var cs, p := Assembled(lines).codeLines, Assembled(lines).payload;
    OutputLines(lines, blocks);
    BuildIsFaithful(cs, p);
    BlocksConserveBytes(blocks, cs, p);
    SameMembers(blocks, Coalesced(cs, p));
    forall i | 0 <= i < |blocks| ensures End(blocks[i]) <= ADDR_INVALID {
      assert blocks[i] in blocks && Faithful(blocks[i], p);
    }
  }

  /** The blocks of a program are strictly sorted if and only if its pieces are disjoint. */
  lemma OutputSortedIffDisjoint(lines: seq<Line>, blocks: seq<MemBlock>)
    requires Output(lines, blocks)
    ensures StrictlySorted(blocks) <==> DisjointPieces(Pieces(START, lines))
  {
    OutputLines(lines, blocks);
    DisjointIffPiecesDisjoint(lines);
    BlocksSortedIffLinesDisjoint(blocks, Assembled(lines).codeLines, Assembled(lines).payload);
  }

  /** The `.PRG` stream of a program has the length of its span if and only if its pieces are
      disjoint, and then it shows the two-pass image, gaps as 0xff. */
  lemma StreamShowsTwoPassImage(lines: seq<Line>, blocks: seq<MemBlock>, a: U32)
    requires Output(lines, blocks) && blocks != []
    ensures |Stream(blocks)| == 2 + (End(blocks[|blocks| - 1]) - blocks[0].start) + 1
       <==> DisjointPieces(Pieces(START, lines))
    ensures DisjointPieces(Pieces(START, lines)) && blocks[0].start <= a < End(blocks[|blocks| - 1]) ==>
              && 2 + (a - blocks[0].start) < |Stream(blocks)|
              && Stream(blocks)[2 + (a - blocks[0].start)] == Read(AssembledImage(lines), a)
  {
    OutputBlocks(lines, blocks);
    OutputSortedIffDisjoint(lines, blocks);
    StreamLength(blocks);
    if DisjointPieces(Pieces(START, lines)) {
      StreamShowsTheImage(blocks, a);
      DisjointProgramsAssembleExactly(lines);
      IndexShowsTwoPassImage(lines, blocks, a);
      MemoryIsLayered(lines);
    }
  }

  // ----- the BASIC program -----

  /** The poked memory is the layered code of the program, and the two-pass image wherever no
      stale slot wins. */
  ghost predicate ShowsProgram(memory: map<int, nat>, lines: seq<Line>) {
    && (forall a: U32 :: a in memory <==> a in AssembledImage(lines))
    && (forall a: U32 :: a in memory ==> memory[a] == Read(LayeredProgram(lines), a))
    && (forall a: U32 :: a in memory && !StaleSlotWins(Pieces(START, lines), a, FinalTable(START, lines)) ==>
          memory[a] == Read(AssembledImage(lines), a))
  }

  lemma ShownImageIsProgram(lines: seq<Line>, blocks: seq<MemBlock>, memory: map<int, nat>)
    requires Output(lines, blocks) && BasicMachine.ShowsImage(memory, blocks)
    ensures ShowsProgram(memory, lines)
  {
    forall a: U32 { IndexShowsTwoPassImage(lines, blocks, a); }
  }

  /** Running the printed BASIC program where names count in full: it reaches its END if and
      only if there is a block and POKE reaches all of them, and then leaves the program. */
  lemma LoaderLoadsTwoPassImage(lines: seq<Line>, blocks: seq<MemBlock>)
    requires Output(lines, blocks)
    ensures BasicReader.ReadListing(BasicListing.ListingText(blocks)).Some?
    ensures var program := BasicReader.ReadListing(BasicListing.ListingText(blocks)).value;
            BasicMachine.ReachesEnd(BasicMachine.FullNames, program) <==> blocks != [] && BasicMachine.InReach(blocks)
    ensures var program := BasicReader.ReadListing(BasicListing.ListingText(blocks)).value;
            forall k: nat ::
              var m := BasicMachine.Steps(BasicMachine.FullNames, program, BasicMachine.Boot(program), k);
              m.status == BasicMachine.Stopped ==> ShowsProgram(m.memory, lines)
  {
    OutputBlocks(lines, blocks);
    BasicLoader.LoaderLoadsTheImage(blocks, Assembled(lines).payload);
    var program := BasicReader.ReadListing(BasicListing.ListingText(blocks)).value;
    forall k: nat |
      BasicMachine.Steps(BasicMachine.FullNames, program, BasicMachine.Boot(program), k).status == BasicMachine.Stopped
      ensures ShowsProgram(
                BasicMachine.Steps(BasicMachine.FullNames, program, BasicMachine.Boot(program), k).memory, lines)
    {
      BasicMachine.OutcomeDecides(BasicMachine.FullNames, program, blocks, k);
      ShownImageIsProgram(lines, blocks,
                          BasicMachine.Steps(BasicMachine.FullNames, program, BasicMachine.Boot(program), k).memory);
    }
  }

  /** An address of a block is claimed by a piece. */
  lemma BlockStartsAtAPiece(lines: seq<Line>, blocks: seq<MemBlock>, b: MemBlock)
    requires Output(lines, blocks) && b in blocks
    requires forall i :: 0 <= i < |Pieces(START, lines)| ==> 0x200 <= Pieces(START, lines)[i].address
    ensures 0x200 <= b.start
  {
    var ps, t := Pieces(START, lines), FinalTable(START, lines);
    OutputBlocks(lines, blocks);
    var k :| 0 <= k < |blocks| && blocks[k] == b;
    assert InBlock(blocks[k], b.start) && Holds(blocks, b.start);
    IndexShowsTwoPassImage(lines, blocks, b.start);
    if forall i :: 0 <= i < |ps| ==> !Claims(ps[i], b.start) { UnclaimedIsAbsent(ps, t, b.start); }
  }

  /** On a Commodore: the printed program of a disjoint program above the first two pages loads
      the image if and only if the bytes of every block are 1, 2, .. n and POKE reaches them. */
  lemma CommodoreLoadsIffCounting(lines: seq<Line>, blocks: seq<MemBlock>)
    requires Output(lines, blocks) && DisjointPieces(Pieces(START, lines))
    requires forall i :: 0 <= i < |Pieces(START, lines)| ==> 0x200 <= Pieces(START, lines)[i].address
    ensures BasicReader.ReadListing(BasicListing.ListingText(blocks)).Some?
    ensures var program := BasicReader.ReadListing(BasicListing.ListingText(blocks)).value;
            BasicMachine.Loads(BasicMachine.TwoLetters, program, blocks)
            <==> blocks != [] && BasicMachine.InReach(blocks) && CommodoreImages.AllCounting(blocks)
  {
    OutputBlocks(lines, blocks);
    OutputSortedIffDisjoint(lines, blocks);
    forall b | b in blocks ensures 0x200 <= b.start { BlockStartsAtAPiece(lines, blocks, b); }
    CommodoreImages.RegularImageLoadsIffCounting(blocks, Assembled(lines).payload);
  }

  // ----- one byte at a given address -----

  /** An `.ORG` and an instruction without an operand. */
  predicate OneByteProgram(lines: seq<Line>, a: U32, m: Mnemonic) {
    lines == [Line(None, Org(Literal(a))), Line(None, Direct(m))] && a + 1 <= ADDR_INVALID
  }

  lemma OneByteTail(lines: seq<Line>, a: U32, m: Mnemonic)
    requires OneByteProgram(lines, a, m)
    ensures lines[1..] == [lines[1]] && lines[1..][1..] == []
  {
  }

  lemma OneBytePieces(lines: seq<Line>, a: U32, m: Mnemonic)
    requires OneByteProgram(lines, a, m)
    ensures Assembles(lines) && Pieces(START, lines) == [Placed(a, Bare(m))]
  {
    var p1, rest := Next(START, lines[0]), lines[1..];
    OneByteTail(lines, a, m);
    assert p1 == Point(a, map[]);
    assert PlacedAt(p1, rest[0]) == [Placed(a, Bare(m))];
    assert Pieces(p1, rest) == PlacedAt(p1, rest[0]) + Pieces(Next(p1, rest[0]), []);
    assert Pieces(START, lines) == [] + Pieces(p1, rest);
    assert AllDefineWell(p1, rest) by { assert AllDefineWell(Next(p1, rest[0]), []); }
  }

  lemma OneByteLine(s: State, l: Line)
    requires l.body.Direct? && s.cur + 1 <= ADDR_INVALID
    ensures Step(s, l).codeLines == s.codeLines + [CodeLine(s.cur, 1)]
  {
    StepEmits(s, l);
    EmittedCodeLine(BindLabel(s, l), EmissionOf(s, l));
  }

  lemma OneByteLines(lines: seq<Line>, a: U32, m: Mnemonic)
    requires OneByteProgram(lines, a, m)
    ensures Run(INITIAL, lines).codeLines == [CodeLine(a, 0), CodeLine(a, 1)]
  {
    var s1 := Step(INITIAL, lines[0]);
    assert s1.cur == a && s1.codeLines == [CodeLine(a, 0)];
    OneByteLine(s1, lines[1]);
    OneByteTail(lines, a, m);
    assert Run(s1, lines[1..]) == Run(Step(s1, lines[1]), []);
  }

  lemma OneByteBuild(p: Memory, a: U32)
    ensures Coalesced([CodeLine(a, 0), CodeLine(a, 1)], p) == [MemBlock(a, [ByteOf(p, a)])]
  {
    var c0, c1 := CodeLine(a, 0), CodeLine(a, 1);
    assert [c0][..0] == [] && [c0, c1][..1] == [c0];
    assert Build([c0], p) == Building([], a, []);
    assert Wrap(a + 0) == a && LineBytes(p, c1)[0] == ByteOf(p, a);
    assert LineBytes(p, c1) == [ByteOf(p, a)];
    assert [] + LineBytes(p, c1) == LineBytes(p, c1);
  }

  lemma OnlyByte(lines: seq<Line>, a: U32, m: Mnemonic)
    requires Assembles(lines) && Pieces(START, lines) == [Placed(a, Bare(m))]
    ensures ByteOf(Assembled(lines).payload, a) == FindOpCode(Implied, m)
  {
    MemoryIsLayered(lines);
    assert Prevails([Placed(a, Bare(m))], a, 0);
    PrevailingPieceDecides([Placed(a, Bare(m))], FinalTable(START, lines), a, 0);
  }

  lemma OneSortedBlock(blocks: seq<MemBlock>, b: MemBlock)
    requires multiset(blocks) == multiset([b])
    ensures blocks == [b]
  {
    assert |blocks| == |multiset(blocks)| == 1;
    assert blocks[0] in multiset(blocks);
  }

  lemma OneByteBlock(lines: seq<Line>, blocks: seq<MemBlock>, a: U32, m: Mnemonic)
    requires Output(lines, blocks) && OneByteProgram(lines, a, m)
    ensures blocks == [MemBlock(a, [FindOpCode(Implied, m)])]
  {
    OneBytePieces(lines, a, m);
    OneByteLines(lines, a, m);
    AssembledIsResolved(lines);
    OneByteBuild(Assembled(lines).payload, a);
    OnlyByte(lines, a, m);
    OneSortedBlock(blocks, MemBlock(a, [FindOpCode(Implied, m)]));
  }

  /** On a Commodore the printed loader of a one-byte program runs to its END, and leaves
      nothing but its byte v, v - 1 addresses too far: for `NOP` at 0x1000, 0xEA at 0x10E9.
      (`BRK`, whose opcode is zero, makes it run out of data: `ZeroRunsOutOfData`.) */
  lemma CommodoreMisplacesOneByte(lines: seq<Line>, blocks: seq<MemBlock>, a: U32, m: Mnemonic, v: Byte)
    returns (k: nat)
    requires OneByteProgram(lines, a, m) && Output(lines, blocks)
    requires v == FindOpCode(Implied, m) && 0 < v && a + v - 1 <= 0xFFFF
    ensures Assembled(lines).errors == [] && blocks == [MemBlock(a, [v])]
    ensures BasicReader.ReadListing(BasicListing.ListingText(blocks)).Some?
    ensures var program := BasicReader.ReadListing(BasicListing.ListingText(blocks)).value;
            var after := BasicMachine.Steps(BasicMachine.TwoLetters, program, BasicMachine.Boot(program), k);
            after.status == BasicMachine.Stopped && after.memory == map[a + v - 1 := v]
  {
    OneByteBlock(lines, blocks, a, m);
    AssemblingRun(lines);
    CommodoreImages.SingleByteIsMisplaced(a, v);
    k := CommodoreLoader.CommodoreOutcome(blocks);
  }

  // ----- overlapping lines make the stream huge -----

  lemma OverlappingStart()
    ensures var s := Step(Step(INITIAL, OVERLAPPING[0]), OVERLAPPING[1]);
            s.cur == 1 && s.codeLines == [CodeLine(0, 2), CodeLine(1, 0)]
  {
    StepEmits(INITIAL, OVERLAPPING[0]);
    EmittedCodeLine(INITIAL, EmissionOf(INITIAL, OVERLAPPING[0]));
    assert Step(INITIAL, OVERLAPPING[0]).codeLines == [CodeLine(0, 2)];
  }

  lemma ThreeSteps(s: State, lines: seq<Line>)
    requires |lines| == 3
    ensures Run(s, lines) == Step(Step(Step(s, lines[0]), lines[1]), lines[2])
  {
    assert lines[1..][0] == lines[1] && lines[1..][1..] == [lines[2]] && [lines[2]][1..] == [];
    var s3 := Step(Step(Step(s, lines[0]), lines[1]), lines[2]);
    assert Run(Step(Step(s, lines[0]), lines[1]), [lines[2]]) == Run(s3, []);
  }

  lemma OverlappingLines()
    ensures Run(INITIAL, OVERLAPPING).codeLines == [CodeLine(0, 2), CodeLine(1, 0), CodeLine(1, 1)]
  {
    ThreeSteps(INITIAL, OVERLAPPING);
    OverlappingStart();
    OneByteLine(Step(Step(INITIAL, OVERLAPPING[0]), OVERLAPPING[1]), OVERLAPPING[2]);
  }

  lemma OverlappingBuild(p: Memory)
    ensures var first, last := LineBytes(p, CodeLine(0, 2)), LineBytes(p, CodeLine(1, 1));
            Coalesced([CodeLine(0, 2), CodeLine(1, 0), CodeLine(1, 1)], p) == [MemBlock(0, first), MemBlock(1, last)]
  {
    var c0, c1, c2 := CodeLine(0, 2), CodeLine(1, 0), CodeLine(1, 1);
    assert [c0][..0] == [];
    assert [c0, c1][..1] == [c0];
    assert [c0, c1, c2][..2] == [c0, c1];
    assert Build([c0], p) == Building([], 0, LineBytes(p, c0));
    assert Build([c0, c1], p) == Building([MemBlock(0, LineBytes(p, c0))], 1, []);
    assert [] + LineBytes(p, c2) == LineBytes(p, c2);
    assert Build([c0, c1, c2], p) == Building([MemBlock(0, LineBytes(p, c0))], 1, LineBytes(p, c2));
  }

  lemma TwoSortedBlocks(blocks: seq<MemBlock>, b: MemBlock, c: MemBlock)
    requires SortedByStart(blocks) && multiset(blocks) == multiset([b, c]) && b.start < c.start
    ensures blocks == [b, c]
  {
    assert |blocks| == |multiset(blocks)| == 2;
    assert blocks == [blocks[0], blocks[1]];
    assert blocks[0] in multiset(blocks) && blocks[1] in multiset(blocks);
    assert b in multiset([b, c]) && c in multiset([b, c]);
  }

  lemma TwoBlocksOverlap(b: MemBlock, c: MemBlock)
    requires b.start == 0 && |b.bytes| == 2 && c.start == 1 && |c.bytes| == 1
    ensures TotalBytes([b, c]) == 3 && |Stream([b, c])| == 5 + TWO_TO_THE_32
  {
    var bs := [b, c];
    assert bs == [b] + [c] && [b] == [] + [b] && bs[1..] == [c];
    SumNext(Length, [b], c);
    SumNext(Length, [], b);
    StreamLength(bs);
    assert Overlaps(bs) == 1 + Overlaps([c]);
  }

  /** The padding count of overlapping blocks wraps around: three bytes in two overlapping
      lines make a stream of more than 4 GiB. */
  lemma OverlapMakesTheStreamHuge(blocks: seq<MemBlock>)
    requires BlocksOf(blocks, Assembled(OVERLAPPING).codeLines, Assembled(OVERLAPPING).payload)
    ensures Assembled(OVERLAPPING).errors == [] && TotalBytes(blocks) == 3
    ensures |Stream(blocks)| == 5 + TWO_TO_THE_32
  {
    var p := Assembled(OVERLAPPING).payload;
    ClobberingBreaksTheRefinement();
    AssembledIsResolved(OVERLAPPING);
    OverlappingLines();
    OverlappingBuild(p);
    TwoSortedBlocks(blocks, MemBlock(0, LineBytes(p, CodeLine(0, 2))), MemBlock(1, LineBytes(p, CodeLine(1, 1))));
    TwoBlocksOverlap(blocks[0], blocks[1]);
  }

  // ----- the listing -----

  lemma ListedByteIsFinal(c: CodeLine, cs: seq<CodeLine>, blocks: seq<MemBlock>, p: Memory, a: U32)
    requires FitLines(cs) && AllReadable(p, cs) && BlocksOf(blocks, cs, p)
    requires c in cs && c.start <= a < c.start + c.length <= ADDR_INVALID
    ensures ByteAt(blocks, a) == ByteOf(p, a)
  {
    var i :| 0 <= i < |cs| && cs[i] == c;
    FitLine(c.start, c.length, a);
    assert InLine(cs[i], a);
    IndexAgreesWithMemory(blocks, cs, p, a);
  }

  lemma LineByteIs(p: Memory, c: CodeLine, a: U32)
    requires c.start <= a < c.start + c.length
    ensures LineBytes(p, c)[a - c.start] == ByteOf(p, a)
  {
    assert Wrap(c.start + (a - c.start)) == a;
  }

  lemma ListedBytesAreFinal(c: CodeLine, cs: seq<CodeLine>, blocks: seq<MemBlock>, p: Memory)
    requires FitLines(cs) && AllReadable(p, cs) && BlocksOf(blocks, cs, p)
    requires c in cs && c.length > 0 && c.start + c.length <= ADDR_INVALID
    ensures BytesFrom(blocks, c.start, c.start + (c.length - 1)) == LineBytes(p, c)
  {
    var listed, final := BytesFrom(blocks, c.start, c.start + (c.length - 1)), LineBytes(p, c);
    forall k | 0 <= k < |listed| ensures listed[k] == final[k] {
      ListedByteIsFinal(c, cs, blocks, p, c.start + k);
      LineByteIs(p, c, c.start + k);
    }
  }

  /** The listing of a line that emits parses back to its address and its final bytes,
      which are all in the memory. */
  lemma ListingShowsFinalBytes(lines: seq<Line>, blocks: seq<MemBlock>, c: CodeLine)
    requires Output(lines, blocks) && c in Assembled(lines).codeLines && c.length > 0
    ensures Readable(Assembled(lines).payload, c)
    ensures ParseMachineCode(MachineCode(c, blocks)) == Some((c.start as nat, LineBytes(Assembled(lines).payload, c)))
  {
    OutputLines(lines, blocks);
    MachineCodeReadsBack(c, blocks);
    ListedBytesAreFinal(c, Assembled(lines).codeLines, blocks, Assembled(lines).payload);
  }

  // ----- the whole listing -----

  /** The machine code column, line by line. */
  function Column(cs: seq<CodeLine>, blocks: seq<MemBlock>): seq<string> {
    if cs == [] then [] else Column(cs[..|cs| - 1], blocks) + [MachineCode(cs[|cs| - 1], blocks)]
  }

  function Laid(a: nat, vs: seq<nat>): map<int, nat> {
    if vs == [] then map[] else Laid(a, vs[..|vs| - 1])[a + |vs| - 1 := vs[|vs| - 1]]
  }

  lemma {:induction false} LaidAt(a: nat, vs: seq<nat>, x: int)
    ensures x in Laid(a, vs) <==> a <= x < a + |vs|
    ensures a <= x < a + |vs| ==> Laid(a, vs)[x] == vs[x - a]
  {
    if vs == [] {
    } else {
      LaidAt(a, vs[..|vs| - 1], x);
    }
  }

  /** The memory a line of the column describes; a line without bytes is empty. */
  function ParsedLine(text: string): map<int, nat> {
    match ParseMachineCode(text)
    case None => map[]
    case Some((a, vs)) => Laid(a, vs)
  }

  function ParsedColumn(texts: seq<string>): map<int, nat> {
    if texts == [] then map[] else ParsedColumn(texts[..|texts| - 1]) + ParsedLine(texts[|texts| - 1])
  }

  lemma EmptyLineParses(c: CodeLine, blocks: seq<MemBlock>)
    requires c.length == 0
    ensures ParsedLine(MachineCode(c, blocks)) == map[]
  {
    assert ColonAt("") == 0;
  }

  lemma LineParses(c: CodeLine, cs: seq<CodeLine>, blocks: seq<MemBlock>, p: Memory, x: int)
    requires FitLines(cs) && AllReadable(p, cs) && BlocksOf(blocks, cs, p) && c in cs
    ensures var m := ParsedLine(MachineCode(c, blocks));
            && (x in m <==> c.start <= x < c.start + c.length)
            && (x in m ==> m[x] == ByteOf(p, x))
  {
    var i :| 0 <= i < |cs| && cs[i] == c;
    assert cs[i].start + cs[i].length <= ADDR_INVALID;
    if c.length == 0 {
      EmptyLineParses(c, blocks);
    } else {
      MachineCodeReadsBack(c, blocks);
      ListedBytesAreFinal(c, cs, blocks, p);
      LaidAt(c.start, LineBytes(p, c), x);
      if c.start <= x < c.start + c.length { LineByteIs(p, c, x); }
    }
  }

  lemma {:induction false} ColumnParses(some: seq<CodeLine>, cs: seq<CodeLine>, blocks: seq<MemBlock>,
                                        p: Memory, x: U32)
    requires FitLines(cs) && AllReadable(p, cs) && BlocksOf(blocks, cs, p)
    requires forall c :: c in some ==> c in cs
    ensures var m := ParsedColumn(Column(some, blocks));
            && (x in m <==> Covers(some, x))
            && (x in m ==> m[x] == ByteOf(p, x))
  {
    if some == [] {
    } else {
      var front, c := some[..|some| - 1], some[|some| - 1];
      var texts := Column(some, blocks);
      ColumnParses(front, cs, blocks, p, x);
      LineParses(c, cs, blocks, p, x);
      var i :| 0 <= i < |cs| && cs[i] == c;
      assert cs[i].start + cs[i].length <= ADDR_INVALID;
      FitLine(c.start, c.length, x);
      assert some == front + [c];
      CoversNext(front, c, x);
      assert texts[..|texts| - 1] == Column(front, blocks) && texts[|texts| - 1] == MachineCode(c, blocks);
    }
  }

  /** The listing as a whole: parsing the machine code column of all lines recovers the memory,
      every address and every byte. */
  lemma ListingRecoversTheMemory(lines: seq<Line>, blocks: seq<MemBlock>, x: U32)
    requires Output(lines, blocks)
    ensures var m := ParsedColumn(Column(Assembled(lines).codeLines, blocks));
            && (x in m <==> x in Assembled(lines).payload)
            && (x in m ==> m[x] == Assembled(lines).payload[x])
  {
    OutputLines(lines, blocks);
    AssemblingRun(lines);
    ErrorFreeRunIsCovered(lines, x);
    ColumnParses(Assembled(lines).codeLines, Assembled(lines).codeLines, blocks, Assembled(lines).payload, x);
  }
}
