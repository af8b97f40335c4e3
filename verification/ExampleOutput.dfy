/** The documented example, from its source lines to what is printed. */
module DocumentedOutput {
  import opened Source
  import opened OnePass
  import opened MemBlocks
  import opened BasicListing
  import opened MachineCodeListing
  import opened DocumentedExample
  import opened DocumentedListing
  import opened DocumentedBasic

  lemma ExampleIsExample(lines: seq<Line>)
    requires lines == EXAMPLE
    ensures IsExample(lines) && Assembled(lines).errors == []
  {
    ExampleAssembles();
    ExampleRecordCount();
  }

  lemma OnlyBlock(blocks: seq<MemBlock>, b: MemBlock)
    requires multiset(blocks) == multiset([b])
    ensures blocks == [b]
  {
    assert |blocks| == |multiset(blocks)| == 1;
    assert blocks[0] in multiset(blocks);
  }

  lemma BlockAnswers(b: MemBlock)
    requires b.start == 0xC000 && b.bytes == BYTES
    ensures Answers([b])
  {
  }

  lemma ExampleHasOneBlock(lines: seq<Line>, blocks: seq<MemBlock>)
    requires IsExample(lines) && BlocksOf(blocks, Assembled(lines).codeLines, Assembled(lines).payload)
    ensures blocks == [MemBlock(0xC000, BYTES)] && Assembled(lines).codeLines == RECORDS
  {
    RecordsAre(lines);
    OnlyBlock(blocks, MemBlock(0xC000, BYTES));
  }

  /** The example assembles without an error to what the documentation shows: its machine code
      column, line by line, and its BASIC program. */
  lemma ExampleIsAsDocumented(lines: seq<Line>, blocks: seq<MemBlock>)
    requires lines == EXAMPLE
    requires BlocksOf(blocks, Assembled(lines).codeLines, Assembled(lines).payload)
    ensures Assembled(lines).errors == [] && |Assembled(lines).codeLines| == 6
    ensures var cs := Assembled(lines).codeLines;
            && MachineCode(cs[0], blocks) == ""
            && MachineCode(cs[1], blocks) == "0xc000:0xa0,0x00 "
            && MachineCode(cs[2], blocks) == "0xc002:0x8c,0x20,0xd0 "
            && MachineCode(cs[3], blocks) == "0xc005:0xc8 "
            && MachineCode(cs[4], blocks) == "0xc006:0xd0,0xfa "
            && MachineCode(cs[5], blocks) == "0xc008:0x60 "
    ensures ListingText(blocks) == LinesText(LOADER_TEXT + [
              "200 rem number of mem blocks",
              "210 data 1",
              "220 rem block start number bytes",
              "230 data 49152, 9",
              "240 data 160,  0,140, 32",
              "250 data 208,200,208,250",
              "260 data  96"])
  {
    ExampleIsExample(lines);
    ExampleHasOneBlock(lines, blocks);
    BlockAnswers(blocks[0]);
    ColumnIsAsDocumented(blocks);
    ProgramIsAsDocumented(blocks[0]);
  }
}
