/** The printed BASIC loader: its statements, and the text the printer writes. */
module BasicListing {
  import opened Words
  import opened MemBlocks
  import opened BasicText

  datatype Statement =
    | Read(v: Var)
    | For(v: Var, limit: Var)              // for v = 1 to limit
    | Poke(base: Var, index: Var, value: Var)  // poke base + index - 1, value
    | Next(v: Var)
    | Halt
    | Rem
    | Data(values: seq<nat>)

  datatype BasicLine = BasicLine(number: nat, stmt: Statement)

  const LOADER: seq<BasicLine> := [
    BasicLine(100, Read(NB)),
    BasicLine(110, For(BI, NB)),
    BasicLine(120, Read(ADDR)),
    BasicLine(130, Read(NBY)),
    BasicLine(140, For(BYI, NBY)),
    BasicLine(150, Read(BYVL)),
    BasicLine(160, Poke(ADDR, BYI, BYVL)),
    BasicLine(170, Next(BYI)),
    BasicLine(180, Next(BI)),
    BasicLine(190, Halt)]

  // ----- the text -----

  const LOADER_TEXT: seq<string> := [
    "100 read nb",
    "110 for bi = 1 to nb",
    "120 read addr",
    "130 read nby",
    "140 for byi = 1 to nby",
    "150 read byvl",
    "160 poke addr+byi-1, byvl",
    "170 next byi",
    "180 next bi",
    "190 end"]

  /** Every line ends with an end-of-line. */
  function LinesText(ts: seq<string>): string {
    if ts == [] then "" else ts[0] + "\n" + LinesText(ts[1..])
  }

  function DataHead(lineNr: nat): string {
    Decimal(lineNr) + " data "
  }

  /** Byte values, three characters each. */
  function Cells(bytes: seq<Byte>): (cells: seq<string>)
    ensures |cells| == |bytes|
    ensures forall i :: 0 <= i < |bytes| ==> cells[i] == Padded(bytes[i], 3)
  {
    seq(|bytes|, i requires 0 <= i < |bytes| => Padded(bytes[i], 3))
  }

  /** One turn of the byte loop: `cells` are the values still to come, `p` is how many the
      current data line has, `head` opens a data line. */
  function ByteTurn(head: nat -> string, cells: seq<string>, p: nat, lineNr: nat): string
    requires cells != []
  {
    (if p == 0 then "\n" + head(lineNr) else "") + cells[0] + (if p != 3 && |cells| > 1 then "," else "")
  }

  function NextNumber(p: nat, lineNr: nat): nat {
    if p == 0 then lineNr + 10 else lineNr
  }

  /** The rest of the byte loop. */
  function BytesText(head: nat -> string, cells: seq<string>, p: nat, lineNr: nat): string
    decreases |cells|
  {
    if cells == [] then ""
    else ByteTurn(head, cells, p, lineNr)
         + BytesText(head, cells[1..], if p == 3 then 0 else p + 1, NextNumber(p, lineNr))
  }

  function DataLines(n: nat): nat {
    (n + 3) / 4
  }

  function RemarkText(lineNr: nat): string {
    Decimal(lineNr) + " rem block start number bytes"
  }

  function HeadText(b: MemBlock, lineNr: nat): string {
    DataHead(lineNr) + Decimal(b.start) + ", " + Decimal(|b.bytes|)
  }

  function BlockText(b: MemBlock, lineNr: nat): string {
    RemarkText(lineNr) + "\n" + HeadText(b, lineNr + 10) + BytesText(DataHead, Cells(b.bytes), 0, lineNr + 20) + "\n"
  }

  /** What each block contributes, given the number of its first line. */
  function Flat<T>(f: (MemBlock, nat) -> seq<T>, bs: seq<MemBlock>, lineNr: nat): seq<T> {
    if bs == [] then []
    else f(bs[0], lineNr) + Flat(f, bs[1..], lineNr + 20 + 10 * DataLines(|bs[0].bytes|))
  }

  function BlocksText(bs: seq<MemBlock>, lineNr: nat): string {
    Flat(BlockText, bs, lineNr)
  }

  function CountTexts(n: nat): seq<string> {
    [Decimal(200) + " rem number of mem blocks", DataHead(210) + Decimal(n)]
  }

  function ListingText(bs: seq<MemBlock>): string {
    LinesText(LOADER_TEXT + CountTexts(|bs|)) + BlocksText(bs, 220)
  }

  // ----- the printer -----

  method PrintByte(bytes: seq<Byte>, byteIdx: nat, strm: string, lineNr: nat) returns (out: string, next: nat)
    requires byteIdx < |bytes|
    ensures out == strm + ByteTurn(DataHead, Cells(bytes)[byteIdx..], byteIdx % 4, lineNr)
    ensures next == NextNumber(byteIdx % 4, lineNr)
  {
    out, next := strm, lineNr;
    if byteIdx % 4 == 0 {
      out := out + ("\n" + (Decimal(next) + " data "));
      next := next + 10;
    }
    out := out + Padded(bytes[byteIdx], 3);
    if byteIdx % 4 != 3 && byteIdx + 1 < |bytes| {
      out := out + ",";
    }
  }

  lemma NextTurn(head: nat -> string, cells: seq<string>, i: nat, strm: string, lineNr: nat)
    requires i < |cells|
    ensures strm + BytesText(head, cells[i..], i % 4, lineNr)
         == (strm + ByteTurn(head, cells[i..], i % 4, lineNr))
            + BytesText(head, cells[i + 1..], (i + 1) % 4, NextNumber(i % 4, lineNr))
  {
    assert cells[i..][1..] == cells[i + 1..];
    assert (i + 1) % 4 == if i % 4 == 3 then 0 else i % 4 + 1;
    Assoc(strm, ByteTurn(head, cells[i..], i % 4, lineNr),
          BytesText(head, cells[i + 1..], (i + 1) % 4, NextNumber(i % 4, lineNr)));
  }

  lemma DataLinesNext(i: nat, first: nat, lineNr: nat)
    requires lineNr == first + 10 * DataLines(i)
    ensures NextNumber(i % 4, lineNr) == first + 10 * DataLines(i + 1)
  {
  }

  method PrintBytes(bytes: seq<Byte>, strm: string, lineNr: nat) returns (out: string, next: nat)
    ensures out == strm + BytesText(DataHead, Cells(bytes), 0, lineNr)
    ensures next == lineNr + 10 * DataLines(|bytes|)
  {
    out, next := strm, lineNr;
    for byteIdx := 0 to |bytes|
      invariant out + BytesText(DataHead, Cells(bytes)[byteIdx..], byteIdx % 4, next)
             == strm + BytesText(DataHead, Cells(bytes), 0, lineNr)
      invariant next == lineNr + 10 * DataLines(byteIdx)
    {
      NextTurn(DataHead, Cells(bytes), byteIdx, out, next);
      DataLinesNext(byteIdx, lineNr, next);
      out, next := PrintByte(bytes, byteIdx, out, next);
    }
  }

  method PrintBlock(memBlock: MemBlock, strm: string, lineNr: nat) returns (out: string, next: nat)
    ensures out == strm + BlockText(memBlock, lineNr)
    ensures next == lineNr + 20 + 10 * DataLines(|memBlock.bytes|)
  {
    ghost var remark, head := RemarkText(lineNr) + "\n", HeadText(memBlock, lineNr + 10);
    out, next := strm + (Decimal(lineNr) + " rem block start number bytes" + "\n"), lineNr + 10;
    out := out + (Decimal(next) + " data " + Decimal(memBlock.start) + ", " + Decimal(|memBlock.bytes|));
    next := next + 10;
    Assoc(strm, remark, head);
    out, next := PrintBytes(memBlock.bytes, out, next);
    Assoc(strm, remark + head, BytesText(DataHead, Cells(memBlock.bytes), 0, lineNr + 20));
    out := out + "\n";
    Assoc(strm, remark + head + BytesText(DataHead, Cells(memBlock.bytes), 0, lineNr + 20), "\n");
  }

  lemma NextBlock(f: (MemBlock, nat) -> string, bs: seq<MemBlock>, i: nat, strm: string, lineNr: nat)
    requires i < |bs|
    ensures strm + Flat(f, bs[i..], lineNr)
         == (strm + f(bs[i], lineNr)) + Flat(f, bs[i + 1..], lineNr + 20 + 10 * DataLines(|bs[i].bytes|))
  {
    assert bs[i..][1..] == bs[i + 1..];
    Assoc(strm, f(bs[i], lineNr), Flat(f, bs[i + 1..], lineNr + 20 + 10 * DataLines(|bs[i].bytes|)));
  }

  method PrintBlocks(memBlocks: seq<MemBlock>, head: string, first: nat) returns (strm: string)
    ensures strm == head + BlocksText(memBlocks, first)
  {
    var lineNr := first;
    strm := head;
    for memBlockIdx := 0 to |memBlocks|
      invariant strm + BlocksText(memBlocks[memBlockIdx..], lineNr) == head + BlocksText(memBlocks, first)
    {
      NextBlock(BlockText, memBlocks, memBlockIdx, strm, lineNr);
      strm, lineNr := PrintBlock(memBlocks[memBlockIdx], strm, lineNr);
    }
  }

  method PrintLines(lines: seq<string>) returns (strm: string)
    ensures strm == LinesText(lines)
  {
    strm := "";
    for i := 0 to |lines|
      invariant strm + LinesText(lines[i..]) == LinesText(lines)
    {
      assert lines[i..][1..] == lines[i + 1..];
      Assoc(strm, lines[i] + "\n", LinesText(lines[i + 1..]));
      strm := strm + (lines[i] + "\n");
    }
  }

  lemma {:induction false} LinesTextConcat(ts: seq<string>, more: seq<string>)
    ensures LinesText(ts + more) == LinesText(ts) + LinesText(more)
  {
    if ts == [] {
      assert ts + more == more;
    } else {
      assert (ts + more)[1..] == ts[1..] + more;
      LinesTextConcat(ts[1..], more);
      Assoc(ts[0] + "\n", LinesText(ts[1..]), LinesText(more));
    }
  }

  lemma TwoMoreLines(ts: seq<string>, first: string, second: string)
    ensures LinesText(ts + [first, second]) == LinesText(ts) + (first + "\n") + (second + "\n")
  {
    LinesTextConcat(ts, [first, second]);
    assert [first, second][1..] == [second] && [second][1..] == [];
    assert LinesText([second]) == second + "\n";
    Assoc(LinesText(ts), first + "\n", second + "\n");
  }

  method GetBasicMemBlockInitializerListing(memBlocks: seq<MemBlock>) returns (strm: string)
    ensures strm == ListingText(memBlocks)
  {
    strm := PrintLines(LOADER_TEXT);
    var lineNr := 200;
    ghost var remark := Decimal(lineNr) + " rem number of mem blocks";
    strm := strm + (Decimal(lineNr) + " rem number of mem blocks" + "\n");
    lineNr := lineNr + 10;
    strm := strm + (Decimal(lineNr) + " data " + Decimal(|memBlocks|) + "\n");
    TwoMoreLines(LOADER_TEXT, remark, DataHead(lineNr) + Decimal(|memBlocks|));
    lineNr := lineNr + 10;
    strm := PrintBlocks(memBlocks, strm, lineNr);
  }
}
