/** The BASIC program of the documented example, character by character. */
module DocumentedBasic {
  import opened Words
  import opened MemBlocks
  import opened BasicText
  import opened BasicListing
  import opened BasicReader

  // ----- numbers -----

  lemma OneDigitNumber(n: nat, a: char)
    requires n < 10 && a == DIGITS[n]
    ensures Decimal(n) == [a] && Padded(n, 3) == [' ', ' ', a]
  {
  }

  lemma TwoDigitNumber(n: nat, a: char, b: char)
    requires 10 <= n < 100 && a == DIGITS[n / 10] && b == DIGITS[n % 10]
    ensures Decimal(n) == [a, b] && Padded(n, 3) == [' ', a, b]
  {
    assert Decimal(n / 10) == [a];
  }

  lemma ThreeDigitNumber(n: nat, a: char, b: char, c: char)
    requires 100 <= n < 1000 && a == DIGITS[n / 10 / 10] && b == DIGITS[n / 10 % 10] && c == DIGITS[n % 10]
    ensures Decimal(n) == [a, b, c] && Padded(n, 3) == [a, b, c]
  {
    TwoDigitNumber(n / 10, a, b);
  }

  lemma StartAddress()
    ensures Decimal(49152) == "49152"
  {
    ThreeDigitNumber(491, '4', '9', '1');
    assert Decimal(4915) == "491" + "5";
    assert Decimal(49152) == "4915" + "2";
  }

  // ----- lines -----

  lemma CountTextsAre(a: string, b: string, c: string)
    requires Decimal(200) == a && Decimal(210) == b && Decimal(1) == c
    ensures CountTexts(1) == [a + " rem number of mem blocks", b + " data " + c]
  {
  }

  lemma CountLiterals()
    ensures "200" + " rem number of mem blocks" == "200 rem number of mem blocks"
    ensures "210" + " data " + "1" == "210 data 1"
  {
  }

  lemma CountLines()
    ensures CountTexts(1) == ["200 rem number of mem blocks", "210 data 1"]
  {
    ThreeDigitNumber(200, '2', '0', '0');
    ThreeDigitNumber(210, '2', '1', '0');
    OneDigitNumber(1, '1');
    CountTextsAre("200", "210", "1");
    CountLiterals();
  }

  lemma HeadTextsAre(b: MemBlock, a: string, n: string, start: string, length: string)
    requires Decimal(220) == a && Decimal(230) == n && Decimal(b.start) == start && Decimal(|b.bytes|) == length
    ensures RemarkText(220) == a + " rem block start number bytes"
    ensures HeadText(b, 230) == n + " data " + start + ", " + length
  {
  }

  lemma HeadLiterals()
    ensures "220" + " rem block start number bytes" == "220 rem block start number bytes"
    ensures "230" + " data " + "49152" + ", " + "9" == "230 data 49152, 9"
  {
  }

  lemma HeadLines(b: MemBlock)
    requires b.start == 49152 && |b.bytes| == 9
    ensures RemarkText(220) == "220 rem block start number bytes" && HeadText(b, 230) == "230 data 49152, 9"
  {
    ThreeDigitNumber(220, '2', '2', '0');
    ThreeDigitNumber(230, '2', '3', '0');
    StartAddress();
    OneDigitNumber(9, '9');
    HeadTextsAre(b, "220", "230", "49152", "9");
    HeadLiterals();
  }

  lemma FourCells(cells: seq<string>, lineNr: nat, head: string, a: string, b: string, c: string, d: string)
    requires cells == [a, b, c, d] && DataHead(lineNr) == head
    ensures ChunkText(DataHead, cells, lineNr) == head + (a + "," + (b + "," + (c + "," + d)))
  {
    assert cells[1..] == [b, c, d] && [b, c, d][1..] == [c, d] && [c, d][1..] == [d];
    assert Joined([d]) == d && Joined([c, d]) == c + "," + d && Joined([b, c, d]) == b + "," + (c + "," + d);
  }

  lemma FirstValues()
    ensures Padded(160, 3) == "160" && Padded(0, 3) == "  0" && Padded(140, 3) == "140" && Padded(32, 3) == " 32"
  {
    ThreeDigitNumber(160, '1', '6', '0');
    OneDigitNumber(0, '0');
    ThreeDigitNumber(140, '1', '4', '0');
    TwoDigitNumber(32, '3', '2');
  }

  lemma MoreValues()
    ensures Padded(208, 3) == "208" && Padded(200, 3) == "200" && Padded(250, 3) == "250" && Padded(96, 3) == " 96"
  {
    ThreeDigitNumber(208, '2', '0', '8');
    ThreeDigitNumber(200, '2', '0', '0');
    ThreeDigitNumber(250, '2', '5', '0');
    TwoDigitNumber(96, '9', '6');
  }

  lemma Heads()
    ensures DataHead(240) == "240 data " && DataHead(250) == "250 data " && DataHead(260) == "260 data "
  {
    ThreeDigitNumber(240, '2', '4', '0');
    ThreeDigitNumber(250, '2', '5', '0');
    ThreeDigitNumber(260, '2', '6', '0');
    assert "240" + " data " == "240 data " && "250" + " data " == "250 data " && "260" + " data " == "260 data ";
  }

  lemma Literals()
    ensures "240 data " + ("160" + "," + ("  0" + "," + ("140" + "," + " 32"))) == "240 data 160,  0,140, 32"
    ensures "250 data " + ("208" + "," + ("200" + "," + ("208" + "," + "250"))) == "250 data 208,200,208,250"
    ensures "260 data " + " 96" == "260 data  96"
  {
  }

  lemma ValueLines(bytes: seq<Byte>)
    requires bytes == [160, 0, 140, 32, 208, 200, 208, 250, 96]
    ensures ChunkTexts(DataHead, Cells(bytes), 240)
         == ["240 data 160,  0,140, 32", "250 data 208,200,208,250", "260 data  96"]
  {
    var cells := Cells(bytes);
    Heads();
    FirstValues();
    MoreValues();
    FourCells(cells[..4], 240, "240 data ", "160", "  0", "140", " 32");
    FourCells(cells[4..][..4], 250, "250 data ", "208", "200", "208", "250");
    assert cells[4..][4..] == [" 96"] && Joined([" 96"]) == " 96";
    Literals();
    assert ChunkTexts(DataHead, cells[4..][4..], 260) == ["260 data  96"];
    assert ChunkTexts(DataHead, cells[4..], 250) == ["250 data 208,200,208,250"] + ["260 data  96"];
  }

  lemma OneBlockTexts(b: MemBlock)
    ensures ListingTexts([b]) == LOADER_TEXT + CountTexts(1) + BlockTexts(b, 220)
  {
    assert [b][1..] == [];
    assert Flat(BlockTexts, [], 240 + 10 * DataLines(|b.bytes|)) == [];
    assert BlocksTexts([b], 220) == BlockTexts(b, 220) + [];
  }

  lemma BlockTextsAre(b: MemBlock, rem: string, head: string, values: seq<string>)
    requires RemarkText(220) == rem && HeadText(b, 230) == head && ChunkTexts(DataHead, Cells(b.bytes), 240) == values
    ensures BlockTexts(b, 220) == [rem, head] + values
  {
  }

  lemma SevenLines(a: string, b: string, c: string, d: string, e: string, f: string, g: string)
    ensures LOADER_TEXT + [a, b] + ([c, d] + [e, f, g]) == LOADER_TEXT + [a, b, c, d, e, f, g]
  {
  }

  /** The whole documented program: the loader, and the lines that follow it. */
  lemma ProgramIsAsDocumented(b: MemBlock)
    requires b.start == 0xC000 && b.bytes == [160, 0, 140, 32, 208, 200, 208, 250, 96]
    ensures ListingText([b]) == LinesText(LOADER_TEXT + [
              "200 rem number of mem blocks",
              "210 data 1",
              "220 rem block start number bytes",
              "230 data 49152, 9",
              "240 data 160,  0,140, 32",
              "250 data 208,200,208,250",
              "260 data  96"])
  {
    CountLines();
    HeadLines(b);
    ValueLines(b.bytes);
    BlockTextsAre(b, "220 rem block start number bytes", "230 data 49152, 9",
                  ["240 data 160,  0,140, 32", "250 data 208,200,208,250", "260 data  96"]);
    OneBlockTexts(b);
    ListingIsPrinted([b]);
    SevenLines("200 rem number of mem blocks", "210 data 1", "220 rem block start number bytes", "230 data 49152, 9",
               "240 data 160,  0,140, 32", "250 data 208,200,208,250", "260 data  96");
  }
}
