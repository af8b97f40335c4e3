/** The machine code column of the documented example, character by character. */
module DocumentedListing {
  import opened Words
  import opened OnePass
  import opened MemBlocks
  import opened BlockIndex
  import opened MachineCodeListing

  lemma AddressDigits(d: nat, c: char)
    requires d < 10 && c == DIGITS[d]
    ensures AddressText(0xC000 + d) == ['0', 'x', 'c', '0', '0', c, ':']
  {
    assert Digits(0xC) == "c";
    assert Digits(0xC0) == "c0";
    assert Digits(0xC00) == "c00";
    assert (0xC000 + d) / 0x10 == 0xC00 && (0xC000 + d) % 0x10 == d;
    assert Digits(0xC000 + d) == "c00" + [c];
  }

  lemma ByteDigits(b: Byte, separator: char)
    ensures ByteText(b, separator)
         == ['0', 'x', DIGITS[b / 0x10], DIGITS[b % 0x10], separator]
  {
    assert b / 0x10 < 0x10;
    if b < 0x10 {
      assert Digits(b) == [DIGITS[b]];
      assert Hex(b, 2) == ['0', DIGITS[b]];
    } else {
      assert Digits(b / 0x10) == [DIGITS[b / 0x10]];
    }
  }

  lemma BytesFrom(bs: seq<MemBlock>, a: U32, last: U32)
    ensures a < last ==> BytesText(bs, a, last) == ByteText(ByteAt(bs, a), ',') + BytesText(bs, a + 1, last)
    ensures a == last ==> BytesText(bs, a, last) == ByteText(ByteAt(bs, a), ' ')
  {
  }

  lemma OneByteText(a: U32, bs: seq<MemBlock>, b: Byte)
    requires a <= 0xFFFF && ByteAt(bs, a) == b
    ensures MachineCode(CodeLine(a, 1), bs) == AddressText(a) + ByteText(b, ' ')
  {
    FitMachineCode(CodeLine(a, 1), bs);
    BytesFrom(bs, a, a);
  }

  lemma TwoByteText(a: U32, bs: seq<MemBlock>, b: Byte, b': Byte)
    requires a <= 0xFFFF && ByteAt(bs, a) == b && ByteAt(bs, a + 1) == b'
    ensures MachineCode(CodeLine(a, 2), bs) == AddressText(a) + (ByteText(b, ',') + ByteText(b', ' '))
  {
    FitMachineCode(CodeLine(a, 2), bs);
    BytesFrom(bs, a, a + 1);
    BytesFrom(bs, a + 1, a + 1);
  }

  lemma ThreeByteText(a: U32, bs: seq<MemBlock>, b: Byte, b': Byte, b'': Byte)
    requires a <= 0xFFFF && ByteAt(bs, a) == b && ByteAt(bs, a + 1) == b' && ByteAt(bs, a + 2) == b''
    ensures MachineCode(CodeLine(a, 3), bs)
         == AddressText(a) + (ByteText(b, ',') + (ByteText(b', ',') + ByteText(b'', ' ')))
  {
    FitMachineCode(CodeLine(a, 3), bs);
    BytesFrom(bs, a, a + 2);
    BytesFrom(bs, a + 1, a + 2);
    BytesFrom(bs, a + 2, a + 2);
  }

  lemma Known(b: Byte, separator: char, h: char, l: char)
    requires h == DIGITS[b / 0x10] && l == DIGITS[b % 0x10]
    ensures ByteText(b, separator) == ['0', 'x', h, l, separator]
  {
    ByteDigits(b, separator);
  }

  lemma Digits16()
    ensures DIGITS[0x0] == '0' && DIGITS[0x2] == '2' && DIGITS[0x6] == '6' && DIGITS[0x8] == '8'
    ensures DIGITS[0xA] == 'a' && DIGITS[0xC] == 'c' && DIGITS[0xD] == 'd' && DIGITS[0xF] == 'f' && DIGITS[0x5] == '5'
  {
  }

  lemma LoadLiteral()
    ensures "0xc000:" + ("0xa0," + "0x00 ") == "0xc000:0xa0,0x00 "
  {
  }

  lemma LoadText(bs: seq<MemBlock>)
    requires ByteAt(bs, 0xC000) == 0xA0 && ByteAt(bs, 0xC001) == 0x00
    ensures MachineCode(CodeLine(0xC000, 2), bs) == "0xc000:0xa0,0x00 "
  {
    Digits16();
    AddressDigits(0, '0');
    Known(0xA0, ',', 'a', '0');
    Known(0x00, ' ', '0', '0');
    TwoByteText(0xC000, bs, 0xA0, 0x00);
    LoadLiteral();
  }

  lemma StoreLiteral()
    ensures "0xc002:" + ("0x8c," + ("0x20," + "0xd0 ")) == "0xc002:0x8c,0x20,0xd0 "
  {
  }

  lemma StoreText(bs: seq<MemBlock>)
    requires ByteAt(bs, 0xC002) == 0x8C && ByteAt(bs, 0xC003) == 0x20 && ByteAt(bs, 0xC004) == 0xD0
    ensures MachineCode(CodeLine(0xC002, 3), bs) == "0xc002:0x8c,0x20,0xd0 "
  {
    Digits16();
    AddressDigits(2, '2');
    Known(0x8C, ',', '8', 'c');
    Known(0x20, ',', '2', '0');
    Known(0xD0, ' ', 'd', '0');
    ThreeByteText(0xC002, bs, 0x8C, 0x20, 0xD0);
    StoreLiteral();
  }

  lemma IncrementLiteral()
    ensures "0xc005:" + "0xc8 " == "0xc005:0xc8 "
  {
  }

  lemma IncrementText(bs: seq<MemBlock>)
    requires ByteAt(bs, 0xC005) == 0xC8
    ensures MachineCode(CodeLine(0xC005, 1), bs) == "0xc005:0xc8 "
  {
    Digits16();
    AddressDigits(5, '5');
    Known(0xC8, ' ', 'c', '8');
    OneByteText(0xC005, bs, 0xC8);
    IncrementLiteral();
  }

  lemma BranchLiteral()
    ensures "0xc006:" + ("0xd0," + "0xfa ") == "0xc006:0xd0,0xfa "
  {
  }

  lemma BranchText(bs: seq<MemBlock>)
    requires ByteAt(bs, 0xC006) == 0xD0 && ByteAt(bs, 0xC007) == 0xFA
    ensures MachineCode(CodeLine(0xC006, 2), bs) == "0xc006:0xd0,0xfa "
  {
    Digits16();
    AddressDigits(6, '6');
    Known(0xD0, ',', 'd', '0');
    Known(0xFA, ' ', 'f', 'a');
    TwoByteText(0xC006, bs, 0xD0, 0xFA);
    BranchLiteral();
  }

  lemma ReturnLiteral()
    ensures "0xc008:" + "0x60 " == "0xc008:0x60 "
  {
  }

  lemma ReturnText(bs: seq<MemBlock>)
    requires ByteAt(bs, 0xC008) == 0x60
    ensures MachineCode(CodeLine(0xC008, 1), bs) == "0xc008:0x60 "
  {
    Digits16();
    AddressDigits(8, '8');
    Known(0x60, ' ', '6', '0');
    OneByteText(0xC008, bs, 0x60);
    ReturnLiteral();
  }

  ghost predicate Answers(bs: seq<MemBlock>) {
    && ByteAt(bs, 0xC000) == 0xA0 && ByteAt(bs, 0xC001) == 0x00
    && ByteAt(bs, 0xC002) == 0x8C && ByteAt(bs, 0xC003) == 0x20 && ByteAt(bs, 0xC004) == 0xD0
    && ByteAt(bs, 0xC005) == 0xC8
    && ByteAt(bs, 0xC006) == 0xD0 && ByteAt(bs, 0xC007) == 0xFA
    && ByteAt(bs, 0xC008) == 0x60
  }

  /** The six lines of the documented listing. */
  lemma ColumnIsAsDocumented(bs: seq<MemBlock>)
    requires Answers(bs)
    ensures MachineCode(CodeLine(0xC000, 0), bs) == ""
    ensures MachineCode(CodeLine(0xC000, 2), bs) == "0xc000:0xa0,0x00 "
    ensures MachineCode(CodeLine(0xC002, 3), bs) == "0xc002:0x8c,0x20,0xd0 "
    ensures MachineCode(CodeLine(0xC005, 1), bs) == "0xc005:0xc8 "
    ensures MachineCode(CodeLine(0xC006, 2), bs) == "0xc006:0xd0,0xfa "
    ensures MachineCode(CodeLine(0xC008, 1), bs) == "0xc008:0x60 "
  {
    LoadText(bs);
    StoreText(bs);
    IncrementText(bs);
    BranchText(bs);
    ReturnText(bs);
  }
}
