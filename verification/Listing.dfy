/** The machine code column of the assembly listing: hexadecimal text that parses back to
    the line's address and bytes. */
module MachineCodeListing {
  import opened Words
  import opened OnePass
  import opened MemBlocks
  import opened BlockIndex

  // ----- writing -----

  const DIGITS: string := "0123456789abcdef"

  function Digits(v: nat): string {
    if v < 0x10 then [DIGITS[v]] else Digits(v / 0x10) + [DIGITS[v % 0x10]]
  }

  /** At least `width` digits, filled with zeros. */
  function Hex(v: nat, width: nat): string {
    var ds := Digits(v);
    (if |ds| < width then seq(width - |ds|, _ => '0') else []) + ds
  }

  function ByteText(b: Byte, separator: char): string {
    "0x" + Hex(b, 2) + [separator]
  }

  /** The bytes at `addr, ... last`, as the address loop visits them. */
  function BytesText(bs: seq<MemBlock>, addr: U32, last: U32): string
    decreases if addr < last then last - addr else 0
  {
    if addr < last then ByteText(ByteAt(bs, addr), ',') + BytesText(bs, addr + 1, last)
    else ByteText(ByteAt(bs, last), ' ')
  }

  function AddressText(a: U32): string {
    "0x" + Hex(a, 4) + ":"
  }

  function MachineCode(c: CodeLine, bs: seq<MemBlock>): string {
    if c.length == 0 then ""
    else AddressText(c.start) + BytesText(bs, c.start, Wrap(c.start + (c.length - 1)))
  }

  method AppendBytes(mb: seq<MemBlock>, head: string, startAddress: U32, lastByteAddr: U32) returns (strm: string)
    ensures strm == head + BytesText(mb, startAddress, lastByteAddr)
  {
    strm := head;
    var addr := startAddress;
    while addr < lastByteAddr
      invariant addr <= lastByteAddr || addr == startAddress
      invariant strm + BytesText(mb, addr, lastByteAddr) == head + BytesText(mb, startAddress, lastByteAddr)
    {
      var byte := GetByteAt(mb, addr);
      Assoc(strm, ByteText(byte, ','), BytesText(mb, addr + 1, lastByteAddr));
      strm := strm + ByteText(byte, ',');
      addr := addr + 1;
    }
    var byte := GetByteAt(mb, lastByteAddr);
    strm := strm + ByteText(byte, ' ');
  }

  method GetMachineCode(codeLine: CodeLine, mb: seq<MemBlock>) returns (strm: string)
    ensures strm == MachineCode(codeLine, mb)
  {
    strm := "";
    if codeLine.length > 0 {
      strm := "0x" + Hex(codeLine.start, 4) + ":";
      var lastByteAddr := Wrap(codeLine.start + (codeLine.length - 1));
      strm := AppendBytes(mb, strm, codeLine.start, lastByteAddr);
    }
  }

  // ----- reading -----

  function DigitValue(c: char): Option<nat> {
    if '0' <= c <= '9' then Some((c - '0') as nat)
    else if 'a' <= c <= 'f' then Some(10 + (c - 'a') as nat)
    else None
  }

  function ParseHex(s: string): Option<nat> {
    if s == [] then Some(0)
    else
      match (ParseHex(s[..|s| - 1]), DigitValue(s[|s| - 1]))
      case (Some(high), Some(d)) => Some(0x10 * high + d)
      case _ => None
  }

  /** `0xhh,0xhh, ... 0xhh ` */
  function ParseBytes(s: string): Option<seq<nat>> {
    if |s| < 5 || s[..2] != "0x" then None
    else
      match ParseHex(s[2..4])
      case None => None
      case Some(v) =>
        if s[4] == ' ' && |s| == 5 then Some([v])
        else if s[4] == ',' then
          match ParseBytes(s[5..])
          case None => None
          case Some(vs) => Some([v] + vs)
        else None
  }

  function ColonAt(s: string): (n: nat)
    ensures n <= |s|
  {
    if s == [] || s[0] == ':' then 0 else 1 + ColonAt(s[1..])
  }

  /** `0xhhhh:` and the bytes. */
  function ParseMachineCode(s: string): Option<(nat, seq<nat>)> {
    var n := ColonAt(s);
    if n < 2 || n == |s| || s[..2] != "0x" then None
    else
      match (ParseHex(s[2..n]), ParseBytes(s[n + 1..]))
      case (Some(a), Some(vs)) => Some((a, vs))
      case _ => None
  }

  // ----- round trip -----

  lemma DigitIsRead(v: nat)
    requires v < 0x10
    ensures DigitValue(DIGITS[v]) == Some(v) && DIGITS[v] != ':'
  {
  }

  lemma {:induction false} DigitsAreRead(v: nat)
    ensures ParseHex(Digits(v)) == Some(v)
    ensures forall c :: c in Digits(v) ==> c != ':'
  {
    if v < 0x10 {
      DigitIsRead(v);
      assert Digits(v)[..0] == [];
    } else {
      DigitsAreRead(v / 0x10);
      DigitIsRead(v % 0x10);
      assert Digits(v)[..|Digits(v)| - 1] == Digits(v / 0x10);
    }
  }

  lemma {:induction false} ZerosAreZero(n: nat)
    ensures ParseHex(seq(n, _ => '0')) == Some(0)
  {
    if n == 0 {
    } else {
      ZerosAreZero(n - 1);
      assert seq(n, _ => '0')[..n - 1] == seq(n - 1, _ => '0');
    }
  }

  lemma {:induction false} LeadingZeros(n: nat, ds: string)
    ensures ParseHex(seq(n, _ => '0') + ds) == ParseHex(ds)
  {
    var zeros := seq(n, _ => '0');
    if ds == [] {
      assert zeros + ds == zeros;
      ZerosAreZero(n);
    } else {
      assert (zeros + ds)[..|zeros + ds| - 1] == zeros + ds[..|ds| - 1];
      LeadingZeros(n, ds[..|ds| - 1]);
    }
  }

  lemma HexIsRead(v: nat, width: nat)
    ensures ParseHex(Hex(v, width)) == Some(v)
    ensures forall c :: c in Hex(v, width) ==> c != ':'
  {
    DigitsAreRead(v);
    LeadingZeros(if |Digits(v)| < width then width - |Digits(v)| else 0, Digits(v));
    assert [] + Digits(v) == Digits(v);
  }

  lemma ByteHasTwoDigits(b: Byte)
    ensures |Hex(b, 2)| == 2
  {
    assert |Digits(b)| <= 2;
  }

  lemma ByteIsRead(b: Byte, separator: char)
    ensures var s := ByteText(b, separator);
            |s| == 5 && s[..2] == "0x" && ParseHex(s[2..4]) == Some(b) && s[4] == separator
  {
    HexIsRead(b, 2);
    ByteHasTwoDigits(b);
    assert ByteText(b, separator)[2..4] == Hex(b, 2);
  }

  /** The index's answers for `a, ... last`. */
  function BytesFrom(bs: seq<MemBlock>, a: U32, last: U32): (r: seq<nat>)
    requires a <= last
    ensures |r| == last - a + 1
    ensures forall k :: 0 <= k < |r| ==> r[k] == ByteAt(bs, a + k)
    decreases last - a
  {
    if a == last then [ByteAt(bs, a)] else [ByteAt(bs, a)] + BytesFrom(bs, a + 1, last)
  }

  lemma FirstByteIsRead(b: Byte, rest: string)
    ensures ParseBytes(ByteText(b, ',') + rest)
         == match ParseBytes(rest) case None => None case Some(vs) => Some([b as nat] + vs)
  {
    var first := ByteText(b, ',');
    var s := first + rest;
    ByteIsRead(b, ',');
    assert s[..2] == first[..2] && s[2..4] == first[2..4] && s[5..] == rest;
  }

  lemma {:induction false} BytesAreRead(bs: seq<MemBlock>, a: U32, last: U32)
    requires a <= last
    ensures ParseBytes(BytesText(bs, a, last)) == Some(BytesFrom(bs, a, last))
    decreases last - a
  {
    if a < last {
      BytesAreRead(bs, a + 1, last);
      FirstByteIsRead(ByteAt(bs, a), BytesText(bs, a + 1, last));
    } else {
      ByteIsRead(ByteAt(bs, a), ' ');
    }
  }

  lemma {:induction false} ColonIsFound(s: string, rest: string)
    requires forall i :: 0 <= i < |s| ==> s[i] != ':'
    ensures ColonAt(s + (":" + rest)) == |s|
  {
    var all := s + (":" + rest);
    if s == [] {
      assert all[0] == ':';
    } else {
      assert all[0] == s[0];
      assert all[1..] == s[1..] + (":" + rest);
      ColonIsFound(s[1..], rest);
    }
  }

  lemma PrefixIsRead(h: string, rest: string)
    requires forall i :: 0 <= i < |h| ==> h[i] != ':'
    requires ParseHex(h).Some? && ParseBytes(rest).Some?
    ensures ParseMachineCode(("0x" + h) + (":" + rest)) == Some((ParseHex(h).value, ParseBytes(rest).value))
  {
    var head := "0x" + h;
    var s := head + (":" + rest);
    ColonIsFound(head, rest);
    assert s[..2] == "0x" && s[2..|head|] == h && s[|head| + 1..] == rest;
  }

  lemma AddressIsRead(a: U32, rest: string)
    requires ParseBytes(rest).Some?
    ensures ParseMachineCode(AddressText(a) + rest) == Some((a as nat, ParseBytes(rest).value))
  {
    var h := Hex(a, 4);
    HexIsRead(a, 4);
    forall i | 0 <= i < |h| ensures h[i] != ':' { assert h[i] in h; }
    PrefixIsRead(h, rest);
    Assoc("0x" + h, ":", rest);
  }

  lemma LastAddress(c: CodeLine)
    requires c.length > 0 && c.start + c.length <= ADDR_INVALID
    ensures Wrap(c.start + (c.length - 1)) == c.start + (c.length - 1)
  {
  }

  lemma FitMachineCode(c: CodeLine, bs: seq<MemBlock>)
    requires c.length > 0 && c.start + c.length <= ADDR_INVALID
    ensures MachineCode(c, bs) == AddressText(c.start) + BytesText(bs, c.start, c.start + (c.length - 1))
  {
    LastAddress(c);
  }

  lemma TextReadsBack(text: string, bs: seq<MemBlock>, start: U32, last: U32)
    requires start <= last && text == AddressText(start) + BytesText(bs, start, last)
    ensures ParseMachineCode(text) == Some((start as nat, BytesFrom(bs, start, last)))
  {
    BytesAreRead(bs, start, last);
    AddressIsRead(start, BytesText(bs, start, last));
  }

  /** The text of a line that emits gives back its address and, for its addresses in
      order, the bytes the index answers. */
  lemma MachineCodeReadsBack(c: CodeLine, bs: seq<MemBlock>)
    requires c.length > 0 && c.start + c.length <= ADDR_INVALID
    ensures ParseMachineCode(MachineCode(c, bs))
         == Some((c.start as nat, BytesFrom(bs, c.start, c.start + (c.length - 1))))
  {
    FitMachineCode(c, bs);
    TextReadsBack(MachineCode(c, bs), bs, c.start, c.start + (c.length - 1));
  }

  // ----- columns -----

  lemma AddressHasFourDigits(a: U32)
    requires a <= 0xffff
    ensures |Hex(a, 4)| == 4
  {
    assert a / 0x10 / 0x10 / 0x10 < 0x10;
    assert |Digits(a / 0x10 / 0x10)| <= 2;
    assert |Digits(a / 0x10)| <= 3;
  }

  function Separator(c: CodeLine, k: nat): char {
    if k + 1 == c.length then ' ' else ','
  }

  ghost predicate ByteColumn(s: string, k: nat, b: Byte, separator: char) {
    5 * k + 5 <= |s| && s[5 * k..5 * k + 5] == ByteText(b, separator)
  }

  lemma FirstColumn(b: Byte, separator: char, rest: string)
    ensures ByteColumn(ByteText(b, separator) + rest, 0, b, separator)
  {
    ByteIsRead(b, separator);
    SliceWithin(ByteText(b, separator), rest, 0, 5);
  }

  lemma LaterColumn(first: string, rest: string, k: nat, b: Byte, separator: char)
    requires |first| == 5 && k > 0 && ByteColumn(rest, k - 1, b, separator)
    ensures ByteColumn(first + rest, k, b, separator)
  {
    SliceAfter(first, rest, 5 * (k - 1), 5 * (k - 1) + 5);
  }

  lemma {:induction false} BytesTextLength(bs: seq<MemBlock>, a: U32, last: U32)
    requires a <= last
    ensures |BytesText(bs, a, last)| == 5 * (last - a + 1)
    decreases last - a
  {
    ByteIsRead(ByteAt(bs, a), ',');
    if a < last { BytesTextLength(bs, a + 1, last); } else { ByteIsRead(ByteAt(bs, last), ' '); }
  }

  lemma {:induction false} BytesTextColumns(bs: seq<MemBlock>, a: U32, last: U32, k: nat)
    requires a <= last && k <= last - a
    ensures ByteColumn(BytesText(bs, a, last), k, ByteAt(bs, a + k), if a + k == last then ' ' else ',')
    decreases last - a
  {
    if a == last {
      FirstColumn(ByteAt(bs, last), ' ', "");
      assert BytesText(bs, a, last) == ByteText(ByteAt(bs, last), ' ') + "";
    } else {
      var first, rest := ByteText(ByteAt(bs, a), ','), BytesText(bs, a + 1, last);
      assert BytesText(bs, a, last) == first + rest;
      if k == 0 {
        FirstColumn(ByteAt(bs, a), ',', rest);
      } else {
        BytesTextColumns(bs, a + 1, last, k - 1);
        ByteIsRead(ByteAt(bs, a), ',');
        LaterColumn(first, rest, k, ByteAt(bs, a + k), if a + k == last then ' ' else ',');
      }
    }
  }

  lemma AddressColumns(a: U32)
    requires a <= 0xffff
    ensures var s := AddressText(a);
            |s| == 7 && s[..2] == "0x" && s[6] == ':' && ParseHex(s[2..6]) == Some(a)
  {
    AddressHasFourDigits(a);
    HexIsRead(a, 4);
    assert AddressText(a)[2..6] == Hex(a, 4);
  }

  lemma HeadedColumn(head: string, text: string, k: nat, b: Byte, separator: char)
    requires |head| == 7 && ByteColumn(text, k, b, separator)
    ensures var s := head + text;
            12 + 5 * k <= |s| && s[7 + 5 * k..12 + 5 * k] == "0x" + Hex(b, 2) + [separator]
  {
    SliceAfter(head, text, 5 * k, 5 * k + 5);
  }

  /** `0x`, four digits and a colon, and five characters for byte `k`: `0x`, two digits, and a
      comma, or after the last one a blank. */
  ghost predicate HasColumns(s: string, c: CodeLine, k: nat, b: Byte) {
    && |s| == 7 + 5 * c.length && s[..2] == "0x" && s[6] == ':' && ParseHex(s[2..6]) == Some(c.start)
    && 12 + 5 * k <= |s| && s[7 + 5 * k..12 + 5 * k] == "0x" + Hex(b, 2) + [Separator(c, k)] && |Hex(b, 2)| == 2
  }

  lemma TextHasColumns(head: string, text: string, c: CodeLine, k: nat, b: Byte)
    requires k < c.length && |head| == 7 && |text| == 5 * c.length
    requires head[..2] == "0x" && head[6] == ':' && ParseHex(head[2..6]) == Some(c.start)
    requires ByteColumn(text, k, b, Separator(c, k))
    ensures HasColumns(head + text, c, k, b)
  {
    ByteHasTwoDigits(b);
    HeadedColumn(head, text, k, b, Separator(c, k));
    SliceWithin(head, text, 0, 2);
    SliceWithin(head, text, 2, 6);
  }

  /** The column of a line is empty exactly without bytes; otherwise every byte has its place. */
  lemma MachineCodeColumns(c: CodeLine, bs: seq<MemBlock>, k: nat)
    requires c.start + c.length <= 0x1_0000
    ensures MachineCode(c, bs) == "" <==> c.length == 0
    ensures k < c.length ==> HasColumns(MachineCode(c, bs), c, k, ByteAt(bs, c.start + k))
  {
    if k < c.length {
      var head, text := AddressText(c.start), BytesText(bs, c.start, c.start + (c.length - 1));
      AddressColumns(c.start);
      BytesTextLength(bs, c.start, c.start + (c.length - 1));
      BytesTextColumns(bs, c.start, c.start + (c.length - 1), k);
      FitMachineCode(c, bs);
      TextHasColumns(head, text, c, k, ByteAt(bs, c.start + k));
    }
  }
}
