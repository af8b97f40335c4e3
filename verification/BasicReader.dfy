/** How BASIC reads the printed text back, character by character: numbers, keywords, names,
    and what the lines mean. */
module BasicReader {
  import opened Words
  import opened MemBlocks
  import opened BasicText
  import opened BasicListing

  // ----- reading it back -----

  /** Numbers with exactly one comma between any two. */
  function ReadValues(ts: seq<Token>): Option<seq<nat>> {
    if |ts| == 0 || !ts[0].Number? then None
    else if |ts| == 1 then Some([ts[0].n])
    else if ts[1] != Sign(',') then None
    else
      match ReadValues(ts[2..])
      case None => None
      case Some(vs) => Some([ts[0].n] + vs)
  }

  predicate IsFor(ts: seq<Token>) {
    && |ts| == 6 && ts[0] == Keyword(FOR) && ts[1].Name? && ts[2] == Sign('=')
    && ts[3] == Number(1) && ts[4] == Keyword(TO) && ts[5].Name?
  }

  predicate IsPoke(ts: seq<Token>) {
    && |ts| == 8 && ts[0] == Keyword(POKE) && ts[1].Name? && ts[2] == Sign('+') && ts[3].Name?
    && ts[4] == Sign('-') && ts[5] == Number(1) && ts[6] == Sign(',') && ts[7].Name?
  }

  function ReadStatement(ts: seq<Token>): Option<Statement> {
    if ts == [] then None
    else if ts == [Keyword(END)] then Some(Halt)
    else if ts[0] == Keyword(REM) then Some(Rem)
    else if ts[0] == Keyword(READ) && |ts| == 2 && ts[1].Name? then Some(Read(ts[1].v))
    else if ts[0] == Keyword(NEXT) && |ts| == 2 && ts[1].Name? then Some(Next(ts[1].v))
    else if IsFor(ts) then Some(For(ts[1].v, ts[5].v))
    else if IsPoke(ts) then Some(Poke(ts[1].v, ts[3].v, ts[7].v))
    else if ts[0] == Keyword(DATA) then
      match ReadValues(ts[1..])
      case None => None
      case Some(vs) => Some(Data(vs))
    else None
  }

  function ReadLine(text: string): Option<BasicLine> {
    var ts := Scan(text);
    if ts == [] || !ts[0].Number? then None
    else
      match ReadStatement(ts[1..])
      case None => None
      case Some(stmt) => Some(BasicLine(ts[0].n, stmt))
  }

  function LineLength(s: string): (n: nat)
    ensures n <= |s|
    ensures forall i :: 0 <= i < n ==> s[i] != '\n'
    ensures n < |s| ==> s[n] == '\n'
  {
    if s == "" || s[0] == '\n' then 0 else 1 + LineLength(s[1..])
  }

  function ReadListing(s: string): Option<seq<BasicLine>> {
    if s == "" then Some([])
    else
      var n := LineLength(s);
      if n == |s| then None
      else
        match (ReadLine(s[..n]), ReadListing(s[n + 1..]))
        case (Some(l), Some(ls)) => Some([l] + ls)
        case _ => None
  }

  // ----- the lines that are meant -----

  function ChunkLines(bytes: seq<Byte>, lineNr: nat): seq<BasicLine> {
    if bytes == [] then []
    else if |bytes| <= 4 then [BasicLine(lineNr, Data(bytes))]
    else [BasicLine(lineNr, Data(bytes[..4]))] + ChunkLines(bytes[4..], lineNr + 10)
  }

  function BlockLines(b: MemBlock, lineNr: nat): seq<BasicLine> {
    [BasicLine(lineNr, Rem), BasicLine(lineNr + 10, Data([b.start, |b.bytes|]))] + ChunkLines(b.bytes, lineNr + 20)
  }

  function BlocksLines(bs: seq<MemBlock>, lineNr: nat): seq<BasicLine> {
    Flat(BlockLines, bs, lineNr)
  }

  function DataSection(bs: seq<MemBlock>): seq<BasicLine> {
    [BasicLine(200, Rem), BasicLine(210, Data([|bs|]))] + BlocksLines(bs, 220)
  }

  function Listing(bs: seq<MemBlock>): seq<BasicLine> {
    LOADER + DataSection(bs)
  }

  // ----- one line of text -----

  /** The text of a line, and the line that is read from it. */
  predicate Reads(text: string, l: BasicLine) {
    '\n' !in text && ReadLine(text) == Some(l)
  }

  ghost predicate AllRead(ts: seq<string>, ls: seq<BasicLine>) {
    |ts| == |ls| && forall i :: 0 <= i < |ts| ==> Reads(ts[i], ls[i])
  }

  function ValueTokens(vs: seq<nat>): seq<Token> {
    if vs == [] then []
    else if |vs| == 1 then [Number(vs[0])]
    else [Number(vs[0]), Sign(',')] + ValueTokens(vs[1..])
  }

  lemma {:induction false} ValuesAreRead(vs: seq<nat>)
    requires vs != []
    ensures ReadValues(ValueTokens(vs)) == Some(vs)
  {
    if |vs| == 1 {
      assert vs == [vs[0]];
    } else {
      ValuesAreRead(vs[1..]);
      assert ValueTokens(vs)[2..] == ValueTokens(vs[1..]);
      assert vs == [vs[0]] + vs[1..];
    }
  }

  lemma DataIsRead(vs: seq<nat>)
    requires vs != []
    ensures ReadStatement([Keyword(DATA)] + ValueTokens(vs)) == Some(Data(vs))
  {
    ValuesAreRead(vs);
    assert ([Keyword(DATA)] + ValueTokens(vs))[1..] == ValueTokens(vs);
  }

  lemma NumberedLineIsRead(text: string, n: nat, ts: seq<Token>)
    requires Scan(text) == [Number(n)] + ts && ReadStatement(ts).Some?
    ensures ReadLine(text) == Some(BasicLine(n, ReadStatement(ts).value))
  {
    assert ([Number(n)] + ts)[1..] == ts;
  }

  lemma DecimalHasNoEndOfLine(n: nat)
    ensures '\n' !in Decimal(n)
  {
    DecimalIsRead(n);
  }

  /** A line that begins with its number and a blank. */
  lemma ScanLine(n: nat, rest: string)
    ensures Scan(Decimal(n) + (" " + rest)) == [Number(n)] + Scan(rest)
  {
    ScanNumber(n, " " + rest);
    ScanBlank(rest);
  }

  lemma DataHeadText(lineNr: nat, rest: string)
    ensures DataHead(lineNr) + rest == Decimal(lineNr) + (" " + ("data" + (" " + rest)))
  {
    assert " data " + rest == " " + ("data" + (" " + rest));
    Assoc(Decimal(lineNr), " data ", rest);
  }

  lemma ScanDataHead(lineNr: nat, rest: string)
    ensures Scan(DataHead(lineNr) + rest) == [Number(lineNr)] + ([Keyword(DATA)] + Scan(rest))
  {
    DataHeadText(lineNr, rest);
    ScanLine(lineNr, "data" + (" " + rest));
    ScanKeyword(DATA, " " + rest);
    ScanBlank(rest);
  }

  lemma ScanRemarkLine(n: nat, remark: string)
    requires NoLetterFirst(remark)
    ensures Scan(Decimal(n) + (" " + ("rem" + remark))) == [Number(n)] + [Keyword(REM)]
  {
    ScanLine(n, "rem" + remark);
    ScanRemark(remark);
  }

  lemma RemarkIsRead(n: nat, remark: string)
    requires '\n' !in remark && NoLetterFirst(remark)
    ensures Reads(Decimal(n) + (" " + ("rem" + remark)), BasicLine(n, Rem))
  {
    ScanRemarkLine(n, remark);
    NumberedLineIsRead(Decimal(n) + (" " + ("rem" + remark)), n, [Keyword(REM)]);
    DecimalHasNoEndOfLine(n);
  }

  lemma DataTextIsRead(lineNr: nat, text: string, vs: seq<nat>)
    requires vs != [] && Scan(text) == ValueTokens(vs) && '\n' !in text
    ensures Reads(DataHead(lineNr) + text, BasicLine(lineNr, Data(vs)))
  {
    ScanDataHead(lineNr, text);
    DataIsRead(vs);
    NumberedLineIsRead(DataHead(lineNr) + text, lineNr, [Keyword(DATA)] + ValueTokens(vs));
    DecimalHasNoEndOfLine(lineNr);
  }

  lemma CountIsRead(n: nat)
    ensures Scan(Decimal(n)) == ValueTokens([n]) && '\n' !in Decimal(n)
  {
    ScanNumber(n, "");
    assert Decimal(n) + "" == Decimal(n);
    DecimalHasNoEndOfLine(n);
  }

  lemma PairIsRead(a: nat, b: nat)
    ensures Scan(Decimal(a) + ", " + Decimal(b)) == ValueTokens([a, b])
    ensures '\n' !in Decimal(a) + ", " + Decimal(b)
  {
    CountIsRead(b);
    assert Decimal(a) + ", " + Decimal(b) == Decimal(a) + ("," + (" " + Decimal(b)));
    ScanNumber(a, "," + (" " + Decimal(b)));
    ScanSign(',', " " + Decimal(b));
    ScanBlank(Decimal(b));
    assert [a, b][1..] == [b];
    DecimalHasNoEndOfLine(a);
  }

  // ----- the ten fixed lines -----

  /** A statement other than a remark or data: its tokens and its text. */
  predicate IsCode(stmt: Statement) {
    !stmt.Rem? && !stmt.Data?
  }

  function CodeTokens(stmt: Statement): seq<Token>
    requires IsCode(stmt)
  {
    match stmt
    case Read(v) => [Keyword(READ), Name(v)]
    case For(v, limit) => [Keyword(FOR), Name(v), Sign('='), Number(1), Keyword(TO), Name(limit)]
    case Poke(a, i, v) =>
      [Keyword(POKE), Name(a), Sign('+'), Name(i), Sign('-'), Number(1), Sign(','), Name(v)]
    case Next(v) => [Keyword(NEXT), Name(v)]
    case Halt => [Keyword(END)]
  }

  function Spaced(k: Key, rest: string): string {
    " " + (Spelling(k) + (" " + rest))
  }

  function CodeText(stmt: Statement): string
    requires IsCode(stmt)
  {
    match stmt
    case Read(v) => Spaced(READ, Letters(v))
    case For(v, limit) => Spaced(FOR, Letters(v) + (" " + ("=" + (" " + (Decimal(1) + Spaced(TO, Letters(limit)))))))
    case Poke(a, i, v) =>
      Spaced(POKE, Letters(a) + ("+" + (Letters(i) + ("-" + (Decimal(1) + ("," + (" " + Letters(v))))))))
    case Next(v) => Spaced(NEXT, Letters(v))
    case Halt => " " + Spelling(END)
  }

  lemma CodeTokensAreRead(stmt: Statement)
    requires IsCode(stmt)
    ensures ReadStatement(CodeTokens(stmt)) == Some(stmt)
  {
  }

  lemma ScanSpaced(k: Key, rest: string)
    requires k != REM
    ensures Scan(Spaced(k, rest)) == [Keyword(k)] + Scan(rest)
  {
    ScanBlank(Spelling(k) + (" " + rest));
    ScanKeyword(k, " " + rest);
    ScanBlank(rest);
  }

  lemma ScanLastName(v: Var)
    ensures Scan(Letters(v)) == [Name(v)]
  {
    ScanName(v, "");
    assert Letters(v) + "" == Letters(v);
  }

  lemma SixTokens(a: Token, b: Token, c: Token, d: Token, e: Token, f: Token)
    ensures [a] + ([b] + ([c] + ([d] + ([e] + [f])))) == [a, b, c, d, e, f]
  {
  }

  lemma EightTokens(a: Token, b: Token, c: Token, d: Token, e: Token, f: Token, g: Token, h: Token)
    ensures [a] + ([b] + ([c] + ([d] + ([e] + ([f] + ([g] + [h])))))) == [a, b, c, d, e, f, g, h]
  {
  }

  /** `name = 1 to limit`, and then the whole statement. */
  lemma ScanRange(name: string, v: Token, limit: string, w: Token)
    requires Scan(limit) == [w]
    requires forall rest :: NoLetterFirst(rest) ==> Scan(name + rest) == [v] + Scan(rest)
    ensures Scan(Spaced(FOR, name + (" " + ("=" + (" " + (Decimal(1) + Spaced(TO, limit)))))))
         == [Keyword(FOR), v, Sign('='), Number(1), Keyword(TO), w]
  {
    var to := Spaced(TO, limit);
    var one := Decimal(1) + to;
    ScanSpaced(TO, limit);
    ScanNumber(1, to);
    ScanBlank(one);
    ScanSign('=', " " + one);
    ScanBlank("=" + (" " + one));
    ScanSpaced(FOR, name + (" " + ("=" + (" " + one))));
    SixTokens(Keyword(FOR), v, Sign('='), Number(1), Keyword(TO), w);
  }

  lemma ScanFor(v: Var, limit: Var)
    ensures Scan(CodeText(For(v, limit))) == CodeTokens(For(v, limit))
  {
    ScanLastName(limit);
    forall rest | NoLetterFirst(rest) ensures Scan(Letters(v) + rest) == [Name(v)] + Scan(rest) {
      ScanName(v, rest);
    }
    ScanRange(Letters(v), Name(v), Letters(limit), Name(limit));
  }

  lemma ScanSum(a: string, i: string, v: string, ta: Token, ti: Token, tv: Token)
    requires Scan(v) == [tv]
    requires forall rest :: NoLetterFirst(rest) ==> Scan(a + rest) == [ta] + Scan(rest)
    requires forall rest :: NoLetterFirst(rest) ==> Scan(i + rest) == [ti] + Scan(rest)
    ensures Scan(Spaced(POKE, a + ("+" + (i + ("-" + (Decimal(1) + ("," + (" " + v))))))))
         == [Keyword(POKE), ta, Sign('+'), ti, Sign('-'), Number(1), Sign(','), tv]
  {
    var one := Decimal(1) + ("," + (" " + v));
    var index := i + ("-" + one);
    ScanBlank(v);
    ScanSign(',', " " + v);
    ScanNumber(1, "," + (" " + v));
    ScanSign('-', one);
    ScanSign('+', index);
    ScanSpaced(POKE, a + ("+" + index));
    EightTokens(Keyword(POKE), ta, Sign('+'), ti, Sign('-'), Number(1), Sign(','), tv);
  }

  lemma ScanPoke(a: Var, i: Var, v: Var)
    ensures Scan(CodeText(Poke(a, i, v))) == CodeTokens(Poke(a, i, v))
  {
    ScanLastName(v);
    forall rest | NoLetterFirst(rest) ensures Scan(Letters(a) + rest) == [Name(a)] + Scan(rest) { ScanName(a, rest); }
    forall rest | NoLetterFirst(rest) ensures Scan(Letters(i) + rest) == [Name(i)] + Scan(rest) { ScanName(i, rest); }
    ScanSum(Letters(a), Letters(i), Letters(v), Name(a), Name(i), Name(v));
  }

  lemma ScanCode(stmt: Statement)
    requires IsCode(stmt)
    ensures Scan(CodeText(stmt)) == CodeTokens(stmt) && NoDigitFirst(CodeText(stmt))
  {
    match stmt {
      case Read(v) =>
        ScanLastName(v);
        ScanSpaced(READ, Letters(v));
      case For(v, limit) => ScanFor(v, limit);
      case Poke(a, i, v) => ScanPoke(a, i, v);
      case Next(v) =>
        ScanLastName(v);
        ScanSpaced(NEXT, Letters(v));
      case Halt =>
        ScanBlank(Spelling(END));
        ScanKeyword(END, "");
        assert Spelling(END) + "" == Spelling(END);
    }
  }

  lemma OneDigit()
    ensures Decimal(1) == "1"
  {
  }

  lemma ThreeDigits(d: nat)
    requires d < 10
    ensures Decimal(100 + 10 * d) == ['1', DIGITS[d], '0']
  {
    assert (100 + 10 * d) / 10 == 10 + d && (100 + 10 * d) % 10 == 0;
    assert (10 + d) / 10 == 1 && (10 + d) % 10 == d;
    assert Decimal(10 + d) == Decimal(1) + [DIGITS[d]];
  }

  lemma RangeText(limit: string)
    ensures " " + ("=" + (" " + ("1" + (" " + ("to" + (" " + limit)))))) == " = 1 to " + limit
  {
  }

  lemma OperandsText(v: string)
    ensures "-" + ("1" + ("," + (" " + v))) == "-1, " + v
  {
  }

  lemma KeywordText(rest: string)
    ensures Spaced(READ, rest) == " read " + rest && Spaced(NEXT, rest) == " next " + rest
    ensures Spaced(FOR, rest) == " for " + rest && Spaced(POKE, rest) == " poke " + rest
  {
  }

  lemma ReadText(v: Var)
    ensures CodeText(Read(v)) == " read " + Letters(v) && CodeText(Next(v)) == " next " + Letters(v)
  {
    KeywordText(Letters(v));
  }

  lemma ForText(v: Var, limit: Var)
    ensures CodeText(For(v, limit)) == " for " + (Letters(v) + (" = 1 to " + Letters(limit)))
  {
    OneDigit();
    RangeText(Letters(limit));
    KeywordText(Letters(v) + (" = 1 to " + Letters(limit)));
  }

  lemma PokeText(a: Var, i: Var, v: Var)
    ensures CodeText(Poke(a, i, v)) == " poke " + (Letters(a) + ("+" + (Letters(i) + ("-1, " + Letters(v)))))
  {
    OneDigit();
    OperandsText(Letters(v));
    KeywordText(Letters(a) + ("+" + (Letters(i) + ("-1, " + Letters(v)))));
  }

  predicate Prints(text: string, l: BasicLine) {
    IsCode(l.stmt) && text == Decimal(l.number) + CodeText(l.stmt)
  }

  lemma FirstReadText()
    ensures Prints("100 read nb", BasicLine(100, Read(NB)))
  {
    ThreeDigits(0);
    ReadText(NB);
    assert "100 read nb" == "100" + (" read " + "nb");
  }

  lemma OuterForLiteral()
    ensures "110 for bi = 1 to nb" == "110" + (" for " + ("bi" + (" = 1 to " + "nb")))
  {
  }

  lemma OuterForText()
    ensures Prints("110 for bi = 1 to nb", BasicLine(110, For(BI, NB)))
  {
    ThreeDigits(1);
    ForText(BI, NB);
    OuterForLiteral();
  }

  lemma AddressText()
    ensures Prints("120 read addr", BasicLine(120, Read(ADDR)))
  {
    ThreeDigits(2);
    ReadText(ADDR);
    assert "120 read addr" == "120" + (" read " + "addr");
  }

  lemma LengthText()
    ensures Prints("130 read nby", BasicLine(130, Read(NBY)))
  {
    ThreeDigits(3);
    ReadText(NBY);
    assert "130 read nby" == "130" + (" read " + "nby");
  }

  lemma InnerForLiteral()
    ensures "140 for byi = 1 to nby" == "140" + (" for " + ("byi" + (" = 1 to " + "nby")))
  {
  }

  lemma InnerForText()
    ensures Prints("140 for byi = 1 to nby", BasicLine(140, For(BYI, NBY)))
  {
    ThreeDigits(4);
    ForText(BYI, NBY);
    InnerForLiteral();
  }

  lemma ValueText()
    ensures Prints("150 read byvl", BasicLine(150, Read(BYVL)))
  {
    ThreeDigits(5);
    ReadText(BYVL);
    assert "150 read byvl" == "150" + (" read " + "byvl");
  }

  lemma PokeLineLiteral()
    ensures "160 poke addr+byi-1, byvl" == "160" + (" poke " + ("addr" + ("+" + ("byi" + ("-1, " + "byvl")))))
  {
  }

  lemma PokeLineText()
    ensures Prints("160 poke addr+byi-1, byvl", BasicLine(160, Poke(ADDR, BYI, BYVL)))
  {
    ThreeDigits(6);
    PokeText(ADDR, BYI, BYVL);
    PokeLineLiteral();
  }

  lemma InnerNextText()
    ensures Prints("170 next byi", BasicLine(170, Next(BYI)))
  {
    ThreeDigits(7);
    ReadText(BYI);
    assert "170 next byi" == "170" + (" next " + "byi");
  }

  lemma OuterNextText()
    ensures Prints("180 next bi", BasicLine(180, Next(BI)))
  {
    ThreeDigits(8);
    ReadText(BI);
    assert "180 next bi" == "180" + (" next " + "bi");
  }

  lemma EndText()
    ensures Prints("190 end", BasicLine(190, Halt))
  {
    ThreeDigits(9);
    assert "190 end" == "190" + (" end");
  }

  lemma LoaderLineText(i: nat)
    requires i < 10
    ensures Prints(LOADER_TEXT[i], LOADER[i])
  {
    match i {
      case 0 => FirstReadText();
      case 1 => OuterForText();
      case 2 => AddressText();
      case 3 => LengthText();
      case 4 => InnerForText();
      case 5 => ValueText();
      case 6 => PokeLineText();
      case 7 => InnerNextText();
      case 8 => OuterNextText();
      case 9 => EndText();
    }
  }

  lemma CodeIsRead(text: string, l: BasicLine)
    requires Prints(text, l)
    ensures ReadLine(text) == Some(l)
  {
    ScanCode(l.stmt);
    ScanNumber(l.number, CodeText(l.stmt));
    CodeTokensAreRead(l.stmt);
    NumberedLineIsRead(text, l.number, CodeTokens(l.stmt));
  }

  lemma LoaderIsOneLineEach(i: nat)
    requires i < 10
    ensures '\n' !in LOADER_TEXT[i]
  {
  }

  lemma LoaderIsRead()
    ensures AllRead(LOADER_TEXT, LOADER)
  {
    forall i | 0 <= i < 10 ensures Reads(LOADER_TEXT[i], LOADER[i]) {
      LoaderLineText(i);
      CodeIsRead(LOADER_TEXT[i], LOADER[i]);
      LoaderIsOneLineEach(i);
    }
  }

  // ----- data lines -----

  function Joined(cells: seq<string>): string {
    if cells == [] then ""
    else if |cells| == 1 then cells[0]
    else cells[0] + "," + Joined(cells[1..])
  }

  function ChunkText(head: nat -> string, cells: seq<string>, lineNr: nat): string {
    head(lineNr) + Joined(cells)
  }

  lemma LastCellIsScanned(n: nat)
    ensures Scan(Padded(n, 3)) == [Number(n)]
  {
    ScanPadded(n, 3, "");
    assert Padded(n, 3) + "" == Padded(n, 3);
  }

  lemma CellIsScanned(n: nat, rest: string)
    ensures Scan(Padded(n, 3) + "," + rest) == [Number(n), Sign(',')] + Scan(rest)
  {
    ScanSign(',', rest);
    ScanPadded(n, 3, "," + rest);
    Assoc(Padded(n, 3), ",", rest);
  }

  lemma PaddedHasNoEndOfLine(n: nat)
    ensures '\n' !in Padded(n, 3)
  {
    DecimalHasNoEndOfLine(n);
  }

  lemma {:induction false} JoinedIsScanned(bytes: seq<Byte>, cells: seq<string>)
    requires cells == Cells(bytes)
    ensures Scan(Joined(cells)) == ValueTokens(bytes)
  {
    if bytes == [] {
    } else if |bytes| == 1 {
      LastCellIsScanned(bytes[0]);
    } else {
      assert cells[1..] == Cells(bytes[1..]);
      JoinedIsScanned(bytes[1..], cells[1..]);
      CellIsScanned(bytes[0], Joined(cells[1..]));
    }
  }

  lemma {:induction false} JoinedHasNoEndOfLine(cells: seq<string>)
    requires forall i :: 0 <= i < |cells| ==> '\n' !in cells[i]
    ensures '\n' !in Joined(cells)
  {
    if cells == [] {
    } else {
      JoinedHasNoEndOfLine(cells[1..]);
    }
  }

  lemma ChunkIsRead(bytes: seq<Byte>, lineNr: nat)
    requires bytes != []
    ensures Reads(ChunkText(DataHead, Cells(bytes), lineNr), BasicLine(lineNr, Data(bytes)))
  {
    JoinedIsScanned(bytes, Cells(bytes));
    forall i | 0 <= i < |bytes| ensures '\n' !in Cells(bytes)[i] { PaddedHasNoEndOfLine(bytes[i]); }
    JoinedHasNoEndOfLine(Cells(bytes));
    DataTextIsRead(lineNr, Joined(Cells(bytes)), bytes);
  }

  lemma JoinedNext(cell: string, cells: seq<string>)
    requires cells != []
    ensures Joined([cell] + cells) == (cell + ",") + Joined(cells)
  {
    assert ([cell] + cells)[1..] == cells;
  }

  // ----- columns -----

  predicate IsBlank(c: char) {
    c == ' '
  }

  lemma ByteDigits(b: Byte)
    ensures |Decimal(b)| == if b < 10 then 1 else if b < 100 then 2 else 3
  {
    assert b / 10 / 10 < 10;
    assert |Decimal(b / 10)| == if b < 100 then 1 else 2;
  }

  lemma PaddedFills(n: nat, width: nat)
    requires |Decimal(n)| <= width
    ensures |Padded(n, width)| == width && Padded(n, width)[width - |Decimal(n)|..] == Decimal(n)
    ensures forall i :: 0 <= i < width - |Decimal(n)| ==> IsBlank(Padded(n, width)[i])
  {
  }

  /** Every value takes three characters: blanks, then its one to three digits. */
  lemma CellsAreThreeWide(b: Byte)
    ensures |Decimal(b)| == if b < 10 then 1 else if b < 100 then 2 else 3
    ensures |Padded(b, 3)| == 3 && Padded(b, 3)[3 - |Decimal(b)|..] == Decimal(b)
    ensures forall i :: 0 <= i < 3 - |Decimal(b)| ==> IsBlank(Padded(b, 3)[i])
  {
    ByteDigits(b);
    PaddedFills(b, 3);
  }

  lemma {:induction false} JoinedColumns(cells: seq<string>, k: nat)
    requires k < |cells| && forall i :: 0 <= i < |cells| ==> |cells[i]| == 3
    ensures var s := Joined(cells);
            && |s| == 4 * |cells| - 1 && s[4 * k..4 * k + 3] == cells[k]
            && (k + 1 < |cells| ==> s[4 * k + 3] == ',')
  {
    if |cells| == 1 {
    } else {
      var s, rest := Joined(cells), Joined(cells[1..]);
      JoinedColumns(cells[1..], if k == 0 then 0 else k - 1);
      assert s == cells[0] + "," + rest;
      if k == 0 {
        assert s[0..3] == cells[0];
      } else {
        assert s[4 * k..4 * k + 3] == rest[4 * (k - 1)..4 * (k - 1) + 3];
      }
    }
  }

  lemma HeadedColumns(head: string, text: string, cell: string, k: nat, n: nat)
    requires k < n && |text| == 4 * n - 1 && text[4 * k..4 * k + 3] == cell
    ensures var s, h := head + text, |head|;
            && |s| == h + 4 * n - 1 && s[..h] == head && s[h + 4 * k..h + 4 * k + 3] == cell
            && (k + 1 < n ==> s[h + 4 * k + 3] == text[4 * k + 3])
  {
    SliceAfter(head, text, 4 * k, 4 * k + 3);
    SliceWithin(head, text, 0, |head|);
  }

  /** The columns of a data line: after its head every four characters a value, filled with blanks
      on the left, and a comma if another one follows. */
  lemma DataLineColumns(bytes: seq<Byte>, lineNr: nat, k: nat)
    requires k < |bytes|
    ensures var s, h := ChunkText(DataHead, Cells(bytes), lineNr), |Decimal(lineNr)| + 6;
            && |s| == h + 4 * |bytes| - 1 && s[..h] == Decimal(lineNr) + " data "
            && s[h + 4 * k..h + 4 * k + 3] == Padded(bytes[k], 3)
            && (k + 1 < |bytes| ==> s[h + 4 * k + 3] == ',')
  {
    var head, text := DataHead(lineNr), Joined(Cells(bytes));
    forall i | 0 <= i < |bytes| ensures |Cells(bytes)[i]| == 3 { CellsAreThreeWide(bytes[i]); }
    JoinedColumns(Cells(bytes), k);
    HeadedColumns(head, text, Cells(bytes)[k], k, |bytes|);
  }

  function Least(m: nat, n: nat): nat {
    if m < n then m else n
  }

  lemma LastTurn(head: nat -> string, cells: seq<string>, p: nat, lineNr: nat)
    requires 1 <= p <= 3 && cells != [] && Least(|cells|, 4 - p) == 1
    ensures BytesText(head, cells, p, lineNr) == Joined(cells[..1]) + BytesText(head, cells[1..], 0, lineNr)
  {
    assert ByteTurn(head, cells, p, lineNr) == cells[0];
    assert Joined(cells[..1]) == cells[0];
  }

  lemma MiddleTurn(head: nat -> string, cells: seq<string>, p: nat, lineNr: nat)
    requires 1 <= p <= 3 && cells != [] && Least(|cells|, 4 - p) > 1
    ensures BytesText(head, cells, p, lineNr) == (cells[0] + ",") + BytesText(head, cells[1..], p + 1, lineNr)
  {
    assert ByteTurn(head, cells, p, lineNr) == cells[0] + ",";
  }

  lemma JoinedFront(cells: seq<string>, n: nat)
    requires 1 < n <= |cells|
    ensures Joined(cells[..n]) == (cells[0] + ",") + Joined(cells[1..][..n - 1])
  {
    assert cells[..n] == [cells[0]] + cells[1..][..n - 1];
    JoinedNext(cells[0], cells[1..][..n - 1]);
  }

  /** Inside a data line: the values up to its end, joined by commas. */
  lemma {:induction false} RestOfChunk(head: nat -> string, cells: seq<string>, p: nat, lineNr: nat)
    requires 1 <= p <= 3 && cells != []
    ensures var n := Least(|cells|, 4 - p);
            BytesText(head, cells, p, lineNr) == Joined(cells[..n]) + BytesText(head, cells[n..], 0, lineNr)
    decreases |cells|
  {
    var n := Least(|cells|, 4 - p);
    if n == 1 {
      LastTurn(head, cells, p, lineNr);
    } else {
      var rest := cells[1..];
      MiddleTurn(head, cells, p, lineNr);
      RestOfChunk(head, rest, p + 1, lineNr);
      JoinedFront(cells, n);
      assert cells[n..] == rest[n - 1..];
      Assoc(cells[0] + ",", Joined(rest[..n - 1]), BytesText(head, cells[n..], 0, lineNr));
    }
  }

  lemma GlueChunk(head: string, first: string, tail: string, rest: string)
    ensures (("\n" + head) + first) + (tail + rest) == ("\n" + (head + (first + tail))) + rest
  {
    Assoc(("\n" + head) + first, tail, rest);
    Assoc("\n" + head, first, tail);
    Assoc("\n", head, first + tail);
  }

  lemma WholeChunk(head: nat -> string, cells: seq<string>, lineNr: nat)
    requires cells != []
    ensures var n := Least(|cells|, 4);
            BytesText(head, cells, 0, lineNr)
            == ("\n" + ChunkText(head, cells[..n], lineNr)) + BytesText(head, cells[n..], 0, lineNr + 10)
  {
    var n := Least(|cells|, 4);
    if |cells| == 1 {
      assert cells[..1] == [cells[0]];
      Assoc("\n", head(lineNr), cells[0]);
      assert ("\n" + head(lineNr)) + cells[0] + "" == ("\n" + head(lineNr)) + cells[0];
    } else {
      var rest := cells[1..];
      RestOfChunk(head, rest, 1, lineNr + 10);
      JoinedFront(cells, n);
      assert cells[n..] == rest[n - 1..];
      Assoc("\n" + head(lineNr), cells[0], ",");
      GlueChunk(head(lineNr), cells[0] + ",", Joined(rest[..n - 1]), BytesText(head, cells[n..], 0, lineNr + 10));
    }
  }

  function ChunkTexts(head: nat -> string, cells: seq<string>, lineNr: nat): seq<string> {
    if cells == [] then []
    else if |cells| <= 4 then [ChunkText(head, cells, lineNr)]
    else [ChunkText(head, cells[..4], lineNr)] + ChunkTexts(head, cells[4..], lineNr + 10)
  }

  lemma LinesTextNext(t: string, ts: seq<string>)
    ensures LinesText([t] + ts) == (t + "\n") + LinesText(ts)
  {
    assert ([t] + ts)[1..] == ts;
  }

  lemma CloseChunk(text: string, rest: string, more: string)
    requires rest + "\n" == "\n" + more
    ensures (("\n" + text) + rest) + "\n" == "\n" + ((text + "\n") + more)
  {
    Assoc("\n" + text, rest, "\n");
    Assoc("\n", text, "\n" + more);
    Assoc(text, "\n", more);
  }

  /** The end-of-line that opens each data line closes the line before it. */
  lemma {:induction false} ByteLoopWritesChunks(head: nat -> string, cells: seq<string>, lineNr: nat)
    ensures BytesText(head, cells, 0, lineNr) + "\n" == "\n" + LinesText(ChunkTexts(head, cells, lineNr))
    decreases |cells|
  {
    if cells == [] {
    } else {
      var n := Least(|cells|, 4);
      var more := ChunkTexts(head, cells[n..], lineNr + 10);
      WholeChunk(head, cells, lineNr);
      ByteLoopWritesChunks(head, cells[n..], lineNr + 10);
      assert |cells| <= 4 ==> cells[..n] == cells;
      assert ChunkTexts(head, cells, lineNr) == [ChunkText(head, cells[..n], lineNr)] + more;
      LinesTextNext(ChunkText(head, cells[..n], lineNr), more);
      CloseChunk(ChunkText(head, cells[..n], lineNr), BytesText(head, cells[n..], 0, lineNr + 10), LinesText(more));
    }
  }

  // ----- the whole text -----

  function BlockTexts(b: MemBlock, lineNr: nat): seq<string> {
    [RemarkText(lineNr), HeadText(b, lineNr + 10)] + ChunkTexts(DataHead, Cells(b.bytes), lineNr + 20)
  }

  function BlocksTexts(bs: seq<MemBlock>, lineNr: nat): seq<string> {
    Flat(BlockTexts, bs, lineNr)
  }

  function ListingTexts(bs: seq<MemBlock>): seq<string> {
    LOADER_TEXT + CountTexts(|bs|) + BlocksTexts(bs, 220)
  }

  lemma TwoLines(first: string, second: string, rest: string, more: seq<string>)
    requires rest + "\n" == "\n" + LinesText(more)
    ensures first + "\n" + second + rest + "\n" == LinesText([first, second] + more)
  {
    assert [first, second] + more == [first] + ([second] + more);
    LinesTextNext(first, [second] + more);
    LinesTextNext(second, more);
    Assoc(first + "\n" + second, rest, "\n");
    Assoc(first + "\n", second, "\n" + LinesText(more));
    Assoc(second, "\n", LinesText(more));
  }

  lemma BlockIsPrinted(b: MemBlock, lineNr: nat)
    ensures BlockText(b, lineNr) == LinesText(BlockTexts(b, lineNr))
  {
    var cells := Cells(b.bytes);
    ByteLoopWritesChunks(DataHead, cells, lineNr + 20);
    TwoLines(RemarkText(lineNr), HeadText(b, lineNr + 10),
             BytesText(DataHead, cells, 0, lineNr + 20), ChunkTexts(DataHead, cells, lineNr + 20));
  }

  lemma {:induction false} FlatIsPrinted(f: (MemBlock, nat) -> string, g: (MemBlock, nat) -> seq<string>,
                                         bs: seq<MemBlock>, lineNr: nat)
    requires forall b, n :: f(b, n) == LinesText(g(b, n))
    ensures Flat(f, bs, lineNr) == LinesText(Flat(g, bs, lineNr))
  {
    if bs == [] {
    } else {
      var next := lineNr + 20 + 10 * DataLines(|bs[0].bytes|);
      FlatIsPrinted(f, g, bs[1..], next);
      LinesTextConcat(g(bs[0], lineNr), Flat(g, bs[1..], next));
    }
  }

  lemma BlocksArePrinted(bs: seq<MemBlock>, lineNr: nat)
    ensures BlocksText(bs, lineNr) == LinesText(BlocksTexts(bs, lineNr))
  {
    forall b, n: nat ensures BlockText(b, n) == LinesText(BlockTexts(b, n)) { BlockIsPrinted(b, n); }
    FlatIsPrinted(BlockText, BlockTexts, bs, lineNr);
  }

  lemma ListingIsPrinted(bs: seq<MemBlock>)
    ensures ListingText(bs) == LinesText(ListingTexts(bs))
  {
    BlocksArePrinted(bs, 220);
    LinesTextConcat(LOADER_TEXT + CountTexts(|bs|), BlocksTexts(bs, 220));
  }

  // ----- reading the whole text -----

  lemma AllReadConcat(ts: seq<string>, ls: seq<BasicLine>, more: seq<string>, further: seq<BasicLine>)
    requires AllRead(ts, ls) && AllRead(more, further)
    ensures AllRead(ts + more, ls + further)
  {
  }

  lemma OneIsRead(text: string, l: BasicLine)
    requires Reads(text, l)
    ensures AllRead([text], [l])
  {
  }

  lemma {:induction false} ChunksAreRead(bytes: seq<Byte>, lineNr: nat)
    ensures AllRead(ChunkTexts(DataHead, Cells(bytes), lineNr), ChunkLines(bytes, lineNr))
  {
    if bytes == [] {
    } else if |bytes| <= 4 {
      ChunkIsRead(bytes, lineNr);
      OneIsRead(ChunkText(DataHead, Cells(bytes), lineNr), BasicLine(lineNr, Data(bytes)));
    } else {
      var first := ChunkText(DataHead, Cells(bytes[..4]), lineNr);
      assert Cells(bytes)[..4] == Cells(bytes[..4]) && Cells(bytes)[4..] == Cells(bytes[4..]);
      ChunkIsRead(bytes[..4], lineNr);
      OneIsRead(first, BasicLine(lineNr, Data(bytes[..4])));
      ChunksAreRead(bytes[4..], lineNr + 10);
      AllReadConcat([first], [BasicLine(lineNr, Data(bytes[..4]))],
                    ChunkTexts(DataHead, Cells(bytes[4..]), lineNr + 10), ChunkLines(bytes[4..], lineNr + 10));
    }
  }

  lemma BlockRemark()
    ensures " rem block start number bytes" == " " + ("rem" + " block start number bytes")
  {
  }

  lemma CountRemark()
    ensures " rem number of mem blocks" == " " + ("rem" + " number of mem blocks")
  {
  }

  lemma RemarkTextIsRead(lineNr: nat)
    ensures Reads(RemarkText(lineNr), BasicLine(lineNr, Rem))
  {
    BlockRemark();
    RemarkIsRead(lineNr, " block start number bytes");
  }

  lemma HeadTextIsRead(b: MemBlock, lineNr: nat)
    ensures Reads(HeadText(b, lineNr), BasicLine(lineNr, Data([b.start, |b.bytes|])))
  {
    var pair := Decimal(b.start) + ", " + Decimal(|b.bytes|);
    PairIsRead(b.start, |b.bytes|);
    DataTextIsRead(lineNr, pair, [b.start, |b.bytes|]);
    Assoc(DataHead(lineNr), Decimal(b.start), ", ");
    Assoc(DataHead(lineNr), Decimal(b.start) + ", ", Decimal(|b.bytes|));
  }

  lemma TwoAreRead(first: string, l: BasicLine, second: string, m: BasicLine)
    requires Reads(first, l) && Reads(second, m)
    ensures AllRead([first, second], [l, m])
  {
  }

  lemma BlockIsRead(b: MemBlock, lineNr: nat)
    ensures AllRead(BlockTexts(b, lineNr), BlockLines(b, lineNr))
  {
    var texts := [RemarkText(lineNr), HeadText(b, lineNr + 10)];
    var lines := [BasicLine(lineNr, Rem), BasicLine(lineNr + 10, Data([b.start, |b.bytes|]))];
    RemarkTextIsRead(lineNr);
    HeadTextIsRead(b, lineNr + 10);
    TwoAreRead(texts[0], lines[0], texts[1], lines[1]);
    ChunksAreRead(b.bytes, lineNr + 20);
    AllReadConcat(texts, lines, ChunkTexts(DataHead, Cells(b.bytes), lineNr + 20), ChunkLines(b.bytes, lineNr + 20));
  }

  lemma {:induction false} FlatIsRead(g: (MemBlock, nat) -> seq<string>, h: (MemBlock, nat) -> seq<BasicLine>,
                                      bs: seq<MemBlock>, lineNr: nat)
    requires forall b, n :: AllRead(g(b, n), h(b, n))
    ensures AllRead(Flat(g, bs, lineNr), Flat(h, bs, lineNr))
  {
    if bs == [] {
    } else {
      var next := lineNr + 20 + 10 * DataLines(|bs[0].bytes|);
      FlatIsRead(g, h, bs[1..], next);
      AllReadConcat(g(bs[0], lineNr), h(bs[0], lineNr), Flat(g, bs[1..], next), Flat(h, bs[1..], next));
    }
  }

  lemma BlocksAreRead(bs: seq<MemBlock>, lineNr: nat)
    ensures AllRead(BlocksTexts(bs, lineNr), BlocksLines(bs, lineNr))
  {
    forall b, n: nat ensures AllRead(BlockTexts(b, n), BlockLines(b, n)) { BlockIsRead(b, n); }
    FlatIsRead(BlockTexts, BlockLines, bs, lineNr);
  }

  lemma CountRemarkIsRead()
    ensures Reads(Decimal(200) + " rem number of mem blocks", BasicLine(200, Rem))
  {
    CountRemark();
    RemarkIsRead(200, " number of mem blocks");
  }

  lemma CountTextsAreRead(n: nat)
    ensures AllRead(CountTexts(n), [BasicLine(200, Rem), BasicLine(210, Data([n]))])
  {
    CountRemarkIsRead();
    CountIsRead(n);
    DataTextIsRead(210, Decimal(n), [n]);
    TwoAreRead(CountTexts(n)[0], BasicLine(200, Rem), CountTexts(n)[1], BasicLine(210, Data([n])));
  }

  lemma ListingIsRead(bs: seq<MemBlock>)
    ensures AllRead(ListingTexts(bs), Listing(bs))
  {
    var count := [BasicLine(200, Rem), BasicLine(210, Data([|bs|]))];
    LoaderIsRead();
    CountTextsAreRead(|bs|);
    BlocksAreRead(bs, 220);
    AllReadConcat(LOADER_TEXT, LOADER, CountTexts(|bs|), count);
    AllReadConcat(LOADER_TEXT + CountTexts(|bs|), LOADER + count, BlocksTexts(bs, 220), BlocksLines(bs, 220));
    Assoc(LOADER, count, BlocksLines(bs, 220));
  }

  lemma FirstLineIsRead(text: string, l: BasicLine, rest: string)
    requires Reads(text, l) && ReadListing(rest).Some?
    ensures ReadListing((text + "\n") + rest) == Some([l] + ReadListing(rest).value)
  {
    var all := (text + "\n") + rest;
    assert all[|text|] == '\n';
    assert forall k :: 0 <= k < |text| ==> all[k] == text[k];
    assert LineLength(all) == |text|;
    assert all[..|text|] == text;
    assert all[|text| + 1..] == rest;
  }

  lemma AllReadTail(ts: seq<string>, ls: seq<BasicLine>)
    requires AllRead(ts, ls) && ts != []
    ensures Reads(ts[0], ls[0]) && AllRead(ts[1..], ls[1..])
    ensures ls == [ls[0]] + ls[1..]
  {
    assert forall i :: 0 <= i < |ts| - 1 ==> ts[1..][i] == ts[i + 1] && ls[1..][i] == ls[i + 1];
  }

  lemma {:induction false} LinesAreRead(ts: seq<string>, ls: seq<BasicLine>)
    requires AllRead(ts, ls)
    ensures ReadListing(LinesText(ts)) == Some(ls)
  {
    if ts == [] {
    } else {
      AllReadTail(ts, ls);
      LinesAreRead(ts[1..], ls[1..]);
      FirstLineIsRead(ts[0], ls[0], LinesText(ts[1..]));
    }
  }

  /** Reading the printed text, character by character, gives the loader and, after it, the
      data section: one count line, and per block its address, its length and its bytes, one
      to four a line with a comma between any two. */
  lemma PrintedListingReadsBack(bs: seq<MemBlock>)
    ensures ReadListing(ListingText(bs)) == Some(Listing(bs))
  {
    ListingIsPrinted(bs);
    ListingIsRead(bs);
    LinesAreRead(ListingTexts(bs), Listing(bs));
  }

  // ----- line numbers -----

  ghost predicate NumberedFrom(ls: seq<BasicLine>, n: nat) {
    forall i :: 0 <= i < |ls| ==> ls[i].number == n + 10 * i
  }

  lemma {:induction false} ChunkNumbers(bytes: seq<Byte>, lineNr: nat)
    ensures NumberedFrom(ChunkLines(bytes, lineNr), lineNr)
    ensures |ChunkLines(bytes, lineNr)| == DataLines(|bytes|)
  {
    if |bytes| <= 4 {
    } else {
      ChunkNumbers(bytes[4..], lineNr + 10);
    }
  }

  function DataLinesOf(bs: seq<MemBlock>): nat {
    if bs == [] then 0 else 2 + DataLines(|bs[0].bytes|) + DataLinesOf(bs[1..])
  }

  lemma {:induction false} BlocksNumbers(bs: seq<MemBlock>, lineNr: nat)
    ensures NumberedFrom(BlocksLines(bs, lineNr), lineNr)
    ensures |BlocksLines(bs, lineNr)| == DataLinesOf(bs)
  {
    if bs == [] {
    } else {
      ChunkNumbers(bs[0].bytes, lineNr + 20);
      BlocksNumbers(bs[1..], lineNr + 20 + 10 * DataLines(|bs[0].bytes|));
    }
  }

  lemma NumbersStayBelow(ls: seq<BasicLine>, n: nat, l: BasicLine)
    requires NumberedFrom(ls, n) && l in ls
    ensures l.number <= n + 10 * (|ls| - 1)
  {
  }

  lemma DataNumbers(bs: seq<MemBlock>)
    ensures NumberedFrom(DataSection(bs), 200) && |DataSection(bs)| == 2 + DataLinesOf(bs)
  {
    BlocksNumbers(bs, 220);
  }

  /** Data lines are numbered by tens from 200; the last number is known beforehand, and
      while it is a legal one so are all the others. */
  lemma ListingNumbers(bs: seq<MemBlock>)
    ensures NumberedFrom(DataSection(bs), 200)
    ensures var ds := DataSection(bs); ds != [] && ds[|ds| - 1].number == 210 + 10 * DataLinesOf(bs)
    ensures forall l :: l in Listing(bs) ==> l.number <= 210 + 10 * DataLinesOf(bs)
  {
    var ds := DataSection(bs);
    DataNumbers(bs);
    forall l | l in Listing(bs) ensures l.number <= 210 + 10 * DataLinesOf(bs) {
      if l in ds { NumbersStayBelow(ds, 200, l); }
      else { assert l in LOADER; }
    }
  }
}
