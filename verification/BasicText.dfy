/** The characters of a BASIC line: decimal numbers, words and signs, and the scanner that
    finds them again. */
module BasicText {
  import opened Words

  datatype Var = NB | BI | ADDR | NBY | BYI | BYVL

  datatype Key = READ | FOR | TO | POKE | NEXT | END | REM | DATA

  datatype Token = Number(n: nat) | Keyword(k: Key) | Name(v: Var) | Sign(c: char) | Unknown(word: string)

  function Letters(v: Var): string {
    match v
    case NB => "nb"
    case BI => "bi"
    case ADDR => "addr"
    case NBY => "nby"
    case BYI => "byi"
    case BYVL => "byvl"
  }

  function Spelling(k: Key): string {
    match k
    case READ => "read"
    case FOR => "for"
    case TO => "to"
    case POKE => "poke"
    case NEXT => "next"
    case END => "end"
    case REM => "rem"
    case DATA => "data"
  }

  // ----- numbers -----

  const DIGITS: string := "0123456789"

  function Decimal(n: nat): string {
    if n < 10 then [DIGITS[n]] else Decimal(n / 10) + [DIGITS[n % 10]]
  }

  /** Filled with blanks on the left. */
  function Padded(n: nat, width: nat): string {
    var ds := Decimal(n);
    (if |ds| < width then seq(width - |ds|, _ => ' ') else "") + ds
  }

  predicate IsDigit(c: char) {
    '0' <= c <= '9'
  }

  predicate IsLetter(c: char) {
    'a' <= c <= 'z'
  }

  function DigitValue(c: char): nat {
    if IsDigit(c) then (c - '0') as nat else 0
  }

  function ParseDecimal(s: string): nat {
    if s == "" then 0 else 10 * ParseDecimal(s[..|s| - 1]) + DigitValue(s[|s| - 1])
  }

  lemma DigitIsRead(d: nat)
    requires d < 10
    ensures IsDigit(DIGITS[d]) && DigitValue(DIGITS[d]) == d
  {
  }

  lemma {:induction false} DecimalIsRead(n: nat)
    ensures Decimal(n) != ""
    ensures forall i :: 0 <= i < |Decimal(n)| ==> IsDigit(Decimal(n)[i])
    ensures ParseDecimal(Decimal(n)) == n
  {
    DigitIsRead(n % 10);
    if n < 10 {
      assert Decimal(n)[..0] == "";
    } else {
      DecimalIsRead(n / 10);
      assert Decimal(n)[..|Decimal(n)| - 1] == Decimal(n / 10);
    }
  }

  // ----- scanning -----

  function DigitRun(s: string): (k: nat)
    ensures k <= |s|
    ensures forall i :: 0 <= i < k ==> IsDigit(s[i])
    ensures k < |s| ==> !IsDigit(s[k])
  {
    if s == "" || !IsDigit(s[0]) then 0 else 1 + DigitRun(s[1..])
  }

  function LetterRun(s: string): (k: nat)
    ensures k <= |s|
    ensures forall i :: 0 <= i < k ==> IsLetter(s[i])
    ensures k < |s| ==> !IsLetter(s[k])
  {
    if s == "" || !IsLetter(s[0]) then 0 else 1 + LetterRun(s[1..])
  }

  function KeywordOf(w: string): Option<Key> {
    if w == "read" then Some(READ)
    else if w == "for" then Some(FOR)
    else if w == "to" then Some(TO)
    else if w == "poke" then Some(POKE)
    else if w == "next" then Some(NEXT)
    else if w == "end" then Some(END)
    else if w == "rem" then Some(REM)
    else if w == "data" then Some(DATA)
    else None
  }

  function VarOf(w: string): Option<Var> {
    if w == "nb" then Some(NB)
    else if w == "bi" then Some(BI)
    else if w == "addr" then Some(ADDR)
    else if w == "nby" then Some(NBY)
    else if w == "byi" then Some(BYI)
    else if w == "byvl" then Some(BYVL)
    else None
  }

  function WordToken(w: string): Token {
    match (KeywordOf(w), VarOf(w))
    case (Some(k), _) => Keyword(k)
    case (None, Some(v)) => Name(v)
    case _ => Unknown(w)
  }

  /** Blanks separate; what follows `rem` is a remark. */
  function Scan(s: string): seq<Token>
    decreases |s|
  {
    if s == "" then []
    else if s[0] == ' ' then Scan(s[1..])
    else if IsDigit(s[0]) then
      var k := DigitRun(s);
      [Number(ParseDecimal(s[..k]))] + Scan(s[k..])
    else if IsLetter(s[0]) then
      var k := LetterRun(s);
      var t := WordToken(s[..k]);
      if t == Keyword(REM) then [t] else [t] + Scan(s[k..])
    else [Sign(s[0])] + Scan(s[1..])
  }

  lemma KeywordsAreWords(k: Key)
    ensures WordToken(Spelling(k)) == Keyword(k)
    ensures Spelling(k) != "" && forall i :: 0 <= i < |Spelling(k)| ==> IsLetter(Spelling(k)[i])
  {
  }

  lemma NamesAreWords(v: Var)
    ensures WordToken(Letters(v)) == Name(v)
    ensures Letters(v) != "" && forall i :: 0 <= i < |Letters(v)| ==> IsLetter(Letters(v)[i])
  {
  }

  predicate NoDigitFirst(s: string) {
    s == "" || !IsDigit(s[0])
  }

  predicate NoLetterFirst(s: string) {
    s == "" || !IsLetter(s[0])
  }

  lemma ScanNumber(n: nat, rest: string)
    requires NoDigitFirst(rest)
    ensures Scan(Decimal(n) + rest) == [Number(n)] + Scan(rest)
  {
    var s := Decimal(n) + rest;
    DecimalIsRead(n);
    assert forall i :: 0 <= i < |Decimal(n)| ==> s[i] == Decimal(n)[i];
    assert rest != "" ==> s[|Decimal(n)|] == rest[0];
    assert DigitRun(s) == |Decimal(n)|;
    assert s[..|Decimal(n)|] == Decimal(n) && s[|Decimal(n)|..] == rest;
  }

  lemma ScanBlank(rest: string)
    ensures Scan(" " + rest) == Scan(rest)
  {
    assert (" " + rest)[1..] == rest;
  }

  lemma {:induction false} ScanBlanks(k: nat, rest: string)
    ensures Scan(seq(k, _ => ' ') + rest) == Scan(rest)
  {
    if k == 0 {
      assert seq(k, _ => ' ') + rest == rest;
    } else {
      ScanBlanks(k - 1, rest);
      ScanBlank(seq(k - 1, _ => ' ') + rest);
      assert seq(k, _ => ' ') + rest == " " + (seq(k - 1, _ => ' ') + rest);
    }
  }

  lemma ScanPadded(n: nat, width: nat, rest: string)
    requires NoDigitFirst(rest)
    ensures Scan(Padded(n, width) + rest) == [Number(n)] + Scan(rest)
  {
    var ds := Decimal(n);
    var fill := if |ds| < width then width - |ds| else 0;
    ScanNumber(n, rest);
    ScanBlanks(fill, ds + rest);
    assert Padded(n, width) + rest == seq(fill, _ => ' ') + (ds + rest);
  }

  lemma ScanSign(c: char, rest: string)
    requires c != ' ' && !IsDigit(c) && !IsLetter(c)
    ensures Scan([c] + rest) == [Sign(c)] + Scan(rest)
  {
    assert ([c] + rest)[1..] == rest;
  }

  lemma ScanWord(w: string, rest: string)
    requires w != "" && (forall i :: 0 <= i < |w| ==> IsLetter(w[i])) && NoLetterFirst(rest)
    ensures Scan(w + rest) == if WordToken(w) == Keyword(REM) then [Keyword(REM)] else [WordToken(w)] + Scan(rest)
  {
    var s := w + rest;
    assert forall i :: 0 <= i < |w| ==> s[i] == w[i];
    assert rest != "" ==> s[|w|] == rest[0];
    assert LetterRun(s) == |w|;
    assert s[..|w|] == w && s[|w|..] == rest;
  }

  lemma ScanKeyword(k: Key, rest: string)
    requires k != REM && NoLetterFirst(rest)
    ensures Scan(Spelling(k) + rest) == [Keyword(k)] + Scan(rest)
  {
    KeywordsAreWords(k);
    ScanWord(Spelling(k), rest);
  }

  lemma ScanRemark(rest: string)
    requires NoLetterFirst(rest)
    ensures Scan("rem" + rest) == [Keyword(REM)]
  {
    KeywordsAreWords(REM);
    ScanWord("rem", rest);
  }

  lemma ScanName(v: Var, rest: string)
    requires NoLetterFirst(rest)
    ensures Scan(Letters(v) + rest) == [Name(v)] + Scan(rest)
  {
    NamesAreWords(v);
    ScanWord(Letters(v), rest);
  }
}
