/** Each source line and what the finished program has of it: its record, its piece, and the
    value of every symbol it defines. */
module SourceLines {
  import opened Words
  import opened Expressions
  import opened Source
  import opened OnePass
  import opened TwoPass
  import opened EmissionProofs
  import opened RunProofs
  import opened Refinement
  import opened Coverage

  /** The listener before line `i`. */
  function Before(lines: seq<Line>, i: nat): State
    requires i <= |lines|
  {
    Run(INITIAL, lines[..i])
  }

  /** The symbols that are known when the body of line `i` is reached. */
  function KnownAt(lines: seq<Line>, i: nat): Table
    requires i < |lines|
  {
    BindLabel(Before(lines, i), lines[i]).table
  }

  lemma {:induction false} RunNext(s: State, lines: seq<Line>, l: Line)
    ensures Run(s, lines + [l]) == Step(Run(s, lines), l)
    decreases |lines|
  {
    if lines == [] {
      assert ([] + [l])[1..] == [];
      assert Run(s, [l]) == Run(Step(s, l), []);
    } else {
      assert (lines + [l])[1..] == lines[1..] + [l];
      RunNext(Step(s, lines[0]), lines[1..], l);
    }
  }

  lemma BeforeNext(lines: seq<Line>, i: nat)
    requires i < |lines|
    ensures Before(lines, i + 1) == Step(Before(lines, i), lines[i])
  {
    assert lines[..i + 1] == lines[..i] + [lines[i]];
    RunNext(INITIAL, lines[..i], lines[i]);
  }

  /** The run from line `i` on. */
  lemma {:induction false} RunFrom(lines: seq<Line>, i: nat)
    requires i <= |lines|
    ensures Run(Before(lines, i), lines[i..]) == Run(INITIAL, lines)
  {
    if i == 0 {
      assert lines[0..] == lines;
    } else {
      RunFrom(lines, i - 1);
      BeforeNext(lines, i - 1);
      assert lines[i - 1..][1..] == lines[i..];
    }
  }

  lemma RecordsSoFar(lines: seq<Line>, i: nat)
    requires i <= |lines|
    ensures |Before(lines, i).codeLines| == i
    ensures |Run(INITIAL, lines).codeLines| == |lines|
    ensures Grows(Before(lines, i), Run(INITIAL, lines))
  {
    RunGrows(INITIAL, lines[..i]);
    RunGrows(Before(lines, i), lines[i..]);
    RunFrom(lines, i);
  }

  lemma PiecesTail(p: Point, lines: seq<Line>, ps: seq<Placed>, k: nat)
    requires lines != [] && k <= |ps| && ps[k..] == Pieces(p, lines)
    ensures var next := k + |PlacedAt(p, lines[0])|;
            && next <= |ps| && ps[next..] == Pieces(Next(p, lines[0]), lines[1..])
            && ps[k..next] == PlacedAt(p, lines[0])
  {
    var first, rest := PlacedAt(p, lines[0]), Pieces(Next(p, lines[0]), lines[1..]);
    assert ps[k..] == first + rest;
    assert ps[k + |first|..] == ps[k..][|first|..];
    assert ps[k..k + |first|] == ps[k..][..|first|];
  }

  /** The rest of an error-free run is an error-free run, and its pieces are a suffix. */
  lemma {:induction false} GoodRunFrom(lines: seq<Line>, i: nat) returns (p: Point, k: nat)
    requires Assembles(lines) && i <= |lines|
    ensures GoodRun(Before(lines, i), p, lines[i..], FinalTable(START, lines))
    ensures k <= |Pieces(START, lines)| && Pieces(START, lines)[k..] == Pieces(p, lines[i..])
  {
    if i == 0 {
      AssemblingRun(lines);
      assert lines[0..] == lines;
      p, k := START, 0;
    } else {
      var before, j := GoodRunFrom(lines, i - 1);
      GoodRunTail(Before(lines, i - 1), before, lines[i - 1..], FinalTable(START, lines));
      PiecesTail(before, lines[i - 1..], Pieces(START, lines), j);
      BeforeNext(lines, i - 1);
      assert lines[i - 1..][1..] == lines[i..];
      p, k := Next(before, lines[i - 1]), j + |PlacedAt(before, lines[i - 1])|;
    }
  }

  /** What a line without an error has, given the final symbols. */
  ghost predicate GoodLine(s: State, p: Point, l: Line, t: Table) {
    && Agrees(s, p) && LineFits(s, l) && CleanLine(s, l, t) && Step(s, l).errors == s.errors
    && Extends(t, BindLabel(s, l).table) && Extends(t, Step(s, l).table)
  }

  lemma LineOfRun(lines: seq<Line>, i: nat) returns (p: Point, k: nat)
    requires Assembles(lines) && i < |lines|
    ensures GoodLine(Before(lines, i), p, lines[i], Assembled(lines).table)
    ensures var ps, next := Pieces(START, lines), k + |PlacedAt(p, lines[i])|;
            next <= |ps| && ps[k..next] == PlacedAt(p, lines[i])
  {
    p, k := GoodRunFrom(lines, i);
    AssemblingRun(lines);
    PiecesTail(p, lines[i..], Pieces(START, lines), k);
    GoodRunTail(Before(lines, i), p, lines[i..], FinalTable(START, lines));
    RunGrows(Step(Before(lines, i), lines[i]), lines[i..][1..]);
  }

  // ----- records and addresses -----

  /** The record of line `i`, and where the line after it goes. */
  lemma RecordOfLine(lines: seq<Line>, i: nat)
    requires i < |lines|
    ensures |Assembled(lines).codeLines| == |lines|
    ensures var after := Step(Before(lines, i), lines[i]);
            && Before(lines, i + 1) == after && |after.codeLines| == i + 1
            && Assembled(lines).codeLines[i] == after.codeLines[i]
  {
    AssembledIsResolved(lines);
    BeforeNext(lines, i);
    RecordsSoFar(lines, i + 1);
  }

  lemma LabelKeepsRecords(s: State, l: Line)
    ensures BindLabel(s, l).codeLines == s.codeLines
  {
  }

  /** Without bytes the record is (0, 0). */
  function RecordFor(a: U32, n: nat): CodeLine
    requires a + n <= ADDR_INVALID
  {
    if n == 0 then CodeLine(0, 0) else CodeLine(a, n)
  }

  lemma EmittedRecord(s: State, e: Emission)
    requires s.cur + Claim(e) <= ADDR_INVALID && (e.gap ==> |e.bytes| == 1)
    ensures Emitted(s, e).codeLines == s.codeLines + [RecordFor(s.cur, Claim(e))]
    ensures Emitted(s, e).cur == s.cur + Claim(e)
  {
    EmittedCodeLine(s, e);
    EmittedAdvances(s, e);
  }

  lemma EmittingRecord(s: State, p: Point, l: Line, t: Table)
    requires GoodLine(s, p, l, t) && Emits(l.body)
    ensures PieceOf(l.body, BindLabel(s, l).table).Some?
    ensures var n, after := Size(PieceOf(l.body, BindLabel(s, l).table).value), Step(s, l);
            && s.cur + n <= ADDR_INVALID && after.cur == s.cur + n
            && after.codeLines == s.codeLines + [RecordFor(s.cur, n)]
  {
    StepErrors(s, p, l);
    ClaimIsSize(l.body, s.cur, BindLabel(s, l).table);
    EmitIsOrderly(l.body, s.cur, BindLabel(s, l).table, 0);
    LabelKeepsSlots(s, l);
    LabelKeepsRecords(s, l);
    EmittedRecord(BindLabel(s, l), EmissionOf(s, l));
    StepEmits(s, l);
  }

  /** The piece of a line that emits, and its record, which is (0, 0) without bytes. */
  lemma PieceOfLine(lines: seq<Line>, i: nat) returns (k: nat)
    requires Assembles(lines) && i < |lines| && Emits(lines[i].body)
    ensures PieceOf(lines[i].body, KnownAt(lines, i)).Some?
    ensures var p := Placed(Before(lines, i).cur, PieceOf(lines[i].body, KnownAt(lines, i)).value);
            && p.address + Size(p.piece) <= ADDR_INVALID
            && k < |Pieces(START, lines)| && Pieces(START, lines)[k] == p
            && |Assembled(lines).codeLines| == |lines|
            && Assembled(lines).codeLines[i] == RecordFor(p.address, Size(p.piece))
    ensures Extends(Assembled(lines).table, KnownAt(lines, i))
  {
    var p;
    p, k := LineOfRun(lines, i);
    RecordOfLine(lines, i);
    EmittingRecord(Before(lines, i), p, lines[i], Assembled(lines).table);
    RecordsSoFar(lines, i);
    assert Pieces(START, lines)[k..k + 1] == PlacedAt(p, lines[i]);
    assert Pieces(START, lines)[k..k + 1][0] == Pieces(START, lines)[k];
  }

  /** Where `.ORG` sends the lines after it, if its value is known when it is reached. */
  function OrgTarget(body: Body, t: Table): Option<U32> {
    if body.Org? && Meaning(body.address, t).Known? then Some(Meaning(body.address, t).v) else None
  }

  /** The address in the record of a line without bytes. */
  function EmptyStart(target: Option<U32>): U32 {
    if target.Some? && target.value != ADDR_INVALID then target.value else 0
  }

  lemma QuietRecord(s: State, l: Line)
    requires !Emits(l.body)
    ensures var target, after := OrgTarget(l.body, BindLabel(s, l).table), Step(s, l);
            && |after.codeLines| == |s.codeLines| + 1 && after.codeLines[|s.codeLines|].length == 0
            && after.cur == (if target.Some? then target.value else s.cur)
            && after.codeLines[|s.codeLines|].start == EmptyStart(target)
  {
    StepGrows(s, l);
    LabelKeepsRecords(s, l);
    LabelKeepsSlots(s, l);
  }

  /** The address law of a program that assembles: it starts at zero, a line's bytes go to the
      address it finds, and the next line finds the address after them, or the one that an
      `.ORG` names. */
  lemma AddressesFollow(lines: seq<Line>, i: nat)
    requires Assembles(lines) && i < |lines|
    ensures Before(lines, 0).cur == 0 && |Assembled(lines).codeLines| == |lines|
    ensures var c, here := Assembled(lines).codeLines[i], Before(lines, i).cur;
            var target := OrgTarget(lines[i].body, KnownAt(lines, i));
            && (c.length > 0 ==> c.start == here && c.start + c.length <= ADDR_INVALID && target.None?)
            && (c.length == 0 ==> c.start == EmptyStart(target))
            && Before(lines, i + 1).cur == if target.Some? then target.value else here + c.length
  {
    RecordOfLine(lines, i);
    RecordsSoFar(lines, i);
    if Emits(lines[i].body) {
      var p, k := LineOfRun(lines, i);
      EmittingRecord(Before(lines, i), p, lines[i], Assembled(lines).table);
    } else {
      QuietRecord(Before(lines, i), lines[i]);
    }
  }

  // ----- symbols -----

  lemma LineDefines(s: State, p: Point, l: Line, t: Table)
    requires GoodLine(s, p, l, t)
    ensures l.labelId.Some? ==> l.labelId.value in t && t[l.labelId.value] == s.cur
    ensures l.body.Assign? ==> l.body.id in t && Meaning(l.body.tree, t) == Known(t[l.body.id])
  {
    StepErrors(s, p, l);
    if l.body.Assign? { MeaningIsStable(l.body.tree, BindLabel(s, l).table, t); }
  }

  /** The final symbols solve the equations of the source: every label, on a line with bytes or
      without, is the address its line finds; every assigned symbol is the value its expression
      has under all the final symbols. */
  lemma SymbolsSolveTheSource(lines: seq<Line>, i: nat)
    requires Assembles(lines) && i < |lines|
    ensures var t, l := Assembled(lines).table, lines[i];
            && (l.labelId.Some? ==> l.labelId.value in t && t[l.labelId.value] == Before(lines, i).cur)
            && (l.body.Assign? ==> l.body.id in t && Meaning(l.body.tree, t) == Known(t[l.body.id]))
  {
    var p, k := LineOfRun(lines, i);
    LineDefines(Before(lines, i), p, lines[i], Assembled(lines).table);
  }
}
