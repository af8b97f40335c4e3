/** Code lines and memory describe the same addresses, on every run. */
module Coverage {
  import opened Words
  import opened Expressions
  import opened Source
  import opened OnePass
  import opened TwoPass
  import opened Layers
  import opened EmissionProofs
  import opened RunProofs
  import opened Refinement

  // ----- every byte of every code line exists, wrap-around included -----

  /** The addresses a code line counts, round the end of the address space if need be. */
  predicate InLine(c: CodeLine, a: U32) {
    Wrap(a - c.start) < c.length
  }

  /** Written, or waiting for a branch offset. */
  predicate Backed(p: Memory, bs: seq<Branch>, a: U32) {
    a in p || ReservedForBranch(bs, a)
  }

  ghost predicate LineBacked(p: Memory, bs: seq<Branch>, c: CodeLine) {
    forall a: U32 :: InLine(c, a) ==> Backed(p, bs, a)
  }

  ghost predicate AllBacked(s: State) {
    forall i :: 0 <= i < |s.codeLines| ==> LineBacked(s.payload, s.branches, s.codeLines[i])
  }

  /** The line being written is backed up to the current address. */
  ghost predicate Following(c: Cursor) {
    c.line != ADDR_INVALID ==> forall a: U32 :: InLine(LineRecord(c.line, c.cur), a) ==> a in c.payload
  }

  lemma LineGrows(line: U32, cur: U32, a: U32)
    requires line != ADDR_INVALID && InLine(LineRecord(line, Inc(cur)), a)
    ensures InLine(LineRecord(line, cur), a) || a == cur
  {
  }

  lemma PutFollows(c: Cursor, b: Byte)
    requires Following(c)
    ensures Following(Put(c, b))
  {
    var d := Put(c, b);
    if d.line != ADDR_INVALID {
      forall a: U32 | InLine(LineRecord(d.line, d.cur), a) ensures a in d.payload {
        LineGrows(d.line, c.cur, a);
      }
    }
  }

  lemma {:induction false} PutAllFollows(c: Cursor, bs: seq<Byte>)
    requires Following(c)
    ensures Following(PutAll(c, bs))
    ensures c.payload.Keys <= PutAll(c, bs).payload.Keys
  {
    if bs == [] {
    } else {
      PutAllFollows(c, bs[..|bs| - 1]);
      PutFollows(PutAll(c, bs[..|bs| - 1]), bs[|bs| - 1]);
    }
  }

  /** The gap of a branch is the address after its opcode. */
  ghost predicate GapIsBranch(e: Emission, cur: U32) {
    e.gap ==> |e.bytes| == 1 && |e.branches| == 1 && e.branches[0].address == Inc(cur)
  }

  lemma WrittenLineIsBacked(s: State, e: Emission)
    requires GapIsBranch(e, s.cur)
    ensures var after := Emitted(s, e);
            LineBacked(after.payload, after.branches, after.codeLines[|s.codeLines|])
  {
    var c := Cursor(s.cur, ADDR_INVALID, s.payload);
    var w := PutAll(c, e.bytes);
    var after := Emitted(s, e);
    PutAllFollows(c, e.bytes);
    var line := LineRecord(w.line, after.cur);
    forall a: U32 | InLine(line, a) ensures Backed(after.payload, after.branches, a) {
      if e.gap {
        PutAllAdvances(c, e.bytes);
        LineGrows(w.line, w.cur, a);
        assert after.branches[|s.branches|].address == w.cur;
      }
    }
  }

  lemma BackedStays(s: State, later: State, c: CodeLine)
    requires s.branches <= later.branches && s.payload.Keys <= later.payload.Keys
    requires LineBacked(s.payload, s.branches, c)
    ensures LineBacked(later.payload, later.branches, c)
  {
    forall a: U32 | InLine(c, a) ensures Backed(later.payload, later.branches, a) {
      assert Backed(s.payload, s.branches, a);
      if ReservedForBranch(s.branches, a) {
        var i :| 0 <= i < |s.branches| && s.branches[i].address == a;
        assert later.branches[i].address == a;
      }
    }
  }

  lemma EmittedKeepsPayloadKeys(s: State, e: Emission)
    ensures s.payload.Keys <= Emitted(s, e).payload.Keys
  {
    PutAllFollows(Cursor(s.cur, ADDR_INVALID, s.payload), e.bytes);
  }

  lemma QuietLineIsEmpty(s: State, l: Line)
    requires !Emits(l.body)
    ensures Step(s, l).codeLines[|s.codeLines|].length == 0
  {
  }

  lemma NewLineIsBacked(s: State, l: Line)
    ensures LineBacked(Step(s, l).payload, Step(s, l).branches, Step(s, l).codeLines[|s.codeLines|])
    ensures s.payload.Keys <= Step(s, l).payload.Keys
  {
    if Emits(l.body) {
      StepEmits(s, l);
      WrittenLineIsBacked(BindLabel(s, l), EmissionOf(s, l));
      EmittedKeepsPayloadKeys(BindLabel(s, l), EmissionOf(s, l));
    } else {
      QuietLineKeepsPayload(s, l);
      QuietLineIsEmpty(s, l);
    }
  }

  lemma StepKeepsBacking(s: State, l: Line)
    requires AllBacked(s)
    ensures AllBacked(Step(s, l))
  {
    var after := Step(s, l);
    StepGrows(s, l);
    NewLineIsBacked(s, l);
    forall i | 0 <= i < |after.codeLines| ensures LineBacked(after.payload, after.branches, after.codeLines[i]) {
      if i < |s.codeLines| {
        assert after.codeLines[i] == s.codeLines[i];
        BackedStays(s, after, s.codeLines[i]);
      }
    }
  }

  /** Every run, with or without errors, overlaps or address wrap-around: the bytes a
      code line counts are in the memory, or are branch operands still to come. */
  lemma {:induction false} RunKeepsBacking(s: State, lines: seq<Line>)
    requires AllBacked(s)
    ensures AllBacked(Run(s, lines))
    decreases |lines|
  {
    if lines == [] {
    } else {
      StepKeepsBacking(s, lines[0]);
      RunKeepsBacking(Step(s, lines[0]), lines[1..]);
    }
  }

  // ----- resolving closes the gaps -----

  lemma {:induction false} PatchDeferredKeepsKeys(p: Memory, ds: seq<Deferred>, t: Table)
    ensures p.Keys <= PatchDeferred(p, ds, t).Keys
  {
    if ds == [] {
    } else {
      PatchDeferredKeepsKeys(p, ds[..|ds| - 1], t);
    }
  }

  lemma ReservedForBranchNext(bs: seq<Branch>, last: Branch, a: U32)
    ensures ReservedForBranch(bs + [last], a) <==> ReservedForBranch(bs, a) || a == last.address
  {
    assert (bs + [last])[|bs|] == last;
    if ReservedForBranch(bs, a) {
      var i :| 0 <= i < |bs| && bs[i].address == a;
      assert (bs + [last])[i] == bs[i];
    }
  }

  lemma {:induction false} PatchBranchesFillsGaps(p: Memory, bs: seq<Branch>, t: Table, a: U32)
    requires BranchErrors(bs, t) == []
    ensures a in PatchBranches(p, bs, t) <==> a in p || ReservedForBranch(bs, a)
  {
    if bs == [] {
    } else {
      var front, last := bs[..|bs| - 1], bs[|bs| - 1];
      assert bs == front + [last];
      PatchBranchesFillsGaps(p, front, t, a);
      ReservedForBranchNext(front, last, a);
      assert BranchErrors(bs, t) == BranchErrors(front, t) + BranchError(last, t);
      assert a in BranchPatch(last, t) <==> a == last.address;
    }
  }

  /** What the block builder reads of one code line. */
  ghost predicate Readable(p: Memory, c: CodeLine) {
    forall a: U32 :: InLine(c, a) ==> a in p
  }

  ghost predicate AllReadable(p: Memory, cs: seq<CodeLine>) {
    forall i :: 0 <= i < |cs| ==> Readable(p, cs[i])
  }

  lemma BackedBecomesPresent(s: State, a: U32)
    requires Backed(s.payload, s.branches, a) && Resolves(s.deferred, s.branches, s.table)
    ensures a in Resolved(s, s.table)
  {
    PatchDeferredKeepsKeys(s.payload, s.deferred, s.table);
    PatchBranchesFillsGaps(PatchDeferred(s.payload, s.deferred, s.table), s.branches, s.table, a);
  }

  /** After an error-free run the block builder's lookups cannot fail, for any program. */
  lemma ErrorFreeRunIsReadable(lines: seq<Line>)
    requires Assembled(lines).errors == []
    ensures AllReadable(Assembled(lines).payload, Assembled(lines).codeLines)
  {
    var r := Run(INITIAL, lines);
    RunKeepsBacking(INITIAL, lines);
    ErrorFreeParts(lines);
    AssembledIsResolved(lines);
    forall i | 0 <= i < |r.codeLines| ensures Readable(Resolved(r, r.table), r.codeLines[i]) {
      assert LineBacked(r.payload, r.branches, r.codeLines[i]);
      forall a: U32 | InLine(r.codeLines[i], a) ensures a in Resolved(r, r.table) {
        BackedBecomesPresent(r, a);
      }
    }
  }

  // ----- without wrap-around, code lines and memory cover the same addresses -----

  predicate Covers(cs: seq<CodeLine>, a: U32) {
    exists i :: 0 <= i < |cs| && InLine(cs[i], a)
  }

  lemma CoversNext(cs: seq<CodeLine>, c: CodeLine, a: U32)
    ensures Covers(cs + [c], a) <==> Covers(cs, a) || InLine(c, a)
  {
    assert (cs + [c])[|cs|] == c;
    if Covers(cs, a) {
      var i :| 0 <= i < |cs| && InLine(cs[i], a);
      assert (cs + [c])[i] == cs[i];
    }
  }

  /** Covered is the same as written or reserved, and deferred slots hold filler bytes. */
  ghost predicate TrackedAt(s: State, a: U32) {
    && (Backed(s.payload, s.branches, a) <==> Covers(s.codeLines, a))
    && (ReservedForDeferred(s.deferred, a) ==> a in s.payload)
  }

  /** What a body emits: deferred slots are filled with bytes, gaps belong to branches. */
  ghost predicate Orderly(e: Emission, cur: U32, a: U32) {
    && GapIsBranch(e, cur)
    && (!e.gap ==> e.branches == [])
    && |e.deferred| <= 1
    && (e.deferred != [] && InDeferredSlot(e.deferred[0], a) ==> a in Span(cur, |e.bytes|))
  }

  lemma EmitIsOrderly(body: Body, cur: U32, t: Table, a: U32)
    requires Emits(body) && cur + Claim(Emit(body, cur, t)) <= ADDR_INVALID
    ensures Orderly(Emit(body, cur, t), cur, a)
  {
    var e := Emit(body, cur, t);
    if e.deferred != [] && InDeferredSlot(e.deferred[0], a) {
      assert WithinSlots(e, a);
      SlotsAreClaimed(body, cur, t, a);
    }
  }

  lemma FitRecord(start: U32, n: nat)
    requires 0 < n && start + n <= ADDR_INVALID
    ensures LineRecord(start, Wrap(start + n)) == CodeLine(start, n)
  {
  }

  lemma FitLine(start: U32, n: nat, a: U32)
    requires start + n <= ADDR_INVALID
    ensures InLine(CodeLine(start, n), a) <==> a in Span(start, n)
  {
  }

  lemma EmittedCodeLine(s: State, e: Emission)
    requires s.cur + Claim(e) <= ADDR_INVALID && (e.gap ==> |e.bytes| == 1)
    ensures Emitted(s, e).codeLines
         == s.codeLines + [if e.bytes == [] then CodeLine(0, 0) else CodeLine(s.cur, Claim(e))]
    ensures Emitted(s, e).payload == s.payload + Block(s.cur, e.bytes)
  {
    PutAllWritesBlock(Cursor(s.cur, ADDR_INVALID, s.payload), e.bytes);
    if e.bytes != [] { FitRecord(s.cur, Claim(e)); }
  }

  lemma EmittedLine(s: State, e: Emission, a: U32)
    requires s.cur + Claim(e) <= ADDR_INVALID && Orderly(e, s.cur, a)
    ensures var after := Emitted(s, e);
            && |after.codeLines| == |s.codeLines| + 1
            && (InLine(after.codeLines[|s.codeLines|], a) <==> a in Span(s.cur, Claim(e)))
            && after.payload == s.payload + Block(s.cur, e.bytes)
  {
    EmittedCodeLine(s, e);
    FitLine(s.cur, Claim(e), a);
  }

  lemma EmittedReserves(s: State, e: Emission, a: U32)
    requires s.cur + Claim(e) <= ADDR_INVALID && Orderly(e, s.cur, a)
    ensures ReservedForBranch(s.branches + e.branches, a)
       <==> ReservedForBranch(s.branches, a) || (e.gap && a == s.cur + 1)
    ensures ReservedForDeferred(s.deferred + e.deferred, a)
        ==> ReservedForDeferred(s.deferred, a) || a in Span(s.cur, |e.bytes|)
  {
    if e.gap {
      assert e.branches == [e.branches[0]];
      ReservedForBranchNext(s.branches, e.branches[0], a);
    } else {
      assert s.branches + e.branches == s.branches;
    }
    if ReservedForDeferred(s.deferred + e.deferred, a) {
      ReservedForDeferredConcat(s.deferred, e.deferred, a);
    }
  }

  lemma EmittedKeepsTrack(s: State, e: Emission, a: U32)
    requires s.cur + Claim(e) <= ADDR_INVALID && Orderly(e, s.cur, a)
    requires TrackedAt(s, a)
    ensures TrackedAt(Emitted(s, e), a)
  {
    var after := Emitted(s, e);
    EmittedLine(s, e, a);
    EmittedReserves(s, e, a);
    CoversNext(s.codeLines, after.codeLines[|s.codeLines|], a);
  }

  lemma QuietKeepsTrack(s: State, l: Line, a: U32)
    requires !Emits(l.body) && TrackedAt(s, a)
    ensures TrackedAt(Step(s, l), a)
  {
    var after := Step(s, l);
    QuietLineKeepsPayload(s, l);
    StepGrows(s, l);
    StepSlots(s, l);
    QuietLineIsEmpty(s, l);
    assert after.codeLines == s.codeLines + [after.codeLines[|s.codeLines|]];
    CoversNext(s.codeLines, after.codeLines[|s.codeLines|], a);
  }

  lemma StepKeepsTrack(s: State, l: Line, a: U32)
    requires LineFits(s, l) && TrackedAt(s, a)
    ensures TrackedAt(Step(s, l), a)
  {
    if Emits(l.body) {
      EmitIsOrderly(l.body, s.cur, BindLabel(s, l).table, a);
      StepEmits(s, l);
      EmittedKeepsTrack(BindLabel(s, l), EmissionOf(s, l), a);
    } else {
      QuietKeepsTrack(s, l, a);
    }
  }

  /** Coverage invariant of every run, errors and overlaps included. */
  lemma {:induction false} RunKeepsTrack(s: State, lines: seq<Line>, a: U32)
    requires RunFits(s, lines) && TrackedAt(s, a)
    ensures TrackedAt(Run(s, lines), a)
    decreases |lines|
  {
    if lines == [] {
    } else {
      StepKeepsTrack(s, lines[0], a);
      RunKeepsTrack(Step(s, lines[0]), lines[1..], a);
    }
  }

  /** After an error-free run the memory is exactly what the code lines cover. */
  lemma ErrorFreeRunIsCovered(lines: seq<Line>, a: U32)
    requires Assembled(lines).errors == [] && RunFits(INITIAL, lines)
    ensures a in Assembled(lines).payload <==> Covers(Assembled(lines).codeLines, a)
  {
    var r := Run(INITIAL, lines);
    RunKeepsTrack(INITIAL, lines, a);
    ErrorFreeParts(lines);
    AssembledIsResolved(lines);
    PatchDeferredKeepsKeys(r.payload, r.deferred, r.table);
    PatchBranchesFillsGaps(PatchDeferred(r.payload, r.deferred, r.table), r.branches, r.table, a);
    if !ReservedForDeferred(r.deferred, a) { DeferredLeavesAlone(r.payload, r.deferred, r.table, a); }
  }

  // ----- disjoint code lines, seen from the reference -----

  ghost predicate DisjointLines(cs: seq<CodeLine>) {
    forall i, j, a: U32 :: 0 <= i < j < |cs| && InLine(cs[i], a) ==> !InLine(cs[j], a)
  }

  function Hits(flags: seq<bool>): nat {
    if flags == [] then 0 else (if flags[0] then 1 else 0) + Hits(flags[1..])
  }

  ghost predicate AtMostOnce(flags: seq<bool>) {
    forall i, j :: 0 <= i < j < |flags| ==> !(flags[i] && flags[j])
  }

  lemma {:induction false} HitsConcat(flags: seq<bool>, more: seq<bool>)
    ensures Hits(flags + more) == Hits(flags) + Hits(more)
  {
    if flags == [] {
      assert flags + more == more;
    } else {
      assert (flags + more)[1..] == flags[1..] + more;
      HitsConcat(flags[1..], more);
    }
  }

  lemma {:induction false} HitsBound(flags: seq<bool>)
    ensures Hits(flags) <= |flags|
  {
    if flags == [] {
    } else {
      HitsBound(flags[1..]);
    }
  }

  lemma {:induction false} NoHits(flags: seq<bool>)
    ensures Hits(flags) == 0 <==> forall i :: 0 <= i < |flags| ==> !flags[i]
  {
    if flags == [] {
    } else {
      NoHits(flags[1..]);
      assert forall i :: 1 <= i < |flags| ==> flags[i] == flags[1..][i - 1];
    }
  }

  lemma {:induction false} OneHit(flags: seq<bool>)
    ensures Hits(flags) <= 1 <==> AtMostOnce(flags)
  {
    if flags == [] {
    } else {
      var rest := flags[1..];
      OneHit(rest);
      NoHits(rest);
      assert forall i :: 0 <= i < |rest| ==> rest[i] == flags[i + 1];
      assert forall i :: 1 <= i < |flags| ==> flags[i] == rest[i - 1];
    }
  }

  function LineFlags(cs: seq<CodeLine>, a: U32): seq<bool> {
    seq(|cs|, i requires 0 <= i < |cs| => InLine(cs[i], a))
  }

  function PieceFlags(ps: seq<Placed>, a: U32): seq<bool> {
    seq(|ps|, i requires 0 <= i < |ps| => Claims(ps[i], a))
  }

  lemma LineFlagsNext(cs: seq<CodeLine>, after: seq<CodeLine>, a: U32)
    requires cs <= after && |after| == |cs| + 1
    ensures Hits(LineFlags(after, a)) == Hits(LineFlags(cs, a)) + Hits(LineFlags([after[|cs|]], a))
  {
    assert LineFlags(after, a) == LineFlags(cs, a) + LineFlags([after[|cs|]], a);
    HitsConcat(LineFlags(cs, a), LineFlags([after[|cs|]], a));
  }

  lemma PieceFlagsConcat(ps: seq<Placed>, more: seq<Placed>, a: U32)
    ensures Hits(PieceFlags(ps + more, a)) == Hits(PieceFlags(ps, a)) + Hits(PieceFlags(more, a))
  {
    assert PieceFlags(ps + more, a) == PieceFlags(ps, a) + PieceFlags(more, a);
    HitsConcat(PieceFlags(ps, a), PieceFlags(more, a));
  }

  /** A line's record covers what its piece claims, and nothing else. */
  lemma NewLineClaims(s: State, p: Point, l: Line, a: U32)
    requires Agrees(s, p) && LineFits(s, l) && Step(s, l).errors == s.errors
    ensures |Step(s, l).codeLines| == |s.codeLines| + 1
    ensures Hits(LineFlags([Step(s, l).codeLines[|s.codeLines|]], a)) == Hits(PieceFlags(PlacedAt(p, l), a))
  {
    StepGrows(s, l);
    if Emits(l.body) {
      StepErrors(s, p, l);
      EmitIsOrderly(l.body, s.cur, BindLabel(s, l).table, a);
      StepEmits(s, l);
      EmittedLine(BindLabel(s, l), EmissionOf(s, l), a);
      ClaimIsSize(l.body, s.cur, BindLabel(s, l).table);
      assert PlacedAt(p, l) == [Placed(s.cur, PieceOf(l.body, BindLabel(s, l).table).value)];
    } else {
      QuietLineIsEmpty(s, l);
    }
  }

  lemma StepClaims(s: State, p: Point, l: Line, a: U32)
    requires Agrees(s, p) && LineFits(s, l) && Step(s, l).errors == s.errors
    ensures Hits(LineFlags(Step(s, l).codeLines, a))
         == Hits(LineFlags(s.codeLines, a)) + Hits(PieceFlags(PlacedAt(p, l), a))
  {
    StepGrows(s, l);
    NewLineClaims(s, p, l, a);
    LineFlagsNext(s.codeLines, Step(s, l).codeLines, a);
  }

  lemma {:induction false} RunClaims(s: State, p: Point, lines: seq<Line>, t: Table, a: U32)
    requires GoodRun(s, p, lines, t)
    ensures Hits(LineFlags(Run(s, lines).codeLines, a))
         == Hits(LineFlags(s.codeLines, a)) + Hits(PieceFlags(Pieces(p, lines), a))
    decreases |lines|
  {
    if lines == [] {
    } else {
      var l := lines[0];
      GoodRunTail(s, p, lines, t);
      StepClaims(s, p, l, a);
      RunClaims(Step(s, l), Next(p, l), lines[1..], t, a);
      PieceFlagsConcat(PlacedAt(p, l), Pieces(Next(p, l), lines[1..]), a);
    }
  }

  lemma DisjointLineFlags(cs: seq<CodeLine>)
    ensures DisjointLines(cs) <==> forall a: U32 :: AtMostOnce(LineFlags(cs, a))
  {
    if DisjointLines(cs) {
    } else {
      var i, j, a: U32 :| 0 <= i < j < |cs| && InLine(cs[i], a) && InLine(cs[j], a);
      assert LineFlags(cs, a)[i] && LineFlags(cs, a)[j];
    }
  }

  lemma DisjointPieceFlags(ps: seq<Placed>)
    ensures DisjointPieces(ps) <==> forall a: U32 :: AtMostOnce(PieceFlags(ps, a))
  {
    if DisjointPieces(ps) {
    } else {
      var i, j, a: U32 :| 0 <= i < j < |ps| && Claims(ps[i], a) && Claims(ps[j], a);
      assert PieceFlags(ps, a)[i] && PieceFlags(ps, a)[j];
    }
  }

  /** Code lines are disjoint exactly when the pieces of the first pass are. */
  lemma DisjointIffPiecesDisjoint(lines: seq<Line>)
    requires Assembles(lines)
    ensures DisjointLines(Assembled(lines).codeLines) <==> DisjointPieces(Pieces(START, lines))
  {
    var cs, ps := Assembled(lines).codeLines, Pieces(START, lines);
    AssemblingRun(lines);
    AssembledIsResolved(lines);
    DisjointLineFlags(cs);
    DisjointPieceFlags(ps);
    forall a: U32 ensures AtMostOnce(LineFlags(cs, a)) <==> AtMostOnce(PieceFlags(ps, a)) {
      RunClaims(INITIAL, START, lines, FinalTable(START, lines), a);
      OneHit(LineFlags(cs, a));
      OneHit(PieceFlags(ps, a));
    }
  }

  // ----- labels -----

  lemma LineWithBytesEmits(s: State, l: Line)
    requires LineFits(s, l)
    requires |Step(s, l).codeLines| == |s.codeLines| + 1 && Step(s, l).codeLines[|s.codeLines|].length > 0
    ensures Emits(l.body) && EmissionOf(s, l).bytes != []
  {
    if Emits(l.body) {
      EmitIsOrderly(l.body, s.cur, BindLabel(s, l).table, 0);
      StepEmits(s, l);
      EmittedCodeLine(BindLabel(s, l), EmissionOf(s, l));
    } else {
      QuietLineIsEmpty(s, l);
    }
  }

  lemma FirstLabelIsLineStart(s: State, p: Point, l: Line)
    requires Agrees(s, p) && LineFits(s, l) && Step(s, l).errors == s.errors && l.labelId.Some?
    requires |Step(s, l).codeLines| == |s.codeLines| + 1 && Step(s, l).codeLines[|s.codeLines|].length > 0
    ensures l.labelId.value in Step(s, l).table
    ensures Step(s, l).table[l.labelId.value] == Step(s, l).codeLines[|s.codeLines|].start
  {
    StepErrors(s, p, l);
    LineWithBytesEmits(s, l);
    LabelIsLineStart(s, l);
  }

  lemma {:induction false} RunLabelIsLineStart(s: State, p: Point, lines: seq<Line>, t: Table, i: nat)
    requires GoodRun(s, p, lines, t) && i < |lines| && lines[i].labelId.Some?
    requires |Run(s, lines).codeLines| == |s.codeLines| + |lines|
    requires Run(s, lines).codeLines[|s.codeLines| + i].length > 0
    ensures lines[i].labelId.value in Run(s, lines).table
    ensures Run(s, lines).table[lines[i].labelId.value] == Run(s, lines).codeLines[|s.codeLines| + i].start
    decreases |lines|
  {
    GoodRunTail(s, p, lines, t);
    StepGrows(s, lines[0]);
    RunGrows(Step(s, lines[0]), lines[1..]);
    if i == 0 {
      FirstLabelIsLineStart(s, p, lines[0]);
    } else {
      RunLabelIsLineStart(Step(s, lines[0]), Next(p, lines[0]), lines[1..], t, i - 1);
    }
  }

  lemma InitialRunLabels(lines: seq<Line>, t: Table, i: nat)
    requires GoodRun(INITIAL, START, lines, t) && i < |lines| && lines[i].labelId.Some?
    ensures var r, id := Run(INITIAL, lines), lines[i].labelId.value;
            && |r.codeLines| == |lines|
            && (r.codeLines[i].length > 0 ==> id in r.table && r.table[id] == r.codeLines[i].start)
  {
    RunGrows(INITIAL, lines);
    if Run(INITIAL, lines).codeLines[i].length > 0 {
      RunLabelIsLineStart(INITIAL, START, lines, t, i);
    }
  }

  /** In every program that assembles, the label of a line with bytes is, to the end, the
      start address of that line's record. */
  lemma LabelsAreLineStarts(lines: seq<Line>, i: nat)
    requires Assembles(lines) && i < |lines| && lines[i].labelId.Some?
    ensures |Assembled(lines).codeLines| == |lines|
    ensures var final, id := Assembled(lines), lines[i].labelId.value;
            final.codeLines[i].length > 0 ==> id in final.table && final.table[id] == final.codeLines[i].start
  {
    AssemblingRun(lines);
    AssembledIsResolved(lines);
    InitialRunLabels(lines, FinalTable(START, lines), i);
  }
}
