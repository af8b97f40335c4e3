/** The one pass with backpatching refines the two passes: the final memory of every
    error-free run is the two-pass code written rank by rank, and so it is the two-pass
    image exactly where no stale slot wins. */
module Refinement {
  import opened Words
  import opened Expressions
  import opened Source
  import opened OnePass
  import opened TwoPass
  import opened Layers
  import opened EmissionProofs
  import opened RunProofs

  // ----- hypotheses -----

  /** The addresses a line emits to or reserves. */
  function Claimed(s: State, l: Line): set<U32> {
    if Emits(l.body) then Span(s.cur, Claim(EmissionOf(s, l))) else {}
  }

  /** No address of a line reaches the sentinel, so nothing wraps around. */
  predicate LineFits(s: State, l: Line) {
    Emits(l.body) ==> s.cur + Claim(EmissionOf(s, l)) <= ADDR_INVALID
  }

  predicate RunFits(s: State, lines: seq<Line>)
    decreases |lines|
  {
    lines == [] || (LineFits(s, lines[0]) && RunFits(Step(s, lines[0]), lines[1..]))
  }

  predicate ReservedForDeferred(ds: seq<Deferred>, a: U32) {
    exists i :: 0 <= i < |ds| && InDeferredSlot(ds[i], a)
  }

  predicate ReservedForBranch(bs: seq<Branch>, a: U32) {
    exists i :: 0 <= i < |bs| && bs[i].address == a
  }

  /** Waiting for the resolve passes. */
  predicate Reserved(s: State, a: U32) {
    ReservedForDeferred(s.deferred, a) || ReservedForBranch(s.branches, a)
  }

  lemma ReservedForDeferredConcat(ds: seq<Deferred>, more: seq<Deferred>, a: U32)
    ensures ReservedForDeferred(ds + more, a) ==> ReservedForDeferred(ds, a) || ReservedForDeferred(more, a)
  {
    if i :| 0 <= i < |ds + more| && InDeferredSlot((ds + more)[i], a) {
      if i < |ds| { assert InDeferredSlot(ds[i], a); }
      else { assert InDeferredSlot(more[i - |ds|], a); }
    }
  }

  /** Some line claims `a` although an earlier line still has an open slot there. */
  predicate Reclaimed(s: State, lines: seq<Line>, a: U32)
    decreases |lines|
  {
    lines != [] && ((a in Claimed(s, lines[0]) && Reserved(s, a)) || Reclaimed(Step(s, lines[0]), lines[1..], a))
  }

  // ----- patches act locally -----

  lemma {:induction false} PatchDeferredConcat(p: Memory, ds: seq<Deferred>, more: seq<Deferred>, t: Table)
    ensures PatchDeferred(p, ds + more, t) == PatchDeferred(PatchDeferred(p, ds, t), more, t)
  {
    if more == [] {
      assert ds + more == ds;
    } else {
      assert (ds + more)[..|ds + more| - 1] == ds + more[..|more| - 1];
      PatchDeferredConcat(p, ds, more[..|more| - 1], t);
    }
  }

  lemma {:induction false} PatchBranchesConcat(p: Memory, bs: seq<Branch>, more: seq<Branch>, t: Table)
    ensures PatchBranches(p, bs + more, t) == PatchBranches(PatchBranches(p, bs, t), more, t)
  {
    if more == [] {
      assert bs + more == bs;
    } else {
      assert (bs + more)[..|bs + more| - 1] == bs + more[..|more| - 1];
      PatchBranchesConcat(p, bs, more[..|more| - 1], t);
    }
  }

  lemma {:induction false} DeferredLeavesAlone(p: Memory, ds: seq<Deferred>, t: Table, a: U32)
    requires !ReservedForDeferred(ds, a)
    ensures AgreeAt(PatchDeferred(p, ds, t), p, a)
  {
    if ds == [] {
    } else {
      var front := ds[..|ds| - 1];
      assert forall i :: 0 <= i < |front| ==> front[i] == ds[i];
      DeferredLeavesAlone(p, front, t, a);
      assert a !in DeferredPatch(ds[|ds| - 1], t);
    }
  }

  lemma {:induction false} BranchesLeaveAlone(p: Memory, bs: seq<Branch>, t: Table, a: U32)
    requires !ReservedForBranch(bs, a)
    ensures AgreeAt(PatchBranches(p, bs, t), p, a)
  {
    if bs == [] {
    } else {
      var front := bs[..|bs| - 1];
      assert forall i :: 0 <= i < |front| ==> front[i] == bs[i];
      BranchesLeaveAlone(p, front, t, a);
      assert a !in BranchPatch(bs[|bs| - 1], t);
    }
  }

  /** The two passes as overlays: what they write does not depend on the memory below. */
  lemma {:induction false} DeferredOverlays(p: Memory, ds: seq<Deferred>, t: Table)
    ensures PatchDeferred(p, ds, t) == p + PatchDeferred(map[], ds, t)
  {
    if ds == [] {
      assert p + map[] == p;
    } else {
      DeferredOverlays(p, ds[..|ds| - 1], t);
      OverlayAssociates(p, PatchDeferred(map[], ds[..|ds| - 1], t), DeferredPatch(ds[|ds| - 1], t));
    }
  }

  lemma {:induction false} BranchesOverlay(p: Memory, bs: seq<Branch>, t: Table)
    ensures PatchBranches(p, bs, t) == p + PatchBranches(map[], bs, t)
  {
    if bs == [] {
      assert p + map[] == p;
    } else {
      BranchesOverlay(p, bs[..|bs| - 1], t);
      OverlayAssociates(p, PatchBranches(map[], bs[..|bs| - 1], t), BranchPatch(bs[|bs| - 1], t));
    }
  }

  /** The memory the resolve passes would make of a state. */
  function Resolved(s: State, t: Table): Memory {
    PatchBranches(PatchDeferred(s.payload, s.deferred, t), s.branches, t)
  }

  lemma ResolvedOverlays(s: State, t: Table)
    ensures Resolved(s, t) == s.payload + PatchDeferred(map[], s.deferred, t) + PatchBranches(map[], s.branches, t)
  {
    DeferredOverlays(s.payload, s.deferred, t);
    BranchesOverlay(PatchDeferred(s.payload, s.deferred, t), s.branches, t);
  }

  // ----- what lines add -----

  /** `low` was laid over `m`, except that there may be anything where `mid` and `high` will go. */
  ghost predicate AddsAt(m: Memory, m': Memory, low: Memory, mid: Memory, high: Memory, a: U32) {
    a !in mid && a !in high ==> AgreeAt(m', m + low, a)
  }

  ghost predicate AddsLow(m: Memory, m': Memory, ps: seq<Placed>, t: Table) {
    forall a: U32 :: AddsAt(m, m', Layer(ps, 0, t), Layer(ps, 1, t), Layer(ps, 2, t), a)
  }

  /** From one state to a later one the pieces were added, each byte where its rank says:
      to the memory, to the operand slots, to the branch slots. */
  ghost predicate AddsPieces(s: State, later: State, ps: seq<Placed>, t: Table) {
    && PatchDeferred(map[], later.deferred, t) == PatchDeferred(map[], s.deferred, t) + Layer(ps, 1, t)
    && PatchBranches(map[], later.branches, t) == PatchBranches(map[], s.branches, t) + Layer(ps, 2, t)
    && AddsLow(s.payload, later.payload, ps, t)
  }

  lemma AddsAtConcat(m0: Memory, m1: Memory, m2: Memory,
                     low: Memory, mid: Memory, high: Memory, low': Memory, mid': Memory, high': Memory, a: U32)
    requires AddsAt(m0, m1, low, mid, high, a) && AddsAt(m1, m2, low', mid', high', a)
    ensures AddsAt(m0, m2, low + low', mid + mid', high + high', a)
  {
  }

  lemma AddsLowConcat(m0: Memory, m1: Memory, m2: Memory, ps: seq<Placed>, more: seq<Placed>, t: Table)
    requires AddsLow(m0, m1, ps, t) && AddsLow(m1, m2, more, t)
    ensures AddsLow(m0, m2, ps + more, t)
  {
    LayerConcat(ps, more, 0, t);
    LayerConcat(ps, more, 1, t);
    LayerConcat(ps, more, 2, t);
    var all := ps + more;
    forall a: U32 ensures AddsAt(m0, m2, Layer(all, 0, t), Layer(all, 1, t), Layer(all, 2, t), a) {
      AddsAtConcat(m0, m1, m2, Layer(ps, 0, t), Layer(ps, 1, t), Layer(ps, 2, t),
                   Layer(more, 0, t), Layer(more, 1, t), Layer(more, 2, t), a);
    }
  }

  lemma AddsPiecesConcat(s: State, mid: State, later: State, ps: seq<Placed>, more: seq<Placed>, t: Table)
    requires AddsPieces(s, mid, ps, t) && AddsPieces(mid, later, more, t)
    ensures AddsPieces(s, later, ps + more, t)
  {
    LayerConcat(ps, more, 1, t);
    LayerConcat(ps, more, 2, t);
    OverlayAssociates(PatchDeferred(map[], s.deferred, t), Layer(ps, 1, t), Layer(more, 1, t));
    OverlayAssociates(PatchBranches(map[], s.branches, t), Layer(ps, 2, t), Layer(more, 2, t));
    AddsLowConcat(s.payload, mid.payload, later.payload, ps, more, t);
  }

  lemma NothingAdded(s: State, later: State, t: Table)
    requires later.payload == s.payload && later.deferred == s.deferred && later.branches == s.branches
    ensures AddsPieces(s, later, [], t)
  {
    assert forall m: Memory :: m + map[] == m;
  }

  lemma OnePieceLayer(p: Placed, rank: nat, t: Table)
    ensures Layer([p], rank, t) == Part(p, rank, t)
  {
    assert [p][1..] == [];
    assert Part(p, rank, t) + map[] == Part(p, rank, t);
  }

  lemma EmittedSlots(s: State, e: Emission, t: Table)
    ensures var after := Emitted(s, e);
            && PatchDeferred(map[], after.deferred, t)
               == PatchDeferred(map[], s.deferred, t) + PatchDeferred(map[], e.deferred, t)
            && PatchBranches(map[], after.branches, t)
               == PatchBranches(map[], s.branches, t) + PatchBranches(map[], e.branches, t)
  {
    PatchDeferredConcat(map[], s.deferred, e.deferred, t);
    PatchBranchesConcat(map[], s.branches, e.branches, t);
    DeferredOverlays(PatchDeferred(map[], s.deferred, t), e.deferred, t);
    BranchesOverlay(PatchBranches(map[], s.branches, t), e.branches, t);
  }

  lemma BlockAddsPart(m: Memory, block: Memory, low: Memory, mid: Memory, high: Memory)
    requires forall a: U32 :: a !in mid && a !in high ==> AgreeAt(block, low, a)
    ensures forall a: U32 :: AddsAt(m, m + block, low, mid, high, a)
  {
    forall a: U32 ensures AddsAt(m, m + block, low, mid, high, a) {
      if a !in mid && a !in high { assert AgreeAt(block, low, a); }
    }
  }

  lemma EmittedAddsPiece(s: State, e: Emission, p: Placed, t: Table)
    requires p.address == s.cur && s.cur + Claim(e) <= ADDR_INVALID && HoldsPiece(e, p, t)
    ensures AddsPieces(s, Emitted(s, e), [p], t)
  {
    EmittedSlots(s, e, t);
    OnePieceLayer(p, 0, t);
    OnePieceLayer(p, 1, t);
    OnePieceLayer(p, 2, t);
    PutAllWritesBlock(Cursor(s.cur, ADDR_INVALID, s.payload), e.bytes);
    BlockAddsPart(s.payload, Block(s.cur, e.bytes), Part(p, 0, t), Part(p, 1, t), Part(p, 2, t));
  }

  lemma QuietLineKeepsPayload(s: State, l: Line)
    requires !Emits(l.body)
    ensures Step(s, l).payload == s.payload
  {
  }

  lemma LabelKeepsSlots(s: State, l: Line)
    ensures var after := BindLabel(s, l);
            && after.cur == s.cur && after.payload == s.payload
            && after.deferred == s.deferred && after.branches == s.branches
  {
  }

  lemma EmittingLineAddsPiece(s: State, l: Line, t: Table)
    requires Emits(l.body) && LineFits(s, l) && Extends(t, BindLabel(s, l).table) && CleanLine(s, l, t)
    ensures PieceOf(l.body, BindLabel(s, l).table).Some?
    ensures AddsPieces(s, Step(s, l), [Placed(s.cur, PieceOf(l.body, BindLabel(s, l).table).value)], t)
  {
    LabelKeepsSlots(s, l);
    BodyMatchesPiece(l.body, s.cur, BindLabel(s, l).table, t);
    var p := Placed(s.cur, PieceOf(l.body, BindLabel(s, l).table).value);
    EmittedAddsPiece(BindLabel(s, l), EmissionOf(s, l), p, t);
    StepEmits(s, l);
  }

  /** A line adds its piece, whatever was in the memory and in the slots before. */
  lemma StepAddsPieces(s: State, p: Point, l: Line, t: Table)
    requires Agrees(s, p) && LineFits(s, l) && Extends(t, BindLabel(s, l).table) && CleanLine(s, l, t)
    ensures AddsPieces(s, Step(s, l), PlacedAt(p, l), t)
  {
    if Emits(l.body) {
      EmittingLineAddsPiece(s, l, t);
      assert PlacedAt(p, l) == [Placed(s.cur, PieceOf(l.body, BindLabel(s, l).table).value)];
    } else {
      QuietLineKeepsPayload(s, l);
      StepSlots(s, l);
      NothingAdded(s, Step(s, l), t);
    }
  }

  // ----- whole runs -----

  /** What an induction over the lines of an error-free run needs. */
  ghost predicate GoodRun(s: State, p: Point, lines: seq<Line>, t: Table) {
    && Agrees(s, p) && RunFits(s, lines) && Extends(t, Run(s, lines).table)
    && Run(s, lines).errors == s.errors && AllClean(s, lines, t)
  }

  lemma LabelledBeforeStep(s: State, l: Line)
    ensures Extends(Step(s, l).table, BindLabel(s, l).table)
  {
    if Emits(l.body) { StepEmits(s, l); }
  }

  lemma GoodRunTail(s: State, p: Point, lines: seq<Line>, t: Table)
    requires GoodRun(s, p, lines, t) && lines != []
    ensures GoodRun(Step(s, lines[0]), Next(p, lines[0]), lines[1..], t)
    ensures Extends(t, BindLabel(s, lines[0]).table) && LineFits(s, lines[0]) && CleanLine(s, lines[0], t)
    ensures Step(s, lines[0]).errors == s.errors
  {
    ErrorsOnlyGrow(s, lines);
    StepFollowsFirstPass(s, p, lines[0]);
    RunGrows(Step(s, lines[0]), lines[1..]);
    LabelledBeforeStep(s, lines[0]);
  }

  lemma {:induction false} RunAddsPieces(s: State, p: Point, lines: seq<Line>, t: Table)
    requires GoodRun(s, p, lines, t)
    ensures AddsPieces(s, Run(s, lines), Pieces(p, lines), t)
    decreases |lines|
  {
    if lines == [] {
      NothingAdded(s, s, t);
    } else {
      var l := lines[0];
      GoodRunTail(s, p, lines, t);
      StepAddsPieces(s, p, l, t);
      RunAddsPieces(Step(s, l), Next(p, l), lines[1..], t);
      AddsPiecesConcat(s, Step(s, l), Run(s, lines), PlacedAt(p, l), Pieces(Next(p, l), lines[1..]), t);
    }
  }

  lemma AssembledIsResolved(lines: seq<Line>)
    ensures Assembled(lines).payload == Resolved(Run(INITIAL, lines), Run(INITIAL, lines).table)
    ensures Assembled(lines).codeLines == Run(INITIAL, lines).codeLines
    ensures Assembled(lines).table == Run(INITIAL, lines).table
    ensures Assembled(lines).deferred == Run(INITIAL, lines).deferred
    ensures Assembled(lines).branches == Run(INITIAL, lines).branches
  {
  }

  // ----- the no-wrap hypothesis, seen from the reference -----

  lemma PiecesFitSplit(first: seq<Placed>, rest: seq<Placed>)
    ensures PiecesFit(first + rest) <==> PiecesFit(first) && PiecesFit(rest)
  {
    if PiecesFit(first + rest) {
      forall i | 0 <= i < |first| ensures first[i].address + Size(first[i].piece) <= ADDR_INVALID {
        assert (first + rest)[i] == first[i];
      }
      forall i | 0 <= i < |rest| ensures rest[i].address + Size(rest[i].piece) <= ADDR_INVALID {
        assert (first + rest)[|first| + i] == rest[i];
      }
    }
  }

  lemma LineFitsIffPieceFits(s: State, p: Point, l: Line)
    requires Agrees(s, p) && Step(s, l).errors == s.errors
    ensures LineFits(s, l) <==> PiecesFit(PlacedAt(p, l))
  {
    StepErrors(s, p, l);
    if Emits(l.body) {
      ClaimIsSize(l.body, s.cur, BindLabel(s, l).table);
      assert PlacedAt(p, l)[0] == Placed(s.cur, PieceOf(l.body, BindLabel(s, l).table).value);
    }
  }

  lemma {:induction false} RunFitsIffPiecesFit(s: State, p: Point, lines: seq<Line>)
    requires Agrees(s, p) && Run(s, lines).errors == s.errors
    ensures RunFits(s, lines) <==> PiecesFit(Pieces(p, lines))
    decreases |lines|
  {
    if lines == [] {
    } else {
      ErrorsOnlyGrow(s, lines);
      StepFollowsFirstPass(s, p, lines[0]);
      LineFitsIffPieceFits(s, p, lines[0]);
      RunFitsIffPiecesFit(Step(s, lines[0]), Next(p, lines[0]), lines[1..]);
      PiecesFitSplit(PlacedAt(p, lines[0]), Pieces(Next(p, lines[0]), lines[1..]));
    }
  }

  /** The hypothesis that nothing wraps, for accepted programs: exactly that every piece of
      the first pass ends below the sentinel address. */
  lemma FitsIffPiecesFit(lines: seq<Line>)
    requires Accepts(lines)
    ensures RunFits(INITIAL, lines) <==> PiecesFit(Pieces(START, lines))
  {
    ErrorFreeIffAccepted(lines);
    ErrorFreeRun(lines);
    RunFitsIffPiecesFit(INITIAL, START, lines);
  }

  // ----- main theorems -----

  /** Accepted by the two-pass assembler, and placed below the end of the address space. */
  ghost predicate Assembles(lines: seq<Line>) {
    Accepts(lines) && PiecesFit(Pieces(START, lines))
  }

  lemma AssemblingRun(lines: seq<Line>)
    requires Assembles(lines)
    ensures Assembled(lines).errors == [] && RunFits(INITIAL, lines)
    ensures FinalTable(START, lines) == Assembled(lines).table
    ensures GoodRun(INITIAL, START, lines, FinalTable(START, lines))
  {
    ErrorFreeIffAccepted(lines);
    ErrorFreeRun(lines);
    FitsIffPiecesFit(lines);
    AssembledIsResolved(lines);
  }

  lemma AddedFromNothing(r: State, ps: seq<Placed>, t: Table)
    requires AddsPieces(INITIAL, r, ps, t)
    ensures Resolved(r, t) == LayeredImage(ps, t)
  {
    ResolvedOverlays(r, t);
    assert forall m: Memory :: map[] + m == m;
    forall a: U32 ensures AgreeAt(Resolved(r, t), LayeredImage(ps, t), a) {
      assert AddsAt(INITIAL.payload, r.payload, Layer(ps, 0, t), Layer(ps, 1, t), Layer(ps, 2, t), a);
    }
    AgreeEverywhere(Resolved(r, t), LayeredImage(ps, t));
  }

  /** The whole memory, for every program the two-pass assembler accepts and that fits,
      overlaps included: one pass with backpatching leaves the code of the two passes,
      written rank by rank.  All bytes known at once come first, then the late operands in
      source order, then the branch offsets in source order. */
  lemma MemoryIsLayered(lines: seq<Line>)
    requires Assembles(lines)
    ensures Assembled(lines).payload == LayeredImage(Pieces(START, lines), FinalTable(START, lines))
  {
    AssemblingRun(lines);
    AssembledIsResolved(lines);
    RunAddsPieces(INITIAL, START, lines, FinalTable(START, lines));
    AddedFromNothing(Run(INITIAL, lines), Pieces(START, lines), FinalTable(START, lines));
  }

  /** Exactly where the listener's memory is the two-pass image: at all addresses but those
      where the last piece finds a slot that outranks it and the late byte is another one. */
  lemma AgreesUnlessStaleSlotWins(lines: seq<Line>, a: U32)
    requires Assembles(lines)
    ensures AgreeAt(Assembled(lines).payload, AssembledImage(lines), a)
       <==> !StaleSlotWins(Pieces(START, lines), a, FinalTable(START, lines))
    ensures a in Assembled(lines).payload <==> a in AssembledImage(lines)
  {
    MemoryIsLayered(lines);
    LayersKeepAddresses(Pieces(START, lines), FinalTable(START, lines), a);
    LayersAgreeUnlessStale(Pieces(START, lines), FinalTable(START, lines), a);
  }

  /** The refinement, under a condition on the layout alone: no piece that is last at `a`
      finds an older slot there that outranks it. */
  lemma OnePassRefinesTwoPass(lines: seq<Line>, a: U32)
    requires Assembles(lines) && !Clobbered(Pieces(START, lines), a)
    ensures AgreeAt(Assembled(lines).payload, AssembledImage(lines), a)
  {
    AgreesUnlessStaleSlotWins(lines, a);
    if StaleSlotWins(Pieces(START, lines), a, FinalTable(START, lines)) {
      StaleIsClobbered(Pieces(START, lines), a, FinalTable(START, lines));
    }
  }

  /** When no two pieces share an address, the listener's memory is the two-pass image. */
  lemma DisjointProgramsAssembleExactly(lines: seq<Line>)
    requires Assembles(lines) && DisjointPieces(Pieces(START, lines))
    ensures Assembled(lines).payload == AssembledImage(lines)
  {
    var ps := Pieces(START, lines);
    forall a: U32 ensures AgreeAt(Assembled(lines).payload, AssembledImage(lines), a) {
      DisjointPiecesClobberNothing(ps, a);
      OnePassRefinesTwoPass(lines, a);
    }
    AgreeEverywhere(Assembled(lines).payload, AssembledImage(lines));
  }
}
