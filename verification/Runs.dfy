/** What every run keeps, whatever the program: symbols are bound once, lists only
    grow, and the listener reports an error exactly when the two-pass assembler
    rejects the program. */
module RunProofs {
  import opened Words
  import opened Expressions
  import opened Opcodes
  import opened Source
  import opened OnePass
  import opened TwoPass
  import opened EmissionProofs

  /** What a line emits, given the state before it. */
  function EmissionOf(s: State, l: Line): Emission {
    Emit(l.body, s.cur, BindLabel(s, l).table)
  }

  lemma StepEmits(s: State, l: Line)
    requires Emits(l.body)
    ensures Step(s, l) == Emitted(BindLabel(s, l), EmissionOf(s, l))
  {
  }

  // ----- growth and single assignment -----

  /** Everything a state has recorded is still there, unchanged, in a later one. */
  ghost predicate Grows(s: State, later: State) {
    && Extends(later.table, s.table)
    && s.errors <= later.errors
    && s.deferred <= later.deferred
    && s.branches <= later.branches
    && s.codeLines <= later.codeLines
  }

  lemma GrowsTrans(a: State, b: State, c: State)
    requires Grows(a, b) && Grows(b, c)
    ensures Grows(a, c)
  {
  }

  lemma EmittedGrows(s: State, e: Emission)
    ensures Grows(s, Emitted(s, e)) && |Emitted(s, e).codeLines| == |s.codeLines| + 1
  {
  }

  lemma DefineGrows(s: State, id: string, v: U32)
    ensures Grows(s, Define(s, id, v)) && Define(s, id, v).codeLines == s.codeLines
  {
  }

  lemma OrgGrows(s: State, address: Tree)
    ensures Grows(s, OrgStep(s, address)) && |OrgStep(s, address).codeLines| == |s.codeLines| + 1
  {
  }

  lemma AssignGrows(s: State, id: string, tree: Tree)
    ensures Grows(s, AssignStep(s, id, tree)) && |AssignStep(s, id, tree).codeLines| == |s.codeLines| + 1
  {
    if Meaning(tree, s.table).Known? { DefineGrows(s, id, Meaning(tree, s.table).v); }
  }

  lemma StepGrows(s: State, l: Line)
    ensures Grows(s, Step(s, l)) && |Step(s, l).codeLines| == |s.codeLines| + 1
  {
    var labelled := BindLabel(s, l);
    if l.labelId.Some? { DefineGrows(s, l.labelId.value, s.cur); }
    match l.body {
      case Org(address) => OrgGrows(labelled, address);
      case Assign(id, tree) => AssignGrows(labelled, id, tree);
      case _ =>
        StepEmits(s, l);
        EmittedGrows(labelled, EmissionOf(s, l));
    }
    GrowsTrans(s, labelled, Step(s, l));
  }

  /** Symbols are single-assignment over every run, although the table overwrites. */
  lemma {:induction false} RunGrows(s: State, lines: seq<Line>)
    ensures Grows(s, Run(s, lines))
    ensures |Run(s, lines).codeLines| == |s.codeLines| + |lines|
    decreases |lines|
  {
    if lines == [] {
    } else {
      StepGrows(s, lines[0]);
      RunGrows(Step(s, lines[0]), lines[1..]);
      GrowsTrans(s, Step(s, lines[0]), Run(s, lines));
    }
  }

  lemma {:induction false} FinalTableExtends(p: Point, lines: seq<Line>)
    ensures Extends(FinalTable(p, lines), Labelled(p, if lines == [] then Line(None, Direct(NOP)) else lines[0]).table)
    ensures Extends(FinalTable(p, lines), p.table)
    decreases |lines|
  {
    if lines == [] {
    } else {
      FinalTableExtends(Next(p, lines[0]), lines[1..]);
    }
  }

  /** A label that was new is bound to the address its line's bytes start at. */
  lemma LabelIsLineStart(s: State, l: Line)
    requires l.labelId.Some? && l.labelId.value !in s.table
    requires Emits(l.body) && EmissionOf(s, l).bytes != []
    requires s.cur + Claim(EmissionOf(s, l)) <= ADDR_INVALID
    ensures var after := Step(s, l);
            && l.labelId.value in after.table
            && after.table[l.labelId.value] == after.codeLines[|s.codeLines|].start == s.cur
  {
    StepEmits(s, l);
    PutAllWritesBlock(Cursor(s.cur, ADDR_INVALID, s.payload), EmissionOf(s, l).bytes);
  }

  // ----- agreement with the first pass -----

  ghost predicate Agrees(s: State, p: Point) {
    s.cur == p.address && s.table == p.table
  }

  /** A line adds no error exactly when it defines well and its emission has none. */
  lemma StepErrors(s: State, p: Point, l: Line)
    requires Agrees(s, p)
    ensures Step(s, l).errors == s.errors
       <==> DefinesWell(p, l) && (Emits(l.body) ==> EmissionOf(s, l).errors == [])
  {
    if Emits(l.body) { StepEmits(s, l); }
  }

  lemma EmittedAdvances(s: State, e: Emission)
    ensures Emitted(s, e).cur == Wrap(s.cur + Claim(e))
    ensures Emitted(s, e).table == s.table
  {
    PutAllAdvances(Cursor(s.cur, ADDR_INVALID, s.payload), e.bytes);
    if e.gap { WrapAbsorbs(s.cur + |e.bytes|, 1); }
  }

  lemma EmittingLineAdvances(p: Point, l: Line)
    requires Emits(l.body)
    ensures PieceOf(l.body, Labelled(p, l).table).Some?
    ensures var after := Labelled(p, l);
            Next(p, l) == Point(Wrap(p.address + Size(PieceOf(l.body, after.table).value)), after.table)
  {
  }

  lemma EmittingStepAdvances(s: State, l: Line)
    requires Emits(l.body)
    ensures Step(s, l).cur == Wrap(s.cur + Claim(EmissionOf(s, l)))
    ensures Step(s, l).table == BindLabel(s, l).table
  {
    StepEmits(s, l);
    EmittedAdvances(BindLabel(s, l), EmissionOf(s, l));
  }

  lemma EmittingLineFollows(s: State, p: Point, l: Line)
    requires Agrees(s, p) && Emits(l.body) && EmissionOf(s, l).errors == []
    ensures Agrees(Step(s, l), Next(p, l))
  {
    EmittingLineAdvances(p, l);
    EmittingStepAdvances(s, l);
    ClaimIsSize(l.body, s.cur, BindLabel(s, l).table);
  }

  lemma QuietLineFollows(s: State, p: Point, l: Line)
    requires Agrees(s, p) && !Emits(l.body) && DefinesWell(p, l)
    ensures Agrees(Step(s, l), Next(p, l))
  {
  }

  /** As long as no error occurs, the listener is where the first pass is. */
  lemma StepFollowsFirstPass(s: State, p: Point, l: Line)
    requires Agrees(s, p) && Step(s, l).errors == s.errors
    ensures Agrees(Step(s, l), Next(p, l))
  {
    StepErrors(s, p, l);
    if Emits(l.body) {
      EmittingLineFollows(s, p, l);
    } else {
      QuietLineFollows(s, p, l);
    }
  }

  // ----- errors -----

  lemma DeferredErrorsNext(ds: seq<Deferred>, last: Deferred, t: Table)
    ensures DeferredErrors(ds + [last], t) == DeferredErrors(ds, t) + DeferredError(last, t)
  {
    assert (ds + [last])[..|ds|] == ds;
  }

  lemma {:induction false} DeferredErrorsConcat(ds: seq<Deferred>, more: seq<Deferred>, t: Table)
    ensures DeferredErrors(ds + more, t) == DeferredErrors(ds, t) + DeferredErrors(more, t)
  {
    if more == [] {
      assert ds + more == ds;
    } else {
      var front, last := more[..|more| - 1], more[|more| - 1];
      assert ds + more == (ds + front) + [last];
      DeferredErrorsConcat(ds, front, t);
      DeferredErrorsNext(ds + front, last, t);
      Assoc(DeferredErrors(ds, t), DeferredErrors(front, t), DeferredError(last, t));
    }
  }

  lemma BranchErrorsNext(bs: seq<Branch>, last: Branch, t: Table)
    ensures BranchErrors(bs + [last], t) == BranchErrors(bs, t) + BranchError(last, t)
  {
    assert (bs + [last])[..|bs|] == bs;
  }

  lemma {:induction false} BranchErrorsConcat(bs: seq<Branch>, more: seq<Branch>, t: Table)
    ensures BranchErrors(bs + more, t) == BranchErrors(bs, t) + BranchErrors(more, t)
  {
    if more == [] {
      assert bs + more == bs;
    } else {
      var front, last := more[..|more| - 1], more[|more| - 1];
      assert bs + more == (bs + front) + [last];
      BranchErrorsConcat(bs, front, t);
      BranchErrorsNext(bs + front, last, t);
      Assoc(BranchErrors(bs, t), BranchErrors(front, t), BranchError(last, t));
    }
  }

  ghost predicate Resolves(ds: seq<Deferred>, bs: seq<Branch>, t: Table) {
    DeferredErrors(ds, t) == [] && BranchErrors(bs, t) == []
  }

  ghost predicate CleanLine(s: State, l: Line, t: Table) {
    Emits(l.body) ==> Clean(EmissionOf(s, l), t)
  }

  /** Every line emits cleanly with respect to the final symbols. */
  ghost predicate AllClean(s: State, lines: seq<Line>, t: Table)
    decreases |lines|
  {
    lines == [] || (CleanLine(s, lines[0], t) && AllClean(Step(s, lines[0]), lines[1..], t))
  }

  lemma StepSlots(s: State, l: Line)
    ensures Emits(l.body) ==>
              && Step(s, l).deferred == s.deferred + EmissionOf(s, l).deferred
              && Step(s, l).branches == s.branches + EmissionOf(s, l).branches
    ensures !Emits(l.body) ==> Step(s, l).deferred == s.deferred && Step(s, l).branches == s.branches
  {
    if Emits(l.body) { StepEmits(s, l); }
  }

  lemma ResolvesStep(s: State, l: Line, t: Table)
    ensures Resolves(Step(s, l).deferred, Step(s, l).branches, t)
       <==> Resolves(s.deferred, s.branches, t)
            && (Emits(l.body) ==> Resolves(EmissionOf(s, l).deferred, EmissionOf(s, l).branches, t))
  {
    StepSlots(s, l);
    if Emits(l.body) {
      DeferredErrorsConcat(s.deferred, EmissionOf(s, l).deferred, t);
      BranchErrorsConcat(s.branches, EmissionOf(s, l).branches, t);
    }
  }

  lemma ErrorsOnlyGrow(s: State, lines: seq<Line>)
    requires lines != [] && Run(s, lines).errors == s.errors
    ensures Step(s, lines[0]).errors == s.errors
  {
    StepGrows(s, lines[0]);
    RunGrows(Step(s, lines[0]), lines[1..]);
  }

  /** Without errors up to here, the slots resolve exactly when every line is clean. */
  lemma {:induction false} ResolvesIffAllClean(s: State, p: Point, lines: seq<Line>, t: Table)
    requires Agrees(s, p)
    requires Run(s, lines).errors == s.errors
    ensures Resolves(Run(s, lines).deferred, Run(s, lines).branches, t)
       <==> Resolves(s.deferred, s.branches, t) && AllClean(s, lines, t)
    decreases |lines|
  {
    if lines == [] {
    } else {
      ErrorsOnlyGrow(s, lines);
      StepErrors(s, p, lines[0]);
      StepFollowsFirstPass(s, p, lines[0]);
      ResolvesStep(s, lines[0], t);
      ResolvesIffAllClean(Step(s, lines[0]), Next(p, lines[0]), lines[1..], t);
    }
  }

  lemma LegalSplit(first: seq<Placed>, rest: seq<Placed>, t: Table)
    ensures AllLegal(first + rest, t) <==> AllLegal(first, t) && AllLegal(rest, t)
  {
    if AllLegal(first + rest, t) {
      forall i | 0 <= i < |first| ensures Legal(first[i], t) { assert (first + rest)[i] == first[i]; }
      forall i | 0 <= i < |rest| ensures Legal(rest[i], t) { assert (first + rest)[|first| + i] == rest[i]; }
    }
  }

  lemma FirstIsLegal(s: State, p: Point, l: Line, t: Table)
    requires Agrees(s, p) && Extends(t, Labelled(p, l).table) && DefinesWell(p, l)
    ensures CleanLine(s, l, t) <==> AllLegal(PlacedAt(p, l), t)
  {
    if Emits(l.body) {
      BodyMatchesPiece(l.body, s.cur, BindLabel(s, l).table, t);
      assert PlacedAt(p, l)[0] == Placed(s.cur, PieceOf(l.body, BindLabel(s, l).table).value);
    }
  }

  lemma {:induction false} ErrorFreeRunIsAccepted(s: State, p: Point, lines: seq<Line>, t: Table)
    requires Agrees(s, p) && Extends(t, Run(s, lines).table)
    requires Run(s, lines).errors == s.errors && AllClean(s, lines, t)
    ensures AllDefineWell(p, lines) && AllLegal(Pieces(p, lines), t)
    ensures Agrees(Run(s, lines), Point(Run(s, lines).cur, FinalTable(p, lines)))
    decreases |lines|
  {
    if lines == [] {
    } else {
      var l := lines[0];
      ErrorsOnlyGrow(s, lines);
      StepErrors(s, p, l);
      StepFollowsFirstPass(s, p, l);
      RunGrows(Step(s, l), lines[1..]);
      ErrorFreeRunIsAccepted(Step(s, l), Next(p, l), lines[1..], t);
      FirstIsLegal(s, p, l, t);
      LegalSplit(PlacedAt(p, l), Pieces(Next(p, l), lines[1..]), t);
    }
  }

  lemma {:induction false} AcceptedRunIsErrorFree(s: State, p: Point, lines: seq<Line>, t: Table)
    requires Agrees(s, p) && Extends(t, FinalTable(p, lines))
    requires AllDefineWell(p, lines) && AllLegal(Pieces(p, lines), t)
    ensures Run(s, lines).errors == s.errors && AllClean(s, lines, t)
    ensures Run(s, lines).table == FinalTable(p, lines)
    decreases |lines|
  {
    if lines == [] {
    } else {
      var l := lines[0];
      FinalTableExtends(p, lines);
      LegalSplit(PlacedAt(p, l), Pieces(Next(p, l), lines[1..]), t);
      FirstIsLegal(s, p, l, t);
      StepErrors(s, p, l);
      StepFollowsFirstPass(s, p, l);
      AcceptedRunIsErrorFree(Step(s, l), Next(p, l), lines[1..], t);
    }
  }

  lemma ErrorFreeParts(lines: seq<Line>)
    ensures var r := Run(INITIAL, lines);
            Assembled(lines).errors == [] <==> r.errors == [] && Resolves(r.deferred, r.branches, r.table)
    ensures Assembled(lines).table == Run(INITIAL, lines).table
  {
  }

  /** An error-free run is clean line by line, with the symbols of the first pass. */
  lemma ErrorFreeRun(lines: seq<Line>)
    requires Assembled(lines).errors == []
    ensures var r := Run(INITIAL, lines);
            && r.errors == INITIAL.errors && AllClean(INITIAL, lines, r.table)
            && FinalTable(START, lines) == r.table
            && Accepts(lines)
  {
    var r := Run(INITIAL, lines);
    ErrorFreeParts(lines);
    ResolvesIffAllClean(INITIAL, START, lines, r.table);
    ErrorFreeRunIsAccepted(INITIAL, START, lines, r.table);
  }

  /** Error exactness, for every program: the run ends without an error (and without a
      division by zero) if and only if the two-pass assembler accepts it. */
  lemma ErrorFreeIffAccepted(lines: seq<Line>)
    ensures Assembled(lines).errors == [] <==> Accepts(lines)
  {
    if Assembled(lines).errors == [] { ErrorFreeRun(lines); }
    if Accepts(lines) {
      AcceptedRunIsErrorFree(INITIAL, START, lines, FinalTable(START, lines));
      ResolvesIffAllClean(INITIAL, START, lines, Run(INITIAL, lines).table);
      ErrorFreeParts(lines);
    }
  }
}
