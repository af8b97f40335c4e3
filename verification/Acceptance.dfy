/** Which programs are accepted, and which complaint the others get: the conditions of the
    directives and statements without the arithmetic that tests them. */
module Acceptance {
  import opened Words
  import opened Expressions
  import opened Opcodes
  import opened Source
  import opened OnePass
  import opened TwoPass
  import opened EmissionProofs
  import opened RunProofs
  import opened Refinement
  import opened Patching
  import opened DataItems
  import opened SourceLines

  // ----- what can be encoded -----

  /** The operand byte leads the processor from the address after it to `dest`. */
  predicate Leads(after: int, b: Byte, dest: U32) {
    Wrap(after + SignExtend(b)) == dest
  }

  /** Some operand byte does. */
  ghost predicate WithinReach(after: int, dest: U32) {
    exists b: Byte :: Leads(after, b, dest)
  }

  lemma DistanceOf(after: int, b: Byte, dest: U32)
    requires Leads(after, b, dest)
    ensures Signed32(Wrap(dest - after)) == SignExtend(b)
  {
    WrapAbsorbs(after + SignExtend(b), -after);
    SignedIsTwosComplement(Wrap(dest - after), SignExtend(b));
  }

  lemma InRangeIffWithinReach(after: int, dest: U32)
    ensures -128 <= Signed32(Wrap(dest - after)) <= 127 <==> WithinReach(after, dest)
  {
    var offset := Signed32(Wrap(dest - after));
    if -128 <= offset <= 127 {
      SignedRestores(after, dest);
      SignExtendRestores(offset);
      assert Leads(after, Low(Wrap(offset)), dest);
    }
    if b: Byte :| Leads(after, b, dest) { DistanceOf(after, b, dest); }
  }

  lemma OffsetIsWithinReach(a: U32, dest: U32)
    ensures -128 <= Offset(a, dest) <= 127 <==> WithinReach((a as int) + 1, dest)
  {
    InRangeIffWithinReach((a as int) + 1, dest);
  }

  /** The resolve pass accepts a branch if and only if its target has a value and some operand
      byte leads there. */
  lemma BranchAcceptedIffWithinReach(b: Branch, t: Table)
    ensures BranchError(b, t) == []
       <==> Eval(b.target, t).Known? && WithinReach((b.address as int) + 1, Eval(b.target, t).v)
  {
    if Eval(b.target, t).Known? { OffsetIsWithinReach(b.address, Eval(b.target, t).v); }
  }

  /** Some bytes of the directive's item size read as `v`. */
  ghost predicate IsItem(kind: DataKind, v: U32) {
    exists bytes: seq<Byte> :: |bytes| == ItemSize(kind) && ItemValue(kind, bytes) == v
  }

  lemma ItemIsBounded(kind: DataKind, bytes: seq<Byte>)
    requires |bytes| == ItemSize(kind)
    ensures ItemValue(kind, bytes) <= Limit(kind)
  {
  }

  lemma InLimitIffItem(kind: DataKind, v: U32)
    ensures v <= Limit(kind) <==> IsItem(kind, v)
  {
    if v <= Limit(kind) {
      ItemReadsBack(kind, v);
      assert |ItemBytes(kind, v)| == ItemSize(kind);
    }
    if bytes: seq<Byte> :| |bytes| == ItemSize(kind) && ItemValue(kind, bytes) == v { ItemIsBounded(kind, bytes); }
  }

  /** 256 numbers fit one byte, 65536 two. */
  lemma ItemsAreBytesAndWords(kind: DataKind, v: U32)
    ensures IsItem(kind, v) <==> v < if ItemSize(kind) == 1 then 0x100 else 0x1_0000
  {
    InLimitIffItem(kind, v);
  }

  /** There are bytes that say what the piece means.  A word operand is cut to 16 bits. */
  ghost predicate CanBeEncoded(p: Placed, t: Table) {
    match p.piece
    case Bare(_) => true
    case ToLabel(_, target) => target in t && WithinReach(p.address + 2, t[target])
    case WithOperand(table, _, e, _) => Meaning(e, t).Known? && (OperandSize(table) == 2 || Meaning(e, t).v < 0x100)
    case Values(kind, trees) =>
      forall i :: 0 <= i < |trees| ==> Meaning(trees[i], t).Known? && IsItem(kind, Meaning(trees[i], t).v)
  }

  lemma LegalIffCanBeEncoded(p: Placed, t: Table)
    ensures Legal(p, t) <==> CanBeEncoded(p, t)
  {
    match p.piece {
      case Bare(_) =>
      case ToLabel(_, target) => if target in t { InRangeIffWithinReach(p.address + 2, t[target]); }
      case WithOperand(_, _, _, _) =>
      case Values(kind, trees) =>
        forall i | 0 <= i < |trees| && Meaning(trees[i], t).Known?
          ensures FitsIn(trees[i], Limit(kind), t) <==> IsItem(kind, Meaning(trees[i], t).v)
        {
          InLimitIffItem(kind, Meaning(trees[i], t).v);
        }
    }
  }

  ghost predicate AllEncodable(ps: seq<Placed>, t: Table) {
    forall i :: 0 <= i < |ps| ==> CanBeEncoded(ps[i], t)
  }

  lemma AllLegalIffEncodable(ps: seq<Placed>, t: Table)
    ensures AllLegal(ps, t) <==> AllEncodable(ps, t)
  {
    forall i | 0 <= i < |ps| ensures Legal(ps[i], t) <==> CanBeEncoded(ps[i], t) {
      LegalIffCanBeEncoded(ps[i], t);
    }
  }

  /** A program assembles without an error if and only if its definitions are in order and
      every piece can be encoded with the final symbols: branches by some operand byte, data by
      some bytes of their directive. */
  lemma ErrorFreeIffEncodable(lines: seq<Line>)
    ensures Assembled(lines).errors == []
       <==> AllDefineWell(START, lines) && AllEncodable(Pieces(START, lines), FinalTable(START, lines))
  {
    ErrorFreeIffAccepted(lines);
    AllLegalIffEncodable(Pieces(START, lines), FinalTable(START, lines));
  }

  // ----- which error a line raises -----

  predicate TakesOneByte(mode: Mode) {
    mode == Imm || mode == IdxIdr || mode == IdrIdx
  }

  predicate IsLarge(v: Value) {
    v.Known? && v.v > 0xff
  }

  ghost predicate SomeOutOfRange(kind: DataKind, vs: seq<Value>) {
    exists k :: 0 <= k < |vs| && vs[k].Known? && !IsItem(kind, vs[k].v)
  }

  /** An expression of the body divides by zero. */
  ghost predicate Divides(body: Body, known: Table) {
    match body
    case Org(e) => Meaning(e, known).Trap?
    case Assign(_, e) => Meaning(e, known).Trap?
    case Operation(_, _, e) => Meaning(e, known).Trap?
    case Data(_, items) => Trap in Meanings(ItemTrees(items), known)
    case _ => false
  }

  /** The complaint of a line when it is reached, with the symbols known there. */
  ghost predicate RaisesAtOnce(kind: ErrorKind, body: Body, known: Table) {
    match kind
    case DuplicateSymbol => body.Assign? && Meaning(body.tree, known).Known? && body.id in known
    case MissingSymbol => body.Assign? && Meaning(body.tree, known).Unknown?
    case ValueOutOfRange => body.Data? && SomeOutOfRange(body.kind, Meanings(ItemTrees(body.items), known))
    case OperandTooLarge => body.Operation? && TakesOneByte(body.mode) && IsLarge(Meaning(body.operand, known))
    case DivideTrap => Divides(body, known)
    case _ => false
  }

  /** The complaint about what had to wait, with the final symbols. */
  ghost predicate RaisesInTheEnd(kind: ErrorKind, body: Body, cur: U32, known: Table, final: Table) {
    match body
    case Operation(mode, _, e) =>
      && Meaning(e, known).Unknown?
      && (|| (kind == MissingSymbol && Meaning(e, final).Unknown?)
          || (kind == DivideTrap && Meaning(e, final).Trap?)
          || (kind == OperandTooLarge && TakesOneByte(mode) && IsLarge(Meaning(e, final))))
    case Branching(_, target) =>
      if target in final then kind == BranchTooFar && !WithinReach(cur + 2, final[target])
      else kind == UnresolvedBranch
    case _ => false
  }

  /** The line complains: about its label, its body, or what its body left open. */
  ghost predicate Raises(kind: ErrorKind, s: State, l: Line, final: Table) {
    var known := BindLabel(s, l).table;
    || (kind == DuplicateSymbol && l.labelId.Some? && l.labelId.value in s.table)
    || RaisesAtOnce(kind, l.body, known)
    || RaisesInTheEnd(kind, l.body, s.cur, known, final)
  }

  // ----- the proof, line by line -----

  ghost predicate Complains(e: Emission, kind: ErrorKind, t: Table) {
    kind in e.errors || kind in DeferredErrors(e.deferred, t) || kind in BranchErrors(e.branches, t)
  }

  lemma ItemComplains(kind: DataKind, v: Value, error: ErrorKind)
    ensures error in DataItem(kind, v).1
       <==> (error == ValueOutOfRange && v.Known? && !IsItem(kind, v.v)) || (error == DivideTrap && v.Trap?)
  {
    if v.Known? { InLimitIffItem(kind, v.v); }
  }

  lemma {:induction false} DataComplains(kind: DataKind, vs: seq<Value>, error: ErrorKind)
    ensures error in EmitData(kind, vs).errors
       <==> (error == ValueOutOfRange && SomeOutOfRange(kind, vs)) || (error == DivideTrap && Trap in vs)
  {
    if vs == [] {
    } else {
      var front, last := vs[..|vs| - 1], vs[|vs| - 1];
      DataComplains(kind, front, error);
      ItemComplains(kind, last, error);
      assert vs == front + [last];
      assert SomeOutOfRange(kind, vs) <==> SomeOutOfRange(kind, front) || (last.Known? && !IsItem(kind, last.v)) by {
        assert forall k :: 0 <= k < |front| ==> front[k] == vs[k];
      }
    }
  }

  /** An operand complains now if it has a value, in the end if it has to wait. */
  ghost predicate OperandRaises(kind: ErrorKind, oneByte: bool, now: Value, later: Value) {
    if now.Unknown? then
      || (kind == MissingSymbol && later.Unknown?)
      || (kind == DivideTrap && later.Trap?)
      || (kind == OperandTooLarge && oneByte && IsLarge(later))
    else
      (kind == DivideTrap && now.Trap?) || (kind == OperandTooLarge && oneByte && IsLarge(now))
  }

  lemma DeferredComplains(d: Deferred, kind: ErrorKind, t: Table)
    ensures kind in DeferredErrors([d], t)
       <==> OperandRaises(kind, d.size < 3, Unknown, Eval(d.expr, t))
  {
    OneDeferred(d, map[], t);
  }

  lemma OneByteOperandComplains(opcode: Byte, e: Expr, cur: U32, known: Table, final: Table, kind: ErrorKind)
    ensures Complains(EmitOneByteOperand(opcode, e, cur, known), kind, final)
       <==> OperandRaises(kind, true, Eval(e, known), Eval(e, final))
  {
    DeferredComplains(Deferred(cur, opcode, 2, e), kind, final);
  }

  lemma WideOperandComplains(opcode: Byte, zpg: Byte, e: Expr, cur: U32, known: Table, final: Table, kind: ErrorKind)
    ensures Complains(EmitWideOperand(opcode, zpg, e, cur, known), kind, final)
       <==> OperandRaises(kind, false, Eval(e, known), Eval(e, final))
  {
    DeferredComplains(Deferred(cur, opcode, 3, e), kind, final);
  }

  lemma OperationComplains(mode: Mode, m: Mnemonic, e: Tree, cur: U32, known: Table, final: Table, kind: ErrorKind)
    requires Extends(final, known)
    ensures Complains(Emit(Operation(mode, m, e), cur, known), kind, final)
       <==> OperandRaises(kind, TakesOneByte(mode), Meaning(e, known), Meaning(e, final))
  {
    var x := Freeze(e, known);
    EarlyBindingIsSound(e, known, known);
    EarlyBindingIsSound(e, known, final);
    if OneByteOnly(mode) {
      OneByteOperandComplains(FindOpCode(WideTable(mode), m), x, cur, known, final, kind);
    } else {
      WideOperandComplains(FindOpCode(WideTable(mode), m), ZeroPageOpCode(mode, m), x, cur, known, final, kind);
    }
  }

  lemma BranchComplains(m: Mnemonic, target: string, cur: U32, known: Table, final: Table, kind: ErrorKind)
    ensures Complains(Emit(Branching(m, target), cur, known), kind, final)
       <==> RaisesInTheEnd(kind, Branching(m, target), cur, known, final)
  {
    var b := Branch(Inc(cur), Symbol(target));
    OneBranch(b, map[], final);
    if target in final {
      OffsetIsDistance(cur, final[target]);
      InRangeIffWithinReach(cur + 2, final[target]);
    }
  }

  lemma EmissionComplains(body: Body, cur: U32, known: Table, final: Table, kind: ErrorKind)
    requires Emits(body) && Extends(final, known)
    ensures Complains(Emit(body, cur, known), kind, final)
       <==> RaisesAtOnce(kind, body, known) || RaisesInTheEnd(kind, body, cur, known, final)
  {
    match body {
      case Data(data, items) => DataComplains(data, Meanings(ItemTrees(items), known), kind);
      case Direct(_) =>
      case Branching(m, target) => BranchComplains(m, target, cur, known, final, kind);
      case Operation(mode, m, e) => OperationComplains(mode, m, e, cur, known, final, kind);
    }
  }

  /** The complaints a state has recorded, and those its open slots will raise. */
  ghost predicate Recorded(s: State, kind: ErrorKind, t: Table) {
    kind in s.errors || kind in DeferredErrors(s.deferred, t) || kind in BranchErrors(s.branches, t)
  }

  lemma LabelComplains(s: State, l: Line, kind: ErrorKind, t: Table)
    ensures Recorded(BindLabel(s, l), kind, t)
       <==> Recorded(s, kind, t) || (kind == DuplicateSymbol && l.labelId.Some? && l.labelId.value in s.table)
  {
  }

  lemma EmittedComplains(s: State, e: Emission, kind: ErrorKind, t: Table)
    ensures Recorded(Emitted(s, e), kind, t) <==> Recorded(s, kind, t) || Complains(e, kind, t)
  {
    DeferredErrorsConcat(s.deferred, e.deferred, t);
    BranchErrorsConcat(s.branches, e.branches, t);
  }

  lemma SilentComplains(s: State, es: seq<ErrorKind>, kind: ErrorKind, t: Table)
    ensures Recorded(Silent(s, es), kind, t) <==> Recorded(s, kind, t) || kind in es
  {
  }

  lemma OrgComplains(s: State, e: Tree, kind: ErrorKind, t: Table)
    ensures Recorded(OrgStep(s, e), kind, t)
       <==> Recorded(s, kind, t) || (kind == DivideTrap && Meaning(e, s.table).Trap?)
  {
    if !Meaning(e, s.table).Known? {
      SilentComplains(s, if Meaning(e, s.table).Trap? then [DivideTrap] else [], kind, t);
    }
  }

  lemma AssignComplains(s: State, id: string, e: Tree, kind: ErrorKind, t: Table)
    ensures Recorded(AssignStep(s, id, e), kind, t)
       <==> Recorded(s, kind, t) || RaisesAtOnce(kind, Assign(id, e), s.table)
  {
  }

  lemma QuietComplains(s: State, l: Line, kind: ErrorKind, t: Table)
    requires !Emits(l.body)
    ensures Recorded(Step(s, l), kind, t)
       <==> Recorded(BindLabel(s, l), kind, t) || RaisesAtOnce(kind, l.body, BindLabel(s, l).table)
  {
    match l.body {
      case Org(e) => OrgComplains(BindLabel(s, l), e, kind, t);
      case Assign(id, e) => AssignComplains(BindLabel(s, l), id, e, kind, t);
    }
  }

  lemma StepComplains(s: State, l: Line, kind: ErrorKind, t: Table)
    requires Extends(t, BindLabel(s, l).table)
    ensures Recorded(Step(s, l), kind, t) <==> Recorded(s, kind, t) || Raises(kind, s, l, t)
  {
    LabelComplains(s, l, kind, t);
    if Emits(l.body) {
      StepEmits(s, l);
      EmittedComplains(BindLabel(s, l), EmissionOf(s, l), kind, t);
      EmissionComplains(l.body, s.cur, BindLabel(s, l).table, t, kind);
    } else {
      QuietComplains(s, l, kind, t);
    }
  }

  ghost predicate SomeRaises(kind: ErrorKind, lines: seq<Line>, n: nat, t: Table)
    requires n <= |lines|
  {
    exists i :: 0 <= i < n && Raises(kind, Before(lines, i), lines[i], t)
  }

  lemma SomeRaisesNext(kind: ErrorKind, lines: seq<Line>, n: nat, t: Table)
    requires n < |lines|
    ensures SomeRaises(kind, lines, n + 1, t)
       <==> SomeRaises(kind, lines, n, t) || Raises(kind, Before(lines, n), lines[n], t)
  {
  }

  lemma LineComplains(kind: ErrorKind, lines: seq<Line>, n: nat, t: Table)
    requires n < |lines| && Extends(t, Run(INITIAL, lines).table)
    ensures Recorded(Before(lines, n + 1), kind, t)
       <==> Recorded(Before(lines, n), kind, t) || Raises(kind, Before(lines, n), lines[n], t)
  {
    BeforeNext(lines, n);
    RecordsSoFar(lines, n + 1);
    LabelledBeforeStep(Before(lines, n), lines[n]);
    StepComplains(Before(lines, n), lines[n], kind, t);
  }

  lemma {:induction false} RunComplains(kind: ErrorKind, lines: seq<Line>, n: nat, t: Table)
    requires n <= |lines| && Extends(t, Run(INITIAL, lines).table)
    ensures Recorded(Before(lines, n), kind, t) <==> SomeRaises(kind, lines, n, t)
  {
    if n == 0 {
    } else {
      RunComplains(kind, lines, n - 1, t);
      LineComplains(kind, lines, n - 1, t);
      SomeRaisesNext(kind, lines, n - 1, t);
    }
  }

  /** Every kind of error, for every program, wrong as it may be: it is reported if and only if
      some line raises it, when it is reached or in the end. */
  lemma ErrorsAreExact(lines: seq<Line>, kind: ErrorKind)
    ensures kind in Assembled(lines).errors <==> SomeRaises(kind, lines, |lines|, Assembled(lines).table)
  {
    RunComplains(kind, lines, |lines|, Run(INITIAL, lines).table);
    assert lines[..|lines|] == lines;
  }
}
