/** One line at a time: what the listener emits, with its open slots patched later,
    is what the two-pass assembler encodes for that line. */
module EmissionProofs {
  import opened Words
  import opened Expressions
  import opened Opcodes
  import opened Source
  import opened OnePass
  import opened TwoPass
  import opened Layers

  // ----- the byte writer without wrap-around -----

  lemma {:induction false} PutAllAdvances(c: Cursor, bs: seq<Byte>)
    ensures PutAll(c, bs).cur == Wrap(c.cur + |bs|)
  {
    if bs == [] {
    } else {
      PutAllAdvances(c, bs[..|bs| - 1]);
      WrapAbsorbs(c.cur + |bs| - 1, 1);
    }
  }

  lemma BlockGrows(p: Memory, a: U32, bs: seq<Byte>)
    requires bs != [] && a + |bs| <= ADDR_INVALID
    ensures p + Block(a, bs) == (p + Block(a, bs[..|bs| - 1]))[a + |bs| - 1 := bs[|bs| - 1]]
  {
    var k: U32 := a + |bs| - 1;
    assert Block(a, bs) == Block(a, bs[..|bs| - 1])[k := bs[|bs| - 1]];
  }

  lemma PutWritesLast(c: Cursor, front: Cursor, bs: seq<Byte>)
    requires c.line == ADDR_INVALID && bs != [] && c.cur + |bs| <= ADDR_INVALID
    requires front == Cursor(c.cur + |bs| - 1, if |bs| == 1 then ADDR_INVALID else c.cur,
                             c.payload + Block(c.cur, bs[..|bs| - 1]))
    ensures Put(front, bs[|bs| - 1]) == Cursor(c.cur + |bs|, c.cur, c.payload + Block(c.cur, bs))
  {
    BlockGrows(c.payload, c.cur, bs);
  }

  lemma {:induction false} PutAllWritesBlock(c: Cursor, bs: seq<Byte>)
    requires c.line == ADDR_INVALID && c.cur + |bs| <= ADDR_INVALID
    ensures PutAll(c, bs)
         == Cursor(c.cur + |bs|, if bs == [] then ADDR_INVALID else c.cur, c.payload + Block(c.cur, bs))
  {
    if bs == [] {
      assert c.payload + Block(c.cur, bs) == c.payload;
    } else {
      PutAllWritesBlock(c, bs[..|bs| - 1]);
      PutWritesLast(c, PutAll(c, bs[..|bs| - 1]), bs);
    }
  }

  // ----- clean emissions -----

  /** Emitted without an error, and resolvable with the final symbols. */
  ghost predicate Clean(e: Emission, t: Table) {
    && e.errors == []
    && DeferredErrors(e.deferred, t) == []
    && BranchErrors(e.branches, t) == []
  }

  function Claim(e: Emission): nat {
    |e.bytes| + if e.gap then 1 else 0
  }

  predicate Emits(body: Body) {
    !body.Org? && !body.Assign?
  }

  lemma OneDeferred(d: Deferred, p: Memory, t: Table)
    ensures DeferredErrors([d], t) == DeferredError(d, t)
    ensures PatchDeferred(p, [d], t) == p + DeferredPatch(d, t)
  {
    assert [d][..0] == [];
  }

  lemma OneBranch(b: Branch, p: Memory, t: Table)
    ensures BranchErrors([b], t) == BranchError(b, t)
    ensures PatchBranches(p, [b], t) == p + BranchPatch(b, t)
  {
    assert [b][..0] == [];
  }

  ghost predicate AllFit(kind: DataKind, trees: seq<Tree>, t: Table) {
    forall i :: 0 <= i < |trees| ==> FitsIn(trees[i], Limit(kind), t)
  }

  lemma AllFitNext(kind: DataKind, trees: seq<Tree>, last: Tree, t: Table)
    ensures AllFit(kind, trees + [last], t) <==> AllFit(kind, trees, t) && FitsIn(last, Limit(kind), t)
    ensures ValuesCode(kind, trees + [last], t) == ValuesCode(kind, trees, t) + ItemBytes(kind, ValueOf(last, t))
  {
    assert (trees + [last])[..|trees|] == trees;
    assert (trees + [last])[|trees|] == last;
    if AllFit(kind, trees + [last], t) {
      forall i | 0 <= i < |trees| ensures FitsIn(trees[i], Limit(kind), t) {
        assert (trees + [last])[i] == trees[i];
      }
    }
  }

  lemma MeaningsFront(trees: seq<Tree>, t: Table)
    requires trees != []
    ensures Meanings(trees, t)[..|trees| - 1] == Meanings(trees[..|trees| - 1], t)
  {
  }

  lemma EmitDataStep(kind: DataKind, trees: seq<Tree>, t: Table)
    requires trees != []
    ensures var e, front := EmitData(kind, Meanings(trees, t)), EmitData(kind, Meanings(trees[..|trees| - 1], t));
            var (bs, es) := DataItem(kind, Meaning(trees[|trees| - 1], t));
            e.bytes == front.bytes + bs && e.errors == front.errors + es
  {
    MeaningsFront(trees, t);
  }

  lemma {:induction false} DataMatchesValues(kind: DataKind, trees: seq<Tree>, t: Table, later: Table)
    requires Extends(later, t)
    ensures EmitData(kind, Meanings(trees, t)).errors == [] <==> AllFit(kind, Present(trees, t), later)
    ensures AllFit(kind, Present(trees, t), later) ==>
              EmitData(kind, Meanings(trees, t)).bytes == ValuesCode(kind, Present(trees, t), later)
  {
    if trees == [] {
    } else {
      var last, front := trees[|trees| - 1], trees[..|trees| - 1];
      DataMatchesValues(kind, front, t, later);
      EmitDataStep(kind, trees, t);
      if Meaning(last, t).Unknown? {
        assert Present(trees, t) == Present(front, t);
      } else {
        MeaningIsStable(last, t, later);
        AllFitNext(kind, Present(front, t), last, later);
      }
    }
  }

  /** Either the bytes are there, or the slot that will receive them is. */
  ghost predicate OperandEncoded(e: Emission, code: seq<Byte>, operand: Tree, cur: U32, t: Table) {
    && |e.bytes| == |code| && code != []
    && if Meaning(operand, t).Unknown? then e.deferred == [Deferred(cur, code[0], |code|, Freeze(operand, t))]
       else e.deferred == [] && e.bytes == code
  }

  /** An operand that must fit one byte, encoded now or reserved for later. */
  lemma OneByteOperandMatches(opcode: Byte, operand: Tree, cur: U32, t: Table, later: Table)
    requires Extends(later, t)
    ensures var e := EmitOneByteOperand(opcode, Freeze(operand, t), cur, t);
            && !e.gap && e.branches == []
            && (Clean(e, later) <==> FitsIn(operand, 0xff, later))
            && (e.errors == [] ==> |e.bytes| == 2)
            && (e.errors == [] ==> OperandEncoded(e, [opcode, Low(ValueOf(operand, later))], operand, cur, t))
  {
    EarlyBindingIsSound(operand, t, t);
    EarlyBindingIsSound(operand, t, later);
    OneDeferred(Deferred(cur, opcode, 2, Freeze(operand, t)), map[], later);
    if !Meaning(operand, t).Unknown? { MeaningIsStable(operand, t, later); }
  }

  lemma WideOperandMatches(opcode: Byte, zpg: Byte, operand: Tree, cur: U32, t: Table, later: Table)
    requires Extends(later, t)
    ensures var e := EmitWideOperand(opcode, zpg, Freeze(operand, t), cur, t);
            var v := ValueOf(operand, later);
            && !e.gap && e.branches == []
            && (Clean(e, later) <==> Meaning(operand, later).Known?)
            && (e.errors == [] ==>
                  OperandEncoded(e, if Meaning(operand, t).Known? && v <= 0xff && zpg > 0 then [zpg, Low(v)]
                                    else [opcode, Low(v), High(v)], operand, cur, t))
  {
    EarlyBindingIsSound(operand, t, t);
    EarlyBindingIsSound(operand, t, later);
    OneDeferred(Deferred(cur, opcode, 3, Freeze(operand, t)), map[], later);
    if !Meaning(operand, t).Unknown? { MeaningIsStable(operand, t, later); }
  }

  lemma FormIsSized(mode: Mode, m: Mnemonic, operand: Tree, t: Table)
    requires !OneByteOnly(mode)
    ensures var form := Form(mode, m, operand, t);
            if Meaning(operand, t).Known? && Meaning(operand, t).v <= 0xff && ZeroPageOpCode(mode, m) > 0
            then OperandSize(form) == 1 && FindOpCode(form, m) == ZeroPageOpCode(mode, m)
            else form == WideTable(mode) && OperandSize(form) == 2
  {
  }

  lemma FormEncodes(form: OpTable, m: Mnemonic, operand: Tree, late: bool, cur: U32, later: Table)
    requires 1 <= OperandSize(form) <= 2
    ensures var p, v := Placed(cur, WithOperand(form, m, operand, late)), ValueOf(operand, later);
            && (Legal(p, later) <==> FitsIn(operand, if OperandSize(form) == 1 then 0xff else ADDR_INVALID, later))
            && Code(p, later) == if OperandSize(form) == 1 then [FindOpCode(form, m), Low(v)]
                                 else [FindOpCode(form, m), Low(v), High(v)]
  {
  }

  lemma WideFormMatches(mode: Mode, m: Mnemonic, operand: Tree, cur: U32, t: Table, later: Table)
    requires Extends(later, t) && !OneByteOnly(mode)
    ensures var e := Emit(Operation(mode, m, operand), cur, t);
            var p := Placed(cur, OperandPiece(mode, m, operand, t));
            && !e.gap && e.branches == []
            && (Clean(e, later) <==> Legal(p, later))
            && (e.errors == [] ==> OperandEncoded(e, Code(p, later), operand, cur, t))
  {
    var e := EmitWideOperand(FindOpCode(WideTable(mode), m), ZeroPageOpCode(mode, m), Freeze(operand, t), cur, t);
    var p := Placed(cur, OperandPiece(mode, m, operand, t));
    WideOperandMatches(FindOpCode(WideTable(mode), m), ZeroPageOpCode(mode, m), operand, cur, t, later);
    FormIsSized(mode, m, operand, t);
    FormEncodes(Form(mode, m, operand, t), m, operand, Meaning(operand, t).Unknown?, cur, later);
    if Meaning(operand, t).Known? { MeaningIsStable(operand, t, later); }
    assert Clean(e, later) <==> Legal(p, later);
    assert e == Emit(Operation(mode, m, operand), cur, t);
  }

  lemma OperationMatchesForm(mode: Mode, m: Mnemonic, operand: Tree, cur: U32, t: Table, later: Table)
    requires Extends(later, t)
    ensures var e := Emit(Operation(mode, m, operand), cur, t);
            var p := Placed(cur, OperandPiece(mode, m, operand, t));
            && !e.gap && e.branches == []
            && (Clean(e, later) <==> Legal(p, later))
            && (e.errors == [] ==> OperandEncoded(e, Code(p, later), operand, cur, t))
  {
    if OneByteOnly(mode) {
      OneByteOperandMatches(FindOpCode(WideTable(mode), m), operand, cur, t, later);
    } else {
      WideFormMatches(mode, m, operand, cur, t, later);
    }
  }

  // ----- slots -----

  /** The addresses a deferred operand or a branch operand waits for. */
  predicate InDeferredSlot(d: Deferred, a: U32) {
    a == d.address || a == Wrap(d.address + 1) || (d.size == 3 && a == Wrap(d.address + 2))
  }

  predicate WithinSlots(e: Emission, a: U32) {
    || (exists i :: 0 <= i < |e.deferred| && InDeferredSlot(e.deferred[i], a))
    || (exists i :: 0 <= i < |e.branches| && a == e.branches[i].address)
  }

  lemma DeferredPatchFillsItsSlot(d: Deferred, t: Table)
    requires DeferredError(d, t) == []
    ensures forall a: U32 :: a in DeferredPatch(d, t) <==> InDeferredSlot(d, a)
  {
  }

  lemma DeferredPatchKeepsToItsSlot(d: Deferred, t: Table, a: U32)
    requires a in DeferredPatch(d, t)
    ensures InDeferredSlot(d, a)
  {
  }

  lemma ShortBlock(a: U32, bs: seq<Byte>)
    requires a + |bs| <= ADDR_INVALID
    ensures |bs| == 1 ==> Block(a, bs) == map[a := bs[0]]
    ensures |bs| == 2 ==> Block(a, bs) == map[a := bs[0], Wrap(a + 1) := bs[1]]
    ensures |bs| == 3 ==> Block(a, bs) == map[a := bs[0], Wrap(a + 1) := bs[1], Wrap(a + 2) := bs[2]]
  {
  }

  lemma DeferredPatchIsBlock(d: Deferred, v: U32, later: Table)
    requires Eval(d.expr, later) == Known(v) && DeferredError(d, later) == []
    requires d.size == 2 || d.size == 3
    requires d.address + d.size <= ADDR_INVALID
    ensures DeferredPatch(d, later)
         == Block(d.address, if d.size == 2 then [d.opcode, Low(v)] else [d.opcode, Low(v), High(v)])
  {
    if d.size == 2 { ShortBlock(d.address, [d.opcode, Low(v)]); }
    else { ShortBlock(d.address, [d.opcode, Low(v), High(v)]); }
  }

  /** Line and slots together hold the piece: the line has the bytes that are known, the
      operand slot those of a late operand, the branch slot the offset. */
  ghost predicate HoldsPiece(e: Emission, p: Placed, t: Table) {
    && PatchDeferred(map[], e.deferred, t) == Part(p, 1, t)
    && PatchBranches(map[], e.branches, t) == Part(p, 2, t)
    && forall a: U32 :: a !in Part(p, 1, t) && a !in Part(p, 2, t) ==>
         AgreeAt(Block(p.address, e.bytes), Part(p, 0, t), a)
  }

  lemma RankZeroIsHeld(e: Emission, p: Placed, t: Table)
    requires e.deferred == [] && e.branches == [] && e.bytes == Code(p, t)
    requires forall a: U32 :: Claims(p, a) ==> Rank(p, a) == 0
    ensures HoldsPiece(e, p, t)
  {
    PartIsCode(p, 0, t);
    PartIsEmpty(p, 1, t);
    PartIsEmpty(p, 2, t);
  }

  lemma LateOperandIsPatched(d: Deferred, p: Placed, t: Table)
    requires p.piece.WithOperand? && OperandSize(p.piece.table) > 0
    requires d.address == p.address && d.opcode == Code(p, t)[0] && d.size == Size(p.piece)
    requires Eval(d.expr, t) == Known(ValueOf(p.piece.operand, t)) && DeferredError(d, t) == []
    requires p.address + Size(p.piece) <= ADDR_INVALID
    ensures PatchDeferred(map[], [d], t) == Block(p.address, Code(p, t))
  {
    OneDeferred(d, map[], t);
    DeferredPatchIsBlock(d, ValueOf(p.piece.operand, t), t);
    assert map[] + Block(p.address, Code(p, t)) == Block(p.address, Code(p, t));
  }

  lemma LateOperandIsHeld(e: Emission, p: Placed, t: Table)
    requires p.piece.WithOperand? && p.piece.late && OperandSize(p.piece.table) > 0
    requires e.branches == [] && |e.bytes| == Size(p.piece) && |e.deferred| == 1
    requires var d := e.deferred[0];
             && d.address == p.address && d.opcode == Code(p, t)[0] && d.size == Size(p.piece)
             && Eval(d.expr, t) == Known(ValueOf(p.piece.operand, t)) && DeferredError(d, t) == []
    requires p.address + Size(p.piece) <= ADDR_INVALID
    ensures HoldsPiece(e, p, t)
  {
    PartIsCode(p, 1, t);
    PartIsEmpty(p, 2, t);
    LateOperandIsPatched(e.deferred[0], p, t);
    assert e.deferred == [e.deferred[0]];
  }

  lemma OperandIsHeld(e: Emission, p: Placed, t: Table, later: Table)
    requires Extends(later, t) && p.piece.WithOperand? && OperandSize(p.piece.table) > 0
    requires p.piece.late == Meaning(p.piece.operand, t).Unknown?
    requires OperandEncoded(e, Code(p, later), p.piece.operand, p.address, t)
    requires e.branches == [] && Clean(e, later) && Legal(p, later)
    requires p.address + Size(p.piece) <= ADDR_INVALID
    ensures HoldsPiece(e, p, later)
  {
    if p.piece.late {
      EarlyBindingIsSound(p.piece.operand, t, later);
      OneDeferred(e.deferred[0], map[], later);
      LateOperandIsHeld(e, p, later);
    } else {
      RankZeroIsHeld(e, p, later);
    }
  }

  /** The emission and the piece succeed together, have the same size, and between the line
      and its slots the same bytes. */
  ghost predicate Matches(e: Emission, p: Placed, later: Table) {
    && (Clean(e, later) <==> Legal(p, later))
    && (e.errors == [] ==> Claim(e) == Size(p.piece))
    && (Clean(e, later) && p.address + Claim(e) <= ADDR_INVALID ==> HoldsPiece(e, p, later))
  }

  lemma FormTakesOperand(mode: Mode, m: Mnemonic, operand: Tree, t: Table)
    ensures OperandSize(Form(mode, m, operand, t)) > 0
  {
  }

  lemma OperationMatchesPiece(mode: Mode, m: Mnemonic, operand: Tree, cur: U32, t: Table, later: Table)
    requires Extends(later, t)
    ensures Matches(Emit(Operation(mode, m, operand), cur, t), Placed(cur, OperandPiece(mode, m, operand, t)), later)
  {
    var e := Emit(Operation(mode, m, operand), cur, t);
    var p := Placed(cur, OperandPiece(mode, m, operand, t));
    OperationMatchesForm(mode, m, operand, cur, t, later);
    if Clean(e, later) && cur + Claim(e) <= ADDR_INVALID {
      FormTakesOperand(mode, m, operand, t);
      OperandIsHeld(e, p, t, later);
    }
  }

  lemma OffsetIsDistance(cur: U32, dest: U32)
    ensures Offset(Inc(cur), dest) == Distance(cur, dest)
  {
  }

  lemma BranchErrorMatches(cur: U32, target: string, later: Table)
    ensures BranchError(Branch(Inc(cur), Symbol(target)), later) == []
       <==> target in later && -128 <= Distance(cur, later[target]) <= 127
  {
    if target in later { OffsetIsDistance(cur, later[target]); }
  }

  lemma BranchParts(p: Placed, t: Table)
    requires p.piece.ToLabel? && p.address + 2 <= ADDR_INVALID
    ensures Part(p, 0, t) == map[p.address := Code(p, t)[0]]
    ensures Part(p, 1, t) == map[]
    ensures Part(p, 2, t) == map[Inc(p.address) := Code(p, t)[1]]
  {
  }

  lemma BranchIsPatched(address: U32, target: string, t: Table)
    requires BranchError(Branch(Inc(address), Symbol(target)), t) == []
    ensures target in t
    ensures PatchBranches(map[], [Branch(Inc(address), Symbol(target))], t)
         == map[Inc(address) := Low(Wrap(Distance(address, t[target])))]
  {
    OneBranch(Branch(Inc(address), Symbol(target)), map[], t);
    OffsetIsDistance(address, t[target]);
  }

  lemma BranchIsHeld(e: Emission, p: Placed, later: Table)
    requires p.piece.ToLabel? && e.bytes == [Code(p, later)[0]] && e.deferred == []
    requires e.branches == [Branch(Inc(p.address), Symbol(p.piece.target))]
    requires BranchError(e.branches[0], later) == []
    requires p.address + 2 <= ADDR_INVALID
    ensures HoldsPiece(e, p, later)
  {
    BranchParts(p, later);
    BranchIsPatched(p.address, p.piece.target, later);
    ShortBlock(p.address, e.bytes);
  }

  lemma BranchMatchesPiece(m: Mnemonic, target: string, cur: U32, t: Table, later: Table)
    ensures Matches(Emit(Branching(m, target), cur, t), Placed(cur, ToLabel(m, target)), later)
  {
    var e := Emit(Branching(m, target), cur, t);
    OneBranch(Branch(Inc(cur), Symbol(target)), map[], later);
    BranchErrorMatches(cur, target, later);
    if Clean(e, later) && cur + 2 <= ADDR_INVALID {
      BranchIsHeld(e, Placed(cur, ToLabel(m, target)), later);
    }
  }

  lemma PlainMatches(e: Emission, kind: DataKind, kept: seq<Tree>, cur: U32, later: Table)
    requires !e.gap && e.deferred == [] && e.branches == []
    requires e.errors == [] <==> AllFit(kind, kept, later)
    requires e.errors == [] ==> e.bytes == ValuesCode(kind, kept, later)
    ensures Matches(e, Placed(cur, Values(kind, kept)), later)
  {
    if e.errors == [] { RankZeroIsHeld(e, Placed(cur, Values(kind, kept)), later); }
  }

  lemma BareMatches(m: Mnemonic, cur: U32, t: Table, later: Table)
    ensures Matches(Emit(Direct(m), cur, t), Placed(cur, Bare(m)), later)
  {
    RankZeroIsHeld(Emit(Direct(m), cur, t), Placed(cur, Bare(m)), later);
  }

  lemma DataMatchesPiece(kind: DataKind, items: seq<Item>, cur: U32, t: Table, later: Table)
    requires Extends(later, t)
    ensures Matches(Emit(Data(kind, items), cur, t),
                    Placed(cur, Values(kind, Present(ItemTrees(items), t))), later)
  {
    DataMatchesValues(kind, ItemTrees(items), t, later);
    PlainMatches(Emit(Data(kind, items), cur, t), kind, Present(ItemTrees(items), t), cur, later);
  }

  /** The heart of the refinement: per line, emitting now and patching later gives exactly
      what encoding with the final symbols gives, under the same conditions, and the bytes
      that come late are those of the piece's higher ranks. */
  lemma BodyMatchesPiece(body: Body, cur: U32, t: Table, later: Table)
    requires Emits(body) && Extends(later, t)
    ensures PieceOf(body, t).Some?
    ensures Matches(Emit(body, cur, t), Placed(cur, PieceOf(body, t).value), later)
  {
    match body {
      case Data(kind, items) => DataMatchesPiece(kind, items, cur, t, later);
      case Direct(m) => BareMatches(m, cur, t, later);
      case Branching(m, target) => BranchMatchesPiece(m, target, cur, t, later);
      case Operation(mode, m, operand) => OperationMatchesPiece(mode, m, operand, cur, t, later);
    }
  }

  lemma ClaimIsSize(body: Body, cur: U32, t: Table)
    requires Emits(body) && Emit(body, cur, t).errors == []
    ensures Claim(Emit(body, cur, t)) == Size(PieceOf(body, t).value)
  {
    BodyMatchesPiece(body, cur, t, t);
  }

  lemma OperandSlotIsClaimed(e: Emission, d: Deferred, a: U32)
    requires e.deferred == [] || e.deferred == [d]
    requires e.branches == [] && |e.bytes| == d.size && 2 <= d.size <= 3
    requires d.address + d.size <= ADDR_INVALID
    requires WithinSlots(e, a)
    ensures a in Span(d.address, |e.bytes|)
  {
  }

  /** Slots lie inside the range the line claims. */
  lemma SlotsAreClaimed(body: Body, cur: U32, t: Table, a: U32)
    requires Emits(body)
    requires cur + Claim(Emit(body, cur, t)) <= ADDR_INVALID
    requires WithinSlots(Emit(body, cur, t), a)
    ensures a in Span(cur, Claim(Emit(body, cur, t)))
  {
    var e := Emit(body, cur, t);
    if e.deferred != [] {
      OperandSlotIsClaimed(e, e.deferred[0], a);
    }
  }
}
