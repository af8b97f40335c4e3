/** The symbol table, which overwrites: single assignment is its caller's business. */
module SymbolTables {
  import opened Words

  class SymbolTable {
    var symbols: map<string, U32>

    constructor ()
      ensures symbols == map[]
    {
      symbols := map[];
    }

    function ResolveSymbol(symbol: string): (r: Option<U32>)
      reads this
      ensures r.Some? <==> symbol in symbols
      ensures r.Some? ==> r.value == symbols[symbol]
    {
      if symbol in symbols then Some(symbols[symbol]) else None
    }

    method AddSymbol(symbol: string, val: U32)
      modifies this
      ensures symbols == old(symbols)[symbol := val]
    {
      symbols := symbols[symbol := val];
    }
  }
}

/** The listener: the parser calls one handler per rule exit, and each handler
    updates the fields in place. */
module Listeners {
  import opened Words
  import opened Expressions
  import opened Opcodes
  import opened Source
  import opened OnePass
  import opened SymbolTables

  lemma {:induction false} PutAllConcat(c: Cursor, bs: seq<Byte>, more: seq<Byte>)
    ensures PutAll(c, bs + more) == PutAll(PutAll(c, bs), more)
  {
    if more == [] {
      assert bs + more == bs;
    } else {
      assert (bs + more)[..|bs + more| - 1] == bs + more[..|more| - 1];
      PutAllConcat(c, bs, more[..|more| - 1]);
    }
  }

  lemma PutAllOne(c: Cursor, b: Byte)
    ensures PutAll(c, [b]) == Put(c, b)
  {
    assert [b][..0] == [];
  }

  lemma PutAllTwo(c: Cursor, b0: Byte, b1: Byte)
    ensures PutAll(c, [b0, b1]) == Put(Put(c, b0), b1)
  {
    assert [b0, b1][..1] == [b0];
    PutAllOne(c, b0);
  }

  lemma PutAllThree(c: Cursor, b0: Byte, b1: Byte, b2: Byte)
    ensures PutAll(c, [b0, b1, b2]) == Put(Put(Put(c, b0), b1), b2)
  {
    assert [b0, b1, b2][..2] == [b0, b1];
    PutAllTwo(c, b0, b1);
  }

  lemma PutAllNext(c: Cursor, bs: seq<Byte>, i: nat)
    requires i < |bs|
    ensures PutAll(c, bs[..i + 1]) == Put(PutAll(c, bs[..i]), bs[i])
  {
    assert bs[..i + 1][..i] == bs[..i];
  }

  lemma EmitDataNext(c: Cursor, kind: DataKind, vs: seq<Value>, i: nat)
    requires i < |vs|
    ensures PutAll(c, EmitData(kind, vs[..i + 1]).bytes)
         == PutAll(PutAll(c, EmitData(kind, vs[..i]).bytes), DataItem(kind, vs[i]).0)
    ensures EmitData(kind, vs[..i + 1]).errors == EmitData(kind, vs[..i]).errors + DataItem(kind, vs[i]).1
  {
    assert vs[..i + 1][..i] == vs[..i];
    PutAllConcat(c, EmitData(kind, vs[..i]).bytes, DataItem(kind, vs[i]).0);
  }

  lemma OverlayTwo(p: Memory, a0: U32, b0: Byte, a1: U32, b1: Byte)
    ensures p + map[a0 := b0, a1 := b1] == p[a0 := b0][a1 := b1]
  {
  }

  lemma OverlayThree(p: Memory, a0: U32, b0: Byte, a1: U32, b1: Byte, a2: U32, b2: Byte)
    ensures p + map[a0 := b0, a1 := b1, a2 := b2] == p[a0 := b0][a1 := b1][a2 := b2]
  {
  }

  /** The stack without its top; an empty stack stays empty. */
  function DropTop(stack: seq<Expr>): seq<Expr> {
    if stack == [] then [] else stack[..|stack| - 1]
  }

  /** The value on top of the stack; an empty stack has none. */
  function TopValue(stack: seq<Expr>, t: Table): Value {
    if stack == [] then Unknown else Eval(stack[|stack| - 1], t)
  }

  class Listener {
    var currentAddress: U32
    var addressOfLine: U32
    var branchTargets: seq<Branch>
    var deferredExpressionStatements: seq<Deferred>
    const symbolTable: SymbolTable
    var expressionStack: seq<Expr>
    var payload: Memory
    var codeLines: seq<CodeLine>
    var semanticErrors: seq<ErrorKind>
    var parseErrors: seq<string>

    constructor ()
      ensures fresh(symbolTable)
      ensures AtLineBoundary() && Contents() == INITIAL && parseErrors == []
    {
      currentAddress, addressOfLine := 0, ADDR_INVALID;
      branchTargets, deferredExpressionStatements := [], [];
      symbolTable := new SymbolTable();
      expressionStack, payload, codeLines := [], map[], [];
      semanticErrors, parseErrors := [], [];
    }

    ghost function Symbols(): Table
      reads this, symbolTable
    {
      symbolTable.symbols
    }

    ghost function Contents(): State
      reads this, symbolTable
    {
      State(currentAddress, symbolTable.symbols, payload, deferredExpressionStatements,
            branchTargets, codeLines, semanticErrors)
    }

    ghost predicate AtLineBoundary()
      reads this
    {
      addressOfLine == ADDR_INVALID && expressionStack == []
    }

    ghost function Writing(): Cursor
      reads this
    {
      Cursor(currentAddress, addressOfLine, payload)
    }

    // ----- the byte writer -----

    method AppendByteToPayload(byte: Byte)
      modifies this`currentAddress, this`addressOfLine, this`payload
      ensures Writing() == Put(old(Writing()), byte)
    {
      if addressOfLine == ADDR_INVALID {
        addressOfLine := currentAddress;
      }
      payload := payload[currentAddress := byte];
      currentAddress := Inc(currentAddress);
    }

    method AddWordToPayload(word: U32)
      modifies this`currentAddress, this`addressOfLine, this`payload
      ensures Writing() == PutAll(old(Writing()), [Low(word), High(word)])
    {
      PutAllTwo(Writing(), Low(word), High(word));
      AppendByteToPayload(Low(word));
      AppendByteToPayload(High(word));
    }

    method AddDByteToPayload(dbyte: U32)
      modifies this`currentAddress, this`addressOfLine, this`payload
      ensures Writing() == PutAll(old(Writing()), [High(dbyte), Low(dbyte)])
    {
      PutAllTwo(Writing(), High(dbyte), Low(dbyte));
      AppendByteToPayload(High(dbyte));
      AppendByteToPayload(Low(dbyte));
    }

    // ----- the expression stack -----

    method PopExpression() returns (v: Value)
      modifies this`expressionStack
      ensures v == TopValue(old(expressionStack), Symbols())
      ensures expressionStack == DropTop(old(expressionStack))
    {
      v := Unknown;
      if expressionStack != [] {
        v := Eval(expressionStack[|expressionStack| - 1], symbolTable.symbols);
        expressionStack := expressionStack[..|expressionStack| - 1];
      }
    }

    method PopNonEvalExpression() returns (e: Option<Expr>)
      modifies this`expressionStack
      ensures e.None? <==> old(expressionStack) == []
      ensures e.Some? ==> e.value == old(expressionStack)[|old(expressionStack)| - 1]
      ensures expressionStack == DropTop(old(expressionStack))
    {
      e := None;
      if expressionStack != [] {
        e := Some(expressionStack[|expressionStack| - 1]);
        expressionStack := expressionStack[..|expressionStack| - 1];
      }
    }

    method PopAllExpressions() returns (vs: seq<Value>)
      modifies this`expressionStack
      ensures vs == EvalAll(old(expressionStack), Symbols()) && expressionStack == []
    {
      vs := [];
      for i := 0 to |expressionStack|
        invariant |vs| == i
        invariant forall j :: 0 <= j < i ==> vs[j] == Eval(expressionStack[j], Symbols())
      {
        vs := vs + [Eval(expressionStack[i], symbolTable.symbols)];
      }
      expressionStack := [];
    }

    method PushLiteral(val: U32)
      modifies this`expressionStack
      ensures Some(expressionStack) == React(ExitLiteral(val), old(expressionStack), Symbols())
    {
      expressionStack := expressionStack + [Numeric(val)];
    }

    method PushSymbol(symName: string)
      modifies this`expressionStack
      ensures Some(expressionStack) == React(ExitSymbol(symName), old(expressionStack), Symbols())
    {
      match symbolTable.ResolveSymbol(symName) {
        case None => expressionStack := expressionStack + [Symbol(symName)];
        case Some(v) => expressionStack := expressionStack + [Numeric(v)];
      }
    }

    method CombineExpression(op: Option<Op>)
      requires op.Some? ==> |expressionStack| >= 2
      modifies this`expressionStack
      ensures Some(expressionStack) == React(ExitExpression(op), old(expressionStack), Symbols())
    {
      match op {
        case None =>
        case Some(op) =>
          var arg2 := expressionStack[|expressionStack| - 1];
          expressionStack := expressionStack[..|expressionStack| - 1];
          var arg1 := expressionStack[|expressionStack| - 1];
          expressionStack := expressionStack[..|expressionStack| - 1];
          expressionStack := expressionStack + [BinaryOperation(arg1, arg2, op)];
          assert old(expressionStack)[..|old(expressionStack)| - 1][..|old(expressionStack)| - 2]
              == old(expressionStack)[..|old(expressionStack)| - 2];
      }
    }

    /** The parser walks an expression: its events never pop an empty stack, and leave
        exactly one object on top of what was there. */
    method WalkExpression(e: Tree)
      modifies this`expressionStack
      ensures expressionStack == old(expressionStack) + [Freeze(e, Symbols())]
    {
      var evs := PostOrder(e);
      ExpressionPushesOneObject(e, expressionStack, Symbols());
      for i := 0 to |evs|
        invariant Replay(evs[i..], expressionStack, Symbols()) == Replay(evs, old(expressionStack), Symbols())
      {
        assert evs[i..][1..] == evs[i + 1..];
        match evs[i] {
          case ExitLiteral(v) => PushLiteral(v);
          case ExitSymbol(s) => PushSymbol(s);
          case ExitExpression(op) => CombineExpression(op);
        }
      }
    }

    method ExitDataString(chars: seq<Byte>)
      modifies this`expressionStack
      ensures expressionStack == old(expressionStack) + FreezeAll(TreesOf(Text(chars)), Symbols())
    {
      ghost var trees := TreesOf(Text(chars));
      for i := 0 to |chars|
        invariant expressionStack == old(expressionStack) + FreezeAll(trees[..i], Symbols())
      {
        PushLiteral(CharValue(chars[i]));
      }
      assert trees[..|chars|] == trees;
    }

    method WalkItem(item: Item)
      modifies this`expressionStack
      ensures expressionStack == old(expressionStack) + FreezeAll(TreesOf(item), Symbols())
    {
      match item {
        case Expression(e) => WalkExpression(e);
        case Text(chars) => ExitDataString(chars);
      }
    }

    method WalkItems(items: seq<Item>)
      modifies this`expressionStack
      ensures expressionStack == old(expressionStack) + FreezeAll(ItemTrees(items), Symbols())
    {
      if items == [] {
        assert expressionStack == old(expressionStack) + [];
      } else {
        WalkItem(items[0]);
        WalkItems(items[1..]);
        FreezeAllConcat(TreesOf(items[0]), ItemTrees(items[1..]), Symbols());
      }
    }

    // ----- symbols -----

    method AddSymbolCheckAlreadyDefined(symName: string, symVal: U32)
      modifies symbolTable, this`semanticErrors
      ensures Contents() == Define(old(Contents()), symName, symVal)
    {
      match symbolTable.ResolveSymbol(symName) {
        case None => symbolTable.AddSymbol(symName, symVal);
        case Some(_) => semanticErrors := semanticErrors + [DuplicateSymbol];
      }
    }

    method ExitLabel(symName: string)
      modifies symbolTable, this`semanticErrors
      ensures Contents() == Define(old(Contents()), symName, old(currentAddress))
    {
      AddSymbolCheckAlreadyDefined(symName, currentAddress);
    }

    // ----- directives -----

    /** What a statement handler leaves behind, given what the line emits. */
    ghost predicate HasEmitted(before: State, c: Cursor, e: Emission)
      reads this, symbolTable
    {
      && Writing() == Written(c, e)
      && symbolTable.symbols == before.table
      && codeLines == before.codeLines
      && deferredExpressionStatements == before.deferred + e.deferred
      && branchTargets == before.branches + e.branches
      && semanticErrors == before.errors + e.errors
    }

    method ExitOrgDirective()
      modifies this`expressionStack, this`addressOfLine, this`currentAddress, this`semanticErrors
      ensures expressionStack == DropTop(old(expressionStack))
      ensures
        var v := TopValue(old(expressionStack), Symbols());
        && currentAddress == (if v.Known? then v.v else old(currentAddress))
        && addressOfLine == (if v.Known? then v.v else old(addressOfLine))
        && semanticErrors == (if v.Trap? then old(semanticErrors) + [DivideTrap] else old(semanticErrors))
    {
      var optCurrAddr := PopExpression();
      match optCurrAddr {
        case Known(a) =>
          addressOfLine := a;
          currentAddress := a;
        case Unknown =>
        case Trap => semanticErrors := semanticErrors + [DivideTrap];
      }
    }

    method ExitAssDirective(symName: string)
      modifies this`expressionStack, symbolTable, this`semanticErrors
      ensures expressionStack == DropTop(old(expressionStack))
      ensures
        match TopValue(old(expressionStack), old(Symbols()))
        case Known(v) => Contents() == Define(old(Contents()), symName, v)
        case Unknown => Contents() == old(Contents()).(errors := old(semanticErrors) + [MissingSymbol])
        case Trap => Contents() == old(Contents()).(errors := old(semanticErrors) + [DivideTrap])
    {
      var optExprVal := PopExpression();
      match optExprVal {
        case Known(v) => AddSymbolCheckAlreadyDefined(symName, v);
        case Unknown => semanticErrors := semanticErrors + [MissingSymbol];
        case Trap => semanticErrors := semanticErrors + [DivideTrap];
      }
    }

    method AppendItem(kind: DataKind, v: U32)
      requires v <= Limit(kind)
      modifies this`currentAddress, this`addressOfLine, this`payload
      ensures Writing() == PutAll(old(Writing()), ItemBytes(kind, v))
    {
      match kind {
        case BYTE =>
          PutAllOne(Writing(), Low(v));
          AppendByteToPayload(Low(v));
        case WORD => AddWordToPayload(v);
        case DBYTE => AddDByteToPayload(v);
      }
    }

    method WriteItem(kind: DataKind, v: Value)
      modifies this`semanticErrors, this`currentAddress, this`addressOfLine, this`payload
      ensures Writing() == PutAll(old(Writing()), DataItem(kind, v).0)
      ensures semanticErrors == old(semanticErrors) + DataItem(kind, v).1
    {
      match v {
        case Known(v) =>
          if v > Limit(kind) {
            semanticErrors := semanticErrors + [ValueOutOfRange];
          } else {
            AppendItem(kind, v);
          }
        case Unknown =>
        case Trap => semanticErrors := semanticErrors + [DivideTrap];
      }
    }

    method WriteItems(kind: DataKind, vs: seq<Value>)
      modifies this`semanticErrors, this`currentAddress, this`addressOfLine, this`payload
      ensures Writing() == PutAll(old(Writing()), EmitData(kind, vs).bytes)
      ensures semanticErrors == old(semanticErrors) + EmitData(kind, vs).errors
    {
      ghost var start, errors := Writing(), semanticErrors;
      for i := 0 to |vs|
        invariant Writing() == PutAll(start, EmitData(kind, vs[..i]).bytes)
        invariant semanticErrors == errors + EmitData(kind, vs[..i]).errors
      {
        EmitDataNext(start, kind, vs, i);
        WriteItem(kind, vs[i]);
        assert (errors + EmitData(kind, vs[..i]).errors) + DataItem(kind, vs[i]).1
            == errors + (EmitData(kind, vs[..i]).errors + DataItem(kind, vs[i]).1);
      }
      assert vs[..|vs|] == vs;
    }

    /** `.BYTE`, `.WORD` and `.DBYTE` differ in the range and the byte order. */
    method ExitDataDirective(kind: DataKind)
      modifies this`expressionStack, this`semanticErrors, this`currentAddress, this`addressOfLine, this`payload
      ensures expressionStack == []
      ensures HasEmitted(old(Contents()), old(Writing()), EmitData(kind, EvalAll(old(expressionStack), Symbols())))
    {
      var vs := PopAllExpressions();
      WriteItems(kind, vs);
    }

    // ----- statements -----

    method MakeDeferredExpression(opcode: Byte, opNrBytes: nat, expr: Expr)
      requires opNrBytes > 0
      modifies this`deferredExpressionStatements, this`currentAddress, this`addressOfLine, this`payload
      ensures HasEmitted(old(Contents()), old(Writing()), Reserve(opcode, opNrBytes, expr, old(currentAddress)))
    {
      var slot := Deferred(currentAddress, opcode, opNrBytes, expr);
      deferredExpressionStatements := deferredExpressionStatements + [slot];
      ghost var filler := seq(opNrBytes, _ => 0xff);
      for i := 0 to opNrBytes
        invariant deferredExpressionStatements
               == old(deferredExpressionStatements) + [Deferred(old(currentAddress), opcode, opNrBytes, expr)]
        invariant Writing() == PutAll(old(Writing()), filler[..i])
      {
        PutAllNext(old(Writing()), filler, i);
        AppendByteToPayload(0xff);
      }
      assert filler[..opNrBytes] == filler;
    }

    method AppendShort(opcode: Byte, operand: U32)
      modifies this`currentAddress, this`addressOfLine, this`payload
      ensures Writing() == PutAll(old(Writing()), [opcode, Low(operand)])
    {
      PutAllTwo(Writing(), opcode, Low(operand));
      AppendByteToPayload(opcode);
      AppendByteToPayload(Low(operand));
    }

    method AppendLong(opcode: Byte, operand: U32)
      modifies this`currentAddress, this`addressOfLine, this`payload
      ensures Writing() == PutAll(old(Writing()), [opcode, Low(operand), High(operand)])
    {
      PutAllThree(Writing(), opcode, Low(operand), High(operand));
      AppendByteToPayload(opcode);
      AppendByteToPayload(Low(operand));
      AppendByteToPayload(High(operand));
    }

    method AppendIdxIdrOrIdrIdxOrImmCmd(opcode: Byte)
      modifies this`expressionStack, this`deferredExpressionStatements, this`semanticErrors,
               this`currentAddress, this`addressOfLine, this`payload
      ensures expressionStack == DropTop(old(expressionStack))
      ensures HasEmitted(old(Contents()), old(Writing()),
                         if old(expressionStack) == [] then Failing(InternalError)
                         else EmitOneByteOperand(opcode, old(expressionStack)[|old(expressionStack)| - 1],
                                                 old(currentAddress), Symbols()))
    {
      var popped := PopNonEvalExpression();
      match popped {
        case None =>
          semanticErrors := semanticErrors + [InternalError];
        case Some(expr) =>
          match Eval(expr, symbolTable.symbols) {
            case Known(operand) =>
              if operand <= 0xff {
                AppendShort(opcode, operand);
              } else {
                semanticErrors := semanticErrors + [OperandTooLarge];
              }
            case Unknown => MakeDeferredExpression(opcode, 2, expr);
            case Trap => semanticErrors := semanticErrors + [DivideTrap];
          }
      }
    }

    method AppendIdxOrZpgCmd(opcode: Byte, opcodeZpg: Byte)
      modifies this`expressionStack, this`deferredExpressionStatements, this`semanticErrors,
               this`currentAddress, this`addressOfLine, this`payload
      ensures expressionStack == DropTop(old(expressionStack))
      ensures HasEmitted(old(Contents()), old(Writing()),
                         if old(expressionStack) == [] then Failing(InternalError)
                         else EmitWideOperand(opcode, opcodeZpg, old(expressionStack)[|old(expressionStack)| - 1],
                                              old(currentAddress), Symbols()))
    {
      var popped := PopNonEvalExpression();
      match popped {
        case None =>
          semanticErrors := semanticErrors + [InternalError];
        case Some(expr) =>
          match Eval(expr, symbolTable.symbols) {
            case Known(operand) =>
              if operand <= 0xff && opcodeZpg > 0 {
                AppendShort(opcodeZpg, operand);
              } else {
                AppendLong(opcode, operand);
              }
            case Unknown => MakeDeferredExpression(opcode, 3, expr);
            case Trap => semanticErrors := semanticErrors + [DivideTrap];
          }
      }
    }

    method ExitDirStatement(m: Mnemonic)
      modifies this`currentAddress, this`addressOfLine, this`payload
      ensures HasEmitted(old(Contents()), old(Writing()), Emit(Direct(m), old(currentAddress), Symbols()))
    {
      PutAllOne(Writing(), FindOpCode(Implied, m));
      AppendByteToPayload(FindOpCode(Implied, m));
    }

    method ExitRelStatement(m: Mnemonic, target: string)
      modifies this`branchTargets, this`currentAddress, this`addressOfLine, this`payload
      ensures HasEmitted(old(Contents()), old(Writing()), Emit(Branching(m, target), old(currentAddress), Symbols()))
    {
      PutAllOne(Writing(), FindOpCode(Relative, m));
      AppendByteToPayload(FindOpCode(Relative, m));
      branchTargets := branchTargets + [Branch(currentAddress, Symbol(target))];
      currentAddress := Inc(currentAddress);
    }

    method ExitOperationStatement(mode: Mode, m: Mnemonic)
      modifies this`expressionStack, this`deferredExpressionStatements, this`semanticErrors,
               this`currentAddress, this`addressOfLine, this`payload
      ensures expressionStack == DropTop(old(expressionStack))
      ensures HasEmitted(old(Contents()), old(Writing()),
                         if old(expressionStack) == [] then Failing(InternalError)
                         else EmitOperand(mode, m, old(expressionStack)[|old(expressionStack)| - 1],
                                          old(currentAddress), Symbols()))
    {
      match mode {
        case Imm => AppendIdxIdrOrIdrIdxOrImmCmd(FindOpCode(Immediate, m));
        case IdxIdr => AppendIdxIdrOrIdrIdxOrImmCmd(FindOpCode(IndexedIndirect, m));
        case IdrIdx => AppendIdxIdrOrIdrIdxOrImmCmd(FindOpCode(IndirectIndexed, m));
        case IdxX => AppendIdxOrZpgCmd(FindOpCode(AbsoluteX, m), FindOpCode(ZeroPageX, m));
        case IdxY => AppendIdxOrZpgCmd(FindOpCode(AbsoluteY, m), FindOpCode(ZeroPageY, m));
        case Abs => AppendIdxOrZpgCmd(FindOpCode(Absolute, m), FindOpCode(ZeroPage, m));
        case Idr => AppendIdxOrZpgCmd(FindOpCode(Indirect, m), 0);
      }
    }

    // ----- lines -----

    method ExitLine()
      modifies this`codeLines, this`expressionStack, this`addressOfLine
      ensures AtLineBoundary()
      ensures codeLines == old(codeLines) + [LineRecord(old(addressOfLine), currentAddress)]
    {
      var startAddress, numberOfBytes := 0, 0;
      if addressOfLine != ADDR_INVALID {
        startAddress := addressOfLine;
        numberOfBytes := Wrap(currentAddress - addressOfLine);
      }
      codeLines := codeLines + [CodeLine(startAddress, numberOfBytes)];
      expressionStack := [];
      addressOfLine := ADDR_INVALID;
    }

    method WalkOrg(address: Tree)
      requires AtLineBoundary()
      modifies this`expressionStack, this`addressOfLine, this`currentAddress, this`semanticErrors
      ensures expressionStack == []
      ensures
        match Meaning(address, Symbols())
        case Known(a) => currentAddress == addressOfLine == a && semanticErrors == old(semanticErrors)
        case Unknown => unchanged(this`currentAddress, this`addressOfLine, this`semanticErrors)
        case Trap =>
          unchanged(this`currentAddress, this`addressOfLine) && semanticErrors == old(semanticErrors) + [DivideTrap]
    {
      WalkExpression(address);
      EarlyBindingIsSound(address, Symbols(), Symbols());
      ExitOrgDirective();
    }

    method WalkAssign(id: string, tree: Tree)
      requires AtLineBoundary()
      modifies this`expressionStack, symbolTable, this`semanticErrors
      ensures expressionStack == []
      ensures
        match old(Meaning(tree, Symbols()))
        case Known(v) => Contents() == Define(old(Contents()), id, v)
        case Unknown => Contents() == old(Contents()).(errors := old(semanticErrors) + [MissingSymbol])
        case Trap => Contents() == old(Contents()).(errors := old(semanticErrors) + [DivideTrap])
    {
      WalkExpression(tree);
      EarlyBindingIsSound(tree, Symbols(), Symbols());
      ExitAssDirective(id);
    }

    method WalkData(kind: DataKind, items: seq<Item>)
      requires expressionStack == []
      modifies this`expressionStack, this`semanticErrors, this`currentAddress, this`addressOfLine, this`payload
      ensures expressionStack == []
      ensures HasEmitted(old(Contents()), old(Writing()), Emit(Data(kind, items), old(currentAddress), Symbols()))
    {
      ghost var trees := ItemTrees(items);
      WalkItems(items);
      FrozenListMeansTheSame(trees, Symbols());
      assert expressionStack == FreezeAll(trees, Symbols());
      assert EvalAll(expressionStack, Symbols()) == Meanings(trees, Symbols());
      ExitDataDirective(kind);
    }

    /** The rule exits of a body that emits: its operands, then the statement or directive.
        The object that a branch target leaves is never popped; the line's end clears it. */
    method WalkEmitting(body: Body)
      requires expressionStack == []
      requires !body.Org? && !body.Assign?
      modifies this`expressionStack, this`deferredExpressionStatements, this`branchTargets, this`semanticErrors,
               this`currentAddress, this`addressOfLine, this`payload
      ensures expressionStack == if body.Branching? then [Freeze(Name(body.target), Symbols())] else []
      ensures HasEmitted(old(Contents()), old(Writing()), Emit(body, old(currentAddress), Symbols()))
    {
      match body {
        case Data(kind, items) => WalkData(kind, items);
        case Direct(m) => ExitDirStatement(m);
        case Branching(m, target) =>
          PushSymbol(target);
          ExitRelStatement(m, target);
        case Operation(mode, m, operand) =>
          WalkExpression(operand);
          assert expressionStack == [Freeze(operand, Symbols())];
          ExitOperationStatement(mode, m);
      }
    }

    method WalkLabel(l: Line)
      modifies symbolTable, this`semanticErrors
      ensures Contents() == BindLabel(old(Contents()), l)
    {
      match l.labelId {
        case None =>
        case Some(id) => ExitLabel(id);
      }
    }

    /** The rule exits of one line, in the order the parser reports them. */
    method WalkLine(l: Line)
      requires AtLineBoundary()
      modifies this, symbolTable
      ensures AtLineBoundary() && parseErrors == old(parseErrors)
      ensures Contents() == Step(old(Contents()), l)
    {
      WalkLabel(l);
      match l.body {
        case Org(address) => WalkOrg(address);
        case Assign(id, tree) => WalkAssign(id, tree);
        case _ => WalkEmitting(l.body);
      }
      ExitLine();
    }

    // ----- after the last line -----

    method PatchDeferredExpression(d: Deferred)
      modifies this`payload, this`semanticErrors
      ensures payload == old(payload) + DeferredPatch(d, Symbols())
      ensures semanticErrors == old(semanticErrors) + DeferredError(d, Symbols())
    {
      match Eval(d.expr, symbolTable.symbols) {
        case Known(operand) =>
          if operand > 0xff && d.size < 3 {
            semanticErrors := semanticErrors + [OperandTooLarge];
          } else {
            var second, third := Wrap(d.address + 1), Wrap(d.address + 2);
            OverlayTwo(payload, d.address, d.opcode, second, Low(operand));
            OverlayThree(payload, d.address, d.opcode, second, Low(operand), third, High(operand));
            payload := payload[d.address := d.opcode];
            payload := payload[second := Low(operand)];
            if d.size == 3 {
              payload := payload[third := High(operand)];
            }
          }
        case Unknown => semanticErrors := semanticErrors + [MissingSymbol];
        case Trap => semanticErrors := semanticErrors + [DivideTrap];
      }
    }

    method ResolveDeferredExpressions()
      modifies this`payload, this`semanticErrors
      ensures Contents() == ResolveDeferred(old(Contents()))
    {
      var ds := deferredExpressionStatements;
      for i := 0 to |ds|
        invariant payload == PatchDeferred(old(payload), ds[..i], Symbols())
        invariant semanticErrors == old(semanticErrors) + DeferredErrors(ds[..i], Symbols())
      {
        assert ds[..i + 1][..i] == ds[..i];
        PatchDeferredExpression(ds[i]);
      }
      assert ds[..|ds|] == ds;
    }

    method PatchBranchTarget(bt: Branch)
      modifies this`payload, this`semanticErrors
      ensures payload == old(payload) + BranchPatch(bt, Symbols())
      ensures semanticErrors == old(semanticErrors) + BranchError(bt, Symbols())
    {
      match Eval(bt.target, symbolTable.symbols) {
        case Known(dest) =>
          var offset := Signed32(Wrap(dest - (bt.address + 1)));
          if -128 <= offset <= 127 {
            payload := payload[bt.address := Low(Wrap(offset))];
          } else {
            semanticErrors := semanticErrors + [BranchTooFar];
          }
        case Unknown => semanticErrors := semanticErrors + [UnresolvedBranch];
        case Trap => semanticErrors := semanticErrors + [DivideTrap];
      }
    }

    method ResolveBranchTargets()
      modifies this`payload, this`semanticErrors
      ensures Contents() == ResolveBranches(old(Contents()))
    {
      var bts := branchTargets;
      for i := 0 to |bts|
        invariant payload == PatchBranches(old(payload), bts[..i], Symbols())
        invariant semanticErrors == old(semanticErrors) + BranchErrors(bts[..i], Symbols())
      {
        assert bts[..i + 1][..i] == bts[..i];
        PatchBranchTarget(bts[i]);
      }
      assert bts[..|bts|] == bts;
    }

    method AddParseError(errorMsg: string)
      modifies this`parseErrors
      ensures parseErrors == old(parseErrors) + [errorMsg]
    {
      parseErrors := parseErrors + [errorMsg];
    }

    predicate DetectedErrors()
      reads this
    {
      |semanticErrors| + |parseErrors| > 0
    }
  }
}
