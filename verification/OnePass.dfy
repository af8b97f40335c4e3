/** What each source line does to the assembler, as a function on states, and
    the two resolve passes that run after the last line. */
module OnePass {
  import opened Words
  import opened Expressions
  import opened Opcodes
  import opened Source

  datatype Deferred = Deferred(address: U32, opcode: Byte, size: nat, expr: Expr)

  datatype Branch = Branch(address: U32, target: Expr)

  datatype CodeLine = CodeLine(start: U32, length: U32)

  /** `DivideTrap` is not a message: it records that the process died on a zero divisor. */
  datatype ErrorKind =
    | MissingSymbol | DuplicateSymbol | ValueOutOfRange | OperandTooLarge
    | BranchTooFar | UnresolvedBranch | InternalError | DivideTrap

  /** The assembler between two lines. */
  datatype State = State(
    cur: U32,
    table: Table,
    payload: Memory,
    deferred: seq<Deferred>,
    branches: seq<Branch>,
    codeLines: seq<CodeLine>,
    errors: seq<ErrorKind>)

  const INITIAL: State := State(0, map[], map[], [], [], [], [])

  // ----- appending bytes -----

  /** The part of the assembler that emitting touches: the current address, the
      address of the line (or the sentinel) and the memory. */
  datatype Cursor = Cursor(cur: U32, line: U32, payload: Memory)

  function Put(c: Cursor, b: Byte): Cursor {
    Cursor(Inc(c.cur), if c.line == ADDR_INVALID then c.cur else c.line, c.payload[c.cur := b])
  }

  function PutAll(c: Cursor, bs: seq<Byte>): Cursor {
    if bs == [] then c else Put(PutAll(c, bs[..|bs| - 1]), bs[|bs| - 1])
  }

  function LineRecord(line: U32, cur: U32): CodeLine {
    if line == ADDR_INVALID then CodeLine(0, 0) else CodeLine(line, Wrap(cur - line))
  }

  // ----- what a body emits -----

  datatype Emission = Emission(
    bytes: seq<Byte>,
    gap: bool,  // one more address is claimed but not written yet
    deferred: seq<Deferred>,
    branches: seq<Branch>,
    errors: seq<ErrorKind>)

  function Bytes(bs: seq<Byte>): Emission {
    Emission(bs, false, [], [], [])
  }

  function Failing(e: ErrorKind): Emission {
    Emission([], false, [], [], [e])
  }

  function Reserve(opcode: Byte, size: nat, expr: Expr, cur: U32): Emission {
    Emission(seq(size, _ => 0xff), false, [Deferred(cur, opcode, size, expr)], [], [])
  }

  function EmitOneByteOperand(opcode: Byte, operand: Expr, cur: U32, t: Table): Emission {
    match Eval(operand, t)
    case Known(v) => if v <= 0xff then Bytes([opcode, Low(v)]) else Failing(OperandTooLarge)
    case Unknown => Reserve(opcode, 2, operand, cur)
    case Trap => Failing(DivideTrap)
  }

  function EmitWideOperand(opcode: Byte, zpgOpcode: Byte, operand: Expr, cur: U32, t: Table): Emission {
    match Eval(operand, t)
    case Known(v) =>
      if v <= 0xff && zpgOpcode > 0 then Bytes([zpgOpcode, Low(v)])
      else Bytes([opcode, Low(v), High(v)])
    case Unknown => Reserve(opcode, 3, operand, cur)
    case Trap => Failing(DivideTrap)
  }

  function EmitOperand(mode: Mode, m: Mnemonic, operand: Expr, cur: U32, t: Table): Emission {
    if OneByteOnly(mode) then EmitOneByteOperand(FindOpCode(WideTable(mode), m), operand, cur, t)
    else EmitWideOperand(FindOpCode(WideTable(mode), m), ZeroPageOpCode(mode, m), operand, cur, t)
  }

  /** Items with a value are checked and written; items without one vanish. */
  function DataItem(kind: DataKind, v: Value): (seq<Byte>, seq<ErrorKind>) {
    match v
    case Known(v) => if v <= Limit(kind) then (ItemBytes(kind, v), []) else ([], [ValueOutOfRange])
    case Unknown => ([], [])
    case Trap => ([], [DivideTrap])
  }

  function EmitData(kind: DataKind, vs: seq<Value>): (e: Emission)
    ensures !e.gap && e.deferred == [] && e.branches == []
  {
    if vs == [] then Bytes([])
    else
      var front := EmitData(kind, vs[..|vs| - 1]);
      var (bs, es) := DataItem(kind, vs[|vs| - 1]);
      Emission(front.bytes + bs, false, [], [], front.errors + es)
  }

  function Emit(body: Body, cur: U32, t: Table): Emission {
    match body
    case Data(kind, items) => EmitData(kind, Meanings(ItemTrees(items), t))
    case Direct(m) => Bytes([FindOpCode(Implied, m)])
    case Branching(m, target) =>
      Emission([FindOpCode(Relative, m)], true, [], [Branch(Inc(cur), Symbol(target))], [])
    case Operation(mode, m, operand) =>
      EmitOperand(mode, m, Freeze(operand, t), cur, t)
    case Org(_) => Bytes([])
    case Assign(_, _) => Bytes([])
  }

  function Written(c: Cursor, e: Emission): Cursor {
    var w := PutAll(c, e.bytes);
    if e.gap then w.(cur := Inc(w.cur)) else w
  }

  // ----- lines -----

  /** Symbols are assigned once; a second definition is an error and changes nothing. */
  function Define(s: State, id: string, v: U32): State {
    if id in s.table then s.(errors := s.errors + [DuplicateSymbol])
    else s.(table := s.table[id := v])
  }

  function BindLabel(s: State, l: Line): State {
    match l.labelId
    case None => s
    case Some(id) => Define(s, id, s.cur)
  }

  function Emitted(s: State, e: Emission): State {
    var c := Written(Cursor(s.cur, ADDR_INVALID, s.payload), e);
    s.(cur := c.cur,
       payload := c.payload,
       deferred := s.deferred + e.deferred,
       branches := s.branches + e.branches,
       codeLines := s.codeLines + [LineRecord(c.line, c.cur)],
       errors := s.errors + e.errors)
  }

  function Silent(s: State, es: seq<ErrorKind>): State {
    s.(codeLines := s.codeLines + [CodeLine(0, 0)], errors := s.errors + es)
  }

  function OrgStep(s: State, address: Tree): State {
    match Meaning(address, s.table)
    case Known(a) => s.(cur := a, codeLines := s.codeLines + [LineRecord(a, a)])
    case Unknown => Silent(s, [])
    case Trap => Silent(s, [DivideTrap])
  }

  function AssignStep(s: State, id: string, tree: Tree): State {
    match Meaning(tree, s.table)
    case Known(v) => Silent(Define(s, id, v), [])
    case Unknown => Silent(s, [MissingSymbol])
    case Trap => Silent(s, [DivideTrap])
  }

  function Step(s: State, l: Line): State {
    var s := BindLabel(s, l);
    match l.body
    case Org(address) => OrgStep(s, address)
    case Assign(id, tree) => AssignStep(s, id, tree)
    case _ => Emitted(s, Emit(l.body, s.cur, s.table))
  }

  function Run(s: State, lines: seq<Line>): State
    decreases |lines|
  {
    if lines == [] then s else Run(Step(s, lines[0]), lines[1..])
  }

  // ----- resolving -----

  /** The bytes a deferred operand slot receives, and the error it raises instead. */
  function DeferredPatch(d: Deferred, t: Table): Memory {
    match Eval(d.expr, t)
    case Known(v) =>
      if v > 0xff && d.size < 3 then map[]
      else if d.size == 3 then map[d.address := d.opcode, Wrap(d.address + 1) := Low(v), Wrap(d.address + 2) := High(v)]
      else map[d.address := d.opcode, Wrap(d.address + 1) := Low(v)]
    case _ => map[]
  }

  function DeferredError(d: Deferred, t: Table): seq<ErrorKind> {
    match Eval(d.expr, t)
    case Known(v) => if v > 0xff && d.size < 3 then [OperandTooLarge] else []
    case Unknown => [MissingSymbol]
    case Trap => [DivideTrap]
  }

  /** The distance from the address after the operand, as a signed number. */
  function Offset(operandAddress: U32, dest: U32): int {
    Signed32(Wrap(dest - (operandAddress + 1)))
  }

  function BranchPatch(b: Branch, t: Table): Memory {
    match Eval(b.target, t)
    case Known(dest) =>
      if -128 <= Offset(b.address, dest) <= 127 then map[b.address := Low(Wrap(Offset(b.address, dest)))]
      else map[]
    case _ => map[]
  }

  function BranchError(b: Branch, t: Table): seq<ErrorKind> {
    match Eval(b.target, t)
    case Known(dest) => if -128 <= Offset(b.address, dest) <= 127 then [] else [BranchTooFar]
    case Unknown => [UnresolvedBranch]
    case Trap => [DivideTrap]
  }

  function PatchDeferred(p: Memory, ds: seq<Deferred>, t: Table): Memory {
    if ds == [] then p else PatchDeferred(p, ds[..|ds| - 1], t) + DeferredPatch(ds[|ds| - 1], t)
  }

  function DeferredErrors(ds: seq<Deferred>, t: Table): seq<ErrorKind> {
    if ds == [] then [] else DeferredErrors(ds[..|ds| - 1], t) + DeferredError(ds[|ds| - 1], t)
  }

  function PatchBranches(p: Memory, bs: seq<Branch>, t: Table): Memory {
    if bs == [] then p else PatchBranches(p, bs[..|bs| - 1], t) + BranchPatch(bs[|bs| - 1], t)
  }

  function BranchErrors(bs: seq<Branch>, t: Table): seq<ErrorKind> {
    if bs == [] then [] else BranchErrors(bs[..|bs| - 1], t) + BranchError(bs[|bs| - 1], t)
  }

  function ResolveDeferred(s: State): State {
    s.(payload := PatchDeferred(s.payload, s.deferred, s.table),
       errors := s.errors + DeferredErrors(s.deferred, s.table))
  }

  function ResolveBranches(s: State): State {
    s.(payload := PatchBranches(s.payload, s.branches, s.table),
       errors := s.errors + BranchErrors(s.branches, s.table))
  }

  /** The whole run: every line, then deferred operands, then branch targets. */
  function Assembled(lines: seq<Line>): State {
    ResolveBranches(ResolveDeferred(Run(INITIAL, lines)))
  }
}
