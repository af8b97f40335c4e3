/** The reference: a plain two-pass assembler.  The first pass places the lines and
    collects the symbols; the second encodes every piece with the final symbols. */
module TwoPass {
  import opened Words
  import opened Expressions
  import opened Opcodes
  import opened Source

  /** What a line contributes to the image.  An operand is `late` if a symbol it names was
      not known yet when its line was placed; a branch target always counts as late. */
  datatype Piece =
    | Bare(m: Mnemonic)
    | ToLabel(m: Mnemonic, target: string)
    | WithOperand(table: OpTable, m: Mnemonic, operand: Tree, late: bool)
    | Values(kind: DataKind, trees: seq<Tree>)

  datatype Placed = Placed(address: U32, piece: Piece)

  /** Where the first pass stands between two lines. */
  datatype Point = Point(address: U32, table: Table)

  const START: Point := Point(0, map[])

  // ----- first pass -----

  function OperandSize(t: OpTable): nat {
    match t
    case Implied => 0
    case AbsoluteX => 2
    case AbsoluteY => 2
    case Absolute => 2
    case Indirect => 2
    case _ => 1
  }

  function DataSize(kind: DataKind, n: nat): nat {
    if kind == BYTE then n else 2 * n
  }

  function Size(p: Piece): nat {
    match p
    case Bare(_) => 1
    case ToLabel(_, _) => 2
    case WithOperand(t, _, _, _) => 1 + OperandSize(t)
    case Values(kind, trees) => DataSize(kind, |trees|)
  }

  /** The short form is taken when the symbols known so far show that the operand fits. */
  function Form(mode: Mode, m: Mnemonic, operand: Tree, t: Table): OpTable {
    match (ZeroPageTable(mode), Meaning(operand, t))
    case (Some(zpg), Known(v)) => if v <= 0xff && FindOpCode(zpg, m) > 0 then zpg else WideTable(mode)
    case _ => WideTable(mode)
  }

  /** The data items that are not waiting for a later symbol. */
  function Present(trees: seq<Tree>, t: Table): seq<Tree> {
    if trees == [] then []
    else
      var last := trees[|trees| - 1];
      Present(trees[..|trees| - 1], t) + if Meaning(last, t).Unknown? then [] else [last]
  }

  function OperandPiece(mode: Mode, m: Mnemonic, operand: Tree, t: Table): Piece {
    WithOperand(Form(mode, m, operand, t), m, operand, Meaning(operand, t).Unknown?)
  }

  function PieceOf(body: Body, t: Table): Option<Piece> {
    match body
    case Org(_) => None
    case Assign(_, _) => None
    case Data(kind, items) => Some(Values(kind, Present(ItemTrees(items), t)))
    case Direct(m) => Some(Bare(m))
    case Branching(m, target) => Some(ToLabel(m, target))
    case Operation(mode, m, operand) => Some(OperandPiece(mode, m, operand, t))
  }

  /** The first definition of a symbol stands. */
  function Bind(t: Table, id: string, v: U32): Table {
    if id in t then t else t[id := v]
  }

  function Labelled(p: Point, l: Line): Point {
    match l.labelId
    case None => p
    case Some(id) => Point(p.address, Bind(p.table, id, p.address))
  }

  function Next(p: Point, l: Line): Point {
    var p := Labelled(p, l);
    match l.body
    case Org(tree) => if Meaning(tree, p.table).Known? then Point(Meaning(tree, p.table).v, p.table) else p
    case Assign(id, tree) =>
      if Meaning(tree, p.table).Known? then Point(p.address, Bind(p.table, id, Meaning(tree, p.table).v)) else p
    case _ => Point(Wrap(p.address + Size(PieceOf(l.body, p.table).value)), p.table)
  }

  function PlacedAt(p: Point, l: Line): seq<Placed> {
    var p := Labelled(p, l);
    match PieceOf(l.body, p.table)
    case None => []
    case Some(piece) => [Placed(p.address, piece)]
  }

  function Pieces(p: Point, lines: seq<Line>): seq<Placed>
    decreases |lines|
  {
    if lines == [] then [] else PlacedAt(p, lines[0]) + Pieces(Next(p, lines[0]), lines[1..])
  }

  function FinalTable(p: Point, lines: seq<Line>): Table
    decreases |lines|
  {
    if lines == [] then p.table else FinalTable(Next(p, lines[0]), lines[1..])
  }

  // ----- second pass -----

  function ValueOf(e: Tree, t: Table): U32 {
    match Meaning(e, t)
    case Known(v) => v
    case _ => 0
  }

  function ValuesCode(kind: DataKind, trees: seq<Tree>, t: Table): (code: seq<Byte>)
    ensures |code| == DataSize(kind, |trees|)
  {
    if trees == [] then []
    else ValuesCode(kind, trees[..|trees| - 1], t) + ItemBytes(kind, ValueOf(trees[|trees| - 1], t))
  }

  /** The signed distance from the instruction after the branch. */
  function Distance(address: U32, dest: U32): int {
    Signed32(Wrap(dest - (address + 2)))
  }

  function Code(p: Placed, t: Table): (code: seq<Byte>)
    ensures |code| == Size(p.piece)
  {
    match p.piece
    case Bare(m) => [FindOpCode(Implied, m)]
    case ToLabel(m, target) =>
      [FindOpCode(Relative, m), Low(Wrap(Distance(p.address, ValueOf(Name(target), t))))]
    case WithOperand(table, m, operand, _) =>
      if OperandSize(table) == 2 then
        [FindOpCode(table, m), Low(ValueOf(operand, t)), High(ValueOf(operand, t))]
      else if OperandSize(table) == 1 then
        [FindOpCode(table, m), Low(ValueOf(operand, t))]
      else
        [FindOpCode(table, m)]
    case Values(kind, trees) => ValuesCode(kind, trees, t)
  }

  function Image(ps: seq<Placed>, t: Table): Memory {
    if ps == [] then map[] else Block(ps[0].address, Code(ps[0], t)) + Image(ps[1..], t)
  }

  // ----- which programs it accepts -----

  /** The symbols and addresses a line defines are well defined. */
  ghost predicate DefinesWell(p: Point, l: Line) {
    && (l.labelId.Some? ==> l.labelId.value !in p.table)
    && var p := Labelled(p, l);
       match l.body
       case Org(tree) => !Meaning(tree, p.table).Trap?
       case Assign(id, tree) => Meaning(tree, p.table).Known? && id !in p.table
       case _ => true
  }

  ghost predicate AllDefineWell(p: Point, lines: seq<Line>)
    decreases |lines|
  {
    lines == [] || (DefinesWell(p, lines[0]) && AllDefineWell(Next(p, lines[0]), lines[1..]))
  }

  predicate FitsIn(e: Tree, limit: U32, t: Table) {
    match Meaning(e, t)
    case Known(v) => v <= limit
    case _ => false
  }

  /** With the final symbols the piece can be encoded. */
  ghost predicate Legal(p: Placed, t: Table) {
    match p.piece
    case Bare(_) => true
    case ToLabel(_, target) => target in t && -128 <= Distance(p.address, t[target]) <= 127
    case WithOperand(table, _, operand, _) => FitsIn(operand, if OperandSize(table) == 2 then 0xffff_ffff else 0xff, t)
    case Values(kind, trees) => forall i :: 0 <= i < |trees| ==> FitsIn(trees[i], Limit(kind), t)
  }

  ghost predicate AllLegal(ps: seq<Placed>, t: Table) {
    forall i :: 0 <= i < |ps| ==> Legal(ps[i], t)
  }

  ghost predicate Accepts(lines: seq<Line>) {
    AllDefineWell(START, lines) && AllLegal(Pieces(START, lines), FinalTable(START, lines))
  }

  function AssembledImage(lines: seq<Line>): Memory {
    Image(Pieces(START, lines), FinalTable(START, lines))
  }
}
