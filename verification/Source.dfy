/** Source lines as the parser hands them over: an optional label, then one
    directive or one statement. */
module Source {
  import opened Words
  import opened Expressions
  import opened Opcodes

  datatype DataKind = BYTE | WORD | DBYTE

  datatype Item = Expression(tree: Tree) | Text(chars: seq<Byte>)

  /** The statements that end in an operand expression. */
  datatype Mode = Imm | IdxX | IdxY | Abs | Idr | IdxIdr | IdrIdx

  datatype Body =
    | Org(address: Tree)
    | Data(kind: DataKind, items: seq<Item>)
    | Assign(id: string, tree: Tree)
    | Direct(m: Mnemonic)
    | Branching(m: Mnemonic, target: string)
    | Operation(mode: Mode, m: Mnemonic, operand: Tree)

  datatype Line = Line(labelId: Option<string>, body: Body)

  function WideTable(mode: Mode): OpTable {
    match mode
    case Imm => Immediate
    case IdxX => AbsoluteX
    case IdxY => AbsoluteY
    case Abs => Absolute
    case Idr => Indirect
    case IdxIdr => IndexedIndirect
    case IdrIdx => IndirectIndexed
  }

  /** Which mnemonics the grammar admits in which statement. */
  predicate Grammatical(body: Body) {
    match body
    case Direct(m) => Lookup(Implied, m).Some?
    case Branching(m, _) => Lookup(Relative, m).Some?
    case Operation(mode, m, _) =>
      (match mode
       case Idr => m == JMP
       case IdxX => m == STY || Lookup(AbsoluteX, m).Some?
       case IdxY => m == STX || Lookup(AbsoluteY, m).Some?
       case _ => Lookup(WideTable(mode), m).Some?)
    case _ => true
  }

  /** Modes whose operand is a single byte, always. */
  predicate OneByteOnly(mode: Mode) {
    mode in {Imm, IdxIdr, IdrIdx}
  }

  function ZeroPageTable(mode: Mode): Option<OpTable> {
    match mode
    case IdxX => Some(ZeroPageX)
    case IdxY => Some(ZeroPageY)
    case Abs => Some(ZeroPage)
    case _ => None
  }

  /** The opcode of the zero page form, 0 if there is no such form. */
  function ZeroPageOpCode(mode: Mode, m: Mnemonic): Byte {
    match ZeroPageTable(mode)
    case Some(t) => FindOpCode(t, m)
    case None => 0
  }

  /** A data string contributes one literal per character. */
  function TreesOf(item: Item): seq<Tree> {
    match item
    case Expression(t) => [t]
    case Text(cs) => seq(|cs|, i requires 0 <= i < |cs| => Literal(CharValue(cs[i])))
  }

  function ItemTrees(items: seq<Item>): seq<Tree> {
    if items == [] then [] else TreesOf(items[0]) + ItemTrees(items[1..])
  }

  function Limit(kind: DataKind): U32 {
    if kind == BYTE then 0xff else 0xffff
  }

  /** A byte, a little-endian pair, or a big-endian pair. */
  function ItemBytes(kind: DataKind, v: U32): seq<Byte> {
    match kind
    case BYTE => [Low(v)]
    case WORD => [Low(v), High(v)]
    case DBYTE => [High(v), Low(v)]
  }
}
