/** Data directives read back, and the errors no parsed line can raise. */
module DataItems {
  import opened Words
  import opened Expressions
  import opened Source
  import opened OnePass
  import opened TwoPass
  import opened Layers
  import opened EmissionProofs
  import opened RunProofs
  import opened Refinement
  import opened Coverage
  import opened Decoder

  // ----- reading data back -----

  function ItemSize(kind: DataKind): nat {
    if kind == BYTE then 1 else 2
  }

  function ItemValue(kind: DataKind, bytes: seq<Byte>): nat
    requires |bytes| == ItemSize(kind)
  {
    match kind
    case BYTE => bytes[0]
    case WORD => bytes[0] as int + 0x100 * (bytes[1] as int)
    case DBYTE => 0x100 * (bytes[0] as int) + bytes[1] as int
  }

  /** Cuts the bytes into items, from the last one backwards. */
  function ReadItems(kind: DataKind, bytes: seq<Byte>): seq<nat> {
    var n := |bytes| - ItemSize(kind);
    if n < 0 then [] else ReadItems(kind, bytes[..n]) + [ItemValue(kind, bytes[n..])]
  }

  ghost predicate InRange(kind: DataKind, vs: seq<Value>) {
    forall i :: 0 <= i < |vs| ==> vs[i].Known? && vs[i].v <= Limit(kind)
  }

  function Numbers(vs: seq<Value>): (ns: seq<nat>)
    requires forall i :: 0 <= i < |vs| ==> vs[i].Known?
    ensures |ns| == |vs|
  {
    if vs == [] then [] else Numbers(vs[..|vs| - 1]) + [vs[|vs| - 1].v]
  }

  lemma ItemReadsBack(kind: DataKind, v: U32)
    requires v <= Limit(kind)
    ensures |ItemBytes(kind, v)| == ItemSize(kind) && ItemValue(kind, ItemBytes(kind, v)) == v
  {
  }

  /** Bytes, little-endian or big-endian pairs: the items come back in source order. */
  lemma {:induction false} DataReadsBack(kind: DataKind, vs: seq<Value>)
    requires InRange(kind, vs)
    ensures EmitData(kind, vs).errors == []
    ensures |EmitData(kind, vs).bytes| == DataSize(kind, |vs|)
    ensures ReadItems(kind, EmitData(kind, vs).bytes) == Numbers(vs)
  {
    if vs == [] {
    } else {
      var front, last := vs[..|vs| - 1], vs[|vs| - 1];
      var before, item := EmitData(kind, front).bytes, ItemBytes(kind, last.v);
      DataReadsBack(kind, front);
      ItemReadsBack(kind, last.v);
      assert EmitData(kind, vs).bytes == before + item;
      assert (before + item)[..|before|] == before && (before + item)[|before|..] == item;
    }
  }

  function MemoryBytes(p: Memory, a: U32, n: nat): seq<Byte>
    requires forall k: U32 :: a <= k < a + n ==> k in p
    requires a + n <= ADDR_INVALID
  {
    seq<Byte>(n, k requires 0 <= k < n => var at: U32 := a + k; p[at])
  }

  lemma BlockReadsBack(p: Memory, a: U32, bytes: seq<Byte>)
    requires a + |bytes| <= ADDR_INVALID
    ensures forall k: U32 :: a <= k < a + |bytes| ==> k in p + Block(a, bytes)
    ensures MemoryBytes(p + Block(a, bytes), a, |bytes|) == bytes
  {
  }

  /** The memory from the current address on reads back as `ns`, and a code line of exactly
      their length was added. */
  ghost predicate HoldsItems(before: State, after: State, kind: DataKind, ns: seq<nat>)
    requires before.cur + DataSize(kind, |ns|) <= ADDR_INVALID
  {
    && after.errors == before.errors
    && after.codeLines == before.codeLines + [CodeLine(before.cur, DataSize(kind, |ns|))]
    && (forall k: U32 :: before.cur <= k < before.cur + DataSize(kind, |ns|) ==> k in after.payload)
    && ReadItems(kind, MemoryBytes(after.payload, before.cur, DataSize(kind, |ns|))) == ns
  }

  lemma EmittedItemsReadBack(s: State, e: Emission, kind: DataKind, ns: seq<nat>)
    requires e.errors == [] && !e.gap && e.bytes != [] && |e.bytes| == DataSize(kind, |ns|)
    requires ReadItems(kind, e.bytes) == ns
    requires s.cur + DataSize(kind, |ns|) <= ADDR_INVALID
    ensures HoldsItems(s, Emitted(s, e), kind, ns)
  {
    EmittedCodeLine(s, e);
    BlockReadsBack(s.payload, s.cur, e.bytes);
  }

  lemma DataEmissionReadsBack(s: State, kind: DataKind, vs: seq<Value>)
    requires InRange(kind, vs) && vs != [] && s.cur + DataSize(kind, |vs|) <= ADDR_INVALID
    ensures HoldsItems(s, Emitted(s, EmitData(kind, vs)), kind, Numbers(vs))
  {
    DataReadsBack(kind, vs);
    EmittedItemsReadBack(s, EmitData(kind, vs), kind, Numbers(vs));
  }

  // ----- what the items say -----

  ghost predicate ItemInRange(kind: DataKind, item: Item, t: Table) {
    match item
    case Expression(tree) => FitsIn(tree, Limit(kind), t)
    case Text(cs) => forall k :: 0 <= k < |cs| ==> cs[k] < 0x80
  }

  ghost predicate AllInRange(kind: DataKind, items: seq<Item>, t: Table) {
    forall i :: 0 <= i < |items| ==> ItemInRange(kind, items[i], t)
  }

  /** An expression stands for its value, a text for the codes of its characters. */
  function NumbersOf(item: Item, t: Table): seq<nat> {
    match item
    case Expression(tree) => [ValueOf(tree, t)]
    case Text(cs) => cs
  }

  function ItemNumbers(items: seq<Item>, t: Table): seq<nat> {
    if items == [] then [] else NumbersOf(items[0], t) + ItemNumbers(items[1..], t)
  }

  /** An ASCII string of any length means the codes of its characters. */
  lemma TextMeansItsCodes(cs: seq<Byte>, t: Table)
    requires forall k :: 0 <= k < |cs| ==> cs[k] < 0x80
    ensures |Meanings(TreesOf(Text(cs)), t)| == |cs|
    ensures forall k :: 0 <= k < |cs| ==> Meanings(TreesOf(Text(cs)), t)[k] == Known(cs[k])
  {
  }

  /** A character is in the range of a data directive if and only if it is ASCII. */
  lemma CharacterFitsIffAscii(kind: DataKind, c: Byte, t: Table)
    ensures FitsIn(Literal(CharValue(c)), Limit(kind), t) <==> c < 0x80
  {
  }

  /** In range or not, item by item, is in range or not tree by tree. */
  lemma ItemInRangeIffTreesFit(kind: DataKind, item: Item, t: Table)
    ensures ItemInRange(kind, item, t) <==> AllFit(kind, TreesOf(item), t)
  {
    match item {
      case Expression(tree) => assert TreesOf(item)[0] == tree;
      case Text(cs) =>
        forall k | 0 <= k < |cs| ensures FitsIn(TreesOf(item)[k], Limit(kind), t) <==> cs[k] < 0x80 {
          CharacterFitsIffAscii(kind, cs[k], t);
        }
    }
  }

  lemma MeaningsConcat(trees: seq<Tree>, more: seq<Tree>, t: Table)
    ensures Meanings(trees + more, t) == Meanings(trees, t) + Meanings(more, t)
  {
  }

  lemma {:induction false} NumbersAre(vs: seq<Value>, ns: seq<nat>)
    requires |vs| == |ns| && forall k :: 0 <= k < |vs| ==> vs[k].Known? && vs[k].v == ns[k]
    ensures Numbers(vs) == ns
  {
    if vs == [] {
    } else {
      NumbersAre(vs[..|vs| - 1], ns[..|ns| - 1]);
    }
  }

  lemma {:induction false} NumbersConcat(vs: seq<Value>, more: seq<Value>)
    requires forall k :: 0 <= k < |vs| ==> vs[k].Known?
    requires forall k :: 0 <= k < |more| ==> more[k].Known?
    ensures Numbers(vs + more) == Numbers(vs) + Numbers(more)
  {
    if more == [] {
      assert vs + more == vs;
    } else {
      assert (vs + more)[..|vs + more| - 1] == vs + more[..|more| - 1];
      NumbersConcat(vs, more[..|more| - 1]);
    }
  }

  lemma FirstItemNumbers(kind: DataKind, item: Item, t: Table)
    requires ItemInRange(kind, item, t)
    ensures var vs := Meanings(TreesOf(item), t);
            InRange(kind, vs) && Numbers(vs) == NumbersOf(item, t)
  {
    var vs := Meanings(TreesOf(item), t);
    match item {
      case Expression(e) => NumbersAre(vs, [ValueOf(e, t)]);
      case Text(cs) =>
        TextMeansItsCodes(cs, t);
        NumbersAre(vs, cs);
    }
  }

  lemma {:induction false} ItemsMeanTheirNumbers(kind: DataKind, items: seq<Item>, t: Table)
    requires AllInRange(kind, items, t)
    ensures InRange(kind, Meanings(ItemTrees(items), t))
    ensures Numbers(Meanings(ItemTrees(items), t)) == ItemNumbers(items, t)
  {
    if items == [] {
    } else {
      assert ItemInRange(kind, items[0], t);
      FirstItemNumbers(kind, items[0], t);
      ItemsMeanTheirNumbers(kind, items[1..], t);
      MeaningsConcat(TreesOf(items[0]), ItemTrees(items[1..]), t);
      NumbersConcat(Meanings(TreesOf(items[0]), t), Meanings(ItemTrees(items[1..]), t));
    }
  }

  /** A data line, with or without a label, whose items all have a value in range: the
      memory from its start reads back as those values and character codes in source order,
      and the line is recorded with exactly their length. */
  lemma DataLineReadsBack(s: State, labelId: Option<string>, kind: DataKind, items: seq<Item>)
    requires var t := BindLabel(s, Line(labelId, Data(kind, items))).table;
             var n := DataSize(kind, |ItemNumbers(items, t)|);
             AllInRange(kind, items, t) && 0 < n && s.cur + n <= ADDR_INVALID
    ensures var l := Line(labelId, Data(kind, items));
            HoldsItems(BindLabel(s, l), Step(s, l), kind, ItemNumbers(items, BindLabel(s, l).table))
  {
    var l := Line(labelId, Data(kind, items));
    var t := BindLabel(s, l).table;
    ItemsMeanTheirNumbers(kind, items, t);
    DataEmissionReadsBack(BindLabel(s, l), kind, Meanings(ItemTrees(items), t));
    StepEmits(s, l);
    LabelKeepsSlots(s, l);
    assert EmissionOf(s, l) == EmitData(kind, Meanings(ItemTrees(items), t));
  }

  // ----- data in the finished memory -----

  function TreeNumbers(trees: seq<Tree>, t: Table): seq<nat> {
    if trees == [] then [] else TreeNumbers(trees[..|trees| - 1], t) + [ValueOf(trees[|trees| - 1], t) as nat]
  }

  lemma {:induction false} ValuesReadBack(kind: DataKind, trees: seq<Tree>, t: Table)
    requires AllFit(kind, trees, t)
    ensures ReadItems(kind, ValuesCode(kind, trees, t)) == TreeNumbers(trees, t)
  {
    if trees == [] {
    } else {
      var front, last := trees[..|trees| - 1], trees[|trees| - 1];
      var before, item := ValuesCode(kind, front, t), ItemBytes(kind, ValueOf(last, t));
      assert trees == front + [last];
      AllFitNext(kind, front, last, t);
      ValuesReadBack(kind, front, t);
      ItemReadsBack(kind, ValueOf(last, t));
      assert ValuesCode(kind, trees, t) == before + item;
      assert (before + item)[..|before|] == before && (before + item)[|before|..] == item;
    }
  }

  lemma ShownBytesAre(mem: Memory, start: U32, bytes: seq<Byte>)
    requires ShowsBytes(mem, start, bytes)
    ensures MemoryBytes(mem, start, |bytes|) == bytes
  {
  }

  /** In the finished memory of any program that assembles: data that no other piece touches
      reads back as the values its items have under the final symbols. */
  lemma AssembledDataReadsBack(lines: seq<Line>, k: nat)
    requires Assembles(lines) && Intact(Pieces(START, lines), k) && Pieces(START, lines)[k].piece.Values?
    ensures var p, mem := Pieces(START, lines)[k], Assembled(lines).payload;
            && ShowsBytes(mem, p.address, Code(p, FinalTable(START, lines)))
            && ReadItems(p.piece.kind, MemoryBytes(mem, p.address, Size(p.piece)))
               == TreeNumbers(p.piece.trees, FinalTable(START, lines))
  {
    var ps, t := Pieces(START, lines), FinalTable(START, lines);
    MemoryIsLayered(lines);
    IntactPieceIsShown(ps, t, k);
    assert Legal(ps[k], t);
    ShownBytesAre(Assembled(lines).payload, ps[k].address, Code(ps[k], t));
    ValuesReadBack(ps[k].piece.kind, ps[k].piece.trees, t);
  }

  /** In a disjoint program all data reads back. */
  lemma DisjointDataReadsBack(lines: seq<Line>, k: nat)
    requires Assembles(lines) && DisjointPieces(Pieces(START, lines))
    requires k < |Pieces(START, lines)| && Pieces(START, lines)[k].piece.Values?
    ensures var p, mem := Pieces(START, lines)[k], Assembled(lines).payload;
            && ShowsBytes(mem, p.address, Code(p, FinalTable(START, lines)))
            && ReadItems(p.piece.kind, MemoryBytes(mem, p.address, Size(p.piece)))
               == TreeNumbers(p.piece.trees, FinalTable(START, lines))
  {
    DisjointPiecesAreIntact(Pieces(START, lines), k);
    AssembledDataReadsBack(lines, k);
  }

  // ----- unreachable errors -----

  predicate NoInternal(es: seq<ErrorKind>) {
    InternalError !in es
  }

  lemma {:induction false} DataHasNoInternalError(kind: DataKind, vs: seq<Value>)
    ensures NoInternal(EmitData(kind, vs).errors)
  {
    if vs == [] {
    } else {
      DataHasNoInternalError(kind, vs[..|vs| - 1]);
    }
  }

  lemma EmitHasNoInternalError(body: Body, cur: U32, t: Table)
    ensures NoInternal(Emit(body, cur, t).errors)
  {
    if body.Data? { DataHasNoInternalError(body.kind, Meanings(ItemTrees(body.items), t)); }
  }

  lemma StepHasNoInternalError(s: State, l: Line)
    requires NoInternal(s.errors)
    ensures NoInternal(Step(s, l).errors)
  {
    if Emits(l.body) {
      StepEmits(s, l);
      EmitHasNoInternalError(l.body, s.cur, BindLabel(s, l).table);
    }
  }

  lemma {:induction false} RunHasNoInternalError(s: State, lines: seq<Line>)
    requires NoInternal(s.errors)
    ensures NoInternal(Run(s, lines).errors)
    decreases |lines|
  {
    if lines == [] {
    } else {
      StepHasNoInternalError(s, lines[0]);
      RunHasNoInternalError(Step(s, lines[0]), lines[1..]);
    }
  }

  lemma {:induction false} DeferredHaveNoInternalError(ds: seq<Deferred>, t: Table)
    ensures NoInternal(DeferredErrors(ds, t))
  {
    if ds == [] {
    } else {
      DeferredHaveNoInternalError(ds[..|ds| - 1], t);
    }
  }

  lemma {:induction false} BranchesHaveNoInternalError(bs: seq<Branch>, t: Table)
    ensures NoInternal(BranchErrors(bs, t))
  {
    if bs == [] {
    } else {
      BranchesHaveNoInternalError(bs[..|bs| - 1], t);
    }
  }

  /** The "internal error" branches are unreachable, for every program. */
  lemma InternalErrorIsUnreachable(lines: seq<Line>)
    ensures InternalError !in Assembled(lines).errors
  {
    var r := Run(INITIAL, lines);
    RunHasNoInternalError(INITIAL, lines);
    DeferredHaveNoInternalError(r.deferred, r.table);
    BranchesHaveNoInternalError(r.branches, r.table);
  }
}
