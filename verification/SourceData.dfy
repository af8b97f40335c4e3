/** Data directives from the source line to the finished memory: which items count, what they
    read back as, and which are refused. */
module SourceData {
  import opened Words
  import opened Expressions
  import opened Source
  import opened OnePass
  import opened TwoPass
  import opened Layers
  import opened EmissionProofs
  import opened RunProofs
  import opened Refinement
  import opened Decoder
  import opened DataItems
  import opened SourceLines
  import opened Instructions
  import opened Acceptance
  import opened Arithmetic

  // ----- the items that count -----

  /** Every name of the item has a value when its line is reached. */
  predicate IsReady(item: Item, known: Table) {
    match item
    case Expression(e) => Names(e) <= known.Keys
    case Text(_) => true
  }

  function ReadyItems(items: seq<Item>, known: Table): seq<Item> {
    if items == [] then []
    else (if IsReady(items[0], known) then [items[0]] else []) + ReadyItems(items[1..], known)
  }

  lemma {:induction false} PresentConcat(trees: seq<Tree>, more: seq<Tree>, t: Table)
    ensures Present(trees + more, t) == Present(trees, t) + Present(more, t)
  {
    if more == [] {
      assert trees + more == trees;
    } else {
      assert (trees + more)[..|trees + more| - 1] == trees + more[..|more| - 1];
      PresentConcat(trees, more[..|more| - 1], t);
    }
  }

  lemma PresentNext(front: seq<Tree>, last: Tree, t: Table)
    ensures Present(front + [last], t) == Present(front, t) + if Meaning(last, t).Unknown? then [] else [last]
  {
    assert (front + [last])[..|front|] == front;
  }

  ghost predicate NoneUnknown(trees: seq<Tree>, t: Table) {
    forall k :: 0 <= k < |trees| ==> !Meaning(trees[k], t).Unknown?
  }

  lemma {:induction false} AllPresent(trees: seq<Tree>, t: Table)
    requires NoneUnknown(trees, t)
    ensures Present(trees, t) == trees
  {
    if trees == [] {
    } else {
      var front, last := trees[..|trees| - 1], trees[|trees| - 1];
      assert trees == front + [last];
      PresentNext(front, last, t);
      AllPresent(front, t);
    }
  }

  lemma {:induction false} FittingTreesDoNotTrap(kind: DataKind, trees: seq<Tree>, known: Table, final: Table, k: nat)
    requires AllFit(kind, Present(trees, known), final) && Extends(final, known) && k < |trees|
    ensures !Meaning(trees[k], known).Trap?
  {
    var front, last := trees[..|trees| - 1], trees[|trees| - 1];
    if !Meaning(last, known).Unknown? {
      AllFitNext(kind, Present(front, known), last, final);
      MeaningIsStable(last, known, final);
    } else {
      assert Present(trees, known) == Present(front, known);
    }
    if k < |front| { FittingTreesDoNotTrap(kind, front, known, final, k); }
  }

  ghost predicate NoneTraps(trees: seq<Tree>, t: Table) {
    forall k :: 0 <= k < |trees| ==> !Meaning(trees[k], t).Trap?
  }

  lemma NoneTrapsSplit(first: seq<Tree>, rest: seq<Tree>, t: Table)
    requires NoneTraps(first + rest, t)
    ensures NoneTraps(first, t) && NoneTraps(rest, t)
  {
    assert forall k :: 0 <= k < |first| ==> first[k] == (first + rest)[k];
    assert forall k :: 0 <= k < |rest| ==> rest[k] == (first + rest)[|first| + k];
  }

  lemma ItemIsPresent(item: Item, known: Table)
    requires NoneTraps(TreesOf(item), known)
    ensures Present(TreesOf(item), known) == if IsReady(item, known) then TreesOf(item) else []
  {
    match item {
      case Expression(e) =>
        UnknownIffMissingSymbol(e, known);
        assert TreesOf(item)[0] == e;
        assert [e][..0] == [];
      case Text(_) => AllPresent(TreesOf(item), known);
    }
  }

  lemma FirstItemTrees(item: Item, rest: seq<Item>)
    ensures ItemTrees([item] + rest) == TreesOf(item) + ItemTrees(rest)
  {
    assert ([item] + rest)[1..] == rest;
  }

  lemma ReadyTrees(items: seq<Item>, known: Table, rest: seq<Item>)
    requires items != [] && rest == ReadyItems(items[1..], known)
    ensures ItemTrees(ReadyItems(items, known))
         == if IsReady(items[0], known) then TreesOf(items[0]) + ItemTrees(rest) else ItemTrees(rest)
  {
    if IsReady(items[0], known) {
      assert ReadyItems(items, known) == [items[0]] + rest;
      FirstItemTrees(items[0], rest);
    } else {
      assert ReadyItems(items, known) == [] + rest == rest;
    }
  }

  lemma {:induction false} PresentAreReady(items: seq<Item>, known: Table)
    requires NoneTraps(ItemTrees(items), known)
    ensures Present(ItemTrees(items), known) == ItemTrees(ReadyItems(items, known))
  {
    if items == [] {
    } else {
      var first, rest := TreesOf(items[0]), ItemTrees(items[1..]);
      NoneTrapsSplit(first, rest, known);
      PresentConcat(first, rest, known);
      ItemIsPresent(items[0], known);
      ReadyTrees(items, known, ReadyItems(items[1..], known));
      PresentAreReady(items[1..], known);
    }
  }

  // ----- what they read back as -----

  lemma {:induction false} TreeNumbersAre(trees: seq<Tree>, t: Table)
    requires forall k :: 0 <= k < |trees| ==> Meaning(trees[k], t).Known?
    ensures TreeNumbers(trees, t) == Numbers(Meanings(trees, t))
  {
    if trees == [] {
    } else {
      TreeNumbersAre(trees[..|trees| - 1], t);
      MeaningsFront(trees, t);
    }
  }

  lemma {:induction false} FittingItemsAreInRange(kind: DataKind, items: seq<Item>, t: Table)
    requires AllFit(kind, ItemTrees(items), t)
    ensures AllInRange(kind, items, t)
  {
    if items == [] {
    } else {
      var first, rest := TreesOf(items[0]), ItemTrees(items[1..]);
      assert AllFit(kind, first, t) by {
        forall k | 0 <= k < |first| ensures FitsIn(first[k], Limit(kind), t) { assert first[k] == ItemTrees(items)[k]; }
      }
      assert AllFit(kind, rest, t) by {
        forall k | 0 <= k < |rest| ensures FitsIn(rest[k], Limit(kind), t) {
          assert rest[k] == ItemTrees(items)[|first| + k];
        }
      }
      ItemInRangeIffTreesFit(kind, items[0], t);
      FittingItemsAreInRange(kind, items[1..], t);
      assert forall i :: 1 <= i < |items| ==> items[i] == items[1..][i - 1];
    }
  }

  lemma FittingItemsMean(kind: DataKind, items: seq<Item>, t: Table)
    requires AllFit(kind, ItemTrees(items), t)
    ensures TreeNumbers(ItemTrees(items), t) == ItemNumbers(items, t)
    ensures |ItemTrees(items)| == |ItemNumbers(items, t)|
  {
    FittingItemsAreInRange(kind, items, t);
    ItemsMeanTheirNumbers(kind, items, t);
    TreeNumbersAre(ItemTrees(items), t);
  }

  /** The bytes of the record exist and read as `ns`. */
  ghost predicate Holds(mem: Memory, c: CodeLine, kind: DataKind, ns: seq<nat>) {
    && c.length == ItemSize(kind) * |ns| && c.start + c.length <= ADDR_INVALID
    && (forall a: U32 :: c.start <= a < c.start + c.length ==> a in mem)
    && ReadItems(kind, MemoryBytes(mem, c.start, c.length)) == ns
  }

  lemma ShownValuesAreHeld(mem: Memory, p: Placed, items: seq<Item>, known: Table, final: Table)
    requires p.piece.Values? && p.piece.trees == Present(ItemTrees(items), known) && Extends(final, known)
    requires Legal(p, final) && ShowsCode(mem, p, final)
    ensures p.address + Size(p.piece) <= ADDR_INVALID
    ensures Holds(mem, RecordFor(p.address, Size(p.piece)), p.piece.kind, ItemNumbers(ReadyItems(items, known), final))
  {
    var kind, trees := p.piece.kind, ItemTrees(items);
    forall k | 0 <= k < |trees| ensures !Meaning(trees[k], known).Trap? {
      FittingTreesDoNotTrap(kind, trees, known, final, k);
    }
    PresentAreReady(items, known);
    FittingItemsMean(kind, ReadyItems(items, known), final);
    ShownBytesAre(mem, p.address, Code(p, final));
    ValuesReadBack(kind, p.piece.trees, final);
  }

  /** From the data line to the memory, in every disjoint program that assembles: the record has
      room for exactly the items whose names are known when the line is reached, one number per
      expression and per character, and reads back as their final values and codes in source
      order.  The other items have left nothing. */
  lemma DataLinesReadBack(lines: seq<Line>, i: nat)
    requires Assembles(lines) && DisjointPieces(Pieces(START, lines)) && i < |lines| && lines[i].body.Data?
    ensures |Assembled(lines).codeLines| == |lines|
    ensures var final, body := Assembled(lines), lines[i].body;
            Holds(final.payload, final.codeLines[i], body.kind,
                  ItemNumbers(ReadyItems(body.items, KnownAt(lines, i)), final.table))
  {
    var k := PieceOfLine(lines, i);
    PieceIsShown(lines, k);
    ShownValuesAreHeld(Assembled(lines).payload, Pieces(START, lines)[k], lines[i].body.items,
                       KnownAt(lines, i), Assembled(lines).table);
  }

  // ----- one item -----

  /** The item at `a` reads as `v`. */
  ghost predicate ReadsAs(mem: Memory, a: U32, kind: DataKind, v: U32) {
    && a + ItemSize(kind) <= ADDR_INVALID
    && (forall k: U32 :: a <= k < a + ItemSize(kind) ==> k in mem)
    && ItemValue(kind, MemoryBytes(mem, a, ItemSize(kind))) == v
  }

  lemma OneItemReads(mem: Memory, a: U32, kind: DataKind, v: U32)
    requires ShowsBytes(mem, a, ItemBytes(kind, v)) && v <= Limit(kind)
    ensures ReadsAs(mem, a, kind, v)
  {
    ItemReadsBack(kind, v);
    ShownBytesAre(mem, a, ItemBytes(kind, v));
  }

  lemma OneItemCode(kind: DataKind, e: Tree, t: Table)
    ensures Code(Placed(0, Values(kind, [e])), t) == ItemBytes(kind, ValueOf(e, t))
  {
    assert [e][..0] == [] && ValuesCode(kind, [], t) == [];
  }

  lemma OneItemIsEncodable(kind: DataKind, e: Tree, v: U32, t: Table)
    requires Meaning(e, t) == Known(v)
    ensures AllEncodable([Placed(0, Values(kind, [e]))], t) <==> IsItem(kind, v)
  {
    var p := Placed(0, Values(kind, [e]));
    assert CanBeEncoded(p, t) <==> IsItem(kind, v) by { assert [e][0] == e; }
    assert [p][0] == p;
  }

  lemma OneItemIsShown(lines: seq<Line>, kind: DataKind, e: Tree, v: U32)
    requires Assembles(lines) && Pieces(START, lines) == [Placed(0, Values(kind, [e]))]
    requires Meaning(e, FinalTable(START, lines)) == Known(v) && v <= Limit(kind)
    ensures ReadsAs(Assembled(lines).payload, 0, kind, v)
  {
    PieceIsShown(lines, 0);
    AssemblingRun(lines);
    OneItemCode(kind, e, FinalTable(START, lines));
    OneItemReads(Assembled(lines).payload, 0, kind, v);
  }

  /** A program whose only piece is one item. */
  lemma OneItemIsRead(lines: seq<Line>, kind: DataKind, e: Tree, v: U32)
    requires AllDefineWell(START, lines) && Pieces(START, lines) == [Placed(0, Values(kind, [e]))]
    requires Meaning(e, FinalTable(START, lines)) == Known(v)
    ensures Assembled(lines).errors == [] <==> IsItem(kind, v)
    ensures IsItem(kind, v) ==> ReadsAs(Assembled(lines).payload, 0, kind, v)
  {
    ErrorFreeIffEncodable(lines);
    OneItemIsEncodable(kind, e, v, FinalTable(START, lines));
    if IsItem(kind, v) {
      ErrorFreeIffAccepted(lines);
      InLimitIffItem(kind, v);
      OneItemIsShown(lines, kind, e, v);
    }
  }

  lemma NumberPiece(kind: DataKind, e: Tree, t: Table)
    requires !Meaning(e, t).Unknown?
    ensures PieceOf(Data(kind, [Expression(e)]), t) == Some(Values(kind, [e]))
  {
    var items := [Expression(e)];
    assert ItemTrees(items) == [e] by {
      FirstItemTrees(items[0], []);
      assert items == [items[0]] + [] && ItemTrees([]) == [] && [e] + [] == [e];
    }
    AllPresent([e], t);
    assert Present(ItemTrees(items), t) == [e];
  }

  lemma OnlyLine(p: Point, l: Line)
    ensures AllDefineWell(p, [l]) <==> DefinesWell(p, l)
    ensures FinalTable(p, [l]) == Next(p, l).table && Pieces(p, [l]) == PlacedAt(p, l)
  {
    assert [l][1..] == [];
    assert AllDefineWell(Next(p, l), []) && FinalTable(Next(p, l), []) == Next(p, l).table;
    assert Pieces(p, [l]) == PlacedAt(p, l) + Pieces(Next(p, l), []);
  }

  lemma NumberPieces(kind: DataKind, e: Tree, p: Point, lines: seq<Line>)
    requires lines == [Line(None, Data(kind, [Expression(e)]))] && !Meaning(e, p.table).Unknown?
    ensures AllDefineWell(p, lines) && FinalTable(p, lines) == p.table
    ensures Pieces(p, lines) == [Placed(p.address, Values(kind, [e]))]
  {
    OnlyLine(p, lines[0]);
    NumberPiece(kind, e, p.table);
  }

  /** The line `.WORD v`, `.DBYTE v` or `.BYTE v` alone: it assembles without an error if and only
      if v is below 65536, for `.BYTE` below 256, and then reads back as v. */
  lemma NumberIsAssembled(kind: DataKind, v: U32, lines: seq<Line>)
    requires lines == [Line(None, Data(kind, [Expression(Literal(v))]))]
    ensures Assembled(lines).errors == [] <==> v < if kind == BYTE then 0x100 else 0x1_0000
    ensures Assembled(lines).errors == [] ==> ReadsAs(Assembled(lines).payload, 0, kind, v)
  {
    ItemsAreBytesAndWords(kind, v);
    NumberPieces(kind, Literal(v), START, lines);
    OneItemIsRead(lines, kind, Literal(v), v);
  }

  /** The lines `s = x` and `.WORD s+k`: the sum is taken modulo 2^32.  They assemble without an
      error if and only if it is a word, and then the word reads back as the sum. */
  lemma SumIsAssembled(s: string, x: U32, k: U32, lines: seq<Line>)
    requires lines == [Line(None, Assign(s, Literal(x))),
                       Line(None, Data(WORD, [Expression(Plus(Name(s), Literal(k)))]))]
    ensures var sum := (x + k) % 0x1_0000_0000;
            && (Assembled(lines).errors == [] <==> sum < 0x1_0000)
            && (Assembled(lines).errors == [] ==> ReadsAs(Assembled(lines).payload, 0, WORD, sum))
  {
    var e, p := Plus(Name(s), Literal(k)), Point(0, map[s := x]);
    assert Next(START, lines[0]) == p && PlacedAt(START, lines[0]) == [];
    PlusMeans(Name(s), Literal(k), p.table);
    NumberPieces(WORD, e, p, lines[1..]);
    assert Pieces(START, lines) == [] + Pieces(p, lines[1..]);
    ItemsAreBytesAndWords(WORD, Wrap(x + k));
    OneItemIsRead(lines, WORD, e, Wrap(x + k));
  }
}
