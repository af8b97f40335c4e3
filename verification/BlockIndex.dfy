/** What the blocks are good for: every byte of every code line, once, in order. */
module BlockIndex {
  import opened Words
  import opened OnePass
  import opened Coverage
  import opened MemBlocks

  // ----- the byte index -----

  /** The comparison as the code makes it, in 32-bit arithmetic. */
  predicate HasAddress(b: MemBlock, a: U32) {
    b.start <= a < Wrap(b.start + |b.bytes|)
  }

  /** The first block that has the address answers; nobody's address reads 0xff. */
  function ByteAt(bs: seq<MemBlock>, a: U32): Byte {
    if bs == [] then 0xff
    else if HasAddress(bs[0], a) then bs[0].bytes[a - bs[0].start]
    else ByteAt(bs[1..], a)
  }

  method GetByteAt(blocks: seq<MemBlock>, address: U32) returns (ret: Byte)
    ensures ret == ByteAt(blocks, address)
  {
    ret := 0xff;
    for i := 0 to |blocks|
      invariant ret == 0xff && ByteAt(blocks, address) == ByteAt(blocks[i..], address)
    {
      if HasAddress(blocks[i], address) {
        ret := blocks[i].bytes[address - blocks[i].start];
        return;
      }
      assert blocks[i..][1..] == blocks[i + 1..];
    }
  }

  // ----- conservation, for every input -----

  function Sum(f: MemBlock -> nat, bs: seq<MemBlock>): nat {
    if bs == [] then 0 else Sum(f, bs[..|bs| - 1]) + f(bs[|bs| - 1])
  }

  function Length(b: MemBlock): nat {
    |b.bytes|
  }

  function TotalBytes(bs: seq<MemBlock>): nat {
    Sum(Length, bs)
  }

  function TotalLength(cs: seq<CodeLine>): nat {
    if cs == [] then 0 else TotalLength(cs[..|cs| - 1]) + cs[|cs| - 1].length
  }

  lemma SumNext(f: MemBlock -> nat, bs: seq<MemBlock>, b: MemBlock)
    ensures Sum(f, bs + [b]) == Sum(f, bs) + f(b)
  {
    assert (bs + [b])[..|bs|] == bs;
  }

  lemma {:induction false} SumWithout(f: MemBlock -> nat, bs: seq<MemBlock>, i: nat)
    requires i < |bs|
    ensures Sum(f, bs) == Sum(f, bs[..i] + bs[i + 1..]) + f(bs[i])
  {
    var last := bs[|bs| - 1];
    if i == |bs| - 1 {
      assert bs[..i] + bs[i + 1..] == bs[..|bs| - 1];
    } else {
      var front := bs[..|bs| - 1];
      SumWithout(f, front, i);
      assert bs[..i] + bs[i + 1..] == (front[..i] + front[i + 1..]) + [last];
      SumNext(f, front[..i] + front[i + 1..], last);
    }
  }

  lemma RemoveOne(bs: seq<MemBlock>, i: nat)
    requires i < |bs|
    ensures multiset(bs[..i] + bs[i + 1..]) == multiset(bs) - multiset{bs[i]}
  {
    assert bs == bs[..i] + [bs[i]] + bs[i + 1..];
  }

  lemma RemoveSame(bs: seq<MemBlock>, cs: seq<MemBlock>) returns (i: nat)
    requires bs != [] && multiset(bs) == multiset(cs)
    ensures i < |cs| && cs[i] == bs[|bs| - 1]
    ensures multiset(bs[..|bs| - 1]) == multiset(cs[..i] + cs[i + 1..])
  {
    var front, last := bs[..|bs| - 1], bs[|bs| - 1];
    assert bs == front + [last];
    assert last in multiset(cs);
    i :| 0 <= i < |cs| && cs[i] == last;
    RemoveOne(cs, i);
  }

  lemma {:induction false} SumIsOrderFree(f: MemBlock -> nat, bs: seq<MemBlock>, cs: seq<MemBlock>)
    requires multiset(bs) == multiset(cs)
    ensures Sum(f, bs) == Sum(f, cs)
    decreases |bs|
  {
    if bs == [] {
      assert |cs| == |multiset(cs)|;
    } else {
      var i := RemoveSame(bs, cs);
      SumWithout(f, cs, i);
      SumIsOrderFree(f, bs[..|bs| - 1], cs[..i] + cs[i + 1..]);
    }
  }

  lemma FlushedTotal(b: Building)
    ensures TotalBytes(Flushed(b)) == TotalBytes(b.done) + |b.bytes|
  {
    SumNext(Length, b.done, MemBlock(b.address, b.bytes));
  }

  lemma {:induction false} BuildConserves(cs: seq<CodeLine>, p: Memory)
    ensures TotalBytes(Build(cs, p).done) + |Build(cs, p).bytes| == TotalLength(cs)
  {
    if cs == [] {
    } else {
      BuildConserves(cs[..|cs| - 1], p);
      FlushedTotal(Build(cs[..|cs| - 1], p));
    }
  }

  ghost predicate NoneEmpty(bs: seq<MemBlock>) {
    forall b :: b in bs ==> b.bytes != []
  }

  lemma {:induction false} BuildLeavesNoneEmpty(cs: seq<CodeLine>, p: Memory)
    ensures NoneEmpty(Build(cs, p).done)
  {
    if cs == [] {
    } else {
      BuildLeavesNoneEmpty(cs[..|cs| - 1], p);
    }
  }

  lemma SameMembers(blocks: seq<MemBlock>, cs: seq<MemBlock>)
    requires multiset(blocks) == multiset(cs)
    ensures forall b :: b in blocks <==> b in cs
  {
    forall b ensures b in blocks <==> b in cs {
      assert b in blocks <==> b in multiset(blocks);
      assert b in cs <==> b in multiset(cs);
    }
  }

  /** Conservation, for all code lines: no byte is lost or doubled, no block is empty. */
  lemma BlocksConserveBytes(blocks: seq<MemBlock>, cs: seq<CodeLine>, p: Memory)
    requires BlocksOf(blocks, cs, p)
    ensures TotalBytes(blocks) == TotalLength(cs)
    ensures NoneEmpty(blocks)
  {
    BuildConserves(cs, p);
    FlushedTotal(Build(cs, p));
    SumIsOrderFree(Length, blocks, Coalesced(cs, p));
    BuildLeavesNoneEmpty(cs, p);
    SameMembers(blocks, Coalesced(cs, p));
  }

  // ----- contents, for lines that stay below the end of the address space -----

  ghost predicate FitLines(cs: seq<CodeLine>) {
    forall i :: 0 <= i < |cs| ==> cs[i].start + cs[i].length <= ADDR_INVALID
  }

  predicate InBlock(b: MemBlock, a: U32) {
    b.start <= a < b.start + |b.bytes|
  }

  predicate Holds(bs: seq<MemBlock>, a: U32) {
    exists i :: 0 <= i < |bs| && InBlock(bs[i], a)
  }

  /** The block shows the memory it was read from. */
  ghost predicate Faithful(b: MemBlock, p: Memory) {
    && b.start + |b.bytes| <= ADDR_INVALID
    && forall a: U32 :: InBlock(b, a) ==> b.bytes[a - b.start] == ByteOf(p, a)
  }

  ghost predicate AllFaithful(bs: seq<MemBlock>, p: Memory) {
    forall b :: b in bs ==> Faithful(b, p)
  }

  /** The block under construction ends where the previous line ended. */
  ghost predicate UpToDate(b: Building, cs: seq<CodeLine>, p: Memory) {
    && Faithful(MemBlock(b.address, b.bytes), p)
    && (cs != [] ==> b.address + |b.bytes| == cs[|cs| - 1].start + cs[|cs| - 1].length)
  }

  lemma LineIsFaithful(c: CodeLine, p: Memory)
    requires c.start + c.length <= ADDR_INVALID
    ensures Faithful(MemBlock(c.start, LineBytes(p, c)), p)
  {
    forall a: U32 | InBlock(MemBlock(c.start, LineBytes(p, c)), a)
      ensures LineBytes(p, c)[a - c.start] == ByteOf(p, a)
    {
      assert Wrap(c.start + (a - c.start)) == a;
    }
  }

  /** A line joins the open block only where that block ends. */
  ghost predicate Joins(b: Building, prev: Option<CodeLine>, c: CodeLine) {
    AreAdjacent(prev, c) ==> b.address + |b.bytes| == c.start
  }

  lemma ExtendedIsFaithful(b: Building, prev: Option<CodeLine>, c: CodeLine, p: Memory)
    requires c.start + c.length <= ADDR_INVALID && Joins(b, prev, c)
    requires Faithful(MemBlock(b.address, b.bytes), p) && AllFaithful(b.done, p)
    ensures var e := Extended(b, prev, c, p);
            && Faithful(MemBlock(e.address, e.bytes), p) && AllFaithful(e.done, p)
            && e.address + |e.bytes| == c.start + c.length
  {
    LineIsFaithful(c, p);
    if AreAdjacent(prev, c) {
      var grown := MemBlock(b.address, b.bytes + LineBytes(p, c));
      forall a: U32 | InBlock(grown, a) ensures grown.bytes[a - grown.start] == ByteOf(p, a) {
        if a < c.start { assert InBlock(MemBlock(b.address, b.bytes), a); }
        else { assert InBlock(MemBlock(c.start, LineBytes(p, c)), a); }
      }
    }
  }

  lemma FitFront(cs: seq<CodeLine>)
    requires FitLines(cs) && cs != []
    ensures FitLines(cs[..|cs| - 1])
    ensures cs[|cs| - 1].start + cs[|cs| - 1].length <= ADDR_INVALID
  {
    assert forall i :: 0 <= i < |cs| - 1 ==> cs[..|cs| - 1][i] == cs[i];
  }

  lemma UpToDateJoins(b: Building, cs: seq<CodeLine>, c: CodeLine, p: Memory)
    requires UpToDate(b, cs, p)
    ensures Joins(b, LastOf(cs), c)
  {
  }

  lemma {:induction false} BuildIsFaithful(cs: seq<CodeLine>, p: Memory)
    requires FitLines(cs)
    ensures UpToDate(Build(cs, p), cs, p) && AllFaithful(Build(cs, p).done, p)
  {
    if cs == [] {
    } else {
      var front, c := cs[..|cs| - 1], cs[|cs| - 1];
      FitFront(cs);
      BuildIsFaithful(front, p);
      UpToDateJoins(Build(front, p), front, c, p);
      ExtendedIsFaithful(Build(front, p), LastOf(front), c, p);
    }
  }

  lemma HoldsNext(bs: seq<MemBlock>, b: MemBlock, a: U32)
    ensures Holds(bs + [b], a) <==> Holds(bs, a) || InBlock(b, a)
  {
    assert (bs + [b])[|bs|] == b;
    if Holds(bs, a) {
      var i :| 0 <= i < |bs| && InBlock(bs[i], a);
      assert (bs + [b])[i] == bs[i];
    }
  }

  lemma FlushedHolds(b: Building, a: U32)
    ensures Holds(Flushed(b), a) <==> Holds(b.done, a) || InBlock(MemBlock(b.address, b.bytes), a)
  {
    HoldsNext(b.done, MemBlock(b.address, b.bytes), a);
  }

  lemma ExtendedHolds(b: Building, prev: Option<CodeLine>, c: CodeLine, p: Memory, a: U32)
    requires c.start + c.length <= ADDR_INVALID && Joins(b, prev, c)
    ensures Holds(Flushed(Extended(b, prev, c, p)), a) <==> Holds(Flushed(b), a) || InLine(c, a)
  {
    FlushedHolds(b, a);
    FlushedHolds(Extended(b, prev, c, p), a);
    FitLine(c.start, c.length, a);
  }

  lemma {:induction false} BuildCovers(cs: seq<CodeLine>, p: Memory, a: U32)
    requires FitLines(cs)
    ensures Holds(Flushed(Build(cs, p)), a) <==> Covers(cs, a)
  {
    if cs == [] {
    } else {
      var front, c := cs[..|cs| - 1], cs[|cs| - 1];
      FitFront(cs);
      BuildCovers(front, p, a);
      BuildIsFaithful(front, p);
      UpToDateJoins(Build(front, p), front, c, p);
      ExtendedHolds(Build(front, p), LastOf(front), c, p, a);
      assert cs == front + [c];
      CoversNext(front, c, a);
    }
  }

  lemma HoldsTail(bs: seq<MemBlock>, a: U32)
    requires bs != [] && !InBlock(bs[0], a)
    ensures Holds(bs, a) <==> Holds(bs[1..], a)
  {
    if i :| 0 <= i < |bs| && InBlock(bs[i], a) { assert bs[1..][i - 1] == bs[i]; }
    if i :| 0 <= i < |bs[1..]| && InBlock(bs[1..][i], a) { assert bs[i + 1] == bs[1..][i]; }
  }

  lemma FirstHolderAnswers(bs: seq<MemBlock>, p: Memory, a: U32)
    requires AllFaithful(bs, p)
    ensures ByteAt(bs, a) == if Holds(bs, a) then ByteOf(p, a) else 0xff
  {
    if bs == [] {
    } else {
      assert Faithful(bs[0], p);
      if HasAddress(bs[0], a) {
        assert InBlock(bs[0], a);
      } else {
        assert !InBlock(bs[0], a);
        assert forall b :: b in bs[1..] ==> b in bs;
        FirstHolderAnswers(bs[1..], p, a);
        HoldsTail(bs, a);
      }
    }
  }

  lemma HoldsOrderFree(blocks: seq<MemBlock>, cs: seq<MemBlock>, a: U32)
    requires multiset(blocks) == multiset(cs)
    ensures Holds(blocks, a) <==> Holds(cs, a)
  {
    SameMembers(blocks, cs);
    if i :| 0 <= i < |blocks| && InBlock(blocks[i], a) {
      assert blocks[i] in cs;
      var j :| 0 <= j < |cs| && cs[j] == blocks[i];
    }
    if i :| 0 <= i < |cs| && InBlock(cs[i], a) {
      assert cs[i] in blocks;
      var j :| 0 <= j < |blocks| && blocks[j] == cs[i];
    }
  }

  /** The index agrees with the memory it came from, for code lines in any order and even
      overlapping: covered addresses read their byte, all others 0xff. */
  lemma IndexAgreesWithMemory(blocks: seq<MemBlock>, cs: seq<CodeLine>, p: Memory, a: U32)
    requires FitLines(cs) && AllReadable(p, cs) && BlocksOf(blocks, cs, p)
    ensures Holds(blocks, a) <==> Covers(cs, a)
    ensures Covers(cs, a) ==> a in p && ByteAt(blocks, a) == p[a]
    ensures !Covers(cs, a) ==> ByteAt(blocks, a) == 0xff
  {
    BuildIsFaithful(cs, p);
    BuildCovers(cs, p, a);
    SameMembers(blocks, Coalesced(cs, p));
    HoldsOrderFree(blocks, Coalesced(cs, p), a);
    FirstHolderAnswers(blocks, p, a);
    if i :| 0 <= i < |cs| && InLine(cs[i], a) { assert Readable(p, cs[i]); }
  }

  // ----- order, for disjoint lines -----

  ghost predicate DisjointBlocks(bs: seq<MemBlock>) {
    forall i, j, a: U32 :: 0 <= i < j < |bs| && InBlock(bs[i], a) ==> !InBlock(bs[j], a)
  }

  function End(b: MemBlock): nat {
    b.start + |b.bytes|
  }

  /** Each block ends before the next begins. */
  ghost predicate StrictlySorted(bs: seq<MemBlock>) {
    forall i, j :: 0 <= i < j < |bs| ==> End(bs[i]) <= bs[j].start
  }

  function BlockFlags(bs: seq<MemBlock>, a: U32): seq<bool> {
    seq(|bs|, i requires 0 <= i < |bs| => InBlock(bs[i], a))
  }

  function Holding(a: U32): MemBlock -> nat {
    (b: MemBlock) => if InBlock(b, a) then 1 else 0
  }

  lemma {:induction false} SumCountsHolders(bs: seq<MemBlock>, a: U32)
    ensures Sum(Holding(a), bs) == Hits(BlockFlags(bs, a))
  {
    if bs == [] {
    } else {
      var front, last := bs[..|bs| - 1], bs[|bs| - 1];
      SumCountsHolders(front, a);
      assert BlockFlags(bs, a) == BlockFlags(front, a) + [InBlock(last, a)];
      HitsConcat(BlockFlags(front, a), [InBlock(last, a)]);
      assert [InBlock(last, a)][1..] == [];
    }
  }

  lemma DisjointBlockFlags(bs: seq<MemBlock>)
    ensures DisjointBlocks(bs) <==> forall a: U32 :: AtMostOnce(BlockFlags(bs, a))
  {
    if DisjointBlocks(bs) {
    } else {
      var i, j, a: U32 :| 0 <= i < j < |bs| && InBlock(bs[i], a) && InBlock(bs[j], a);
      assert BlockFlags(bs, a)[i] && BlockFlags(bs, a)[j];
    }
  }

  /** How often the finished blocks and the open one hold `a`. */
  function HoldCount(b: Building, a: U32): nat {
    Sum(Holding(a), b.done) + Holding(a)(MemBlock(b.address, b.bytes))
  }

  /** They do as often as the lines count it. */
  ghost predicate SameCount(b: Building, cs: seq<CodeLine>, a: U32) {
    HoldCount(b, a) == Hits(LineFlags(cs, a))
  }

  lemma FlushedCount(b: Building, a: U32)
    ensures Sum(Holding(a), Flushed(b)) == Sum(Holding(a), b.done) + Holding(a)(MemBlock(b.address, b.bytes))
  {
    SumNext(Holding(a), b.done, MemBlock(b.address, b.bytes));
  }

  lemma ExtendedHoldCount(b: Building, prev: Option<CodeLine>, c: CodeLine, p: Memory, a: U32)
    requires c.start + c.length <= ADDR_INVALID && Joins(b, prev, c)
    ensures HoldCount(Extended(b, prev, c, p), a) == HoldCount(b, a) + if InLine(c, a) then 1 else 0
  {
    FitLine(c.start, c.length, a);
    if !AreAdjacent(prev, c) { FlushedCount(b, a); }
  }

  lemma OneLineHits(cs: seq<CodeLine>, c: CodeLine, a: U32)
    ensures Hits(LineFlags(cs + [c], a)) == Hits(LineFlags(cs, a)) + if InLine(c, a) then 1 else 0
  {
    LineFlagsNext(cs, cs + [c], a);
    assert LineFlags([c], a) == [InLine(c, a)] && [InLine(c, a)][1..] == [];
  }

  lemma ExtendedCount(b: Building, cs: seq<CodeLine>, prev: Option<CodeLine>, c: CodeLine, p: Memory, a: U32)
    requires c.start + c.length <= ADDR_INVALID && Joins(b, prev, c) && SameCount(b, cs, a)
    ensures SameCount(Extended(b, prev, c, p), cs + [c], a)
  {
    ExtendedHoldCount(b, prev, c, p, a);
    OneLineHits(cs, c, a);
  }

  lemma {:induction false} BuildCounts(cs: seq<CodeLine>, p: Memory, a: U32)
    requires FitLines(cs)
    ensures SameCount(Build(cs, p), cs, a)
  {
    if cs == [] {
    } else {
      var front, c := cs[..|cs| - 1], cs[|cs| - 1];
      FitFront(cs);
      BuildCounts(front, p, a);
      BuildIsFaithful(front, p);
      UpToDateJoins(Build(front, p), front, c, p);
      ExtendedCount(Build(front, p), front, LastOf(front), c, p, a);
      assert front + [c] == cs;
    }
  }

  lemma SortedIffDisjoint(bs: seq<MemBlock>)
    requires SortedByStart(bs) && NoneEmpty(bs)
    requires forall b :: b in bs ==> End(b) <= ADDR_INVALID
    ensures StrictlySorted(bs) <==> DisjointBlocks(bs)
  {
    if DisjointBlocks(bs) {
      forall i, j | 0 <= i < j < |bs| ensures End(bs[i]) <= bs[j].start {
        assert bs[j] in bs;
        assert InBlock(bs[j], bs[j].start);
      }
    }
  }

  /** The blocks are strictly sorted, each ending before the next, if and only if no two code
      lines share an address. */
  lemma BlocksSortedIffLinesDisjoint(blocks: seq<MemBlock>, cs: seq<CodeLine>, p: Memory)
    requires FitLines(cs) && BlocksOf(blocks, cs, p)
    ensures StrictlySorted(blocks) <==> DisjointLines(cs)
  {
    forall a: U32 ensures AtMostOnce(BlockFlags(blocks, a)) <==> AtMostOnce(LineFlags(cs, a)) {
      BuildCounts(cs, p, a);
      FlushedCount(Build(cs, p), a);
      SumIsOrderFree(Holding(a), blocks, Coalesced(cs, p));
      SumCountsHolders(blocks, a);
      OneHit(BlockFlags(blocks, a));
      OneHit(LineFlags(cs, a));
    }
    DisjointBlockFlags(blocks);
    DisjointLineFlags(cs);
    BlocksConserveBytes(blocks, cs, p);
    BuildIsFaithful(cs, p);
    SameMembers(blocks, Coalesced(cs, p));
    forall b | b in blocks ensures End(b) <= ADDR_INVALID { assert Faithful(b, p); }
    SortedIffDisjoint(blocks);
  }
}
