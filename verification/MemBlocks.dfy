/** The block builder: code lines coalesce into sorted blocks of contiguous memory, and
    the block index answers for the same memory the lines were read from. */
module MemBlocks {
  import opened Words
  import opened OnePass
  import opened Coverage

  datatype MemBlock = MemBlock(start: U32, bytes: seq<Byte>)

  // ----- building -----

  predicate AreAdjacent(prev: Option<CodeLine>, curr: CodeLine) {
    prev.Some? && Wrap(prev.value.start + prev.value.length) == curr.start
  }

  function ByteOf(p: Memory, a: U32): Byte {
    if a in p then p[a] else 0
  }

  function LineBytes(p: Memory, c: CodeLine): (bs: seq<Byte>)
    ensures |bs| == c.length
  {
    seq<Byte>(c.length, k requires 0 <= k < c.length => ByteOf(p, Wrap(c.start + k)))
  }

  /** The finished blocks, and the block under construction. */
  datatype Building = Building(done: seq<MemBlock>, address: U32, bytes: seq<Byte>)

  function Flushed(b: Building): seq<MemBlock> {
    if b.bytes == [] then b.done else b.done + [MemBlock(b.address, b.bytes)]
  }

  function Extended(b: Building, prev: Option<CodeLine>, c: CodeLine, p: Memory): Building {
    if AreAdjacent(prev, c) then b.(bytes := b.bytes + LineBytes(p, c))
    else Building(Flushed(b), c.start, LineBytes(p, c))
  }

  function LastOf(cs: seq<CodeLine>): Option<CodeLine> {
    if cs == [] then None else Some(cs[|cs| - 1])
  }

  function Build(cs: seq<CodeLine>, p: Memory): Building {
    if cs == [] then Building([], 0, [])
    else
      var front := cs[..|cs| - 1];
      Extended(Build(front, p), LastOf(front), cs[|cs| - 1], p)
  }

  function Coalesced(cs: seq<CodeLine>, p: Memory): seq<MemBlock> {
    Flushed(Build(cs, p))
  }

  // ----- sorting -----

  ghost predicate SortedByStart(bs: seq<MemBlock>) {
    forall i, j :: 0 <= i < j < |bs| ==> bs[i].start <= bs[j].start
  }

  function Insert(b: MemBlock, bs: seq<MemBlock>): seq<MemBlock> {
    if bs == [] then [b]
    else if b.start <= bs[0].start then [b] + bs
    else [bs[0]] + Insert(b, bs[1..])
  }

  function Sort(bs: seq<MemBlock>): seq<MemBlock> {
    if bs == [] then [] else Insert(bs[0], Sort(bs[1..]))
  }

  lemma {:induction false} InsertIsPermutation(b: MemBlock, bs: seq<MemBlock>)
    ensures multiset(Insert(b, bs)) == multiset(bs) + multiset{b}
  {
    if bs == [] || b.start <= bs[0].start {
    } else {
      InsertIsPermutation(b, bs[1..]);
      assert bs == [bs[0]] + bs[1..];
    }
  }

  lemma {:induction false} InsertKeepsSorted(b: MemBlock, bs: seq<MemBlock>)
    requires SortedByStart(bs)
    ensures SortedByStart(Insert(b, bs))
  {
    if bs == [] || b.start <= bs[0].start {
    } else {
      var rest := Insert(b, bs[1..]);
      InsertKeepsSorted(b, bs[1..]);
      InsertIsPermutation(b, bs[1..]);
      forall i | 0 <= i < |rest| ensures bs[0].start <= rest[i].start {
        assert rest[i] in multiset(rest);
        assert rest[i] == b || rest[i] in multiset(bs[1..]);
      }
    }
  }

  lemma {:induction false} SortSorts(bs: seq<MemBlock>)
    ensures SortedByStart(Sort(bs)) && multiset(Sort(bs)) == multiset(bs)
  {
    if bs == [] {
    } else {
      SortSorts(bs[1..]);
      InsertKeepsSorted(bs[0], Sort(bs[1..]));
      InsertIsPermutation(bs[0], Sort(bs[1..]));
      assert bs == [bs[0]] + bs[1..];
    }
  }

  /** What the sort promises: the blocks of these code lines, in some order that is sorted. */
  ghost predicate BlocksOf(blocks: seq<MemBlock>, cs: seq<CodeLine>, p: Memory) {
    SortedByStart(blocks) && multiset(blocks) == multiset(Coalesced(cs, p))
  }

  // ----- the builder -----

  lemma AddressOfIndex(start: U32, k: nat, a: U32)
    requires k < TWO_TO_THE_32
    ensures Wrap(a - start) == k <==> a == Wrap(start + k)
  {
  }

  /** Reads one line's bytes; a missing address is the map's `at` throwing. */
  method ReadLine(c: CodeLine, payload: Memory) returns (r: Option<seq<Byte>>)
    ensures r.Some? <==> Readable(payload, c)
    ensures r.Some? ==> r.value == LineBytes(payload, c)
  {
    var bytes: seq<Byte> := [];
    for idx := 0 to c.length
      invariant bytes == LineBytes(payload, c)[..idx]
      invariant forall a: U32 :: Wrap(a - c.start) < idx ==> a in payload
    {
      var a := Wrap(c.start + idx);
      AddressOfIndex(c.start, idx, a);
      if a !in payload {
        assert InLine(c, a);
        return None;
      }
      forall a': U32 | Wrap(a' - c.start) < idx + 1 ensures a' in payload {
        AddressOfIndex(c.start, idx, a');
      }
      bytes := bytes + [payload[a]];
    }
    return Some(bytes);
  }

  /** `None` is the exception of a failed lookup. */
  method GetMemBlocks(codeLines: seq<CodeLine>, payload: Memory) returns (r: Option<seq<MemBlock>>)
    ensures r.Some? <==> AllReadable(payload, codeLines)
    ensures r.Some? ==> BlocksOf(r.value, codeLines, payload)
  {
    var memBlocks: seq<MemBlock> := [];
    var currMemBlockBytes: seq<Byte> := [];
    var currMemBlockAddress: U32 := 0;
    var prevCodeLine: Option<CodeLine> := None;
    for i := 0 to |codeLines|
      invariant prevCodeLine == LastOf(codeLines[..i])
      invariant Building(memBlocks, currMemBlockAddress, currMemBlockBytes) == Build(codeLines[..i], payload)
      invariant forall j :: 0 <= j < i ==> Readable(payload, codeLines[j])
    {
      var codeLine := codeLines[i];
      assert codeLines[..i + 1][..i] == codeLines[..i];
      if !AreAdjacent(prevCodeLine, codeLine) {
        if currMemBlockBytes != [] {
          memBlocks := memBlocks + [MemBlock(currMemBlockAddress, currMemBlockBytes)];
          currMemBlockBytes := [];
        }
        currMemBlockAddress := codeLine.start;
      }
      var bytes := ReadLine(codeLine, payload);
      if bytes.None? {
        return None;
      }
      currMemBlockBytes := currMemBlockBytes + bytes.value;
      prevCodeLine := Some(codeLine);
    }
    assert codeLines[..|codeLines|] == codeLines;
    if currMemBlockBytes != [] {
      memBlocks := memBlocks + [MemBlock(currMemBlockAddress, currMemBlockBytes)];
    }
    SortSorts(memBlocks);
    return Some(Sort(memBlocks));
  }
}
