/** Which images the printed program loads on a Commodore: those whose blocks count 1, 2, 3
    and so on. */
module CommodoreImages {
  import opened Words
  import opened MemBlocks
  import opened BlockIndex
  import opened BasicListing
  import opened BasicReader
  import opened BasicMachine
  import opened CommodoreLoader

  /** The bytes 1, 2, .. n. */
  ghost predicate Counting(b: MemBlock) {
    forall j :: 0 <= j < |b.bytes| ==> b.bytes[j] == j + 1
  }

  ghost predicate AllCounting(bs: seq<MemBlock>) {
    forall b :: b in bs ==> Counting(b)
  }

  // ----- counting blocks are loaded -----

  lemma {:induction false} CountingBytes(memory: map<int, nat>, a: nat, i: nat, n: nat, bytes: seq<nat>, rest: seq<nat>)
    requires bytes != [] && i + |bytes| == n <= 0xFF && a + n <= 0x1_0000
    requires forall j :: 0 <= j < |bytes| ==> bytes[j] == i + j + 1
    ensures LoadBlock(memory, a, n, bytes + rest) == Run(Poked(memory, a + i, bytes), rest, true)
    decreases |bytes|
  {
    assert (bytes + rest)[1..] == bytes[1..] + rest;
    if |bytes| == 1 {
      assert bytes[1..] == [] && [] + rest == rest;
    } else {
      CountingBytes(memory[a + i := bytes[0]], a, i + 1, n, bytes[1..], rest);
    }
  }

  lemma HeadAndRest(a: nat, n: nat, bytes: seq<nat>, rest: seq<nat>)
    ensures (([a, n] + bytes) + rest)[2..] == bytes + rest
    ensures (([a, n] + bytes) + rest)[0] == a && (([a, n] + bytes) + rest)[1] == n
  {
  }

  lemma FirstBlockData(bs: seq<MemBlock>)
    requires bs != []
    ensures var data := BlocksData(bs);
            && |data| >= 2 && data[0] == bs[0].start && data[1] == |bs[0].bytes|
            && data[2..] == bs[0].bytes + BlocksData(bs[1..])
  {
    HeadAndRest(bs[0].start, |bs[0].bytes|, bs[0].bytes, BlocksData(bs[1..]));
  }

  lemma CountingBlock(memory: map<int, nat>, b: MemBlock, rest: seq<nat>)
    requires b.bytes != [] && Counting(b) && End(b) <= 0x1_0000
    ensures LoadBlock(memory, b.start, |b.bytes|, b.bytes + rest)
         == Run(Poked(memory, b.start, b.bytes), rest, true)
  {
    assert b.bytes[|b.bytes| - 1] == |b.bytes|;
    CountingBytes(memory, b.start, 0, |b.bytes|, b.bytes, rest);
  }

  lemma {:induction false} CountingBlocks(memory: map<int, nat>, bs: seq<MemBlock>)
    requires bs != [] && AllCounting(bs) && NoneEmpty(bs) && InReach(bs)
    ensures var r := LoadBlocks(memory, |bs|, BlocksData(bs));
            r.ok && r.memory == Loaded(memory, bs)
    decreases |bs|
  {
    assert bs[0] in bs;
    FirstBlockData(bs);
    CountingBlock(memory, bs[0], BlocksData(bs[1..]));
    if |bs| == 1 {
      assert bs[1..] == [];
    } else {
      CountingBlocks(Poked(memory, bs[0].start, bs[0].bytes), bs[1..]);
    }
  }

  // ----- what the byte loop leaves -----

  /** How many values the byte loop reads. */
  function Used(n: nat, data: seq<nat>): nat {
    if data == [] then 0 else if data[0] < n then 1 + Used(n, data[1..]) else 1
  }

  /** One of the first `k` values goes to `x`. */
  predicate Touches(a: nat, data: seq<nat>, k: nat, x: int) {
    exists i :: 0 <= i < k && i < |data| && a + data[i] - 1 == x
  }

  lemma TouchesNext(a: nat, data: seq<nat>, k: nat, x: int)
    requires data != []
    ensures Touches(a, data, k + 1, x) <==> a + data[0] - 1 == x || Touches(a, data[1..], k, x)
  {
    if i :| 0 <= i < k + 1 && i < |data| && a + data[i] - 1 == x {
      if i > 0 { assert data[1..][i - 1] == data[i]; }
    }
    if i :| 0 <= i < k && i < |data[1..]| && a + data[1..][i] - 1 == x { assert data[i + 1] == data[1..][i]; }
  }

  /** Value v goes to the v-th address, whichever turn of the loop reads it. */
  lemma {:induction false} BlockLeaves(memory: map<int, nat>, a: nat, n: nat, data: seq<nat>, x: int)
    requires LoadBlock(memory, a, n, data).ok
    ensures var r, k := LoadBlock(memory, a, n, data), Used(n, data);
            && (x in r.memory <==> x in memory || Touches(a, data, k, x))
            && (Touches(a, data, k, x) ==> 0 <= x && r.memory[x] == x + 1 - a)
            && (x in memory && !Touches(a, data, k, x) ==> r.memory[x] == memory[x])
    decreases |data|
  {
    var v := data[0];
    TouchesNext(a, data, Used(n, data) - 1, x);
    if v < n {
      BlockLeaves(memory[a + v - 1 := v], a, n, data[1..], x);
    }
  }

  lemma {:induction false} BlockUses(memory: map<int, nat>, a: nat, n: nat, data: seq<nat>)
    requires LoadBlock(memory, a, n, data).ok
    ensures var k := Used(n, data);
            && 1 <= k <= |data| && LoadBlock(memory, a, n, data).data == data[k..]
            && forall i :: 0 <= i < k ==> Pokeable(a + data[i] - 1, data[i])
    decreases |data|
  {
    var v := data[0];
    if v < n {
      BlockUses(memory[a + v - 1 := v], a, n, data[1..]);
      var k := Used(n, data[1..]);
      assert forall i :: 1 <= i < k + 1 ==> data[i] == data[1..][i - 1];
      assert data[1..][k..] == data[k + 1..];
    }
  }

  lemma {:induction false} BlocksKeep(memory: map<int, nat>, count: nat, data: seq<nat>, x: int)
    requires LoadBlocks(memory, count, data).ok && x in memory
    ensures x in LoadBlocks(memory, count, data).memory
    decreases count
  {
    var r := LoadBlock(memory, data[0], data[1], data[2..]);
    BlockLeaves(memory, data[0], data[1], data[2..], x);
    if count > 1 {
      BlocksKeep(r.memory, count - 1, r.data, x);
    }
  }

  // ----- one block -----

  lemma OneBlockOutcome(b: MemBlock)
    ensures Outcome([b]) == LoadBlock(map[], b.start, |b.bytes|, b.bytes)
  {
    FirstBlockData([b]);
    assert [b][1..] == [];
    assert b.bytes + [] == b.bytes;
  }

  lemma OnlyHeld(b: MemBlock, x: U32)
    ensures Holds([b], x) <==> InBlock(b, x)
    ensures InBlock(b, x) && End(b) <= ADDR_INVALID ==> ByteAt([b], x) == b.bytes[x - b.start]
  {
    assert [b][0] == b;
  }

  lemma LoadedBlockCounts(b: MemBlock, memory: map<int, nat>)
    requires b.bytes != [] && End(b) <= ADDR_INVALID
    requires LoadBlock(map[], b.start, |b.bytes|, b.bytes).ok
    requires memory == LoadBlock(map[], b.start, |b.bytes|, b.bytes).memory && ShowsImage(memory, [b])
    ensures Counting(b) && End(b) <= 0x1_0000
  {
    forall j | 0 <= j < |b.bytes| ensures b.bytes[j] == j + 1 {
      var x: U32 := b.start + j;
      OnlyHeld(b, x);
      assert InBlock(b, x);
      BlockLeaves(map[], b.start, |b.bytes|, b.bytes, x);
    }
    OnlyHeld(b, End(b) - 1);
    assert InBlock(b, End(b) - 1);
  }

  lemma {:induction false} LoadedStaysInWords(memory: map<int, nat>, bs: seq<MemBlock>)
    requires InWords(memory) && InReach(bs)
    ensures InWords(Loaded(memory, bs))
    decreases |bs|
  {
    if bs == [] {
    } else {
      assert bs[0] in bs;
      forall x | x in Poked(memory, bs[0].start, bs[0].bytes) ensures 0 <= x <= 0xFFFF {
        PokedAt(memory, bs[0].start, bs[0].bytes, x);
      }
      LoadedStaysInWords(Poked(memory, bs[0].start, bs[0].bytes), bs[1..]);
    }
  }

  /** Any number of blocks, overlapping or not: that they count is enough. */
  lemma CountingImageLoads(bs: seq<MemBlock>, p: Memory)
    requires bs != [] && NoneEmpty(bs) && AllFaithful(bs, p) && InReach(bs) && AllCounting(bs)
    ensures ReadListing(ListingText(bs)).Some?
    ensures Loads(TwoLetters, ReadListing(ListingText(bs)).value, bs)
  {
    var _ := CommodoreOutcome(bs);
    CountingBlocks(map[], bs);
    LoadedStaysInWords(map[], bs);
    LoadedShowsImage(bs, p, Loaded(map[], bs));
  }

  /** One block, wherever it lies: the program loads it if and only if its bytes are 1, 2, .. n
      and POKE reaches them. */
  lemma OneBlockLoadsIffCounting(b: MemBlock, p: Memory)
    requires b.bytes != [] && Faithful(b, p)
    ensures ReadListing(ListingText([b])).Some?
    ensures Loads(TwoLetters, ReadListing(ListingText([b])).value, [b]) <==> Counting(b) && End(b) <= 0x1_0000
  {
    var _ := CommodoreOutcome([b]);
    OneBlockOutcome(b);
    if Counting(b) && End(b) <= 0x1_0000 {
      CountingImageLoads([b], p);
    }
    if Outcome([b]).ok && ShowsImage(Outcome([b]).memory, [b]) {
      LoadedBlockCounts(b, Outcome([b]).memory);
    }
  }

  // ----- when the program reaches its END, for one block -----

  ghost predicate FinishesAt(a: nat, n: nat, data: seq<nat>, k: nat) {
    k < |data| && n <= data[k] && forall i :: 0 <= i <= k ==> Pokeable(a + data[i] - 1, data[i])
  }

  /** Some value reaches the length, and POKE accepts all values up to it. */
  ghost predicate Finishes(a: nat, n: nat, data: seq<nat>) {
    exists k: nat :: FinishesAt(a, n, data, k)
  }

  lemma FinishesLater(a: nat, n: nat, data: seq<nat>, k: nat)
    requires data != [] && Pokeable(a + data[0] - 1, data[0])
    ensures FinishesAt(a, n, data, k + 1) <==> FinishesAt(a, n, data[1..], k)
  {
    var rest := data[1..];
    assert forall i :: 0 <= i < |rest| ==> rest[i] == data[i + 1];
    if FinishesAt(a, n, data, k + 1) {
      forall i | 0 <= i <= k ensures Pokeable(a + rest[i] - 1, rest[i]) { assert rest[i] == data[i + 1]; }
    }
    if FinishesAt(a, n, rest, k) {
      forall i | 0 <= i <= k + 1 ensures Pokeable(a + data[i] - 1, data[i]) {
        if i > 0 { assert rest[i - 1] == data[i]; }
      }
    }
  }

  lemma FinishesTail(a: nat, n: nat, data: seq<nat>)
    requires data != [] && Pokeable(a + data[0] - 1, data[0]) && data[0] < n
    ensures Finishes(a, n, data) <==> Finishes(a, n, data[1..])
  {
    if k: nat :| FinishesAt(a, n, data, k) {
      FinishesLater(a, n, data, k - 1);
    }
    if k: nat :| FinishesAt(a, n, data[1..], k) {
      FinishesLater(a, n, data, k);
    }
  }

  lemma {:induction false} LoopFinishes(memory: map<int, nat>, a: nat, n: nat, data: seq<nat>)
    ensures LoadBlock(memory, a, n, data).ok <==> Finishes(a, n, data)
    decreases |data|
  {
    if data == [] {
    } else if !Pokeable(a + data[0] - 1, data[0]) {
    } else if data[0] < n {
      LoopFinishes(memory[a + data[0] - 1 := data[0]], a, n, data[1..]);
      FinishesTail(a, n, data);
    } else {
      assert FinishesAt(a, n, data, 0);
    }
  }

  /** One block: the program reaches its END if and only if some byte reaches the block's
      length before POKE refuses one. */
  lemma OneBlockEndsIffReached(b: MemBlock)
    ensures ReadListing(ListingText([b])).Some?
    ensures ReachesEnd(TwoLetters, ReadListing(ListingText([b])).value) <==> Finishes(b.start, |b.bytes|, b.bytes)
  {
    var _ := CommodoreOutcome([b]);
    OneBlockOutcome(b);
    LoopFinishes(map[], b.start, |b.bytes|, b.bytes);
  }

  // ----- disjoint blocks above the first two pages -----

  /** Sorted, disjoint and above page one. */
  ghost predicate Regular(bs: seq<MemBlock>) {
    && StrictlySorted(bs) && NoneEmpty(bs)
    && forall b :: b in bs ==> 0x200 <= b.start
  }

  lemma RegularTail(bs: seq<MemBlock>)
    requires Regular(bs) && bs != []
    ensures Regular(bs[1..]) && 0x200 <= bs[0].start && bs[0].bytes != []
    ensures |bs| > 1 ==> End(bs[0]) <= bs[1].start
  {
    var rest := bs[1..];
    assert bs[0] in bs;
    assert forall b :: b in rest ==> b in bs;
    forall i, j | 0 <= i < j < |rest| ensures End(rest[i]) <= rest[j].start {
      assert End(bs[i + 1]) <= bs[j + 1].start;
    }
  }

  ghost predicate AbovePageOne(memory: map<int, nat>) {
    forall x :: x in memory ==> 0x200 <= x
  }

  /** A block whose address was taken from a byte is poked into the first two pages. */
  lemma MisalignedIsLow(memory: map<int, nat>, count: nat, data: seq<nat>)
    requires LoadBlocks(memory, count, data).ok && data[0] <= 0xFF
    ensures !AbovePageOne(LoadBlocks(memory, count, data).memory)
  {
    var values := data[2..];
    var r := LoadBlock(memory, data[0], data[1], values);
    var x := data[0] + values[0] - 1;
    assert Touches(data[0], values, Used(data[1], values), x);
    BlockLeaves(memory, data[0], data[1], values, x);
    if count > 1 { BlocksKeep(r.memory, count - 1, r.data, x); }
  }

  /** A block's loop cannot read on into the next block. */
  lemma LoopStaysInside(memory: map<int, nat>, a: nat, n: nat, bytes: seq<nat>, bs: seq<MemBlock>)
    requires Regular(bs) && LoadBlock(memory, a, n, bytes + BlocksData(bs)).ok
    ensures Used(n, bytes + BlocksData(bs)) <= |bytes|
  {
    var data := bytes + BlocksData(bs);
    BlockUses(memory, a, n, data);
    if bs == [] {
      assert data == bytes;
    } else {
      RegularTail(bs);
      FirstBlockData(bs);
      assert data[|bytes|] == bs[0].start;
    }
  }

  /** The first block of a regular image: its loop stops inside, and unless it is the last block
      it reads all its bytes. */
  lemma FirstBlockIsRead(memory: map<int, nat>, bs: seq<MemBlock>)
    requires Regular(bs) && bs != []
    requires LoadBlocks(memory, |bs|, BlocksData(bs)).ok
    requires AbovePageOne(LoadBlocks(memory, |bs|, BlocksData(bs)).memory)
    ensures var b, more := bs[0], BlocksData(bs[1..]);
            var r, k := LoadBlock(memory, b.start, |b.bytes|, b.bytes + more), Used(|b.bytes|, b.bytes + more);
            && r.ok && 1 <= k <= |b.bytes|
            && (|bs| > 1 ==> k == |b.bytes| && r.data == more)
            && LoadBlocks(memory, |bs|, BlocksData(bs)) == if |bs| == 1 then r else LoadBlocks(r.memory, |bs| - 1, more)
  {
    var b, more := bs[0], BlocksData(bs[1..]);
    var data := b.bytes + more;
    FirstBlockData(bs);
    RegularTail(bs);
    var r := LoadBlock(memory, b.start, |b.bytes|, data);
    BlockUses(memory, b.start, |b.bytes|, data);
    LoopStaysInside(memory, b.start, |b.bytes|, b.bytes, bs[1..]);
    var k := Used(|b.bytes|, data);
    if |bs| > 1 {
      if k < |b.bytes| {
        assert r.data[0] == b.bytes[k];
        MisalignedIsLow(r.memory, |bs| - 1, r.data);
      }
      assert data[|b.bytes|..] == more;
    }
  }

  /** The turns for later blocks leave the addresses below alone, but for a zero just below. */
  lemma {:induction false} LaterBlocksPokeAbove(memory: map<int, nat>, bs: seq<MemBlock>, x: int)
    requires Regular(bs) && bs != [] && x < bs[0].start
    requires LoadBlocks(memory, |bs|, BlocksData(bs)).ok
    requires AbovePageOne(LoadBlocks(memory, |bs|, BlocksData(bs)).memory)
    ensures var m := LoadBlocks(memory, |bs|, BlocksData(bs)).memory;
            && (x in memory ==> x in m)
            && (x in m ==> m[x] == 0 || (x in memory && m[x] == memory[x]))
            && (x + 1 < bs[0].start ==> (x in m <==> x in memory) && (x in memory ==> m[x] == memory[x]))
    decreases |bs|
  {
    var b, more := bs[0], BlocksData(bs[1..]);
    var data := b.bytes + more;
    var r := LoadBlock(memory, b.start, |b.bytes|, data);
    FirstBlockIsRead(memory, bs);
    BlockLeaves(memory, b.start, |b.bytes|, data, x);
    if |bs| > 1 {
      RegularTail(bs);
      LaterBlocksPokeAbove(r.memory, bs[1..], x);
    }
  }

  /** The remaining turns finish and leave `m`, with nothing in the first two pages. */
  ghost predicate Leaves(memory: map<int, nat>, bs: seq<MemBlock>, m: map<int, nat>) {
    && Regular(bs) && bs != [] && AbovePageOne(m)
    && LoadBlocks(memory, |bs|, BlocksData(bs)).ok && m == LoadBlocks(memory, |bs|, BlocksData(bs)).memory
  }

  predicate NoZeroAt(m: map<int, nat>, x: int) {
    x in m ==> m[x] != 0
  }

  predicate ShowsByte(m: map<int, nat>, b: MemBlock, j: nat)
    requires j < |b.bytes|
  {
    b.start + j in m && m[b.start + j] == b.bytes[j]
  }

  ghost predicate ShowsBlock(m: map<int, nat>, b: MemBlock) {
    forall j :: 0 <= j < |b.bytes| ==> ShowsByte(m, b, j)
  }

  ghost predicate EndsBelow(memory: map<int, nat>, limit: int) {
    forall x :: x in memory ==> x < limit
  }

  predicate Within(b: MemBlock, x: int) {
    b.start <= x < End(b)
  }

  ghost predicate HeldBySome(bs: seq<MemBlock>, x: int) {
    exists b :: b in bs && Within(b, x)
  }

  ghost predicate NothingElse(m: map<int, nat>, bs: seq<MemBlock>, from: int) {
    forall x :: x in m && from <= x ==> HeldBySome(bs, x)
  }

  function AfterFirst(memory: map<int, nat>, bs: seq<MemBlock>): map<int, nat>
    requires bs != []
  {
    LoadBlock(memory, bs[0].start, |bs[0].bytes|, bs[0].bytes + BlocksData(bs[1..])).memory
  }

  lemma TouchesInside(a: nat, bytes: seq<nat>, more: seq<nat>, k: nat, x: int)
    requires k <= |bytes|
    ensures Touches(a, bytes + more, k, x) <==> Touches(a, bytes, k, x)
  {
    assert forall i :: 0 <= i < k ==> (bytes + more)[i] == bytes[i];
  }

  /** What the first turn of a regular image leaves, and what the others make of it. */
  lemma FirstTurn(memory: map<int, nat>, bs: seq<MemBlock>, m: map<int, nat>, x: int)
    returns (m1: map<int, nat>, k: nat)
    requires Leaves(memory, bs, m)
    ensures m1 == AfterFirst(memory, bs) && 1 <= k <= |bs[0].bytes|
    ensures |bs| > 1 ==> k == |bs[0].bytes| && Leaves(m1, bs[1..], m)
    ensures |bs| == 1 ==> m1 == m
    ensures x in m1 <==> x in memory || Touches(bs[0].start, bs[0].bytes, k, x)
    ensures Touches(bs[0].start, bs[0].bytes, k, x) ==> m1[x] == x + 1 - bs[0].start
    ensures x < bs[0].start - 1 ==> !Touches(bs[0].start, bs[0].bytes, k, x)
  {
    var b, more := bs[0], BlocksData(bs[1..]);
    var data := b.bytes + more;
    FirstBlockIsRead(memory, bs);
    RegularTail(bs);
    BlockLeaves(memory, b.start, |b.bytes|, data, x);
    m1, k := LoadBlock(memory, b.start, |b.bytes|, data).memory, Used(|b.bytes|, data);
    TouchesInside(b.start, b.bytes, more, k, x);
  }

  lemma LaterTurns(m1: map<int, nat>, bs: seq<MemBlock>, m: map<int, nat>, x: int)
    requires Leaves(m1, bs, m) && x < bs[0].start
    ensures x in m1 ==> x in m
    ensures x in m ==> m[x] == 0 || (x in m1 && m[x] == m1[x])
    ensures x + 1 < bs[0].start && x in m1 ==> x in m && m[x] == m1[x]
  {
    LaterBlocksPokeAbove(m1, bs, x);
  }

  /** No value of the first block is zero: it would go just below the block. */
  lemma NoZeroIsRead(memory: map<int, nat>, bs: seq<MemBlock>, m: map<int, nat>, i: nat)
    requires Leaves(memory, bs, m) && NoZeroAt(m, bs[0].start - 1)
    requires i < |bs[0].bytes| && |bs| > 1
    ensures bs[0].bytes[i] != 0
  {
    var b := bs[0];
    var m1, k := FirstTurn(memory, bs, m, b.start - 1);
    if b.bytes[i] == 0 {
      assert Touches(b.start, b.bytes, k, b.start - 1);
      RegularTail(bs);
      LaterTurns(m1, bs[1..], m, b.start - 1);
    }
  }

  lemma ByteCounts(memory: map<int, nat>, bs: seq<MemBlock>, m: map<int, nat>, j: nat)
    requires Leaves(memory, bs, m) && NoZeroAt(m, bs[0].start - 1) && EndsBelow(memory, bs[0].start)
    requires j < |bs[0].bytes| && ShowsByte(m, bs[0], j)
    ensures bs[0].bytes[j] == j + 1
  {
    var x := bs[0].start + j;
    var m1, k := FirstTurn(memory, bs, m, x);
    if |bs| > 1 {
      RegularTail(bs);
      NoZeroIsRead(memory, bs, m, j);
      LaterTurns(m1, bs[1..], m, x);
    }
  }

  lemma CountingTurnEndsBelow(memory: map<int, nat>, bs: seq<MemBlock>, m: map<int, nat>) returns (m1: map<int, nat>)
    requires Leaves(memory, bs, m) && |bs| > 1 && Counting(bs[0]) && EndsBelow(memory, bs[0].start)
    ensures Leaves(m1, bs[1..], m) && EndsBelow(m1, bs[1].start)
  {
    var k;
    RegularTail(bs);
    m1, k := FirstTurn(memory, bs, m, 0);
    forall x | x in m1 ensures x < bs[1].start {
      var m2, _ := FirstTurn(memory, bs, m, x);
    }
  }

  lemma SortedAbove(bs: seq<MemBlock>, c: MemBlock)
    requires Regular(bs) && |bs| > 1 && c in bs
    ensures c == bs[0] || (c in bs[1..] && bs[1].start <= c.start)
  {
    var i :| 0 <= i < |bs| && bs[i] == c;
    if i > 0 { assert bs[1..][i - 1] == c; }
    if i > 1 { assert End(bs[1]) <= bs[i].start; }
  }

  lemma NextIsAlone(bs: seq<MemBlock>, m: map<int, nat>)
    requires Regular(bs) && |bs| > 1 && Counting(bs[0]) && ShowsBlock(m, bs[0]) && NothingElse(m, bs, bs[0].start)
    ensures NothingElse(m, bs[1..], bs[1].start) && NoZeroAt(m, bs[1].start - 1)
  {
    var b, below := bs[0], bs[1].start - 1;
    RegularTail(bs);
    if below in m {
      assert HeldBySome(bs, below);
      var c :| c in bs && Within(c, below);
      SortedAbove(bs, c);
      assert ShowsByte(m, b, below - b.start);
    }
    forall x | x in m && bs[1].start <= x ensures HeldBySome(bs[1..], x) {
      assert HeldBySome(bs, x);
      var c :| c in bs && Within(c, x);
      SortedAbove(bs, c);
    }
  }

  lemma {:induction false} LoadedBlocksCount(memory: map<int, nat>, bs: seq<MemBlock>, m: map<int, nat>)
    requires Leaves(memory, bs, m) && NoZeroAt(m, bs[0].start - 1) && EndsBelow(memory, bs[0].start)
    requires NothingElse(m, bs, bs[0].start) && forall b :: b in bs ==> ShowsBlock(m, b)
    ensures AllCounting(bs)
    decreases |bs|
  {
    assert ShowsBlock(m, bs[0]);
    forall j | 0 <= j < |bs[0].bytes| ensures bs[0].bytes[j] == j + 1 { ByteCounts(memory, bs, m, j); }
    if |bs| == 1 {
    } else {
      var m1 := CountingTurnEndsBelow(memory, bs, m);
      NextIsAlone(bs, m);
      LoadedBlocksCount(m1, bs[1..], m);
      assert forall b :: b in bs ==> b == bs[0] || b in bs[1..];
    }
  }

  // ----- the main result -----

  lemma ImageIsShown(bs: seq<MemBlock>, p: Memory, m: map<int, nat>, b: MemBlock, j: nat)
    requires AllFaithful(bs, p) && ShowsImage(m, bs) && b in bs && j < |b.bytes|
    ensures ShowsByte(m, b, j) && b.start + j <= 0xFFFF
  {
    var i :| 0 <= i < |bs| && bs[i] == b;
    assert Faithful(b, p);
    var x: U32 := b.start + j;
    assert InBlock(bs[i], x);
    FirstHolderAnswers(bs, p, x);
  }

  lemma ShownIsInReach(bs: seq<MemBlock>, p: Memory, m: map<int, nat>)
    requires AllFaithful(bs, p) && NoneEmpty(bs) && ShowsImage(m, bs)
    ensures InReach(bs)
  {
    forall b | b in bs ensures End(b) <= 0x1_0000 { ImageIsShown(bs, p, m, b, |b.bytes| - 1); }
  }

  lemma ShownIsHeld(bs: seq<MemBlock>, m: map<int, nat>, x: int)
    requires ShowsImage(m, bs) && x in m
    ensures HeldBySome(bs, x)
  {
    assert Holds(bs, x);
    var i :| 0 <= i < |bs| && InBlock(bs[i], x);
    assert Within(bs[i], x);
  }

  lemma StartsAtFirst(bs: seq<MemBlock>, x: int)
    requires Regular(bs) && bs != [] && HeldBySome(bs, x)
    ensures bs[0].start <= x
  {
    var b :| b in bs && Within(b, x);
    var i :| 0 <= i < |bs| && bs[i] == b;
    if i > 0 { assert End(bs[0]) <= bs[i].start; }
  }

  lemma LoadedImageCounts(bs: seq<MemBlock>, p: Memory)
    requires Regular(bs) && AllFaithful(bs, p) && bs != []
    requires Outcome(bs).ok && ShowsImage(Outcome(bs).memory, bs)
    ensures AllCounting(bs) && InReach(bs)
  {
    var m := Outcome(bs).memory;
    RegularTail(bs);
    ShownIsInReach(bs, p, m);
    forall x | x in m ensures HeldBySome(bs, x) && bs[0].start <= x {
      ShownIsHeld(bs, m, x);
      StartsAtFirst(bs, x);
    }
    forall b | b in bs ensures ShowsBlock(m, b) {
      forall j | 0 <= j < |b.bytes| ensures ShowsByte(m, b, j) { ImageIsShown(bs, p, m, b, j); }
    }
    LoadedBlocksCount(map[], bs, m);
  }

  /** Any number of disjoint blocks above the first two pages: the printed program loads them
      on a Commodore if and only if the bytes of every block are 1, 2, .. n, and POKE reaches
      them. */
  lemma RegularImageLoadsIffCounting(bs: seq<MemBlock>, p: Memory)
    requires Regular(bs) && AllFaithful(bs, p)
    ensures ReadListing(ListingText(bs)).Some?
    ensures Loads(TwoLetters, ReadListing(ListingText(bs)).value, bs) <==> bs != [] && InReach(bs) && AllCounting(bs)
  {
    var _ := CommodoreOutcome(bs);
    if bs != [] && Outcome(bs).ok && ShowsImage(Outcome(bs).memory, bs) { LoadedImageCounts(bs, p); }
    if bs != [] && InReach(bs) && AllCounting(bs) { CountingImageLoads(bs, p); }
  }

  // ----- where the condition is not necessary -----

  /** Two adjacent blocks in page zero. */
  const LOW_IMAGE: seq<MemBlock> := [MemBlock(3, [2, 2]), MemBlock(5, [4, 5])]

  /** Two overlapping blocks. */
  const OVERLAPPING_IMAGE: seq<MemBlock> := [MemBlock(0x258, [1, 1, 3]), MemBlock(0x259, [1])]

  lemma LowTurn(memory: map<int, nat>)
    ensures LoadBlock(memory, 2, 5, [2, 4, 5]) == Run(memory[3 := 2][5 := 4][6 := 5], [], true)
  {
    var m := memory[3 := 2][5 := 4];
    assert [2 as nat, 4, 5][1..] == [4, 5] && [4 as nat, 5][1..] == [5] && [5 as nat][1..] == [];
    assert LoadBlock(m, 2, 5, [5]) == Run(m[6 := 5], [], true);
    assert LoadBlock(memory[3 := 2], 2, 5, [4, 5]) == Run(m[6 := 5], [], true);
  }

  lemma LowOutcome()
    ensures Outcome(LOW_IMAGE) == Run(map[4 := 2, 3 := 2, 5 := 4, 6 := 5], [], true)
  {
    var e: seq<nat> := [2, 5, 2, 4, 5];
    assert LOW_IMAGE[1..] == [MemBlock(5, [4, 5])];
    assert BlocksData([MemBlock(5, [4, 5])]) == [5, 2, 4, 5];
    assert BlocksData(LOW_IMAGE) == [3, 2, 2] + e;
    assert ([3, 2, 2] + e)[2..] == [2] + e && ([2] + e)[1..] == e;
    assert LoadBlock(map[], 3, 2, [2] + e) == Run(map[4 := 2], e, true);
    assert e[2..] == [2, 4, 5];
    LowTurn(map[4 := 2]);
    assert LoadBlocks(map[4 := 2], 1, e) == LoadBlock(map[4 := 2], 2, 5, [2, 4, 5]);
  }

  lemma FinishedImageLoads(bs: seq<MemBlock>, m: map<int, nat>)
    requires Outcome(bs) == Run(m, [], true) && ShowsImage(m, bs)
    ensures ReadListing(ListingText(bs)).Some?
    ensures Loads(TwoLetters, ReadListing(ListingText(bs)).value, bs)
  {
    var _ := CommodoreOutcome(bs);
  }

  lemma TwoBlocksHold(b: MemBlock, c: MemBlock, x: U32)
    requires End(b) <= ADDR_INVALID && End(c) <= ADDR_INVALID
    ensures Holds([b, c], x) <==> InBlock(b, x) || InBlock(c, x)
    ensures ByteAt([b, c], x) == if InBlock(b, x) then b.bytes[x - b.start]
                                 else if InBlock(c, x) then c.bytes[x - c.start] else 0xff
  {
    assert [b, c][0] == b && [b, c][1] == c && [b, c][1..] == [c] && [c][1..] == [];
    assert ByteAt([c], x) == if InBlock(c, x) then c.bytes[x - c.start] else 0xff;
  }

  lemma LowImageIsShown(bs: seq<MemBlock>)
    requires bs == LOW_IMAGE
    ensures Outcome(bs) == Run(map[4 := 2, 3 := 2, 5 := 4, 6 := 5], [], true)
    ensures ShowsImage(map[4 := 2, 3 := 2, 5 := 4, 6 := 5], bs)
  {
    LowOutcome();
    var m: map<int, nat> := map[4 := 2, 3 := 2, 5 := 4, 6 := 5];
    forall x: U32 ensures (x in m <==> Holds(bs, x)) && (x in m ==> m[x] == ByteAt(bs, x)) {
      TwoBlocksHold(MemBlock(3, [2, 2]), MemBlock(5, [4, 5]), x);
    }
  }

  /** An image in page zero that is loaded although its bytes do not count. */
  lemma LowImage() returns (bs: seq<MemBlock>, m: map<int, nat>)
    ensures StrictlySorted(bs) && NoneEmpty(bs) && !AllCounting(bs)
    ensures Outcome(bs) == Run(m, [], true) && ShowsImage(m, bs)
  {
    bs, m := LOW_IMAGE, map[4 := 2, 3 := 2, 5 := 4, 6 := 5];
    assert bs[0] in bs && bs[0].bytes[0] == 2;
    LowImageIsShown(bs);
  }

  /** In page zero the bytes need not count: `LOW_IMAGE` is loaded.  The first loop ends early,
      a byte is taken for an address, and the bytes still end up where they belong. */
  lemma LowImageLoadsByAccident() returns (bs: seq<MemBlock>)
    ensures StrictlySorted(bs) && NoneEmpty(bs) && !AllCounting(bs)
    ensures ReadListing(ListingText(bs)).Some?
    ensures Loads(TwoLetters, ReadListing(ListingText(bs)).value, bs)
  {
    var m;
    bs, m := LowImage();
    FinishedImageLoads(bs, m);
  }

  lemma OverlappingTurn(e: seq<nat>)
    ensures LoadBlock(map[], 0x258, 3, [1, 1, 3] + e) == Run(map[0x258 := 1, 0x25A := 3], e, true)
  {
    var m: map<int, nat> := map[0x258 := 1];
    assert ([1, 1, 3] + e)[1..] == [1, 3] + e && ([1, 3] + e)[1..] == [3] + e && ([3] + e)[1..] == e;
    assert LoadBlock(m, 0x258, 3, [3] + e) == Run(m[0x25A := 3], e, true);
    assert m[0x258 := 1] == m;
    assert LoadBlock(m, 0x258, 3, [1, 3] + e) == Run(m[0x25A := 3], e, true);
  }

  lemma OverlappingOutcome()
    ensures Outcome(OVERLAPPING_IMAGE) == Run(map[0x258 := 1, 0x25A := 3, 0x259 := 1], [], true)
  {
    var e: seq<nat> := [0x259, 1, 1];
    var m: map<int, nat> := map[0x258 := 1, 0x25A := 3];
    assert OVERLAPPING_IMAGE[1..] == [MemBlock(0x259, [1])];
    assert BlocksData([MemBlock(0x259, [1])]) == e;
    assert BlocksData(OVERLAPPING_IMAGE) == [0x258, 3, 1, 1, 3] + e;
    assert ([0x258, 3, 1, 1, 3] + e)[2..] == [1, 1, 3] + e;
    OverlappingTurn(e);
    assert e[2..] == [1] && [1 as nat][1..] == [];
    assert LoadBlock(m, 0x259, 1, [1]) == Run(m[0x259 := 1], [], true);
    assert LoadBlocks(m, 1, e) == LoadBlock(m, 0x259, 1, [1]);
  }

  lemma OverlappingImageIsShown(bs: seq<MemBlock>)
    requires bs == OVERLAPPING_IMAGE
    ensures Outcome(bs) == Run(map[0x258 := 1, 0x25A := 3, 0x259 := 1], [], true)
    ensures ShowsImage(map[0x258 := 1, 0x25A := 3, 0x259 := 1], bs)
  {
    OverlappingOutcome();
    var m: map<int, nat> := map[0x258 := 1, 0x25A := 3, 0x259 := 1];
    forall x: U32 ensures (x in m <==> Holds(bs, x)) && (x in m ==> m[x] == ByteAt(bs, x)) {
      TwoBlocksHold(MemBlock(0x258, [1, 1, 3]), MemBlock(0x259, [1]), x);
    }
  }

  lemma OverlappingFacts(bs: seq<MemBlock>, p: Memory)
    requires bs == OVERLAPPING_IMAGE && p == map[0x258 := 1, 0x259 := 1, 0x25A := 3]
    ensures AllFaithful(bs, p) && NoneEmpty(bs) && !AllCounting(bs) && forall b :: b in bs ==> 0x200 <= b.start
  {
    assert bs[0] in bs && bs[0].bytes[1] == 1;
  }

  /** An image with overlapping blocks that is loaded although its bytes do not count. */
  lemma OverlappingImage() returns (bs: seq<MemBlock>, p: Memory, m: map<int, nat>)
    ensures AllFaithful(bs, p) && NoneEmpty(bs) && !AllCounting(bs) && forall b :: b in bs ==> 0x200 <= b.start
    ensures Outcome(bs) == Run(m, [], true) && ShowsImage(m, bs)
  {
    bs, m := OVERLAPPING_IMAGE, map[0x258 := 1, 0x25A := 3, 0x259 := 1];
    p := map[0x258 := 1, 0x259 := 1, 0x25A := 3];
    OverlappingFacts(bs, p);
    OverlappingImageIsShown(bs);
  }

  /** Neither need overlapping blocks count: `OVERLAPPING_IMAGE` is loaded.  The byte a block
      leaves out is poked by the block that overlaps it. */
  lemma OverlappingImageLoadsByAccident() returns (bs: seq<MemBlock>, p: Memory)
    ensures AllFaithful(bs, p) && NoneEmpty(bs) && !AllCounting(bs) && forall b :: b in bs ==> 0x200 <= b.start
    ensures ReadListing(ListingText(bs)).Some?
    ensures Loads(TwoLetters, ReadListing(ListingText(bs)).value, bs)
  {
    var m;
    bs, p, m := OverlappingImage();
    FinishedImageLoads(bs, m);
  }

  // ----- two blocks that fail -----

  /** A single `NOP`: its code, 0xEA, is poked 0xE9 addresses too far. */
  lemma SingleByteIsMisplaced(a: U32, v: Byte)
    requires 0 < v && a + v - 1 <= 0xFFFF
    ensures Outcome([MemBlock(a, [v])]) == Run(map[a + v - 1 := v], [], true)
  {
    OneBlockOutcome(MemBlock(a, [v]));
  }

  /** A single zero: the loop reads on until the data runs out. */
  lemma ZeroRunsOutOfData(a: U32)
    ensures ReadListing(ListingText([MemBlock(a, [0])])).Some?
    ensures !ReachesEnd(TwoLetters, ReadListing(ListingText([MemBlock(a, [0])])).value)
  {
    OneBlockEndsIffReached(MemBlock(a, [0]));
  }
}
