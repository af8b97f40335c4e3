/** Running the printed program on a BASIC that tells its six names apart: it pokes the image,
    all of it and nothing else. */
module BasicLoader {
  import opened Words
  import opened MemBlocks
  import opened BlockIndex
  import opened BasicText
  import opened BasicListing
  import opened BasicReader
  import opened BasicMachine

  function Full(v: Var): string {
    Cell(FullNames, v)
  }

  lemma NamesDiffer(v: Var, w: Var)
    ensures Full(v) == Full(w) <==> v == w
  {
    assert v != w && |Letters(v)| == |Letters(w)| ==> Letters(v)[0] != Letters(w)[0];
  }

  /** The value of a variable. */
  function Value(m: Machine, v: Var): nat {
    ValueIn(m.env, Full(v))
  }

  /** The loop of a variable. */
  ghost predicate InLoop(m: Machine, v: Var, body: nat, limit: nat) {
    Full(v) in m.loops && m.loops[Full(v)] == Loop(body, limit)
  }

  // ----- the byte loop -----

  /** Inside the byte loop: `i` bytes are done, the others are the next data. */
  ghost predicate AtByte(m: Machine, a: nat, i: nat, n: nat, bytes: seq<nat>, rest: seq<nat>) {
    && m.status.Running? && m.pc == 5 && i + |bytes| == n && bytes != []
    && Value(m, ADDR) == a && Value(m, BYI) == i + 1 && InLoop(m, BYI, 5, n)
    && m.data == bytes + rest
  }

  /** The block loop's own state survives the byte loop. */
  ghost predicate SameBlockLoop(m: Machine, m': Machine) {
    && Value(m', BI) == Value(m, BI)
    && Full(BI) in m.loops && Full(BI) in m'.loops && m'.loops[Full(BI)] == m.loops[Full(BI)]
  }

  lemma ReadByte(lines: seq<BasicLine>, m: Machine)
    requires IsLoader(lines) && m.status.Running? && m.pc == 5 && m.data != []
    ensures var m' := Step(FullNames, lines, m);
            && m' == m.(pc := 6, env := m'.env, data := m.data[1..])
            && Value(m', BYVL) == m.data[0] && Value(m', ADDR) == Value(m, ADDR)
            && Value(m', BYI) == Value(m, BYI) && Value(m', BI) == Value(m, BI)
  {
    NamesDiffer(BYVL, ADDR);
    NamesDiffer(BYVL, BYI);
    NamesDiffer(BYVL, BI);
  }

  lemma PokeByte(lines: seq<BasicLine>, m: Machine)
    requires IsLoader(lines) && m.status.Running? && m.pc == 6
    ensures var a, x := Value(m, ADDR) + Value(m, BYI) - 1, Value(m, BYVL);
            Step(FullNames, lines, m)
            == if Pokeable(a, x) then m.(pc := 7, memory := m.memory[a := x]) else m.(status := Failed)
  {
  }

  lemma NextByte(lines: seq<BasicLine>, m: Machine, n: nat)
    requires IsLoader(lines) && m.status.Running? && m.pc == 7 && InLoop(m, BYI, 5, n)
    ensures var m' := Step(FullNames, lines, m);
            && m' == m.(pc := if Value(m, BYI) + 1 <= n then 5 else 8, env := m'.env)
            && Value(m', BYI) == Value(m, BYI) + 1 && Value(m', ADDR) == Value(m, ADDR) && Value(m', BI) == Value(m, BI)
  {
    NamesDiffer(BYI, ADDR);
    NamesDiffer(BYI, BI);
  }

  lemma OneByte(lines: seq<BasicLine>, m: Machine, a: nat, i: nat, n: nat, bytes: seq<nat>, rest: seq<nat>)
    requires IsLoader(lines) && AtByte(m, a, i, n, bytes, rest) && Full(BI) in m.loops
    requires bytes[0] <= 0xFF && a + i <= 0xFFFF
    ensures var m' := Step(FullNames, lines, Step(FullNames, lines, Step(FullNames, lines, m)));
            && m'.memory == m.memory[a + i := bytes[0]] && SameBlockLoop(m, m')
            && if |bytes| > 1 then AtByte(m', a, i + 1, n, bytes[1..], rest)
               else m'.status.Running? && m'.pc == 8 && m'.data == rest
  {
    var m1 := Step(FullNames, lines, m);
    ReadByte(lines, m);
    assert m.data[0] == bytes[0] && m1.data == bytes[1..] + rest;
    PokeByte(lines, m1);
    NextByte(lines, Step(FullNames, lines, m1), n);
  }

  lemma ByteOutOfReach(lines: seq<BasicLine>, m: Machine, a: nat, i: nat, n: nat, bytes: seq<nat>, rest: seq<nat>)
    requires IsLoader(lines) && AtByte(m, a, i, n, bytes, rest) && a + i > 0xFFFF
    ensures Steps(FullNames, lines, m, 2).status == Failed
  {
    ReadByte(lines, m);
    PokeByte(lines, Step(FullNames, lines, m));
    FewSteps(FullNames, lines, m);
  }

  /** What the byte loop comes to, from a state with `bytes` to go. */
  ghost predicate Finished(m: Machine, m': Machine, a: nat, i: nat, n: nat, bytes: seq<nat>, rest: seq<nat>) {
    if a + n <= 0x1_0000 then
      && m'.status.Running? && m'.pc == 8 && m'.data == rest
      && m'.memory == Poked(m.memory, a + i, bytes) && SameBlockLoop(m, m')
    else m'.status == Failed
  }

  lemma LaterBytes(m: Machine, m3: Machine, m': Machine, a: nat, i: nat, n: nat, bytes: seq<nat>, rest: seq<nat>)
    requires bytes != [] && m3.memory == m.memory[a + i := bytes[0]] && SameBlockLoop(m, m3)
    requires Finished(m3, m', a, i + 1, n, bytes[1..], rest)
    ensures Finished(m, m', a, i, n, bytes, rest)
  {
  }

  /** The loop pokes all its bytes, or fails at the first address beyond 16 bits. */
  lemma {:induction false} ByteLoop(lines: seq<BasicLine>, m: Machine, a: nat, i: nat, n: nat,
                                    bytes: seq<nat>, rest: seq<nat>)
    returns (k: nat)
    requires IsLoader(lines) && AtByte(m, a, i, n, bytes, rest) && Full(BI) in m.loops
    requires forall j :: 0 <= j < |bytes| ==> bytes[j] <= 0xFF
    ensures Finished(m, Steps(FullNames, lines, m, k), a, i, n, bytes, rest)
    decreases |bytes|
  {
    if a + i > 0xFFFF {
      ByteOutOfReach(lines, m, a, i, n, bytes, rest);
      k := 2;
    } else {
      var m3 := Step(FullNames, lines, Step(FullNames, lines, Step(FullNames, lines, m)));
      OneByte(lines, m, a, i, n, bytes, rest);
      FewSteps(FullNames, lines, m);
      if |bytes| == 1 {
        k := 3;
      } else {
        var j := ByteLoop(lines, m3, a, i + 1, n, bytes[1..], rest);
        k := 3 + j;
        StepsAdd(FullNames, lines, m, 3, j);
        LaterBytes(m, m3, Steps(FullNames, lines, m, k), a, i, n, bytes, rest);
      }
    }
  }

  // ----- the block loop -----

  /** At the head of the block loop's body, with `i` of `n` blocks done. */
  ghost predicate AtBlock(m: Machine, i: nat, n: nat, bs: seq<MemBlock>) {
    && m.status.Running? && m.pc == 2 && i + |bs| == n && bs != []
    && Value(m, BI) == i + 1 && InLoop(m, BI, 2, n)
    && m.data == BlocksData(bs)
  }

  lemma ReadHead(lines: seq<BasicLine>, m: Machine, a: nat, n: nat, rest: seq<nat>)
    requires IsLoader(lines) && m.status.Running? && m.pc == 2 && m.data == [a, n] + rest
    ensures var m' := Step(FullNames, lines, Step(FullNames, lines, m));
            && m' == m.(pc := 4, env := m'.env, data := rest)
            && Value(m', ADDR) == a && Value(m', NBY) == n && Value(m', BI) == Value(m, BI)
  {
    NamesDiffer(ADDR, NBY);
    NamesDiffer(ADDR, BI);
    NamesDiffer(NBY, BI);
    var m1 := Step(FullNames, lines, m);
    assert m1.data == [n] + rest;
    assert m1.data[1..] == rest;
  }

  lemma StartBytes(lines: seq<BasicLine>, m: Machine)
    requires IsLoader(lines) && m.status.Running? && m.pc == 4
    ensures var m' := Step(FullNames, lines, m);
            && m' == m.(pc := 5, env := m'.env, loops := m.loops[Full(BYI) := Loop(5, Value(m, NBY))])
            && Value(m', BYI) == 1 && Value(m', ADDR) == Value(m, ADDR) && Value(m', BI) == Value(m, BI)
  {
    NamesDiffer(BYI, ADDR);
    NamesDiffer(BYI, BI);
  }

  lemma EnterBlock(lines: seq<BasicLine>, m: Machine, i: nat, n: nat, bs: seq<MemBlock>)
    requires IsLoader(lines) && AtBlock(m, i, n, bs) && bs[0].bytes != []
    ensures var m' := Steps(FullNames, lines, m, 3);
            && AtByte(m', bs[0].start, 0, |bs[0].bytes|, bs[0].bytes, BlocksData(bs[1..]))
            && m'.memory == m.memory && SameBlockLoop(m, m')
  {
    var bytes: seq<nat> := bs[0].bytes;
    var rest := BlocksData(bs[1..]);
    assert m.data == [bs[0].start as nat, |bytes|] + (bytes + rest);
    ReadHead(lines, m, bs[0].start, |bytes|, bytes + rest);
    StartBytes(lines, Step(FullNames, lines, Step(FullNames, lines, m)));
    FewSteps(FullNames, lines, m);
    NamesDiffer(BYI, BI);
  }

  lemma LeaveBlock(lines: seq<BasicLine>, m: Machine, i: nat, n: nat)
    requires IsLoader(lines) && m.status.Running? && m.pc == 8
    requires Value(m, BI) == i + 1 && InLoop(m, BI, 2, n)
    ensures var m' := Step(FullNames, lines, m);
            && m'.memory == m.memory && m'.data == m.data && m'.status.Running? && m'.loops == m.loops
            && Value(m', BI) == i + 2
            && m'.pc == if i + 2 <= n then 2 else 9
  {
  }

  /** From the head of the block loop's body to its NEXT. */
  lemma BlockBody(lines: seq<BasicLine>, m: Machine, i: nat, n: nat, bs: seq<MemBlock>) returns (k: nat)
    requires IsLoader(lines) && AtBlock(m, i, n, bs) && bs[0].bytes != []
    ensures var m' := Steps(FullNames, lines, m, k);
            if End(bs[0]) <= 0x1_0000 then
              && m'.status.Running? && m'.pc == 8 && m'.data == BlocksData(bs[1..])
              && m'.memory == Poked(m.memory, bs[0].start, bs[0].bytes) && SameBlockLoop(m, m')
            else m'.status == Failed
  {
    EnterBlock(lines, m, i, n, bs);
    var m3 := Steps(FullNames, lines, m, 3);
    var j := ByteLoop(lines, m3, bs[0].start, 0, |bs[0].bytes|, bs[0].bytes, BlocksData(bs[1..]));
    StepsAdd(FullNames, lines, m, 3, j);
    k := 3 + j;
  }

  lemma OneBlock(lines: seq<BasicLine>, m: Machine, i: nat, n: nat, bs: seq<MemBlock>) returns (k: nat)
    requires IsLoader(lines) && AtBlock(m, i, n, bs) && bs[0].bytes != []
    ensures var m' := Steps(FullNames, lines, m, k);
            if End(bs[0]) <= 0x1_0000 then
              && m'.memory == Poked(m.memory, bs[0].start, bs[0].bytes)
              && if |bs| > 1 then AtBlock(m', i + 1, n, bs[1..])
                 else m'.status.Running? && m'.pc == 9 && m'.data == []
            else m'.status == Failed
  {
    k := BlockBody(lines, m, i, n, bs);
    if End(bs[0]) <= 0x1_0000 {
      var m' := Steps(FullNames, lines, m, k);
      LeaveBlock(lines, m', i, n);
      FewSteps(FullNames, lines, m');
      StepsAdd(FullNames, lines, m, k, 1);
      k := k + 1;
    }
  }

  lemma EndStops(lines: seq<BasicLine>, m: Machine)
    requires IsLoader(lines) && m.status.Running? && m.pc == 9
    ensures Steps(FullNames, lines, m, 1) == m.(status := Stopped)
  {
    FewSteps(FullNames, lines, m);
  }

  lemma InReachTail(bs: seq<MemBlock>)
    requires bs != []
    ensures InReach(bs) <==> End(bs[0]) <= 0x1_0000 && InReach(bs[1..])
  {
    assert forall b :: b in bs <==> b == bs[0] || b in bs[1..];
  }

  lemma {:induction false} BlockLoop(lines: seq<BasicLine>, m: Machine, i: nat, n: nat, bs: seq<MemBlock>)
    returns (k: nat)
    requires IsLoader(lines) && AtBlock(m, i, n, bs) && NoneEmpty(bs)
    ensures var m' := Steps(FullNames, lines, m, k);
            if InReach(bs) then m'.status == Stopped && m'.memory == Loaded(m.memory, bs) && m'.data == []
            else m'.status == Failed
    decreases |bs|
  {
    assert bs[0] in bs;
    InReachTail(bs);
    k := OneBlock(lines, m, i, n, bs);
    var m1 := Steps(FullNames, lines, m, k);
    if End(bs[0]) > 0x1_0000 {
    } else if |bs| == 1 {
      assert bs[1..] == [];
      EndStops(lines, m1);
      StepsAdd(FullNames, lines, m, k, 1);
      k := k + 1;
    } else {
      var l := BlockLoop(lines, m1, i + 1, n, bs[1..]);
      StepsAdd(FullNames, lines, m, k, l);
      k := k + l;
    }
  }

  // ----- the whole program -----

  lemma StartLoader(lines: seq<BasicLine>, bs: seq<MemBlock>)
    requires IsLoader(lines) && DataOf(lines) == [|bs|] + BlocksData(bs)
    ensures var m := Steps(FullNames, lines, Boot(lines), 2);
            && m.status.Running? && m.pc == 2 && m.data == BlocksData(bs) && m.memory == map[]
            && (bs != [] ==> AtBlock(m, 0, |bs|, bs))
  {
    var m1 := Step(FullNames, lines, Boot(lines));
    assert m1.data == BlocksData(bs);
    FewSteps(FullNames, lines, Boot(lines));
  }

  lemma NothingToRead(lines: seq<BasicLine>, m: Machine)
    requires IsLoader(lines) && m.status.Running? && m.pc == 2 && m.data == []
    ensures Steps(FullNames, lines, m, 1).status == Failed
  {
    FewSteps(FullNames, lines, m);
  }

  /** The outcome for every image: without blocks the data runs out, with an address beyond 16
      bits a POKE fails, otherwise the program stops and all blocks are poked. */
  lemma LoaderOutcome(lines: seq<BasicLine>, bs: seq<MemBlock>) returns (k: nat)
    requires IsLoader(lines) && DataOf(lines) == [|bs|] + BlocksData(bs) && NoneEmpty(bs)
    ensures var m := Steps(FullNames, lines, Boot(lines), k);
            if bs != [] && InReach(bs) then m.status == Stopped && m.data == [] && m.memory == Loaded(map[], bs)
            else m.status == Failed
  {
    var m2 := Steps(FullNames, lines, Boot(lines), 2);
    StartLoader(lines, bs);
    if bs == [] {
      NothingToRead(lines, m2);
      k := 3;
      StepsAdd(FullNames, lines, Boot(lines), 2, 1);
    } else {
      var j := BlockLoop(lines, m2, 0, |bs|, bs);
      k := 2 + j;
      StepsAdd(FullNames, lines, Boot(lines), 2, j);
    }
  }

  /** On a BASIC with full-length names the printed program loads the image if and only if
      there is a block and all of them lie within the reach of POKE; and only then does it
      reach its END. */
  lemma LoaderLoadsTheImage(bs: seq<MemBlock>, p: Memory)
    requires NoneEmpty(bs) && AllFaithful(bs, p)
    ensures ReadListing(ListingText(bs)).Some?
    ensures var lines := ReadListing(ListingText(bs)).value;
            && (Loads(FullNames, lines, bs) <==> bs != [] && InReach(bs))
            && (ReachesEnd(FullNames, lines) <==> bs != [] && InReach(bs))
  {
    PrintedListingReadsBack(bs);
    ListingIsLoader(bs);
    DataOfListing(bs);
    var k := LoaderOutcome(Listing(bs), bs);
    StepsStayInWords(FullNames, Listing(bs), Boot(Listing(bs)), k);
    if bs != [] && InReach(bs) { LoadedShowsImage(bs, p, Loaded(map[], bs)); }
    OutcomeDecides(FullNames, Listing(bs), bs, k);
  }
}
