/** Running the printed program on a Commodore, where the first two letters of a name count:
    `nby` is `nb`, which does no harm, and `byvl` is `byi`, which does.  The value that is read
    replaces the loop counter, so value v goes to the v-th address of the block, and the block
    ends with the first value that reaches its length. */
module CommodoreLoader {
  import opened MemBlocks
  import opened BasicText
  import opened BasicListing
  import opened BasicReader
  import opened BasicMachine

  function Short(v: Var): string {
    Cell(TwoLetters, v)
  }

  lemma ShortNames()
    ensures Short(NBY) == Short(NB) == "nb" && Short(BYVL) == Short(BYI) == "by"
    ensures Short(ADDR) == "ad" && Short(BI) == "bi"
  {
  }

  lemma CellsDiffer()
    ensures Short(NB) != Short(BI) && Short(NB) != Short(ADDR) && Short(NB) != Short(BYI)
    ensures Short(BI) != Short(ADDR) && Short(BI) != Short(BYI) && Short(ADDR) != Short(BYI)
  {
    assert Short(NB)[0] == 'n' && Short(BI)[1] == 'i' && Short(ADDR)[0] == 'a' && Short(BYI)[1] == 'y';
    assert Short(BI)[0] == 'b' && Short(BYI)[0] == 'b';
  }

  function Value(m: Machine, v: Var): nat {
    ValueIn(m.env, Short(v))
  }

  ghost predicate InLoop(m: Machine, v: Var, body: nat, limit: nat) {
    Short(v) in m.loops && m.loops[Short(v)] == Loop(body, limit)
  }

  // ----- what the loops compute -----

  datatype Run = Run(memory: map<int, nat>, data: seq<nat>, ok: bool)

  /** The byte loop: every value up to the first that reaches the length `n` is poked to the
      address it names itself. */
  function LoadBlock(memory: map<int, nat>, a: nat, n: nat, data: seq<nat>): Run
    decreases |data|
  {
    if data == [] then Run(memory, [], false)
    else
      var v := data[0];
      if !Pokeable(a + v - 1, v) then Run(memory, data[1..], false)
      else if v < n then LoadBlock(memory[a + v - 1 := v], a, n, data[1..])
      else Run(memory[a + v - 1 := v], data[1..], true)
  }

  /** The block loop, with `count` turns to go; it has at least one. */
  function LoadBlocks(memory: map<int, nat>, count: nat, data: seq<nat>): Run
    decreases count
  {
    if |data| < 2 then Run(memory, [], false)
    else
      var r := LoadBlock(memory, data[0], data[1], data[2..]);
      if !r.ok || count <= 1 then r else LoadBlocks(r.memory, count - 1, r.data)
  }

  // ----- the machine computes it -----

  ghost predicate AtByte(m: Machine, a: nat, n: nat) {
    m.status.Running? && m.pc == 5 && Value(m, ADDR) == a && InLoop(m, BYI, 5, n)
  }

  /** The block loop's own state survives the byte loop. */
  ghost predicate SameBlockLoop(m: Machine, m': Machine) {
    && Value(m', BI) == Value(m, BI)
    && Short(BI) in m.loops && Short(BI) in m'.loops && m'.loops[Short(BI)] == m.loops[Short(BI)]
  }

  lemma ReadByte(lines: seq<BasicLine>, m: Machine)
    requires IsLoader(lines) && m.status.Running? && m.pc == 5 && m.data != []
    ensures var m' := Step(TwoLetters, lines, m);
            && m' == m.(pc := 6, env := m'.env, data := m.data[1..])
            && Value(m', BYI) == m.data[0] && Value(m', ADDR) == Value(m, ADDR) && Value(m', BI) == Value(m, BI)
  {
    ShortNames();
    CellsDiffer();
  }

  lemma PokeByte(lines: seq<BasicLine>, m: Machine)
    requires IsLoader(lines) && m.status.Running? && m.pc == 6
    ensures var v := Value(m, BYI);
            var a := Value(m, ADDR) + v - 1;
            Step(TwoLetters, lines, m)
            == if Pokeable(a, v) then m.(pc := 7, memory := m.memory[a := v]) else m.(status := Failed)
  {
    ShortNames();
  }

  lemma NextByte(lines: seq<BasicLine>, m: Machine, n: nat)
    requires IsLoader(lines) && m.status.Running? && m.pc == 7 && InLoop(m, BYI, 5, n)
    ensures var m' := Step(TwoLetters, lines, m);
            && m' == m.(pc := if Value(m, BYI) < n then 5 else 8, env := m'.env)
            && Value(m', ADDR) == Value(m, ADDR) && Value(m', BI) == Value(m, BI)
  {
    CellsDiffer();
  }

  lemma NoByte(lines: seq<BasicLine>, m: Machine)
    requires IsLoader(lines) && m.status.Running? && m.pc == 5 && m.data == []
    ensures Steps(TwoLetters, lines, m, 1) == m.(status := Failed)
  {
    FewSteps(TwoLetters, lines, m);
  }

  lemma BadByte(lines: seq<BasicLine>, m: Machine, a: nat, n: nat)
    requires IsLoader(lines) && AtByte(m, a, n) && m.data != [] && !Pokeable(a + m.data[0] - 1, m.data[0])
    ensures var m' := Steps(TwoLetters, lines, m, 2);
            m'.status == Failed && m'.memory == m.memory
  {
    ReadByte(lines, m);
    PokeByte(lines, Step(TwoLetters, lines, m));
    FewSteps(TwoLetters, lines, m);
  }

  lemma OneByte(lines: seq<BasicLine>, m: Machine, a: nat, n: nat)
    requires IsLoader(lines) && AtByte(m, a, n) && m.data != [] && Pokeable(a + m.data[0] - 1, m.data[0])
    requires Short(BI) in m.loops
    ensures var v, m' := m.data[0], Steps(TwoLetters, lines, m, 3);
            && m'.memory == m.memory[a + v - 1 := v] && m'.data == m.data[1..] && SameBlockLoop(m, m')
            && if v < n then AtByte(m', a, n) else m'.status.Running? && m'.pc == 8
  {
    var m1 := Step(TwoLetters, lines, m);
    var m2 := Step(TwoLetters, lines, m1);
    ReadByte(lines, m);
    PokeByte(lines, m1);
    NextByte(lines, m2, n);
    FewSteps(TwoLetters, lines, m);
  }

  /** The loop has finished as `r` says, at its NEXT or with a failure. */
  ghost predicate Finished(m: Machine, m': Machine, r: Run, pc: nat) {
    && m'.memory == r.memory
    && if r.ok then m'.status.Running? && m'.pc == pc && m'.data == r.data && SameBlockLoop(m, m')
       else m'.status == Failed
  }

  lemma LaterBytes(lines: seq<BasicLine>, m: Machine, j: nat, k: nat, r: Run)
    requires Short(BI) in m.loops && SameBlockLoop(m, Steps(TwoLetters, lines, m, j))
    requires Finished(Steps(TwoLetters, lines, m, j), Steps(TwoLetters, lines, Steps(TwoLetters, lines, m, j), k), r, 8)
    ensures Finished(m, Steps(TwoLetters, lines, m, j + k), r, 8)
  {
    StepsAdd(TwoLetters, lines, m, j, k);
  }

  predicate GoesOn(data: seq<nat>, a: nat, n: nat) {
    data != [] && Pokeable(a + data[0] - 1, data[0]) && data[0] < n
  }

  lemma LastByte(lines: seq<BasicLine>, m: Machine, a: nat, n: nat) returns (k: nat)
    requires IsLoader(lines) && AtByte(m, a, n) && Short(BI) in m.loops && !GoesOn(m.data, a, n)
    ensures Finished(m, Steps(TwoLetters, lines, m, k), LoadBlock(m.memory, a, n, m.data), 8)
  {
    if m.data == [] {
      NoByte(lines, m);
      k := 1;
    } else if !Pokeable(a + m.data[0] - 1, m.data[0]) {
      BadByte(lines, m, a, n);
      k := 2;
    } else {
      OneByte(lines, m, a, n);
      k := 3;
    }
  }

  lemma OneMoreByte(lines: seq<BasicLine>, m: Machine, a: nat, n: nat)
    requires IsLoader(lines) && AtByte(m, a, n) && Short(BI) in m.loops && GoesOn(m.data, a, n)
    ensures var m' := Steps(TwoLetters, lines, m, 3);
            && AtByte(m', a, n) && |m'.data| < |m.data| && SameBlockLoop(m, m')
            && LoadBlock(m.memory, a, n, m.data) == LoadBlock(m'.memory, a, n, m'.data)
  {
    OneByte(lines, m, a, n);
  }

  lemma {:induction false} ByteLoop(lines: seq<BasicLine>, m: Machine, a: nat, n: nat) returns (k: nat)
    requires IsLoader(lines) && AtByte(m, a, n) && Short(BI) in m.loops
    ensures Finished(m, Steps(TwoLetters, lines, m, k), LoadBlock(m.memory, a, n, m.data), 8)
    decreases |m.data|
  {
    if GoesOn(m.data, a, n) {
      OneMoreByte(lines, m, a, n);
      var m3 := Steps(TwoLetters, lines, m, 3);
      var j := ByteLoop(lines, m3, a, n);
      LaterBytes(lines, m, 3, j, LoadBlock(m3.memory, a, n, m3.data));
      k := 3 + j;
    } else {
      k := LastByte(lines, m, a, n);
    }
  }

  ghost predicate AtBlock(m: Machine, i: nat, n: nat) {
    m.status.Running? && m.pc == 2 && Value(m, BI) == i && InLoop(m, BI, 2, n)
  }

  lemma NoHead(lines: seq<BasicLine>, m: Machine)
    requires IsLoader(lines) && m.status.Running? && m.pc == 2 && |m.data| < 2
    ensures var m' := Steps(TwoLetters, lines, m, 2);
            m'.status == Failed && m'.memory == m.memory
  {
    FewSteps(TwoLetters, lines, m);
  }

  lemma EnterBlock(lines: seq<BasicLine>, m: Machine)
    requires IsLoader(lines) && m.status.Running? && m.pc == 2 && |m.data| >= 2 && Short(BI) in m.loops
    ensures var m' := Steps(TwoLetters, lines, m, 3);
            AtByte(m', m.data[0], m.data[1]) && m'.data == m.data[2..] && m'.memory == m.memory && SameBlockLoop(m, m')
  {
    ShortNames();
    CellsDiffer();
    FewSteps(TwoLetters, lines, m);
    assert m.data[1..][1..] == m.data[2..];
  }

  lemma LeaveBlock(lines: seq<BasicLine>, m: Machine, i: nat, n: nat)
    requires IsLoader(lines) && m.status.Running? && m.pc == 8 && Value(m, BI) == i && InLoop(m, BI, 2, n)
    ensures var m' := Steps(TwoLetters, lines, m, 1);
            && m'.memory == m.memory && m'.data == m.data && m'.status.Running?
            && if i + 1 <= n then AtBlock(m', i + 1, n) else m'.pc == 9
  {
    FewSteps(TwoLetters, lines, m);
  }

  lemma OneBlock(lines: seq<BasicLine>, m: Machine, i: nat, n: nat) returns (k: nat)
    requires IsLoader(lines) && AtBlock(m, i, n) && |m.data| >= 2
    ensures var r, m' := LoadBlock(m.memory, m.data[0], m.data[1], m.data[2..]), Steps(TwoLetters, lines, m, k);
            && m'.memory == r.memory
            && if !r.ok then m'.status == Failed
               else m'.status.Running? && m'.data == r.data && if i + 1 <= n then AtBlock(m', i + 1, n) else m'.pc == 9
  {
    var m3 := Steps(TwoLetters, lines, m, 3);
    EnterBlock(lines, m);
    k := ByteLoop(lines, m3, m.data[0], m.data[1]);
    StepsAdd(TwoLetters, lines, m, 3, k);
    k := 3 + k;
    var m' := Steps(TwoLetters, lines, m, k);
    if m'.status.Running? {
      LeaveBlock(lines, m', i, n);
      StepsAdd(TwoLetters, lines, m, k, 1);
      k := k + 1;
    }
  }

  lemma {:induction false} BlockLoop(lines: seq<BasicLine>, m: Machine, i: nat, n: nat) returns (k: nat)
    requires IsLoader(lines) && AtBlock(m, i, n)
    ensures var r, m' := LoadBlocks(m.memory, if i < n then n - i + 1 else 1, m.data), Steps(TwoLetters, lines, m, k);
            m'.memory == r.memory && m'.status == if r.ok then Stopped else Failed
    decreases if i < n then n - i else 0
  {
    if |m.data| < 2 {
      NoHead(lines, m);
      k := 2;
    } else {
      k := OneBlock(lines, m, i, n);
      var m' := Steps(TwoLetters, lines, m, k);
      if m'.status.Running? {
        if i < n {
          var j := BlockLoop(lines, m', i + 1, n);
          StepsAdd(TwoLetters, lines, m, k, j);
          k := k + j;
        } else {
          FewSteps(TwoLetters, lines, m');
          StepsAdd(TwoLetters, lines, m, k, 1);
          k := k + 1;
        }
      }
    }
  }

  /** What the program makes of an image. */
  function Outcome(bs: seq<MemBlock>): Run {
    LoadBlocks(map[], if bs == [] then 1 else |bs|, BlocksData(bs))
  }

  lemma StartLoader(lines: seq<BasicLine>, bs: seq<MemBlock>)
    requires IsLoader(lines) && DataOf(lines) == [|bs|] + BlocksData(bs)
    ensures var m := Steps(TwoLetters, lines, Boot(lines), 2);
            AtBlock(m, 1, |bs|) && m.data == BlocksData(bs) && m.memory == map[]
  {
    CellsDiffer();
    FewSteps(TwoLetters, lines, Boot(lines));
    assert Step(TwoLetters, lines, Boot(lines)).data == BlocksData(bs);
  }

  lemma ProgramOutcome(lines: seq<BasicLine>, bs: seq<MemBlock>) returns (k: nat)
    requires IsLoader(lines) && DataOf(lines) == [|bs|] + BlocksData(bs)
    ensures var m := Steps(TwoLetters, lines, Boot(lines), k);
            m.memory == Outcome(bs).memory && m.status == if Outcome(bs).ok then Stopped else Failed
  {
    var m2 := Steps(TwoLetters, lines, Boot(lines), 2);
    StartLoader(lines, bs);
    k := BlockLoop(lines, m2, 1, |bs|);
    StepsAdd(TwoLetters, lines, Boot(lines), 2, k);
    k := 2 + k;
  }

  /** The printed program on a Commodore, for every image: it leaves what the two loops leave,
      reaches its END if and only if they finish, and loads the image if and only if that is
      what they leave. */
  lemma CommodoreOutcome(bs: seq<MemBlock>) returns (k: nat)
    ensures ReadListing(ListingText(bs)).Some?
    ensures var lines := ReadListing(ListingText(bs)).value;
            var m := Steps(TwoLetters, lines, Boot(lines), k);
            && m.memory == Outcome(bs).memory && m.status == (if Outcome(bs).ok then Stopped else Failed)
            && (ReachesEnd(TwoLetters, lines) <==> Outcome(bs).ok)
            && (Loads(TwoLetters, lines, bs) <==> Outcome(bs).ok && ShowsImage(Outcome(bs).memory, bs))
  {
    PrintedListingReadsBack(bs);
    ListingIsLoader(bs);
    DataOfListing(bs);
    k := ProgramOutcome(Listing(bs), bs);
    OutcomeDecides(TwoLetters, Listing(bs), bs, k);
  }
}
