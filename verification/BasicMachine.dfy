/** A machine for the statements of the loader.  How many letters of a variable's name count
    depends on the dialect: on a Commodore the first two. */
module BasicMachine {
  import opened Words
  import opened MemBlocks
  import opened BlockIndex
  import opened BasicText
  import opened BasicListing
  import opened BasicReader

  datatype Dialect = FullNames | TwoLetters

  /** The cell a variable names. */
  function Cell(d: Dialect, v: Var): string {
    if d.TwoLetters? && |Letters(v)| > 2 then Letters(v)[..2] else Letters(v)
  }

  datatype Loop = Loop(body: nat, limit: nat)

  datatype Status = Running | Stopped | Failed

  datatype Machine = Machine(
    pc: nat,                  // index of the line to execute
    env: map<string, nat>,    // cells read 0 until they are set
    loops: map<string, Loop>,
    data: seq<nat>,           // what READ has not consumed yet
    memory: map<int, nat>,
    status: Status)

  function ValueIn(env: map<string, nat>, cell: string): nat {
    if cell in env then env[cell] else 0
  }

  /** What POKE accepts: an address of 16 bits, and a byte. */
  predicate Pokeable(a: int, value: nat) {
    0 <= a <= 0xFFFF && value <= 0xFF
  }

  function Step(d: Dialect, lines: seq<BasicLine>, m: Machine): Machine {
    if !m.status.Running? then m
    else if m.pc >= |lines| then m.(status := Stopped)
    else
      match lines[m.pc].stmt
      case Read(v) =>
        if m.data == [] then m.(status := Failed)
        else m.(pc := m.pc + 1, env := m.env[Cell(d, v) := m.data[0]], data := m.data[1..])
      case For(v, limit) =>
        m.(pc := m.pc + 1, env := m.env[Cell(d, v) := 1],
           loops := m.loops[Cell(d, v) := Loop(m.pc + 1, ValueIn(m.env, Cell(d, limit)))])
      case Poke(base, index, value) =>
        var a := ValueIn(m.env, Cell(d, base)) + ValueIn(m.env, Cell(d, index)) - 1;
        var x := ValueIn(m.env, Cell(d, value));
        if Pokeable(a, x) then m.(pc := m.pc + 1, memory := m.memory[a := x]) else m.(status := Failed)
      case Next(v) =>
        var cell := Cell(d, v);
        if cell !in m.loops then m.(status := Failed)
        else
          // the body has run at least once; the limit is checked here
          var count := ValueIn(m.env, cell) + 1;
          m.(pc := if count <= m.loops[cell].limit then m.loops[cell].body else m.pc + 1, env := m.env[cell := count])
      case Halt => m.(status := Stopped)
      case Rem => m.(pc := m.pc + 1)
      case Data(_) => m.(pc := m.pc + 1)
  }

  function Steps(d: Dialect, lines: seq<BasicLine>, m: Machine, n: nat): Machine
    decreases n
  {
    if n == 0 then m else Steps(d, lines, Step(d, lines, m), n - 1)
  }

  /** The DATA values of a program, in line order. */
  function DataOf(lines: seq<BasicLine>): seq<nat> {
    if lines == [] then []
    else (match lines[0].stmt case Data(vs) => vs case _ => []) + DataOf(lines[1..])
  }

  function Boot(lines: seq<BasicLine>): Machine {
    Machine(0, map[], map[], DataOf(lines), map[], Running)
  }

  // ----- what a program does -----

  /** Only addresses of 16 bits. */
  ghost predicate InWords(memory: map<int, nat>) {
    forall x :: x in memory ==> 0 <= x <= 0xFFFF
  }

  /** The poked memory is the image: the addresses the blocks hold, with the index's bytes. */
  ghost predicate ShowsImage(memory: map<int, nat>, bs: seq<MemBlock>) {
    && (forall x: U32 :: x in memory <==> Holds(bs, x))
    && (forall x: U32 :: x in memory ==> memory[x] == ByteAt(bs, x))
    && InWords(memory)
  }

  ghost predicate ReachesEnd(d: Dialect, lines: seq<BasicLine>) {
    exists k: nat :: Steps(d, lines, Boot(lines), k).status == Stopped
  }

  ghost predicate StopsWithImage(m: Machine, bs: seq<MemBlock>) {
    m.status == Stopped && ShowsImage(m.memory, bs)
  }

  /** The program runs to its end and leaves exactly the image. */
  ghost predicate Loads(d: Dialect, lines: seq<BasicLine>, bs: seq<MemBlock>) {
    exists k: nat :: StopsWithImage(Steps(d, lines, Boot(lines), k), bs)
  }

  /** No byte of the image lies beyond what POKE reaches. */
  ghost predicate InReach(bs: seq<MemBlock>) {
    forall b :: b in bs ==> End(b) <= 0x1_0000
  }

  // ----- running -----

  lemma {:induction false} StepsAdd(d: Dialect, lines: seq<BasicLine>, m: Machine, j: nat, k: nat)
    ensures Steps(d, lines, m, j + k) == Steps(d, lines, Steps(d, lines, m, j), k)
    decreases j
  {
    if j == 0 {
    } else {
      StepsAdd(d, lines, Step(d, lines, m), j - 1, k);
    }
  }

  lemma FewSteps(d: Dialect, lines: seq<BasicLine>, m: Machine)
    ensures Steps(d, lines, m, 1) == Step(d, lines, m)
    ensures Steps(d, lines, m, 2) == Step(d, lines, Step(d, lines, m))
    ensures Steps(d, lines, m, 3) == Step(d, lines, Step(d, lines, Step(d, lines, m)))
  {
    var m1 := Step(d, lines, m);
    var m2 := Step(d, lines, m1);
    assert Steps(d, lines, m2, 1) == Steps(d, lines, Step(d, lines, m2), 0);
    assert Steps(d, lines, m1, 2) == Steps(d, lines, m2, 1);
  }

  lemma {:induction false} HaltedStaysHalted(d: Dialect, lines: seq<BasicLine>, m: Machine, n: nat)
    requires !m.status.Running?
    ensures Steps(d, lines, m, n) == m
    decreases n
  {
    if n == 0 {
    } else {
      HaltedStaysHalted(d, lines, m, n - 1);
    }
  }

  lemma StepStaysInWords(d: Dialect, lines: seq<BasicLine>, m: Machine)
    requires InWords(m.memory)
    ensures InWords(Step(d, lines, m).memory)
  {
  }

  lemma {:induction false} StepsStayInWords(d: Dialect, lines: seq<BasicLine>, m: Machine, n: nat)
    requires InWords(m.memory)
    ensures InWords(Steps(d, lines, m, n).memory)
    decreases n
  {
    if n == 0 {
    } else {
      StepStaysInWords(d, lines, m);
      StepsStayInWords(d, lines, Step(d, lines, m), n - 1);
    }
  }

  /** Once halted, a run is over: it has one outcome. */
  lemma OneOutcome(d: Dialect, lines: seq<BasicLine>, m: Machine, j: nat, k: nat)
    requires !Steps(d, lines, m, j).status.Running? && !Steps(d, lines, m, k).status.Running?
    ensures Steps(d, lines, m, j) == Steps(d, lines, m, k)
  {
    if j <= k {
      StepsAdd(d, lines, m, j, k - j);
      HaltedStaysHalted(d, lines, Steps(d, lines, m, j), k - j);
    } else {
      StepsAdd(d, lines, m, k, j - k);
      HaltedStaysHalted(d, lines, Steps(d, lines, m, k), j - k);
    }
  }

  /** What a halted run says about the program. */
  lemma OutcomeDecides(d: Dialect, lines: seq<BasicLine>, bs: seq<MemBlock>, k: nat)
    requires !Steps(d, lines, Boot(lines), k).status.Running?
    ensures ReachesEnd(d, lines) <==> Steps(d, lines, Boot(lines), k).status == Stopped
    ensures Loads(d, lines, bs) <==> StopsWithImage(Steps(d, lines, Boot(lines), k), bs)
  {
    if j: nat :| Steps(d, lines, Boot(lines), j).status == Stopped { OneOutcome(d, lines, Boot(lines), j, k); }
    if j: nat :| StopsWithImage(Steps(d, lines, Boot(lines), j), bs) { OneOutcome(d, lines, Boot(lines), j, k); }
  }

  // ----- the data section -----

  lemma {:induction false} DataOfConcat(ls: seq<BasicLine>, more: seq<BasicLine>)
    ensures DataOf(ls + more) == DataOf(ls) + DataOf(more)
  {
    if ls == [] {
      assert ls + more == more;
    } else {
      assert (ls + more)[1..] == ls[1..] + more;
      DataOfConcat(ls[1..], more);
    }
  }

  lemma {:induction false} DataOfChunks(bytes: seq<Byte>, lineNr: nat)
    ensures DataOf(ChunkLines(bytes, lineNr)) == bytes
  {
    if bytes == [] {
    } else if |bytes| <= 4 {
      assert DataOf([BasicLine(lineNr, Data(bytes))]) == bytes + DataOf([]);
    } else {
      DataOfChunks(bytes[4..], lineNr + 10);
      DataOfConcat([BasicLine(lineNr, Data(bytes[..4]))], ChunkLines(bytes[4..], lineNr + 10));
      assert DataOf([BasicLine(lineNr, Data(bytes[..4]))]) == bytes[..4] + DataOf([]);
    }
  }

  function BlockData(b: MemBlock): seq<nat> {
    [b.start, |b.bytes|] + b.bytes
  }

  function BlocksData(bs: seq<MemBlock>): seq<nat> {
    if bs == [] then [] else BlockData(bs[0]) + BlocksData(bs[1..])
  }

  lemma DataOfRemAndData(rem: BasicLine, line: BasicLine, ls: seq<BasicLine>)
    requires rem.stmt.Rem? && line.stmt.Data?
    ensures DataOf([rem, line] + ls) == line.stmt.values + DataOf(ls)
  {
    assert ([rem, line] + ls)[1..] == [line] + ls;
    assert ([line] + ls)[1..] == ls;
  }

  lemma DataOfBlock(b: MemBlock, lineNr: nat)
    ensures DataOf(BlockLines(b, lineNr)) == BlockData(b)
  {
    DataOfChunks(b.bytes, lineNr + 20);
    var count := BasicLine(lineNr + 10, Data([b.start, |b.bytes|]));
    DataOfRemAndData(BasicLine(lineNr, Rem), count, ChunkLines(b.bytes, lineNr + 20));
  }

  lemma {:induction false} DataOfBlocks(bs: seq<MemBlock>, lineNr: nat)
    ensures DataOf(BlocksLines(bs, lineNr)) == BlocksData(bs)
  {
    if bs == [] {
    } else {
      var next := lineNr + 20 + 10 * DataLines(|bs[0].bytes|);
      DataOfBlock(bs[0], lineNr);
      DataOfBlocks(bs[1..], next);
      DataOfConcat(BlockLines(bs[0], lineNr), BlocksLines(bs[1..], next));
    }
  }

  lemma {:induction false} NoData(ls: seq<BasicLine>)
    requires forall l :: l in ls ==> !l.stmt.Data?
    ensures DataOf(ls) == []
  {
    if ls == [] {
    } else {
      NoData(ls[1..]);
    }
  }

  lemma LoaderHasNoData()
    ensures DataOf(LOADER) == []
  {
    NoData(LOADER);
  }

  lemma DataOfSection(bs: seq<MemBlock>)
    ensures DataOf(DataSection(bs)) == [|bs|] + BlocksData(bs)
  {
    DataOfBlocks(bs, 220);
    DataOfRemAndData(BasicLine(200, Rem), BasicLine(210, Data([|bs|])), BlocksLines(bs, 220));
  }

  lemma DataOfListing(bs: seq<MemBlock>)
    ensures DataOf(Listing(bs)) == [|bs|] + BlocksData(bs)
  {
    LoaderHasNoData();
    DataOfSection(bs);
    DataOfConcat(LOADER, DataSection(bs));
  }

  // ----- the loader -----

  /** The program starts with the loader's ten statements. */
  ghost predicate IsLoader(lines: seq<BasicLine>) {
    && |lines| >= 10
    && lines[0].stmt == Read(NB) && lines[1].stmt == For(BI, NB)
    && lines[2].stmt == Read(ADDR) && lines[3].stmt == Read(NBY)
    && lines[4].stmt == For(BYI, NBY) && lines[5].stmt == Read(BYVL)
    && lines[6].stmt == Poke(ADDR, BYI, BYVL) && lines[7].stmt == Next(BYI)
    && lines[8].stmt == Next(BI) && lines[9].stmt == Halt
  }

  lemma ListingIsLoader(bs: seq<MemBlock>)
    ensures IsLoader(Listing(bs))
  {
    assert forall i :: 0 <= i < 10 ==> Listing(bs)[i] == LOADER[i];
  }

  // ----- poking blocks -----

  function Poked(memory: map<int, nat>, a: nat, bytes: seq<nat>): map<int, nat>
    decreases |bytes|
  {
    if bytes == [] then memory else Poked(memory[a := bytes[0]], a + 1, bytes[1..])
  }

  function Loaded(memory: map<int, nat>, bs: seq<MemBlock>): map<int, nat>
    decreases |bs|
  {
    if bs == [] then memory else Loaded(Poked(memory, bs[0].start, bs[0].bytes), bs[1..])
  }

  lemma {:induction false} PokedAt(memory: map<int, nat>, a: nat, bytes: seq<nat>, x: int)
    ensures x in Poked(memory, a, bytes) <==> x in memory || a <= x < a + |bytes|
    ensures a <= x < a + |bytes| ==> Poked(memory, a, bytes)[x] == bytes[x - a]
    ensures x in memory && !(a <= x < a + |bytes|) ==> Poked(memory, a, bytes)[x] == memory[x]
    decreases |bytes|
  {
    if bytes == [] {
    } else {
      PokedAt(memory[a := bytes[0]], a + 1, bytes[1..], x);
    }
  }

  /** With faithful blocks it does not matter which of two overlapping blocks is poked last. */
  lemma {:induction false} LoadedAt(memory: map<int, nat>, bs: seq<MemBlock>, p: Memory, x: U32)
    requires AllFaithful(bs, p)
    requires x in memory ==> memory[x] == ByteOf(p, x)
    ensures x in Loaded(memory, bs) <==> x in memory || Holds(bs, x)
    ensures x in Loaded(memory, bs) ==> Loaded(memory, bs)[x] == ByteOf(p, x)
    decreases |bs|
  {
    if bs == [] {
    } else {
      var b := bs[0];
      assert Faithful(b, p);
      PokedAt(memory, b.start, b.bytes, x);
      LoadedAt(Poked(memory, b.start, b.bytes), bs[1..], p, x);
      if InBlock(b, x) { assert Holds(bs, x); } else { HoldsTail(bs, x); }
    }
  }

  lemma LoadedShowsImage(bs: seq<MemBlock>, p: Memory, memory: map<int, nat>)
    requires AllFaithful(bs, p) && memory == Loaded(map[], bs) && InWords(memory)
    ensures ShowsImage(memory, bs)
  {
    forall x: U32 ensures (x in memory <==> Holds(bs, x)) && (x in memory ==> memory[x] == ByteAt(bs, x)) {
      LoadedAt(map[], bs, p, x);
      FirstHolderAnswers(bs, p, x);
    }
  }
}
