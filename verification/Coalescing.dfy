/** How the block builder cuts the memory: into maximal stretches of code lines that follow each
    other without a gap, no more and no fewer blocks than there are such stretches. */
module Coalescing {
  import opened Words
  import opened OnePass
  import opened MemBlocks

  // ----- stretches -----

  /** Line `k` starts exactly where the line before it ends. */
  predicate Meets(cs: seq<CodeLine>, k: nat)
    requires 0 < k < |cs|
  {
    cs[k].start == (cs[k - 1].start + cs[k - 1].length) % 0x1_0000_0000
  }

  /** From line `i` to line `j` every line starts where the one before it ends. */
  ghost predicate Unbroken(cs: seq<CodeLine>, i: nat, j: nat)
    requires j < |cs|
  {
    forall k :: i < k <= j ==> Meets(cs, k)
  }

  predicate HasBytes(cs: seq<CodeLine>, i: nat) {
    i < |cs| && cs[i].length > 0
  }

  /** The first line with bytes of its stretch. */
  ghost predicate Opens(cs: seq<CodeLine>, i: nat) {
    HasBytes(cs, i) && forall j :: 0 <= j < i && HasBytes(cs, j) ==> !Unbroken(cs, j, i)
  }

  ghost function Openings(cs: seq<CodeLine>): set<nat> {
    set i: nat | i < |cs| && Opens(cs, i)
  }

  /** How many stretches have bytes. */
  ghost function Stretches(cs: seq<CodeLine>): nat {
    |Openings(cs)|
  }

  lemma UnbrokenFront(cs: seq<CodeLine>, c: CodeLine, i: nat, j: nat)
    requires j < |cs|
    ensures Unbroken(cs + [c], i, j) <==> Unbroken(cs, i, j)
  {
    forall k | i < k <= j ensures Meets(cs + [c], k) <==> Meets(cs, k) {
      assert (cs + [c])[k] == cs[k] && (cs + [c])[k - 1] == cs[k - 1];
    }
  }

  lemma UnbrokenNext(cs: seq<CodeLine>, c: CodeLine, i: nat)
    requires i < |cs|
    ensures Unbroken(cs + [c], i, |cs|) <==> Unbroken(cs, i, |cs| - 1) && Meets(cs + [c], |cs|)
  {
    UnbrokenFront(cs, c, i, |cs| - 1);
  }

  lemma OpensFront(cs: seq<CodeLine>, c: CodeLine, i: nat)
    requires i < |cs|
    ensures Opens(cs + [c], i) <==> Opens(cs, i)
  {
    forall j | 0 <= j < i ensures Unbroken(cs + [c], j, i) <==> Unbroken(cs, j, i) { UnbrokenFront(cs, c, j, i); }
    assert forall j :: 0 <= j <= i ==> (cs + [c])[j] == cs[j];
  }

  lemma StretchesNext(cs: seq<CodeLine>, c: CodeLine)
    ensures Stretches(cs + [c]) == Stretches(cs) + if Opens(cs + [c], |cs|) then 1 else 0
  {
    var before, after := Openings(cs), Openings(cs + [c]);
    forall i: nat | i < |cs| ensures Opens(cs + [c], i) <==> Opens(cs, i) { OpensFront(cs, c, i); }
    assert after == before + if Opens(cs + [c], |cs|) then {|cs|} else {};
  }

  /** Lines `i` and `j` are the first and the last one with bytes. */
  ghost predicate FirstAndLast(cs: seq<CodeLine>, i: nat, j: nat) {
    i <= j && HasBytes(cs, i) && HasBytes(cs, j) && forall k: nat :: HasBytes(cs, k) ==> i <= k <= j
  }

  lemma {:induction false} ReachedFromFirst(cs: seq<CodeLine>, i: nat, j: nat, k: nat)
    requires FirstAndLast(cs, i, j) && Openings(cs) == {i} && HasBytes(cs, k)
    ensures Unbroken(cs, i, k)
  {
    if i < k {
      assert k !in Openings(cs);
      var l: nat :| l < k && HasBytes(cs, l) && Unbroken(cs, l, k);
      ReachedFromFirst(cs, i, j, l);
    }
  }

  lemma OnlyMember(s: set<nat>, i: nat)
    requires i in s
    ensures |s| == 1 <==> s == {i}
  {
    assert s == {i} + (s - {i});
  }

  /** There is one stretch if and only if no gap lies between the first and the last byte. */
  lemma OneStretchIffUnbroken(cs: seq<CodeLine>, i: nat, j: nat)
    requires FirstAndLast(cs, i, j)
    ensures Stretches(cs) == 1 <==> Unbroken(cs, i, j)
  {
    assert Opens(cs, i);
    OnlyMember(Openings(cs), i);
    if Openings(cs) == {i} { ReachedFromFirst(cs, i, j, j); }
    if Unbroken(cs, i, j) {
      forall k | k in Openings(cs) ensures k == i { assert Unbroken(cs, i, k); }
      assert Openings(cs) == {i};
    }
  }

  // ----- what the builder keeps -----

  /** The block has the line's bytes, at the place of the line's address. */
  ghost predicate HasLineAt(b: MemBlock, c: CodeLine, p: Memory, at: nat) {
    && at + c.length <= |b.bytes| && b.bytes[at..at + c.length] == LineBytes(p, c)
    && (b.start + at) % 0x1_0000_0000 == c.start
  }

  ghost predicate HasLine(b: MemBlock, c: CodeLine, p: Memory) {
    exists at: nat :: HasLineAt(b, c, p, at)
  }

  ghost predicate AllHoused(made: seq<MemBlock>, cs: seq<CodeLine>, p: Memory, home: seq<nat>)
    requires |home| == |cs|
  {
    forall i: nat :: HasBytes(cs, i) ==> home[i] < |made| && HasLine(made[home[i]], cs[i], p)
  }

  ghost predicate HomesAreStretches(cs: seq<CodeLine>, home: seq<nat>)
    requires |home| == |cs|
  {
    forall i: nat, j: nat :: i <= j && HasBytes(cs, i) && HasBytes(cs, j) ==>
      (home[i] == home[j] <==> Unbroken(cs, i, j))
  }

  /** Where each line with bytes has gone: two of them to the same block if and only if no gap
      lies between them. */
  ghost predicate Housed(made: seq<MemBlock>, cs: seq<CodeLine>, p: Memory, home: seq<nat>) {
    |home| == |cs| && AllHoused(made, cs, p, home) && HomesAreStretches(cs, home)
  }

  /** The lines at home in `h` are those that reach up to line `n`. */
  ghost predicate ReachInto(cs: seq<CodeLine>, home: seq<nat>, h: nat, n: nat)
    requires |home| <= |cs| && n < |cs|
  {
    forall i: nat :: i < |home| && HasBytes(cs, i) ==> (home[i] == h <==> Unbroken(cs, i, n))
  }

  ghost predicate SomeReach(cs: seq<CodeLine>) {
    exists i: nat :: HasBytes(cs, i) && Unbroken(cs, i, |cs| - 1)
  }

  /** The open block ends where the last line ends, and has the lines that reach up to it. */
  ghost predicate OpenBlock(b: Building, cs: seq<CodeLine>, home: seq<nat>) {
    && |home| == |cs|
    && (cs != [] ==>
          && Wrap(b.address + |b.bytes|) == Wrap(cs[|cs| - 1].start + cs[|cs| - 1].length)
          && ReachInto(cs, home, |b.done|, |cs| - 1))
    && (b.bytes != [] <==> SomeReach(cs))
  }

  lemma AdjacentIffMeets(cs: seq<CodeLine>, c: CodeLine)
    ensures AreAdjacent(LastOf(cs), c) <==> cs != [] && Meets(cs + [c], |cs|)
  {
  }

  lemma LineAtEnd(b: MemBlock, c: CodeLine, p: Memory, bytes: seq<Byte>)
    requires b.bytes == bytes + LineBytes(p, c) && Wrap(b.start + |bytes|) == c.start
    ensures HasLine(b, c, p)
  {
    assert HasLineAt(b, c, p, |bytes|);
  }

  lemma LongerHasLine(b: MemBlock, more: seq<Byte>, c: CodeLine, p: Memory)
    requires HasLine(b, c, p)
    ensures HasLine(MemBlock(b.start, b.bytes + more), c, p)
  {
    var at: nat :| HasLineAt(b, c, p, at);
    assert (b.bytes + more)[at..at + c.length] == b.bytes[at..at + c.length];
    assert HasLineAt(MemBlock(b.start, b.bytes + more), c, p, at);
  }

  // ----- one more line -----

  /** The builder after the lines, and where they have gone. */
  ghost predicate Built(b: Building, cs: seq<CodeLine>, p: Memory, home: seq<nat>) {
    Housed(Flushed(b), cs, p, home) && OpenBlock(b, cs, home) && |Flushed(b)| == Stretches(cs)
  }

  lemma HomesNext(cs: seq<CodeLine>, c: CodeLine, home: seq<nat>, h: nat)
    requires |home| == |cs| && HomesAreStretches(cs, home) && ReachInto(cs + [c], home, h, |cs|)
    ensures HomesAreStretches(cs + [c], home + [h])
  {
    var after, homes := cs + [c], home + [h];
    forall i: nat, j: nat | i <= j && HasBytes(after, i) && HasBytes(after, j)
      ensures homes[i] == homes[j] <==> Unbroken(after, i, j)
    {
      if j < |cs| {
        assert HasBytes(cs, i) && HasBytes(cs, j);
        UnbrokenFront(cs, c, i, j);
      }
    }
  }

  lemma ReachNext(cs: seq<CodeLine>, c: CodeLine, home: seq<nat>, h: nat)
    requires |home| == |cs| && cs != [] && Meets(cs + [c], |cs|) && ReachInto(cs, home, h, |cs| - 1)
    ensures ReachInto(cs + [c], home, h, |cs|)
  {
    forall i: nat | i < |home| && HasBytes(cs + [c], i) ensures home[i] == h <==> Unbroken(cs + [c], i, |cs|) {
      assert HasBytes(cs, i);
      UnbrokenNext(cs, c, i);
    }
  }

  lemma NoneReachOver(cs: seq<CodeLine>, c: CodeLine, home: seq<nat>, h: nat)
    requires |home| == |cs| && !(cs != [] && Meets(cs + [c], |cs|))
    requires forall i: nat :: HasBytes(cs, i) ==> home[i] < h
    ensures ReachInto(cs + [c], home, h, |cs|)
  {
    forall i: nat | i < |home| && HasBytes(cs + [c], i) ensures home[i] == h <==> Unbroken(cs + [c], i, |cs|) {
      assert HasBytes(cs, i);
      UnbrokenNext(cs, c, i);
    }
  }

  lemma JoinedLinesAreHoused(b: Building, cs: seq<CodeLine>, c: CodeLine, p: Memory, home: seq<nat>)
    requires |home| == |cs| && AllHoused(Flushed(b), cs, p, home) && OpenBlock(b, cs, home)
    requires AreAdjacent(LastOf(cs), c)
    ensures AllHoused(Flushed(Extended(b, LastOf(cs), c, p)), cs + [c], p, home + [|b.done|])
  {
    var e, after, homes := Extended(b, LastOf(cs), c, p), cs + [c], home + [|b.done|];
    forall i: nat | HasBytes(after, i)
      ensures homes[i] < |Flushed(e)| && HasLine(Flushed(e)[homes[i]], after[i], p)
    {
      if i == |cs| {
        LineAtEnd(MemBlock(e.address, e.bytes), c, p, b.bytes);
      } else {
        assert HasBytes(cs, i);
        if home[i] == |b.done| { LongerHasLine(MemBlock(b.address, b.bytes), LineBytes(p, c), cs[i], p); }
      }
    }
  }

  lemma SeparateLinesAreHoused(b: Building, cs: seq<CodeLine>, c: CodeLine, p: Memory, home: seq<nat>)
    requires |home| == |cs| && AllHoused(Flushed(b), cs, p, home) && !AreAdjacent(LastOf(cs), c)
    ensures AllHoused(Flushed(Extended(b, LastOf(cs), c, p)), cs + [c], p, home + [|Flushed(b)|])
  {
    var e, after, homes := Extended(b, LastOf(cs), c, p), cs + [c], home + [|Flushed(b)|];
    forall i: nat | HasBytes(after, i)
      ensures homes[i] < |Flushed(e)| && HasLine(Flushed(e)[homes[i]], after[i], p)
    {
      if i == |cs| {
        assert [] + LineBytes(p, c) == LineBytes(p, c);
        LineAtEnd(MemBlock(e.address, e.bytes), c, p, []);
      } else {
        assert HasBytes(cs, i);
      }
    }
  }

  lemma EndsMeet(b: Building, cs: seq<CodeLine>, c: CodeLine)
    requires AreAdjacent(LastOf(cs), c)
    requires Wrap(b.address + |b.bytes|) == Wrap(cs[|cs| - 1].start + cs[|cs| - 1].length)
    ensures Wrap(b.address + (|b.bytes| + c.length)) == Wrap(c.start + c.length)
  {
    WrapAbsorbs(b.address + |b.bytes|, c.length);
  }

  lemma SomeReachNext(cs: seq<CodeLine>, c: CodeLine)
    ensures SomeReach(cs + [c]) <==> c.length > 0 || (cs != [] && Meets(cs + [c], |cs|) && SomeReach(cs))
    ensures Opens(cs + [c], |cs|) <==> c.length > 0 && !(cs != [] && Meets(cs + [c], |cs|) && SomeReach(cs))
  {
    var after := cs + [c];
    forall i: nat | i < |cs|
      ensures HasBytes(after, i) <==> HasBytes(cs, i)
      ensures Unbroken(after, i, |cs|) <==> Unbroken(cs, i, |cs| - 1) && Meets(after, |cs|)
    {
      UnbrokenNext(cs, c, i);
    }
    if c.length > 0 { assert HasBytes(after, |cs|) && Unbroken(after, |cs|, |cs|); }
  }

  lemma ExtendedEnd(b: Building, cs: seq<CodeLine>, c: CodeLine, p: Memory, home: seq<nat>)
    requires OpenBlock(b, cs, home)
    ensures var e := Extended(b, LastOf(cs), c, p);
            && Wrap(e.address + |e.bytes|) == Wrap(c.start + c.length)
            && (e.bytes != [] <==> SomeReach(cs + [c]))
            && |Flushed(e)| == |Flushed(b)| + if Opens(cs + [c], |cs|) then 1 else 0
  {
    AdjacentIffMeets(cs, c);
    SomeReachNext(cs, c);
    if AreAdjacent(LastOf(cs), c) { EndsMeet(b, cs, c); }
  }

  lemma ReachIncludesLast(cs: seq<CodeLine>, c: CodeLine, home: seq<nat>, h: nat)
    requires |home| == |cs| && ReachInto(cs + [c], home, h, |cs|)
    ensures ReachInto(cs + [c], home + [h], h, |cs|)
  {
    assert Unbroken(cs + [c], |cs|, |cs|);
  }

  lemma NextHomes(b: Building, cs: seq<CodeLine>, c: CodeLine, p: Memory, home: seq<nat>)
    requires Housed(Flushed(b), cs, p, home) && OpenBlock(b, cs, home)
    ensures var e := Extended(b, LastOf(cs), c, p);
            ReachInto(cs + [c], home, |e.done|, |cs|) && AllHoused(Flushed(e), cs + [c], p, home + [|e.done|])
  {
    AdjacentIffMeets(cs, c);
    if AreAdjacent(LastOf(cs), c) {
      ReachNext(cs, c, home, |b.done|);
      JoinedLinesAreHoused(b, cs, c, p, home);
    } else {
      NoneReachOver(cs, c, home, |Flushed(b)|);
      SeparateLinesAreHoused(b, cs, c, p, home);
    }
  }

  lemma ExtendedStaysOpen(b: Building, cs: seq<CodeLine>, c: CodeLine, p: Memory, home: seq<nat>)
    requires OpenBlock(b, cs, home)
    requires ReachInto(cs + [c], home, |Extended(b, LastOf(cs), c, p).done|, |cs|)
    ensures var e := Extended(b, LastOf(cs), c, p); OpenBlock(e, cs + [c], home + [|e.done|])
  {
    ReachIncludesLast(cs, c, home, |Extended(b, LastOf(cs), c, p).done|);
    ExtendedEnd(b, cs, c, p, home);
  }

  lemma NextLineIsBuilt(b: Building, cs: seq<CodeLine>, c: CodeLine, p: Memory, home: seq<nat>)
    requires Built(b, cs, p, home)
    ensures var e := Extended(b, LastOf(cs), c, p); Built(e, cs + [c], p, home + [|e.done|])
  {
    var e := Extended(b, LastOf(cs), c, p);
    NextHomes(b, cs, c, p, home);
    HomesNext(cs, c, home, |e.done|);
    ExtendedStaysOpen(b, cs, c, p, home);
    ExtendedEnd(b, cs, c, p, home);
    StretchesNext(cs, c);
  }

  lemma NothingIsBuilt(p: Memory)
    ensures Built(Build([], p), [], p, [])
  {
    assert Openings([]) == {};
  }

  lemma LineIsBuilt(front: seq<CodeLine>, c: CodeLine, p: Memory, before: seq<nat>) returns (home: seq<nat>)
    requires Built(Build(front, p), front, p, before)
    ensures Built(Build(front + [c], p), front + [c], p, home)
  {
    var cs := front + [c];
    assert cs[..|cs| - 1] == front && cs[|cs| - 1] == c;
    assert Build(cs, p) == Extended(Build(front, p), LastOf(front), c, p);
    NextLineIsBuilt(Build(front, p), front, c, p, before);
    home := before + [|Build(cs, p).done|];
  }

  lemma {:induction false} LinesAreBuilt(cs: seq<CodeLine>, p: Memory) returns (home: seq<nat>)
    ensures Built(Build(cs, p), cs, p, home)
  {
    if cs == [] {
      home := [];
      NothingIsBuilt(p);
    } else {
      var front, c := cs[..|cs| - 1], cs[|cs| - 1];
      assert cs == front + [c];
      var before := LinesAreBuilt(front, p);
      home := LineIsBuilt(front, c, p, before);
    }
  }

  /** Coalescing is exact, for all code lines, overlapping or wrapping around: there are as many
      blocks as stretches with bytes, every line with bytes is in one block at the place of its
      address, and two lines are in the same block if and only if every line from the first to
      the second starts where the one before it ends.  (`made` are the blocks before sorting.) */
  lemma BlocksAreMaximal(blocks: seq<MemBlock>, cs: seq<CodeLine>, p: Memory)
    returns (made: seq<MemBlock>, home: seq<nat>)
    requires BlocksOf(blocks, cs, p)
    ensures multiset(made) == multiset(blocks) && Housed(made, cs, p, home)
    ensures |blocks| == Stretches(cs)
  {
    made := Coalesced(cs, p);
    home := LinesAreBuilt(cs, p);
    assert |made| == |multiset(made)| && |blocks| == |multiset(blocks)|;
  }
}
