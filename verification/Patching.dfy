/** The resolve passes: branches land on their targets, the order of patching does not
    matter where one slot waits, and a program where a stale slot wins. */
module Patching {
  import opened Words
  import opened Expressions
  import opened Opcodes
  import opened Source
  import opened OnePass
  import opened TwoPass
  import opened Layers
  import opened EmissionProofs
  import opened RunProofs
  import opened Refinement
  import opened Coverage

  // ----- branches -----

  lemma SignExtendRestores(offset: int)
    requires -128 <= offset <= 127
    ensures SignExtend(Low(Wrap(offset))) == offset
  {
  }

  /** The processor adds the operand byte to the address after it. */
  ghost predicate LandsOnTarget(b: Branch, operand: Byte, t: Table) {
    Eval(b.target, t) == Known(Wrap(b.address + 1 + SignExtend(operand)))
  }

  lemma BranchReaches(b: Branch, t: Table)
    requires BranchError(b, t) == []
    ensures b.address in BranchPatch(b, t)
    ensures LandsOnTarget(b, BranchPatch(b, t)[b.address], t)
  {
    var dest := Eval(b.target, t).v;
    SignedRestores(b.address + 1, dest);
    SignExtendRestores(Offset(b.address, dest));
  }

  lemma {:induction false} LastBranchDecides(p: Memory, bs: seq<Branch>, t: Table, i: nat)
    requires i < |bs| && BranchErrors(bs, t) == []
    requires forall j :: i < j < |bs| ==> bs[j].address != bs[i].address
    ensures BranchError(bs[i], t) == []
    ensures bs[i].address in PatchBranches(p, bs, t)
    ensures PatchBranches(p, bs, t)[bs[i].address] == BranchPatch(bs[i], t)[bs[i].address]
  {
    var front, last := bs[..|bs| - 1], bs[|bs| - 1];
    assert BranchErrors(bs, t) == BranchErrors(front, t) + BranchError(last, t);
    if i < |front| {
      assert front[i] == bs[i];
      LastBranchDecides(p, front, t, i);
      assert bs[i].address !in BranchPatch(last, t);
    }
  }

  lemma ResolvedBranchLands(r: State, i: nat)
    requires Resolves(r.deferred, r.branches, r.table) && i < |r.branches|
    requires forall j :: i < j < |r.branches| ==> r.branches[j].address != r.branches[i].address
    ensures var b, m := r.branches[i], Resolved(r, r.table);
            b.address in m && LandsOnTarget(b, m[b.address], r.table)
  {
    LastBranchDecides(PatchDeferred(r.payload, r.deferred, r.table), r.branches, r.table, i);
    BranchReaches(r.branches[i], r.table);
  }

  /** For every program without errors, the processor computes the target of every branch
      from the stored byte: forwards, backwards and round the end of the address space.
      (If overlapping lines put two branch operands at one address, the last one counts.) */
  lemma BranchesLandOnTheirTargets(lines: seq<Line>, i: nat)
    requires Assembled(lines).errors == [] && i < |Assembled(lines).branches|
    requires var bs := Assembled(lines).branches; forall j :: i < j < |bs| ==> bs[j].address != bs[i].address
    ensures var final := Assembled(lines);
            var b := final.branches[i];
            b.address in final.payload && LandsOnTarget(b, final.payload[b.address], final.table)
  {
    ErrorFreeParts(lines);
    AssembledIsResolved(lines);
    ResolvedBranchLands(Run(INITIAL, lines), i);
  }

  /** The last branch at the address of branch `i`. */
  lemma LastAtItsAddress(bs: seq<Branch>, i: nat) returns (j: nat)
    requires i < |bs|
    ensures i <= j < |bs| && bs[j].address == bs[i].address
    ensures forall k :: j < k < |bs| ==> bs[k].address != bs[j].address
    decreases |bs| - i
  {
    if k :| i < k < |bs| && bs[k].address == bs[i].address {
      j := LastAtItsAddress(bs, k);
    } else {
      j := i;
    }
  }

  /** Every branch of every program without errors: it reaches its own target if and only if
      the last branch at the same operand address has the same target. */
  lemma BranchLandsIffLastAgrees(lines: seq<Line>, i: nat) returns (j: nat)
    requires Assembled(lines).errors == [] && i < |Assembled(lines).branches|
    ensures var bs := Assembled(lines).branches;
            && i <= j < |bs| && bs[j].address == bs[i].address
            && forall k :: j < k < |bs| ==> bs[k].address != bs[j].address
    ensures var final := Assembled(lines);
            var b, last := final.branches[i], final.branches[j];
            && b.address in final.payload
            && (LandsOnTarget(b, final.payload[b.address], final.table)
                <==> Eval(b.target, final.table) == Eval(last.target, final.table))
  {
    j := LastAtItsAddress(Assembled(lines).branches, i);
    BranchesLandOnTheirTargets(lines, j);
  }

  /** The piece is a branch whose operand is at `a`, and no later one has its operand there. */
  ghost predicate LastBranchAt(ps: seq<Placed>, a: U32, j: nat) {
    && j < |ps| && ps[j].piece.ToLabel? && ps[j].address + 1 == a
    && forall k :: j < k < |ps| && ps[k].piece.ToLabel? ==> ps[k].address + 1 != a
  }

  lemma LastBranchPrevails(ps: seq<Placed>, a: U32, j: nat)
    requires LastBranchAt(ps, a, j)
    ensures Prevails(ps, a, j)
  {
  }

  lemma DistanceReaches(address: U32, dest: U32)
    requires -128 <= Distance(address, dest) <= 127
    ensures Wrap(address + 2 + SignExtend(Low(Wrap(Distance(address, dest))))) == dest
  {
    SignedRestores(address + 2, dest);
    SignExtendRestores(Distance(address, dest));
  }

  lemma BranchCodeAt(p: Placed, t: Table)
    requires p.piece.ToLabel? && p.piece.target in t && p.address + 1 <= ADDR_INVALID
    ensures CodeAt(p, p.address + 1, t) == Low(Wrap(Distance(p.address, t[p.piece.target])))
  {
  }

  lemma BranchesAreLegal(lines: seq<Line>, i: nat)
    requires Assembles(lines) && i < |Pieces(START, lines)| && Pieces(START, lines)[i].piece.ToLabel?
    ensures var p, t := Pieces(START, lines)[i], FinalTable(START, lines);
            && p.address + 1 <= ADDR_INVALID && p.piece.target in t
            && -128 <= Distance(p.address, t[p.piece.target]) <= 127
  {
    assert Legal(Pieces(START, lines)[i], FinalTable(START, lines));
  }

  lemma StoredOffset(lines: seq<Line>, a: U32, j: nat)
    requires Assembles(lines) && LastBranchAt(Pieces(START, lines), a, j)
    ensures var p, t := Pieces(START, lines)[j], FinalTable(START, lines);
            a in Assembled(lines).payload && Assembled(lines).payload[a] == CodeAt(p, a, t)
  {
    MemoryIsLayered(lines);
    LastBranchPrevails(Pieces(START, lines), a, j);
    PrevailingPieceDecides(Pieces(START, lines), FinalTable(START, lines), a, j);
  }

  lemma BranchByte(lines: seq<Line>, a: U32, j: nat)
    requires Assembles(lines) && LastBranchAt(Pieces(START, lines), a, j)
    ensures var p, t := Pieces(START, lines)[j], FinalTable(START, lines);
            && p.piece.target in t && a in Assembled(lines).payload
            && Wrap(a + 1 + SignExtend(Assembled(lines).payload[a])) == t[p.piece.target]
  {
    var p, t := Pieces(START, lines)[j], FinalTable(START, lines);
    StoredOffset(lines, a, j);
    BranchesAreLegal(lines, j);
    BranchCodeAt(p, t);
    DistanceReaches(p.address, t[p.piece.target]);
  }

  /** The same in terms of the first pass: a branch piece reaches its target if and only if the
      last branch piece with its operand there has the same target. */
  lemma BranchPieceLandsIffLastAgrees(lines: seq<Line>, a: U32, i: nat, j: nat)
    requires Assembles(lines)
    requires var ps := Pieces(START, lines);
             LastBranchAt(ps, a, j) && i < |ps| && ps[i].piece.ToLabel? && ps[i].address + 1 == a
    ensures var ps, t, memory := Pieces(START, lines), FinalTable(START, lines), Assembled(lines).payload;
            var mine, last := ps[i].piece.target, ps[j].piece.target;
            && mine in t && last in t && a in memory
            && (Wrap(a + 1 + SignExtend(memory[a])) == t[mine] <==> t[mine] == t[last])
  {
    BranchesAreLegal(lines, i);
    BranchByte(lines, a, j);
  }

  // ----- open slots -----

  lemma {:induction false} LastDeferredDecides(p: Memory, ds: seq<Deferred>, t: Table, i: nat, a: U32)
    requires i < |ds| && DeferredErrors(ds, t) == [] && InDeferredSlot(ds[i], a)
    requires forall j :: i < j < |ds| ==> !InDeferredSlot(ds[j], a)
    ensures a in DeferredPatch(ds[i], t) && AgreeAt(PatchDeferred(p, ds, t), DeferredPatch(ds[i], t), a)
  {
    var front, last := ds[..|ds| - 1], ds[|ds| - 1];
    assert DeferredErrors(ds, t) == DeferredErrors(front, t) + DeferredError(last, t);
    if i < |front| {
      assert front[i] == ds[i];
      assert forall j :: i < j < |front| ==> front[j] == ds[j];
      LastDeferredDecides(p, front, t, i, a);
      if a in DeferredPatch(last, t) { DeferredPatchKeepsToItsSlot(last, t, a); }
    } else {
      DeferredPatchFillsItsSlot(last, t);
    }
  }

  /** What happens at a clobbered address, for every program without errors: an operand
      slot wins over whatever later lines wrote there, branch operands over all others. */
  lemma OpenSlotWins(lines: seq<Line>, i: nat, a: U32)
    requires Assembled(lines).errors == []
    requires var ds := Assembled(lines).deferred;
             i < |ds| && InDeferredSlot(ds[i], a) && forall j :: i < j < |ds| ==> !InDeferredSlot(ds[j], a)
    requires !ReservedForBranch(Assembled(lines).branches, a)
    ensures var final := Assembled(lines);
            && a in final.payload
            && AgreeAt(final.payload, DeferredPatch(final.deferred[i], final.table), a)
  {
    var r := Run(INITIAL, lines);
    ErrorFreeParts(lines);
    AssembledIsResolved(lines);
    LastDeferredDecides(r.payload, r.deferred, r.table, i, a);
    BranchesLeaveAlone(PatchDeferred(r.payload, r.deferred, r.table), r.branches, r.table, a);
  }

  // ----- any order of patching -----

  function Overlay(p: Memory, ms: seq<Memory>): Memory {
    if ms == [] then p else Overlay(p, ms[..|ms| - 1]) + ms[|ms| - 1]
  }

  function DeferredPatches(ds: seq<Deferred>, t: Table): seq<Memory> {
    seq(|ds|, i requires 0 <= i < |ds| => DeferredPatch(ds[i], t))
  }

  function BranchPatches(bs: seq<Branch>, t: Table): seq<Memory> {
    seq(|bs|, i requires 0 <= i < |bs| => BranchPatch(bs[i], t))
  }

  /** Every patch of both resolve passes, in the order the listener applies them. */
  function Patches(s: State, t: Table): seq<Memory> {
    DeferredPatches(s.deferred, t) + BranchPatches(s.branches, t)
  }

  lemma {:induction false} OverlayConcat(p: Memory, ms: seq<Memory>, more: seq<Memory>)
    ensures Overlay(p, ms + more) == Overlay(Overlay(p, ms), more)
  {
    if more == [] {
      assert ms + more == ms;
    } else {
      assert (ms + more)[..|ms + more| - 1] == ms + more[..|more| - 1];
      OverlayConcat(p, ms, more[..|more| - 1]);
    }
  }

  lemma {:induction false} DeferredOverlay(p: Memory, ds: seq<Deferred>, t: Table)
    ensures PatchDeferred(p, ds, t) == Overlay(p, DeferredPatches(ds, t))
  {
    if ds == [] {
    } else {
      DeferredOverlay(p, ds[..|ds| - 1], t);
      assert DeferredPatches(ds, t)[..|ds| - 1] == DeferredPatches(ds[..|ds| - 1], t);
    }
  }

  lemma {:induction false} BranchOverlay(p: Memory, bs: seq<Branch>, t: Table)
    ensures PatchBranches(p, bs, t) == Overlay(p, BranchPatches(bs, t))
  {
    if bs == [] {
    } else {
      BranchOverlay(p, bs[..|bs| - 1], t);
      assert BranchPatches(bs, t)[..|bs| - 1] == BranchPatches(bs[..|bs| - 1], t);
    }
  }

  lemma ResolvedIsOverlay(s: State, t: Table)
    ensures Resolved(s, t) == Overlay(s.payload, Patches(s, t))
  {
    DeferredOverlay(s.payload, s.deferred, t);
    BranchOverlay(PatchDeferred(s.payload, s.deferred, t), s.branches, t);
    OverlayConcat(s.payload, DeferredPatches(s.deferred, t), BranchPatches(s.branches, t));
  }

  /** Patches that write `a` agree on what they write. */
  ghost predicate CompatibleAt(ms: seq<Memory>, a: U32) {
    forall m, m' :: m in ms && m' in ms && a in m && a in m' ==> m[a] == m'[a]
  }

  lemma {:induction false} OverlayValue(p: Memory, ms: seq<Memory>, a: U32)
    requires CompatibleAt(ms, a)
    ensures (forall m :: m in ms ==> a !in m) ==> AgreeAt(Overlay(p, ms), p, a)
    ensures forall m :: m in ms && a in m ==> a in Overlay(p, ms) && Overlay(p, ms)[a] == m[a]
  {
    if ms == [] {
    } else {
      var front, last := ms[..|ms| - 1], ms[|ms| - 1];
      assert forall m :: m in ms <==> m in front || m == last by { assert ms == front + [last]; }
      OverlayValue(p, front, a);
    }
  }

  lemma SamePatchesSameOverlay(p: Memory, ms: seq<Memory>, order: seq<Memory>, a: U32)
    requires CompatibleAt(ms, a) && multiset(ms) == multiset(order)
    ensures AgreeAt(Overlay(p, ms), Overlay(p, order), a)
  {
    assert forall m :: m in ms <==> m in order by {
      forall m ensures m in ms <==> m in order {
        assert m in ms <==> m in multiset(ms);
        assert m in order <==> m in multiset(order);
      }
    }
    OverlayValue(p, ms, a);
    OverlayValue(p, order, a);
    if m :| m in ms && a in m { assert m in order; }
  }

  function DeferredFlags(ds: seq<Deferred>, a: U32): seq<bool> {
    seq(|ds|, i requires 0 <= i < |ds| => InDeferredSlot(ds[i], a))
  }

  function BranchFlags(bs: seq<Branch>, a: U32): seq<bool> {
    seq(|bs|, i requires 0 <= i < |bs| => bs[i].address == a)
  }

  /** How many slots wait at `a`. */
  function SlotsAt(ds: seq<Deferred>, bs: seq<Branch>, a: U32): nat {
    Hits(DeferredFlags(ds, a)) + Hits(BranchFlags(bs, a))
  }

  predicate OneSlotAt(s: State, a: U32) {
    SlotsAt(s.deferred, s.branches, a) <= 1
  }

  lemma SlotsConcat(ds: seq<Deferred>, bs: seq<Branch>, ds': seq<Deferred>, bs': seq<Branch>, a: U32)
    ensures SlotsAt(ds + ds', bs + bs', a) == SlotsAt(ds, bs, a) + SlotsAt(ds', bs', a)
  {
    assert DeferredFlags(ds + ds', a) == DeferredFlags(ds, a) + DeferredFlags(ds', a);
    assert BranchFlags(bs + bs', a) == BranchFlags(bs, a) + BranchFlags(bs', a);
    HitsConcat(DeferredFlags(ds, a), DeferredFlags(ds', a));
    HitsConcat(BranchFlags(bs, a), BranchFlags(bs', a));
  }

  lemma UnreservedHasNoSlots(ds: seq<Deferred>, bs: seq<Branch>, a: U32)
    ensures SlotsAt(ds, bs, a) == 0 <==> !ReservedForDeferred(ds, a) && !ReservedForBranch(bs, a)
  {
    NoHits(DeferredFlags(ds, a));
    NoHits(BranchFlags(bs, a));
    if i :| 0 <= i < |ds| && InDeferredSlot(ds[i], a) { assert DeferredFlags(ds, a)[i]; }
    if i :| 0 <= i < |bs| && bs[i].address == a { assert BranchFlags(bs, a)[i]; }
  }

  lemma SlotsBound(ds: seq<Deferred>, bs: seq<Branch>, a: U32)
    ensures SlotsAt(ds, bs, a) <= |ds| + |bs|
  {
    HitsBound(DeferredFlags(ds, a));
    HitsBound(BranchFlags(bs, a));
  }

  /** A body opens at most one slot. */
  lemma OneSlotPerBody(body: Body, cur: U32, t: Table)
    ensures var e := Emit(body, cur, t);
            |e.deferred| + |e.branches| <= 1
  {
  }

  lemma StepSlotsAt(s: State, l: Line, a: U32)
    ensures var after := Step(s, l);
            SlotsAt(after.deferred, after.branches, a)
            == SlotsAt(s.deferred, s.branches, a)
               + if Emits(l.body) then SlotsAt(EmissionOf(s, l).deferred, EmissionOf(s, l).branches, a) else 0
  {
    StepSlots(s, l);
    if Emits(l.body) {
      SlotsConcat(s.deferred, s.branches, EmissionOf(s, l).deferred, EmissionOf(s, l).branches, a);
    }
  }

  lemma StepKeepsOneSlot(s: State, l: Line, a: U32)
    requires OneSlotAt(s, a) && LineFits(s, l) && !(a in Claimed(s, l) && Reserved(s, a))
    ensures OneSlotAt(Step(s, l), a)
  {
    StepSlotsAt(s, l, a);
    if Emits(l.body) {
      var e := EmissionOf(s, l);
      OneSlotPerBody(l.body, s.cur, BindLabel(s, l).table);
      SlotsBound(e.deferred, e.branches, a);
      UnreservedHasNoSlots(s.deferred, s.branches, a);
      UnreservedHasNoSlots(e.deferred, e.branches, a);
      if ReservedForDeferred(e.deferred, a) || ReservedForBranch(e.branches, a) {
        assert WithinSlots(e, a);
        SlotsAreClaimed(l.body, s.cur, BindLabel(s, l).table, a);
      }
    }
  }

  /** Every run, errors included: where no line reclaims an open slot, at most one waits. */
  lemma {:induction false} RunKeepsOneSlot(s: State, lines: seq<Line>, a: U32)
    requires OneSlotAt(s, a) && RunFits(s, lines) && !Reclaimed(s, lines, a)
    ensures OneSlotAt(Run(s, lines), a)
    decreases |lines|
  {
    if lines == [] {
    } else {
      StepKeepsOneSlot(s, lines[0], a);
      RunKeepsOneSlot(Step(s, lines[0]), lines[1..], a);
    }
  }

  lemma TwoHits(flags: seq<bool>, i: nat, j: nat)
    requires Hits(flags) <= 1 && i < |flags| && j < |flags| && flags[i] && flags[j]
    ensures i == j
  {
    OneHit(flags);
  }

  ghost predicate SameDeferred(ds: seq<Deferred>, a: U32, i: nat, j: nat) {
    i < |ds| && j < |ds| && InDeferredSlot(ds[i], a) && InDeferredSlot(ds[j], a) ==> i == j
  }

  ghost predicate SameBranch(bs: seq<Branch>, a: U32, i: nat, j: nat) {
    i < |bs| && j < |bs| && bs[i].address == bs[j].address == a ==> i == j
  }

  /** The slot that waits at `a` is the only one. */
  lemma SlotIsUnique(s: State, a: U32, i: nat, j: nat)
    requires OneSlotAt(s, a)
    ensures SameDeferred(s.deferred, a, i, j) && SameBranch(s.branches, a, i, j)
    ensures !(ReservedForDeferred(s.deferred, a) && ReservedForBranch(s.branches, a))
  {
    var ds, bs := DeferredFlags(s.deferred, a), BranchFlags(s.branches, a);
    if i < |ds| && j < |ds| && ds[i] && ds[j] { TwoHits(ds, i, j); }
    if i < |bs| && j < |bs| && bs[i] && bs[j] { TwoHits(bs, i, j); }
    UnreservedHasNoSlots(s.deferred, [], a);
    UnreservedHasNoSlots([], s.branches, a);
  }

  lemma PatchOwner(s: State, t: Table, m: Memory, a: U32) returns (isDeferred: bool, i: nat)
    requires m in Patches(s, t) && a in m
    ensures if isDeferred then
              i < |s.deferred| && m == DeferredPatch(s.deferred[i], t) && InDeferredSlot(s.deferred[i], a)
            else
              i < |s.branches| && m == BranchPatch(s.branches[i], t) && s.branches[i].address == a
  {
    var k :| 0 <= k < |Patches(s, t)| && Patches(s, t)[k] == m;
    isDeferred := k < |s.deferred|;
    i := if isDeferred then k else k - |s.deferred|;
  }

  lemma OneSlotIsCompatible(s: State, t: Table, a: U32)
    requires OneSlotAt(s, a)
    ensures CompatibleAt(Patches(s, t), a)
  {
    forall m, m' | m in Patches(s, t) && m' in Patches(s, t) && a in m && a in m' ensures m[a] == m'[a] {
      var d, i := PatchOwner(s, t, m, a);
      var d', i' := PatchOwner(s, t, m', a);
      SlotIsUnique(s, a, i, i');
    }
  }

  /** Whatever the order of the patches, `a` ends up the same. */
  ghost predicate OrderFree(p: Memory, ms: seq<Memory>, a: U32) {
    forall order: seq<Memory> :: multiset(order) == multiset(ms) ==> AgreeAt(Overlay(p, ms), Overlay(p, order), a)
  }

  lemma MovedToTheEnd(ms: seq<Memory>, m: Memory) returns (order: seq<Memory>)
    requires m in ms
    ensures order != [] && order[|order| - 1] == m && multiset(order) == multiset(ms)
  {
    var i :| 0 <= i < |ms| && ms[i] == m;
    order := ms[..i] + ms[i + 1..] + [m];
    assert ms == ms[..i] + [m] + ms[i + 1..];
  }

  /** The order does not matter at `a` if and only if all patches that write there agree. */
  lemma OrderFreeIffCompatible(p: Memory, ms: seq<Memory>, a: U32)
    ensures OrderFree(p, ms, a) <==> CompatibleAt(ms, a)
  {
    if CompatibleAt(ms, a) {
      forall order: seq<Memory> | multiset(order) == multiset(ms)
        ensures AgreeAt(Overlay(p, ms), Overlay(p, order), a)
      {
        SamePatchesSameOverlay(p, ms, order, a);
      }
    }
    if OrderFree(p, ms, a) {
      forall m, m' | m in ms && m' in ms && a in m && a in m' ensures m[a] == m'[a] {
        var last := MovedToTheEnd(ms, m);
        var last' := MovedToTheEnd(ms, m');
        assert AgreeAt(Overlay(p, ms), Overlay(p, last), a) && AgreeAt(Overlay(p, ms), Overlay(p, last'), a);
      }
    }
  }

  /** Patch framing, for every program: the patches of both resolve passes may be applied in
      any order, across the passes too, if and only if those that write an address agree; one
      slot is enough. */
  lemma PatchOrderIsIrrelevant(lines: seq<Line>, a: U32)
    ensures var r := Run(INITIAL, lines);
            && Overlay(r.payload, Patches(r, r.table)) == Assembled(lines).payload
            && (OrderFree(r.payload, Patches(r, r.table), a) <==> CompatibleAt(Patches(r, r.table), a))
            && (OneSlotAt(r, a) ==> OrderFree(r.payload, Patches(r, r.table), a))
  {
    var r := Run(INITIAL, lines);
    OrderFreeIffCompatible(r.payload, Patches(r, r.table), a);
    if OneSlotAt(r, a) { OneSlotIsCompatible(r, r.table, a); }
    ResolvedIsOverlay(r, r.table);
    AssembledIsResolved(lines);
  }

  // ----- slots, seen from the reference -----

  function LateFlags(ps: seq<Placed>, a: U32): seq<bool> {
    seq(|ps|, i requires 0 <= i < |ps| => Claims(ps[i], a) && Rank(ps[i], a) > 0)
  }

  /** At most one piece has a byte at `a` that comes late. */
  ghost predicate LateOnce(ps: seq<Placed>, a: U32) {
    forall i, j :: 0 <= i < j < |ps| && Claims(ps[i], a) && Claims(ps[j], a) ==>
      Rank(ps[i], a) == 0 || Rank(ps[j], a) == 0
  }

  lemma LateOnceIsOneHit(ps: seq<Placed>, a: U32)
    ensures LateOnce(ps, a) <==> Hits(LateFlags(ps, a)) <= 1
  {
    var flags := LateFlags(ps, a);
    OneHit(flags);
    if LateOnce(ps, a) {
    } else {
      var i, j :| 0 <= i < j < |ps| && Claims(ps[i], a) && Claims(ps[j], a) && Rank(ps[i], a) > 0 && Rank(ps[j], a) > 0;
      assert flags[i] && flags[j];
    }
  }

  lemma OneSlotIsPatched(ds: seq<Deferred>, bs: seq<Branch>, t: Table, a: U32)
    requires |ds| + |bs| <= 1 && Resolves(ds, bs, t)
    ensures SlotsAt(ds, bs, a) == if a in PatchDeferred(map[], ds, t) || a in PatchBranches(map[], bs, t) then 1 else 0
  {
    SlotsBound(ds, bs, a);
    UnreservedHasNoSlots(ds, bs, a);
    if ds != [] {
      OneDeferred(ds[0], map[], t);
      assert ds == [ds[0]];
      DeferredPatchFillsItsSlot(ds[0], t);
    } else if bs != [] {
      OneBranch(bs[0], map[], t);
      assert bs == [bs[0]];
    }
  }

  lemma HeldPieceHasItsSlots(e: Emission, p: Placed, t: Table, a: U32)
    requires HoldsPiece(e, p, t) && Clean(e, t) && |e.deferred| + |e.branches| <= 1
    ensures SlotsAt(e.deferred, e.branches, a) == Hits(LateFlags([p], a))
  {
    OneSlotIsPatched(e.deferred, e.branches, t, a);
    assert LateFlags([p], a)[1..] == [];
    assert a in Part(p, 1, t) || a in Part(p, 2, t) <==> LateFlags([p], a)[0];
  }

  lemma LateFlagsConcat(ps: seq<Placed>, more: seq<Placed>, a: U32)
    ensures Hits(LateFlags(ps + more, a)) == Hits(LateFlags(ps, a)) + Hits(LateFlags(more, a))
  {
    assert LateFlags(ps + more, a) == LateFlags(ps, a) + LateFlags(more, a);
    HitsConcat(LateFlags(ps, a), LateFlags(more, a));
  }

  lemma LineOpensItsPiece(s: State, p: Point, l: Line, t: Table, a: U32)
    requires Agrees(s, p) && Emits(l.body) && LineFits(s, l)
    requires Extends(t, BindLabel(s, l).table) && CleanLine(s, l, t)
    ensures SlotsAt(EmissionOf(s, l).deferred, EmissionOf(s, l).branches, a) == Hits(LateFlags(PlacedAt(p, l), a))
  {
    var piece := Placed(s.cur, PieceOf(l.body, BindLabel(s, l).table).value);
    BodyMatchesPiece(l.body, s.cur, BindLabel(s, l).table, t);
    OneSlotPerBody(l.body, s.cur, BindLabel(s, l).table);
    HeldPieceHasItsSlots(EmissionOf(s, l), piece, t, a);
    assert PlacedAt(p, l) == [piece];
  }

  lemma StepOpensLatePieces(s: State, p: Point, l: Line, t: Table, a: U32)
    requires Agrees(s, p) && LineFits(s, l) && Extends(t, BindLabel(s, l).table) && CleanLine(s, l, t)
    ensures var after := Step(s, l);
            SlotsAt(after.deferred, after.branches, a)
            == SlotsAt(s.deferred, s.branches, a) + Hits(LateFlags(PlacedAt(p, l), a))
  {
    StepSlotsAt(s, l, a);
    if Emits(l.body) { LineOpensItsPiece(s, p, l, t, a); }
  }

  lemma {:induction false} RunOpensLatePieces(s: State, p: Point, lines: seq<Line>, t: Table, a: U32)
    requires GoodRun(s, p, lines, t)
    ensures var after := Run(s, lines);
            SlotsAt(after.deferred, after.branches, a)
            == SlotsAt(s.deferred, s.branches, a) + Hits(LateFlags(Pieces(p, lines), a))
    decreases |lines|
  {
    if lines == [] {
    } else {
      var l := lines[0];
      GoodRunTail(s, p, lines, t);
      StepOpensLatePieces(s, p, l, t, a);
      RunOpensLatePieces(Step(s, l), Next(p, l), lines[1..], t, a);
      LateFlagsConcat(PlacedAt(p, l), Pieces(Next(p, l), lines[1..]), a);
    }
  }

  /** The hypothesis of the patch order, in terms of the layout alone. */
  lemma OneSlotIffLateOnce(lines: seq<Line>, a: U32)
    requires Assembles(lines)
    ensures OneSlotAt(Run(INITIAL, lines), a) <==> LateOnce(Pieces(START, lines), a)
  {
    AssemblingRun(lines);
    RunOpensLatePieces(INITIAL, START, lines, FinalTable(START, lines), a);
    LateOnceIsOneHit(Pieces(START, lines), a);
  }

  /** A disjoint program: any order of all patches gives the same memory. */
  lemma DisjointPatchesCommute(lines: seq<Line>, order: seq<Memory>)
    requires Assembles(lines) && DisjointPieces(Pieces(START, lines))
    requires multiset(order) == multiset(Patches(Run(INITIAL, lines), Run(INITIAL, lines).table))
    ensures Overlay(Run(INITIAL, lines).payload, order) == Assembled(lines).payload
  {
    var r := Run(INITIAL, lines);
    forall a: U32 ensures AgreeAt(Assembled(lines).payload, Overlay(r.payload, order), a) {
      OneSlotIffLateOnce(lines, a);
      PatchOrderIsIrrelevant(lines, a);
    }
    AgreeEverywhere(Assembled(lines).payload, Overlay(r.payload, order));
  }

  // ----- clobbering -----

  /** A branch to a later label, and a second line at the address of the branch operand. */
  const OVERLAPPING: seq<Line> := [
    Line(None, Branching(BNE, "later")),
    Line(None, Org(Literal(1))),
    Line(Some("later"), Direct(NOP))]

  const OVERLAPPING_PIECES: seq<Placed> := [Placed(0, ToLabel(BNE, "later")), Placed(1, Bare(NOP))]

  lemma OverlappingPieces()
    ensures AllDefineWell(START, OVERLAPPING)
    ensures Pieces(START, OVERLAPPING) == OVERLAPPING_PIECES
    ensures FinalTable(START, OVERLAPPING) == map["later" := 1]
  {
    var p1 := Next(START, OVERLAPPING[0]);
    assert p1 == Point(2, map[]);
    var p2 := Next(p1, OVERLAPPING[1]);
    assert p2 == Point(1, map[]);
    var p3 := Next(p2, OVERLAPPING[2]);
    assert p3 == Point(2, map["later" := 1]);
    var rest, last := OVERLAPPING[1..], [OVERLAPPING[2]];
    assert rest[1..] == last && rest[0] == OVERLAPPING[1] && last[1..] == [];
    assert PlacedAt(p2, OVERLAPPING[2]) == [Placed(1, Bare(NOP))];
    assert Pieces(p2, last) == PlacedAt(p2, OVERLAPPING[2]) + Pieces(p3, []);
    assert Pieces(p1, rest) == [] + Pieces(p2, last);
    assert AllDefineWell(p2, last) && FinalTable(p2, last) == p3.table;
    assert AllDefineWell(p1, rest) && FinalTable(p1, rest) == p3.table;
  }

  lemma OverlappingAssembles()
    ensures Assembles(OVERLAPPING)
  {
    OverlappingPieces();
    assert Distance(0, 1) == -1;
  }

  /** A line of one byte placed on the operand of an earlier branch is overwritten. */
  lemma OffsetOverwrites(p: Placed, q: Placed, t: Table)
    requires p.piece.ToLabel? && q.piece.Bare? && q.address == p.address + 1
    ensures var ps, a := [p, q], q.address;
            && Prevails(ps, a, 0) && Last(ps, a, 1)
            && a in LayeredImage(ps, t) && LayeredImage(ps, t)[a] == CodeAt(p, a, t)
            && a in Image(ps, t) && Image(ps, t)[a] == CodeAt(q, a, t)
  {
    PrevailingPieceDecides([p, q], t, q.address, 0);
    LastPieceDecides([p, q], t, q.address, 1);
  }

  lemma OverlappingCode(t: Table)
    requires t == map["later" := 1]
    ensures CodeAt(Placed(0, ToLabel(BNE, "later")), 1, t) == 0xFF
    ensures CodeAt(Placed(1, Bare(NOP)), 1, t) == 0xEA
  {
    assert ValueOf(Name("later"), t) == 1;
    assert Distance(0, 1) == -1;
  }

  /** The program assembles without a complaint, but the late patch of the branch wins
      over the line that was written after it. */
  lemma ClobberingBreaksTheRefinement()
    ensures Assembled(OVERLAPPING).errors == []
    ensures StaleSlotWins(Pieces(START, OVERLAPPING), 1, FinalTable(START, OVERLAPPING))
    ensures 1 in Assembled(OVERLAPPING).payload && Assembled(OVERLAPPING).payload[1] == 0xFF
    ensures 1 in AssembledImage(OVERLAPPING) && AssembledImage(OVERLAPPING)[1] == 0xEA
  {
    OverlappingPieces();
    OverlappingAssembles();
    AssemblingRun(OVERLAPPING);
    MemoryIsLayered(OVERLAPPING);
    OffsetOverwrites(OVERLAPPING_PIECES[0], OVERLAPPING_PIECES[1], FinalTable(START, OVERLAPPING));
    OverlappingCode(FinalTable(START, OVERLAPPING));
  }

  /** Two branches at one address, to different labels. */
  const TWO_BRANCHES: seq<Line> := [
    Line(None, Branching(BNE, "one")),
    Line(None, Org(Literal(0))),
    Line(None, Branching(BEQ, "two")),
    Line(Some("one"), Direct(NOP)),
    Line(Some("two"), Direct(NOP))]

  const TWO_BRANCHES_PIECES: seq<Placed> := [
    Placed(0, ToLabel(BNE, "one")),
    Placed(0, ToLabel(BEQ, "two")),
    Placed(2, Bare(NOP)),
    Placed(3, Bare(NOP))]

  const BOTH_LABELS: Table := map["one" := 2, "two" := 3]

  lemma LastTwoPieces(lines: seq<Line>)
    requires lines == [TWO_BRANCHES[3], TWO_BRANCHES[4]]
    ensures AllDefineWell(Point(2, map[]), lines)
    ensures Pieces(Point(2, map[]), lines) == [Placed(2, Bare(NOP)), Placed(3, Bare(NOP))]
    ensures FinalTable(Point(2, map[]), lines) == BOTH_LABELS
  {
    var p4 := Next(Point(2, map[]), lines[0]);
    assert p4 == Point(3, map["one" := 2]);
    var p5 := Next(p4, lines[1]);
    assert p5 == Point(4, BOTH_LABELS);
    assert lines[1..] == [TWO_BRANCHES[4]] && lines[1..][1..] == [];
    assert PlacedAt(p4, lines[1]) == [Placed(3, Bare(NOP))];
    assert Pieces(p4, lines[1..]) == PlacedAt(p4, lines[1]) + Pieces(p5, []);
    assert AllDefineWell(p4, lines[1..]) && FinalTable(p4, lines[1..]) == p5.table;
  }

  lemma TwoBranchesPieces()
    ensures AllDefineWell(START, TWO_BRANCHES)
    ensures Pieces(START, TWO_BRANCHES) == TWO_BRANCHES_PIECES
    ensures FinalTable(START, TWO_BRANCHES) == BOTH_LABELS
  {
    var p1 := Next(START, TWO_BRANCHES[0]);
    assert p1 == Point(2, map[]);
    var p2 := Next(p1, TWO_BRANCHES[1]);
    assert p2 == Point(0, map[]);
    var p3 := Next(p2, TWO_BRANCHES[2]);
    assert p3 == Point(2, map[]);
    var l1, l2, l3 := TWO_BRANCHES[1..], TWO_BRANCHES[2..], TWO_BRANCHES[3..];
    assert l1[1..] == l2 && l2[1..] == l3 && l3 == [TWO_BRANCHES[3], TWO_BRANCHES[4]];
    LastTwoPieces(l3);
    assert Pieces(p2, l2) == PlacedAt(p2, l2[0]) + Pieces(p3, l3);
    assert Pieces(p1, l1) == [] + Pieces(p2, l2);
    assert AllDefineWell(p2, l2) && FinalTable(p2, l2) == BOTH_LABELS;
    assert AllDefineWell(p1, l1) && FinalTable(p1, l1) == BOTH_LABELS;
  }

  lemma TwoBranchesAssemble()
    ensures Assembles(TWO_BRANCHES)
  {
    TwoBranchesPieces();
    assert Distance(0, 2) == 0 && Distance(0, 3) == 1;
  }

  lemma TwoBranchesProgram() returns (lines: seq<Line>, ps: seq<Placed>, t: Table)
    ensures Assembles(lines) && ps == Pieces(START, lines) && t == FinalTable(START, lines)
    ensures |ps| >= 2 && ps[0].piece.ToLabel? && ps[1].piece.ToLabel? && ps[0].address == ps[1].address == 0
    ensures forall k :: 2 <= k < |ps| ==> !ps[k].piece.ToLabel?
    ensures ps[0].piece.target in t && ps[1].piece.target in t && t[ps[0].piece.target] != t[ps[1].piece.target]
  {
    TwoBranchesPieces();
    TwoBranchesAssemble();
    lines, ps, t := TWO_BRANCHES, TWO_BRANCHES_PIECES, BOTH_LABELS;
  }

  lemma SecondBranchWins(lines: seq<Line>, ps: seq<Placed>, t: Table)
    requires Assembles(lines) && ps == Pieces(START, lines) && t == FinalTable(START, lines)
    requires |ps| >= 2 && ps[0].piece.ToLabel? && ps[1].piece.ToLabel? && ps[0].address == ps[1].address == 0
    requires forall k :: 2 <= k < |ps| ==> !ps[k].piece.ToLabel?
    ensures var memory, mine, last := Assembled(lines).payload, ps[0].piece.target, ps[1].piece.target;
            && mine in t && last in t && 1 in memory
            && Wrap(2 + SignExtend(memory[1])) == t[last]
  {
    assert LastBranchAt(ps, 1, 1);
    BranchesAreLegal(lines, 0);
    BranchByte(lines, 1, 1);
  }

  /** `TWO_BRANCHES` assembles without a complaint, but its first branch goes where the second
      one should. */
  lemma SharedOperandMissesTarget() returns (lines: seq<Line>, ps: seq<Placed>, t: Table)
    ensures ps == Pieces(START, lines) && t == FinalTable(START, lines) && Assembled(lines).errors == []
    ensures |ps| >= 2 && ps[0].piece.ToLabel? && ps[1].piece.ToLabel? && ps[0].address == ps[1].address == 0
    ensures var memory, mine, last := Assembled(lines).payload, ps[0].piece.target, ps[1].piece.target;
            && mine in t && last in t && 1 in memory
            && t[mine] != Wrap(2 + SignExtend(memory[1])) == t[last]
  {
    lines, ps, t := TwoBranchesProgram();
    AssemblingRun(lines);
    SecondBranchWins(lines, ps, t);
  }
}
