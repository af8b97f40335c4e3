/** The pieces of a program that claim an address, in the order in which the listener comes
    back to it: bytes known at once, then late operands, then branch offsets.  Everything
    here is in terms of the first pass; the listener does not occur. */
module Layers {
  import opened Words
  import opened Expressions
  import opened TwoPass

  predicate Claims(p: Placed, a: U32) {
    p.address <= a < p.address + Size(p.piece)
  }

  /** No piece reaches the sentinel, so nothing wraps around. */
  ghost predicate PiecesFit(ps: seq<Placed>) {
    forall i :: 0 <= i < |ps| ==> ps[i].address + Size(ps[i].piece) <= ADDR_INVALID
  }

  ghost predicate DisjointPieces(ps: seq<Placed>) {
    forall i, j, a: U32 :: 0 <= i < j < |ps| && Claims(ps[i], a) ==> !Claims(ps[j], a)
  }

  /** When the byte of a piece at `a` is written: with its line (0), with the late operands (1)
      or with the branch offsets (2). */
  function Rank(p: Placed, a: U32): nat {
    match p.piece
    case Bare(_) => 0
    case ToLabel(_, _) => if a == p.address + 1 then 2 else 0
    case WithOperand(_, _, _, late) => if late then 1 else 0
    case Values(_, _) => 0
  }

  /** The two-pass byte of a piece. */
  function CodeAt(p: Placed, a: U32, t: Table): Byte
    requires Claims(p, a)
  {
    Code(p, t)[a - p.address]
  }

  /** The last piece that claims `a`: its byte is the one in the two-pass image. */
  ghost predicate Last(ps: seq<Placed>, a: U32, j: nat) {
    j < |ps| && Claims(ps[j], a) && forall k :: j < k < |ps| ==> !Claims(ps[k], a)
  }

  /** The piece that is written last at `a`: of the highest rank, and of those the last. */
  ghost predicate Prevails(ps: seq<Placed>, a: U32, i: nat) {
    && i < |ps| && Claims(ps[i], a)
    && forall k :: 0 <= k < |ps| && Claims(ps[k], a) ==>
         Rank(ps[k], a) < Rank(ps[i], a) || (Rank(ps[k], a) == Rank(ps[i], a) && k <= i)
  }

  /** The last piece that claims `a` finds an older slot there that outranks it. */
  ghost predicate Clobbered(ps: seq<Placed>, a: U32) {
    exists i, j :: 0 <= i < j < |ps| && Claims(ps[i], a) && Last(ps, a, j) && Rank(ps[i], a) > Rank(ps[j], a)
  }

  /** Clobbered, and the late byte is not the one the last piece has there. */
  ghost predicate StaleSlotWins(ps: seq<Placed>, a: U32, t: Table) {
    exists i, j ::
      0 <= i < j < |ps| && Prevails(ps, a, i) && Last(ps, a, j) && CodeAt(ps[i], a, t) != CodeAt(ps[j], a, t)
  }

  // ----- memory by rank -----

  /** The bytes of one rank. */
  function Part(p: Placed, rank: nat, t: Table): Memory {
    map a: U32 | a in Span(p.address, Size(p.piece)) && Rank(p, a) == rank :: Code(p, t)[a - p.address]
  }

  lemma PartIsCode(p: Placed, rank: nat, t: Table)
    requires forall a: U32 :: Claims(p, a) ==> Rank(p, a) == rank
    ensures Part(p, rank, t) == Block(p.address, Code(p, t))
  {
  }

  lemma PartIsEmpty(p: Placed, rank: nat, t: Table)
    requires forall a: U32 :: Claims(p, a) ==> Rank(p, a) != rank
    ensures Part(p, rank, t) == map[]
  {
  }

  function Layer(ps: seq<Placed>, rank: nat, t: Table): Memory {
    if ps == [] then map[] else Part(ps[0], rank, t) + Layer(ps[1..], rank, t)
  }

  /** What the pieces would leave if they were written rank by rank. */
  function LayeredImage(ps: seq<Placed>, t: Table): Memory {
    Layer(ps, 0, t) + Layer(ps, 1, t) + Layer(ps, 2, t)
  }

  lemma OverlayAssociates(m0: Memory, m1: Memory, m2: Memory)
    ensures (m0 + m1) + m2 == m0 + (m1 + m2)
  {
  }

  lemma {:induction false} LayerConcat(ps: seq<Placed>, more: seq<Placed>, rank: nat, t: Table)
    ensures Layer(ps + more, rank, t) == Layer(ps, rank, t) + Layer(more, rank, t)
  {
    if ps == [] {
      assert ps + more == more;
      assert map[] + Layer(more, rank, t) == Layer(more, rank, t);
    } else {
      assert (ps + more)[1..] == ps[1..] + more;
      LayerConcat(ps[1..], more, rank, t);
      OverlayAssociates(Part(ps[0], rank, t), Layer(ps[1..], rank, t), Layer(more, rank, t));
    }
  }

  lemma FirstPartIsOverlaid(ps: seq<Placed>, rank: nat, t: Table, a: U32)
    requires ps != []
    ensures a in Layer(ps, rank, t) <==> (Claims(ps[0], a) && Rank(ps[0], a) == rank) || a in Layer(ps[1..], rank, t)
    ensures a in Layer(ps[1..], rank, t) ==> Layer(ps, rank, t)[a] == Layer(ps[1..], rank, t)[a]
    ensures Claims(ps[0], a) && Rank(ps[0], a) == rank && a !in Layer(ps[1..], rank, t) ==>
              Layer(ps, rank, t)[a] == CodeAt(ps[0], a, t)
  {
  }

  lemma {:induction false} LayerMisses(ps: seq<Placed>, rank: nat, t: Table, a: U32)
    requires forall k :: 0 <= k < |ps| && Claims(ps[k], a) ==> Rank(ps[k], a) != rank
    ensures a !in Layer(ps, rank, t)
  {
    if ps == [] {
    } else {
      FirstPartIsOverlaid(ps, rank, t, a);
      LayerMisses(ps[1..], rank, t, a);
    }
  }

  /** Within a layer the last piece wins. */
  lemma {:induction false} LayerAt(ps: seq<Placed>, rank: nat, t: Table, a: U32, i: nat)
    requires i < |ps| && Claims(ps[i], a) && Rank(ps[i], a) == rank
    requires forall k :: i < k < |ps| && Claims(ps[k], a) ==> Rank(ps[k], a) != rank
    ensures a in Layer(ps, rank, t) && Layer(ps, rank, t)[a] == CodeAt(ps[i], a, t)
  {
    FirstPartIsOverlaid(ps, rank, t, a);
    if i == 0 {
      LayerMisses(ps[1..], rank, t, a);
    } else {
      LayerAt(ps[1..], rank, t, a, i - 1);
    }
  }

  lemma FirstPieceIsOverlaid(ps: seq<Placed>, t: Table, a: U32)
    requires ps != []
    ensures a in Image(ps, t) <==> Claims(ps[0], a) || a in Image(ps[1..], t)
    ensures a in Image(ps[1..], t) ==> Image(ps, t)[a] == Image(ps[1..], t)[a]
    ensures Claims(ps[0], a) && a !in Image(ps[1..], t) ==> Image(ps, t)[a] == CodeAt(ps[0], a, t)
  {
  }

  lemma {:induction false} ImageMisses(ps: seq<Placed>, t: Table, a: U32)
    requires forall k :: 0 <= k < |ps| ==> !Claims(ps[k], a)
    ensures a !in Image(ps, t)
  {
    if ps == [] {
    } else {
      FirstPieceIsOverlaid(ps, t, a);
      ImageMisses(ps[1..], t, a);
    }
  }

  /** In the two-pass image the last piece wins. */
  lemma {:induction false} LastPieceDecides(ps: seq<Placed>, t: Table, a: U32, j: nat)
    requires Last(ps, a, j)
    ensures a in Image(ps, t) && Image(ps, t)[a] == CodeAt(ps[j], a, t)
  {
    FirstPieceIsOverlaid(ps, t, a);
    if j == 0 {
      ImageMisses(ps[1..], t, a);
    } else {
      LastPieceDecides(ps[1..], t, a, j - 1);
    }
  }

  /** Written rank by rank, the prevailing piece wins. */
  lemma PrevailingPieceDecides(ps: seq<Placed>, t: Table, a: U32, i: nat)
    requires Prevails(ps, a, i)
    ensures a in LayeredImage(ps, t) && LayeredImage(ps, t)[a] == CodeAt(ps[i], a, t)
  {
    var rank := Rank(ps[i], a);
    LayerAt(ps, rank, t, a, i);
    if rank < 2 { LayerMisses(ps, 2, t, a); }
    if rank < 1 { LayerMisses(ps, 1, t, a); }
  }

  lemma {:induction false} SomePiecePrevails(ps: seq<Placed>, a: U32, k: nat) returns (i: nat)
    requires k < |ps| && Claims(ps[k], a)
    ensures Prevails(ps, a, i)
  {
    var front, last := ps[..|ps| - 1], |ps| - 1;
    if j :| 0 <= j < last && Claims(ps[j], a) {
      i := SomePiecePrevails(front, a, j);
      assert forall l :: 0 <= l < last ==> front[l] == ps[l];
      if Claims(ps[last], a) && Rank(ps[last], a) >= Rank(ps[i], a) { i := last; }
    } else {
      i := k;
    }
  }

  lemma {:induction false} SomePieceIsLast(ps: seq<Placed>, a: U32, k: nat) returns (j: nat)
    requires k < |ps| && Claims(ps[k], a)
    ensures Last(ps, a, j)
    decreases |ps| - k
  {
    if l :| k < l < |ps| && Claims(ps[l], a) {
      j := SomePieceIsLast(ps, a, l);
    } else {
      j := k;
    }
  }

  lemma UnclaimedIsAbsent(ps: seq<Placed>, t: Table, a: U32)
    requires forall k :: 0 <= k < |ps| ==> !Claims(ps[k], a)
    ensures a !in Image(ps, t) && a !in LayeredImage(ps, t)
  {
    ImageMisses(ps, t, a);
    LayerMisses(ps, 0, t, a);
    LayerMisses(ps, 1, t, a);
    LayerMisses(ps, 2, t, a);
  }

  /** Both images have the addresses that some piece claims. */
  lemma LayersKeepAddresses(ps: seq<Placed>, t: Table, a: U32)
    ensures a in LayeredImage(ps, t) <==> a in Image(ps, t)
  {
    if k :| 0 <= k < |ps| && Claims(ps[k], a) {
      var i := SomePiecePrevails(ps, a, k);
      var j := SomePieceIsLast(ps, a, k);
      PrevailingPieceDecides(ps, t, a, i);
      LastPieceDecides(ps, t, a, j);
    } else {
      UnclaimedIsAbsent(ps, t, a);
    }
  }

  lemma PrevailingIsUnique(ps: seq<Placed>, a: U32, i: nat, j: nat)
    requires Prevails(ps, a, i) && Last(ps, a, j)
    ensures i <= j
    ensures forall k :: Prevails(ps, a, k) ==> k == i
    ensures forall k :: Last(ps, a, k) ==> k == j
  {
  }

  /** Writing by rank agrees with writing in order exactly where no stale slot wins. */
  lemma LayersAgreeUnlessStale(ps: seq<Placed>, t: Table, a: U32)
    ensures AgreeAt(LayeredImage(ps, t), Image(ps, t), a) <==> !StaleSlotWins(ps, a, t)
  {
    LayersKeepAddresses(ps, t, a);
    if k :| 0 <= k < |ps| && Claims(ps[k], a) {
      var i := SomePiecePrevails(ps, a, k);
      var j := SomePieceIsLast(ps, a, k);
      PrevailingPieceDecides(ps, t, a, i);
      LastPieceDecides(ps, t, a, j);
      PrevailingIsUnique(ps, a, i, j);
    } else {
      UnclaimedIsAbsent(ps, t, a);
    }
  }

  /** The condition can be read off the layout: a stale slot wins only where one outranks the last piece. */
  lemma StaleIsClobbered(ps: seq<Placed>, a: U32, t: Table)
    requires StaleSlotWins(ps, a, t)
    ensures Clobbered(ps, a)
  {
    var i, j :| 0 <= i < j < |ps| && Prevails(ps, a, i) && Last(ps, a, j) && CodeAt(ps[i], a, t) != CodeAt(ps[j], a, t);
    assert Claims(ps[i], a) && Rank(ps[i], a) > Rank(ps[j], a);
  }

  lemma DisjointPiecesPrevail(ps: seq<Placed>, a: U32, i: nat)
    requires DisjointPieces(ps) && i < |ps| && Claims(ps[i], a)
    ensures Prevails(ps, a, i) && Last(ps, a, i)
  {
    assert forall k :: 0 <= k < |ps| && Claims(ps[k], a) ==> k == i;
  }

  lemma DisjointPiecesClobberNothing(ps: seq<Placed>, a: U32)
    requires DisjointPieces(ps)
    ensures !Clobbered(ps, a)
  {
  }
}
