/** The blocks of a program, seen from its source lines. */
module SourceBlocks {
  import opened Words
  import opened Source
  import opened OnePass
  import opened Refinement
  import opened MemBlocks
  import opened SourceLines
  import opened Coalescing

  /** The line continues where the one before it ended: it has bytes, or it is an `.ORG` to the
      address that is reached anyway.  Assignments and empty directives do not continue. */
  predicate Continues(lines: seq<Line>, k: nat)
    requires k < |lines| == |Assembled(lines).codeLines|
  {
    || Assembled(lines).codeLines[k].length > 0
    || (Before(lines, k).cur < ADDR_INVALID
        && OrgTarget(lines[k].body, KnownAt(lines, k)) == Some(Before(lines, k).cur))
  }

  lemma RecordCount(lines: seq<Line>)
    ensures |Assembled(lines).codeLines| == |lines|
  {
    AssembledIsResolved(lines);
    RecordsSoFar(lines, 0);
  }

  /** Line `i` ends at a proper address, and the next line finds it. */
  ghost predicate EndsProperly(lines: seq<Line>, i: nat)
    requires i < |lines| == |Assembled(lines).codeLines|
  {
    var c := Assembled(lines).codeLines[i];
    0 < c.start + c.length <= ADDR_INVALID && Before(lines, i + 1).cur == c.start + c.length
  }

  lemma LineWithBytesEndsProperly(lines: seq<Line>, i: nat)
    requires Assembles(lines) && i < |lines| == |Assembled(lines).codeLines|
    requires Assembled(lines).codeLines[i].length > 0
    ensures EndsProperly(lines, i)
  {
    AddressesFollow(lines, i);
  }

  /** After a line that ends properly, meeting it is continuing. */
  lemma MeetsIffContinues(lines: seq<Line>, k: nat)
    requires Assembles(lines) && 0 < k < |lines| == |Assembled(lines).codeLines| && EndsProperly(lines, k - 1)
    ensures Meets(Assembled(lines).codeLines, k) <==> Continues(lines, k)
    ensures Continues(lines, k) ==> EndsProperly(lines, k)
  {
    AddressesFollow(lines, k);
  }

  lemma {:induction false} UnbrokenUpTo(lines: seq<Line>, i: nat, j: nat)
    requires Assembles(lines) && i <= j < |lines| == |Assembled(lines).codeLines|
    requires Assembled(lines).codeLines[i].length > 0
    ensures Unbroken(Assembled(lines).codeLines, i, j) <==> forall k :: i < k <= j ==> Continues(lines, k)
    ensures Unbroken(Assembled(lines).codeLines, i, j) ==> EndsProperly(lines, j)
    decreases j
  {
    LineWithBytesEndsProperly(lines, i);
    if i < j {
      UnbrokenUpTo(lines, i, j - 1);
      if Unbroken(Assembled(lines).codeLines, i, j - 1) { MeetsIffContinues(lines, j); }
    }
  }

  /** Two lines with bytes share a block if and only if every line after the first, up to the
      second, continues. */
  lemma SameBlockIffContinued(lines: seq<Line>, i: nat, j: nat)
    requires Assembles(lines) && i <= j < |lines|
    ensures |Assembled(lines).codeLines| == |lines|
    ensures Assembled(lines).codeLines[i].length > 0 ==>
              (Unbroken(Assembled(lines).codeLines, i, j) <==> forall k :: i < k <= j ==> Continues(lines, k))
  {
    RecordCount(lines);
    if Assembled(lines).codeLines[i].length > 0 { UnbrokenUpTo(lines, i, j); }
  }

  /** From source to blocks, for every program that assembles and has bytes: there is exactly one
      block if and only if, from the line with the first byte to that with the last, every line
      continues.  An assignment in between is enough to split it. */
  lemma OneBlockIffContinued(lines: seq<Line>, blocks: seq<MemBlock>, i: nat, j: nat)
    requires Assembles(lines) && BlocksOf(blocks, Assembled(lines).codeLines, Assembled(lines).payload)
    requires FirstAndLast(Assembled(lines).codeLines, i, j)
    ensures i <= j < |lines| == |Assembled(lines).codeLines|
    ensures |blocks| == 1 <==> forall k :: i < k <= j ==> Continues(lines, k)
  {
    RecordCount(lines);
    var made, home := BlocksAreMaximal(blocks, Assembled(lines).codeLines, Assembled(lines).payload);
    OneStretchIffUnbroken(Assembled(lines).codeLines, i, j);
    SameBlockIffContinued(lines, i, j);
  }
}
