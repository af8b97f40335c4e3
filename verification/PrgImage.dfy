/** The `.PRG` stream: start address, blocks, 0xff between them, and a closing zero. */
module PrgImage {
  import opened Words
  import opened MemBlocks
  import opened BlockIndex

  /** The padding count, in 32-bit arithmetic: an overlap makes it huge. */
  function Gap(b: MemBlock, next: MemBlock): U32 {
    Wrap(next.start - End(b))
  }

  function Padding(n: nat): seq<Byte> {
    seq<Byte>(n, _ => 0xff)
  }

  /** The bytes of the blocks and of the padding between them. */
  function ContentsSize(bs: seq<MemBlock>): nat {
    if bs == [] then 0
    else |bs[0].bytes| + if |bs| == 1 then 0 else Gap(bs[0], bs[1]) + ContentsSize(bs[1..])
  }

  function Contents(bs: seq<MemBlock>): (r: seq<Byte>)
    ensures |r| == ContentsSize(bs)
  {
    if bs == [] then []
    else if |bs| == 1 then bs[0].bytes
    else bs[0].bytes + Padding(Gap(bs[0], bs[1])) + Contents(bs[1..])
  }

  function Stream(bs: seq<MemBlock>): seq<Byte> {
    (if bs == [] then [] else [Low(bs[0].start), High(bs[0].start)] + Contents(bs)) + [0x00]
  }

  /** One block, and the padding up to the next one. */
  function WithPadding(bs: seq<MemBlock>, it: nat): seq<Byte>
    requires it < |bs|
  {
    bs[it].bytes + if it + 1 < |bs| then Padding(Gap(bs[it], bs[it + 1])) else []
  }

  lemma NextContents(bs: seq<MemBlock>, it: nat, os: seq<Byte>)
    requires it < |bs|
    ensures os + Contents(bs[it..]) == (os + WithPadding(bs, it)) + Contents(bs[it + 1..])
  {
    var rest := bs[it..];
    assert rest[1..] == bs[it + 1..];
    if it + 1 < |bs| {
      assert Contents(rest) == WithPadding(bs, it) + Contents(rest[1..]);
    } else {
      assert Contents(rest) == WithPadding(bs, it) + [];
    }
    Assoc(os, WithPadding(bs, it), Contents(bs[it + 1..]));
  }

  method WritePadding(os: seq<Byte>, numPadding: U32) returns (padded: seq<Byte>)
    ensures padded == os + Padding(numPadding)
  {
    padded := os;
    for padIdx := 0 to numPadding
      invariant padded == os + Padding(padIdx)
    {
      assert Padding(padIdx + 1) == Padding(padIdx) + [0xff];
      padded := padded + [0xff];
    }
  }

  method WritePrg(memBlocks: seq<MemBlock>) returns (os: seq<Byte>)
    ensures os == Stream(memBlocks)
    ensures memBlocks == [] ==> os == [0x00]
  {
    os := [];
    if |memBlocks| > 0 {
      os := [Low(memBlocks[0].start), High(memBlocks[0].start)];
      ghost var header := os;
      var it := 0;
      while it < |memBlocks|
        invariant 0 <= it <= |memBlocks|
        invariant os + Contents(memBlocks[it..]) == header + Contents(memBlocks)
      {
        NextContents(memBlocks, it, os);
        ghost var before := os;
        os := os + memBlocks[it].bytes;
        if it + 1 < |memBlocks| {
          os := WritePadding(os, Gap(memBlocks[it], memBlocks[it + 1]));
        }
        assert os == before + WithPadding(memBlocks, it);
        it := it + 1;
      }
      assert os == header + Contents(memBlocks);
    }
    os := os + [0x00];
  }

  // ----- what a reader of the stream sees -----

  ghost predicate FitBlocks(bs: seq<MemBlock>) {
    forall i :: 0 <= i < |bs| ==> End(bs[i]) <= ADDR_INVALID
  }

  /** How often a block begins before the one in front of it has ended. */
  function Overlaps(bs: seq<MemBlock>): nat {
    if |bs| < 2 then 0 else (if bs[1].start < End(bs[0]) then 1 else 0) + Overlaps(bs[1..])
  }

  lemma GapIsDistance(b: MemBlock, next: MemBlock)
    requires End(b) <= ADDR_INVALID
    ensures Gap(b, next) == next.start - End(b) + if next.start < End(b) then TWO_TO_THE_32 else 0
  {
  }

  lemma FitTail(bs: seq<MemBlock>)
    requires FitBlocks(bs) && bs != []
    ensures FitBlocks(bs[1..]) && End(bs[0]) <= ADDR_INVALID
  {
    assert forall i :: 0 <= i < |bs[1..]| ==> bs[1..][i] == bs[i + 1];
  }

  lemma {:induction false} ContentsLength(bs: seq<MemBlock>)
    requires FitBlocks(bs) && bs != []
    ensures ContentsSize(bs) == End(bs[|bs| - 1]) - bs[0].start + TWO_TO_THE_32 * Overlaps(bs)
  {
    if |bs| <= 1 {
    } else {
      FitTail(bs);
      ContentsLength(bs[1..]);
      GapIsDistance(bs[0], bs[1]);
    }
  }

  lemma {:induction false} NoOverlapsIffSorted(bs: seq<MemBlock>)
    ensures Overlaps(bs) == 0 <==> StrictlySorted(bs)
  {
    if |bs| < 2 {
    } else {
      var rest := bs[1..];
      NoOverlapsIffSorted(rest);
      if StrictlySorted(bs) {
        assert forall i, j :: 0 <= i < j < |rest| ==> rest[i] == bs[i + 1] && rest[j] == bs[j + 1];
      }
      if Overlaps(bs) == 0 {
        forall i, j | 0 <= i < j < |bs| ensures End(bs[i]) <= bs[j].start {
          assert bs[j] == rest[j - 1];
          if i > 0 { assert bs[i] == rest[i - 1]; }
          else if j > 1 { assert End(rest[0]) <= rest[j - 1].start; }
        }
      }
    }
  }

  /** The length of the stream, for every image; it is the span of the image exactly when
      the blocks do not overlap, and 4 GiB longer for each overlap. */
  lemma StreamLength(bs: seq<MemBlock>)
    requires FitBlocks(bs) && bs != []
    ensures |Stream(bs)| == 2 + (End(bs[|bs| - 1]) - bs[0].start) + 1 + TWO_TO_THE_32 * Overlaps(bs)
    ensures |Stream(bs)| == 2 + (End(bs[|bs| - 1]) - bs[0].start) + 1 <==> StrictlySorted(bs)
  {
    ContentsLength(bs);
    NoOverlapsIffSorted(bs);
  }

  lemma {:induction false} BelowAllReadsFiller(bs: seq<MemBlock>, a: U32)
    requires forall i :: 0 <= i < |bs| ==> a < bs[i].start
    ensures ByteAt(bs, a) == 0xff
  {
    if bs == [] {
    } else {
      assert forall i :: 0 <= i < |bs[1..]| ==> bs[1..][i] == bs[i + 1];
      BelowAllReadsFiller(bs[1..], a);
    }
  }

  lemma ContentsParts(bs: seq<MemBlock>, k: nat)
    requires |bs| > 1 && End(bs[0]) <= bs[1].start <= ADDR_INVALID
    ensures var d := bs[1].start - bs[0].start;
            && |Contents(bs)| == d + |Contents(bs[1..])|
            && (k < |bs[0].bytes| ==> Contents(bs)[k] == bs[0].bytes[k])
            && (|bs[0].bytes| <= k < d ==> Contents(bs)[k] == 0xff)
            && (d <= k < |Contents(bs)| ==> Contents(bs)[k] == Contents(bs[1..])[k - d])
  {
    GapIsDistance(bs[0], bs[1]);
  }

  lemma SortedTail(bs: seq<MemBlock>)
    requires FitBlocks(bs) && StrictlySorted(bs) && |bs| > 1
    ensures FitBlocks(bs[1..]) && StrictlySorted(bs[1..])
    ensures End(bs[0]) <= bs[1].start
    ensures forall i :: 0 <= i < |bs[1..]| ==> bs[1].start <= bs[1..][i].start
  {
    var rest := bs[1..];
    forall i, j | 0 <= i < j < |rest| ensures End(rest[i]) <= rest[j].start {
      assert End(bs[i + 1]) <= bs[j + 1].start;
    }
    forall i | 0 <= i < |rest| ensures bs[1].start <= rest[i].start {
      if i > 0 { assert End(rest[0]) <= rest[i].start; }
    }
  }

  lemma HeadAnswers(bs: seq<MemBlock>, a: U32)
    requires bs != [] && End(bs[0]) <= ADDR_INVALID
    ensures ByteAt(bs, a) == if InBlock(bs[0], a) then bs[0].bytes[a - bs[0].start] else ByteAt(bs[1..], a)
  {
  }

  lemma {:induction false} ContentsShowTheIndex(bs: seq<MemBlock>, a: U32)
    requires FitBlocks(bs) && StrictlySorted(bs) && bs != []
    requires bs[0].start <= a < End(bs[|bs| - 1])
    ensures a - bs[0].start < |Contents(bs)|
    ensures Contents(bs)[a - bs[0].start] == ByteAt(bs, a)
  {
    HeadAnswers(bs, a);
    if |bs| > 1 {
      SortedTail(bs);
      ContentsParts(bs, a - bs[0].start);
      if a >= bs[1].start {
        ContentsShowTheIndex(bs[1..], a);
      } else if a >= End(bs[0]) {
        BelowAllReadsFiller(bs[1..], a);
      }
    }
  }

  lemma HeaderDecodes(a: U32)
    ensures Low(a) as int + 0x100 * (High(a) as int) == a % 0x1_0000
  {
  }

  /** The stream is the image: the header is the first address modulo 2^16, the byte for
      address `a` is what the index answers, gaps included, and the last byte is zero. */
  lemma StreamShowsTheImage(bs: seq<MemBlock>, a: U32)
    requires FitBlocks(bs) && StrictlySorted(bs) && bs != []
    ensures var s := Stream(bs);
            && |s| >= 3 && s[|s| - 1] == 0x00
            && s[0] as int + 0x100 * (s[1] as int) == bs[0].start % 0x1_0000
            && (bs[0].start <= a < End(bs[|bs| - 1]) ==>
                  && 2 + (a - bs[0].start) < |s| - 1
                  && s[2 + (a - bs[0].start)] == ByteAt(bs, a))
  {
    HeaderDecodes(bs[0].start);
    if bs[0].start <= a < End(bs[|bs| - 1]) {
      ContentsShowTheIndex(bs, a);
    }
  }
}
