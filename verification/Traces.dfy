/** The verification trace of light-client/src/state.rs as a list of blocks. */
module Traces {
  import opened Common
  import opened Extrema
  import opened Sorting
  import opened Types
  import opened Blocks
  import opened LightStores
  import opened LightClient

  predicate ByHeight(a: LightBlock, b: LightBlock) {
    a.Height() <= b.Height()
  }

  ghost predicate Ascending(blocks: seq<LightBlock>) {
    forall i, j :: 0 <= i < j < |blocks| ==> blocks[i].Height() < blocks[j].Height()
  }

  /** The trusted or verified blocks at the given heights, lowest first. */
  function BlocksAt(s: StoreMap, heights: set<Height>): (blocks: seq<LightBlock>)
    decreases |heights|
  {
    if heights == {} then []
    else
      var h := Least(heights);
      var b := GetTrustedOrVerified(s, h);
      (if b.Some? then [b.value] else []) + BlocksAt(s, heights - {h})
  }

  /** The verification trace for `target`. */
  function TraceOf(s: StoreMap, trace: VerificationTrace, target: Height): seq<LightBlock> {
    if target in trace then BlocksAt(s, trace[target]) else []
  }

  /** `blocks` are the trusted or verified blocks at `heights`, each once, in some order. */
  ghost predicate Lists(s: StoreMap, heights: set<Height>, blocks: seq<LightBlock>) {
    && (forall i :: 0 <= i < |blocks| ==>
          blocks[i].Height() in heights && GetTrustedOrVerified(s, blocks[i].Height()) == Some(blocks[i]))
    && (forall h :: h in heights && GetTrustedOrVerified(s, h).Some? ==> GetTrustedOrVerified(s, h).value in blocks)
    && (forall i, j :: 0 <= i < j < |blocks| ==> blocks[i].Height() != blocks[j].Height())
  }

  lemma ListsOneMore(s: StoreMap, heights: set<Height>, blocks: seq<LightBlock>, h: Height)
    requires WellKeyed(s) && Lists(s, heights, blocks) && h !in heights
    ensures var b := GetTrustedOrVerified(s, h);
            Lists(s, heights + {h}, if b.Some? then blocks + [b.value] else blocks)
  {
  }

  lemma ListsOneBefore(s: StoreMap, heights: set<Height>, blocks: seq<LightBlock>, b: LightBlock)
    requires Lists(s, heights, blocks) && b.Height() !in heights
    requires GetTrustedOrVerified(s, b.Height()) == Some(b)
    ensures Lists(s, heights + {b.Height()}, [b] + blocks)
  {
    var all := [b] + blocks;
    assert forall i :: 0 < i < |all| ==> all[i] == blocks[i - 1];
    assert all[0] == b;
  }

  lemma AscendingOneBefore(blocks: seq<LightBlock>, b: LightBlock)
    requires Ascending(blocks) && forall i :: 0 <= i < |blocks| ==> b.Height() < blocks[i].Height()
    ensures Ascending([b] + blocks)
  {
  }

  /** The blocks of the trace are exactly the trusted or verified ones at its heights, strictly ascending. */
  lemma {:induction false} BlocksAtLists(s: StoreMap, heights: set<Height>)
    requires WellKeyed(s)
    ensures Lists(s, heights, BlocksAt(s, heights)) && Ascending(BlocksAt(s, heights))
    decreases |heights|
  {
    if heights != {} {
      var h := Least(heights);
      var b := GetTrustedOrVerified(s, h);
      var rest := BlocksAt(s, heights - {h});
      BlocksAtLists(s, heights - {h});
      assert heights == heights - {h} + {h};
      if b.Some? {
        ListsOneBefore(s, heights - {h}, rest, b.value);
        AscendingOneBefore(rest, b.value);
      } else {
        assert BlocksAt(s, heights) == rest;
      }
    }
  }

  /** Two listings of the same heights are rearrangements of one another. */
  lemma ListingsAgree(s: StoreMap, heights: set<Height>, a: seq<LightBlock>, b: seq<LightBlock>)
    requires Lists(s, heights, a) && Lists(s, heights, b)
    ensures multiset(a) == multiset(b)
  {
    forall x: LightBlock
      ensures multiset(a)[x] == multiset(b)[x]
    {
      ListedOnce(s, heights, a, x);
      ListedOnce(s, heights, b, x);
    }
  }

  lemma ListedOnce(s: StoreMap, heights: set<Height>, a: seq<LightBlock>, x: LightBlock)
    requires Lists(s, heights, a)
    ensures multiset(a)[x] == if x.Height() in heights && GetTrustedOrVerified(s, x.Height()) == Some(x) then 1 else 0
  {
    assert x in a <==> x in multiset(a);
    if multiset(a)[x] >= 2 {
      var i, j := TwoPositions(a, x);
    }
  }

  /** Sorting any listing by height gives the trace. */
  lemma SortedListing(s: StoreMap, heights: set<Height>, blocks: seq<LightBlock>)
    requires WellKeyed(s) && Lists(s, heights, blocks)
    ensures Sort(ByHeight, blocks) == BlocksAt(s, heights)
  {
    BlocksAtLists(s, heights);
    ListingsAgree(s, heights, blocks, BlocksAt(s, heights));
    SortSorts(ByHeight, blocks);
    SortPermutes(ByHeight, blocks);
    SortedArrangementsAgree(ByHeight, BlocksAt(s, heights), Sort(ByHeight, blocks));
  }
}
