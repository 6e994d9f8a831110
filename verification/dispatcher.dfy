/**
 * The sending thread started by `on_open`: it walks the collection-id pages 1 to 99
 * in order and calls `send_dynamic_message` once per collection, numbering the
 * calls 1, 2, 3, ... with a counter that is never reset within one run.
 *
 * Page `i` (the file `Collection_ids/{i}.json`) is `pages[i - 1]`, holding the ids of
 * its collections in file order. A page beyond the end of `pages` is a missing
 * file: `load_collection_ids` raises and the thread ends there.
 */
module Dispatcher {

  const FirstPage: nat := 1
  /** `range(1, 100)` stops before page 100. */
  const PageBound: nat := 100
  const FirstSeqNo: nat := 1

  /** One call `send_dynamic_message(ws, collectionId, seqNo)`. */
  datatype Send = Send(collectionId: string, seqNo: nat)

  /** The ids of the given pages, page after page, each page in its own order. */
  function Concat(pages: seq<seq<string>>): seq<string>
    decreases |pages|
  {
    if pages == [] then [] else Concat(pages[..|pages| - 1]) + pages[|pages| - 1]
  }

  lemma {:induction false} ConcatAppend(a: seq<seq<string>>, b: seq<seq<string>>)
    ensures Concat(a + b) == Concat(a) + Concat(b)
    decreases |b|
  {
    if b == [] {
      assert a + b == a;
    } else {
      var last := b[|b| - 1];
      assert (a + b)[..|a + b| - 1] == a + b[..|b| - 1];
      ConcatAppend(a, b[..|b| - 1]);
    }
  }

  /**
   * Collection `c` of page `p + 1` sits right after every collection of the earlier
   * pages and the first `c` of its own page.
   */
  lemma PagePosition(pages: seq<seq<string>>, p: nat, c: nat)
    requires p < |pages| && c < |pages[p]|
    ensures |Concat(pages[..p])| + c < |Concat(pages)|
    ensures Concat(pages)[|Concat(pages[..p])| + c] == pages[p][c]
  {
    assert pages == pages[..p] + ([pages[p]] + pages[p + 1..]);
    ConcatAppend(pages[..p], [pages[p]] + pages[p + 1..]);
    ConcatAppend([pages[p]], pages[p + 1..]);
    assert Concat([pages[p]]) == pages[p] by {
      assert [pages[p]][..0] == [];
    }
  }

  /** The pages the run reads: 1 to 99, or fewer when a page file is missing. */
  function LoadedPages(pages: seq<seq<string>>): (loaded: seq<seq<string>>)
    ensures |loaded| <= PageBound - FirstPage && loaded <= pages
    ensures |loaded| == PageBound - FirstPage || loaded == pages
  {
    if |pages| < PageBound - FirstPage then pages else pages[..PageBound - FirstPage]
  }

  /**
   * `run` inside `on_open`. The k-th call (0-based) sends the k-th collection id in
   * page order with sequence number k + 1, so the numbers start at 1, rise by one,
   * never repeat, and the last equals the number of collections sent.
   */
  method Run(pages: seq<seq<string>>) returns (sends: seq<Send>, complete: bool)
    ensures complete <==> |pages| >= PageBound - FirstPage
    ensures |sends| == |Concat(LoadedPages(pages))|
    ensures forall k :: 0 <= k < |sends| ==>
      sends[k] == Send(Concat(LoadedPages(pages))[k], FirstSeqNo + k)
    ensures forall a, b :: 0 <= a < b < |sends| ==> sends[a].seqNo < sends[b].seqNo
    ensures sends != [] ==> sends[0].seqNo == FirstSeqNo && sends[|sends| - 1].seqNo == |sends|
  {
    sends := [];
    var j := FirstSeqNo;
    for i := FirstPage to PageBound
      invariant i - FirstPage <= |pages|
      invariant j == |sends| + FirstSeqNo
      invariant |sends| == |Concat(pages[..i - FirstPage])|
      invariant forall k :: 0 <= k < |sends| ==>
        sends[k] == Send(Concat(pages[..i - FirstPage])[k], FirstSeqNo + k)
    {
      if i - FirstPage >= |pages| {
        // load_collection_ids(i) raises FileNotFoundError and the thread stops
        assert pages[..i - FirstPage] == pages;
        complete := false;
        return;
      }
      var page := pages[i - FirstPage];
      ghost var done := Concat(pages[..i - FirstPage]);
      for c := 0 to |page|
        invariant j == |sends| + FirstSeqNo
        invariant |sends| == |done| + c
        invariant forall k :: 0 <= k < |sends| ==> sends[k] == Send((done + page[..c])[k], FirstSeqNo + k)
      {
        sends := sends + [Send(page[c], j)];
        j := j + 1;
      }
      assert page[..|page|] == page;
      assert pages[..i + 1 - FirstPage][..i - FirstPage] == pages[..i - FirstPage];
    }
    complete := true;
  }
}
