/** The additive partitioner of the desktop splitter (app.py `perform_split`). Each
    page's standalone size is measured once; the sizes of the pending pages are summed
    (`current_size`), and the pending part is saved as soon as the next page would push
    the sum over 90 % of the maximum size. Serialising a page is replaced by the given
    sequence of standalone page sizes. */
module SimpleSplitter {
  import opened Outcomes
  import opened Pages
  import opened Naming

  const SafetyFactor: real := 0.9

  /** Why `start_split` refuses to split. */
  datatype SizeError = NotPositive

  /** start_split: a maximum size that is not positive is rejected before any splitting
      happens; otherwise a part may reach 90 % of that size, in bytes. */
  function PartBudget(maxSizeMb: real): (r: Result<real, SizeError>)
    ensures r.Ok? <==> maxSizeMb > 0.0
    ensures r.Ok? ==> 0.0 < r.value < maxSizeMb * BytesPerMb
  {
    if maxSizeMb <= 0.0 then Err(NotPositive) else Ok(maxSizeMb * BytesPerMb * SafetyFactor)
  }

  /** Sum of the standalone sizes of pages lo..hi-1. */
  function Sum(sizes: seq<nat>, lo: nat, hi: nat): nat
    requires lo <= hi <= |sizes|
    decreases hi - lo
  {
    if lo == hi then 0 else Sum(sizes, lo, hi - 1) + sizes[hi - 1]
  }

  /** Adding pages to a part never makes its summed size smaller. */
  lemma {:induction false} SumGrows(sizes: seq<nat>, lo: nat, a: nat, b: nat)
    requires lo <= a <= b <= |sizes|
    ensures Sum(sizes, lo, a) <= Sum(sizes, lo, b)
    decreases b - a
  {
    if a < b {
      SumGrows(sizes, lo, a, b - 1);
    }
  }

  /** A part of two or more pages keeps to the budget; only a lone page may exceed it. */
  predicate WithinBudget(sizes: seq<nat>, budget: real, r: PageRange)
    requires r.first <= r.last < |sizes|
  {
    r.first < r.last ==> Sum(sizes, r.first, r.last + 1) as real <= budget
  }

  /** The part was closed because the next page would have taken it over the budget;
      a part that ends at the last page is closed by the end of the document. */
  predicate Closed(sizes: seq<nat>, budget: real, r: PageRange)
    requires r.first <= r.last < |sizes|
  {
    r.last + 1 < |sizes| ==> (Sum(sizes, r.first, r.last + 1) + sizes[r.last + 1]) as real > budget
  }

  /** `rs` is a greedy partition of pages lo..hi-1: consecutive non-empty parts, each
      within the budget and each closed only when the next page did not fit. */
  ghost predicate GreedyTiling(sizes: seq<nat>, budget: real, rs: seq<PageRange>, lo: nat, hi: nat)
    requires hi <= |sizes|
    decreases |rs|
  {
    if |rs| == 0 then lo == hi
    else
      rs[0].first == lo && lo <= rs[0].last < hi &&
      WithinBudget(sizes, budget, rs[0]) && Closed(sizes, budget, rs[0]) &&
      GreedyTiling(sizes, budget, rs[1..], rs[0].last + 1, hi)
  }

  /** A greedy partition is a tiling of its span. */
  lemma {:induction false} GreedyTilingTiles(sizes: seq<nat>, budget: real, rs: seq<PageRange>, lo: nat, hi: nat)
    requires hi <= |sizes|
    requires GreedyTiling(sizes, budget, rs, lo, hi)
    ensures Tiles(rs, lo, hi)
    decreases |rs|
  {
    if |rs| > 0 {
      GreedyTilingTiles(sizes, budget, rs[1..], rs[0].last + 1, hi);
    }
  }

  /** Appending a part that starts where a greedy partition stops, keeps to the budget
      and was closed, extends the partition. */
  lemma {:induction false} GreedyTilingExtend(sizes: seq<nat>, budget: real, rs: seq<PageRange>, lo: nat, mid: nat, e: nat)
    requires mid <= e < |sizes|
    requires GreedyTiling(sizes, budget, rs, lo, mid)
    requires WithinBudget(sizes, budget, PageRange(mid, e)) && Closed(sizes, budget, PageRange(mid, e))
    ensures GreedyTiling(sizes, budget, rs + [PageRange(mid, e)], lo, e + 1)
    decreases |rs|
  {
    var r := PageRange(mid, e);
    if |rs| == 0 {
      assert [r][1..] == [];
    } else {
      GreedyTilingExtend(sizes, budget, rs[1..], rs[0].last + 1, mid, e);
      assert (rs + [r])[1..] == rs[1..] + [r];
    }
  }

  // ---------------------------------------------------------------------------------
  // Reference definition: the greedy partition built part by part.

  /** Where the greedy part starting at `first` ends once it already holds first..e:
      the next page joins while the sum including it stays within the budget. */
  function GreedyEnd(sizes: seq<nat>, budget: real, first: nat, e: nat): (r: nat)
    requires first <= e < |sizes|
    ensures e <= r < |sizes|
    ensures r > e ==> Sum(sizes, first, r + 1) as real <= budget
    ensures r + 1 < |sizes| ==> Sum(sizes, first, r + 2) as real > budget
    decreases |sizes| - e
  {
    if e + 1 < |sizes| && Sum(sizes, first, e + 2) as real <= budget then GreedyEnd(sizes, budget, first, e + 1)
    else e
  }

  /** The greedy partition of pages lo..|sizes|-1. */
  function GreedyPlan(sizes: seq<nat>, budget: real, lo: nat): seq<PageRange>
    requires lo <= |sizes|
    decreases |sizes| - lo
  {
    if lo == |sizes| then []
    else
      var e := GreedyEnd(sizes, budget, lo, lo);
      [PageRange(lo, e)] + GreedyPlan(sizes, budget, e + 1)
  }

  /** The part `GreedyEnd` grows from its first page keeps to the budget and is
      closed. */
  lemma GreedyEndSound(sizes: seq<nat>, budget: real, first: nat)
    requires first < |sizes|
    ensures WithinBudget(sizes, budget, PageRange(first, GreedyEnd(sizes, budget, first, first)))
    ensures Closed(sizes, budget, PageRange(first, GreedyEnd(sizes, budget, first, first)))
  {
    var r := GreedyEnd(sizes, budget, first, first);
    if r + 1 < |sizes| {
      assert Sum(sizes, first, r + 2) == Sum(sizes, first, r + 1) + sizes[r + 1];
    }
  }

  /** A part that keeps to the budget and is closed is the one `GreedyEnd` grows. */
  lemma {:induction false} GreedyEndUnique(sizes: seq<nat>, budget: real, first: nat, e: nat, last: nat)
    requires first <= e <= last < |sizes|
    requires WithinBudget(sizes, budget, PageRange(first, last))
    requires Closed(sizes, budget, PageRange(first, last))
    ensures GreedyEnd(sizes, budget, first, e) == last
    decreases last - e
  {
    if e < last {
      SumGrows(sizes, first, e + 2, last + 1);
      GreedyEndUnique(sizes, budget, first, e + 1, last);
    } else if e + 1 < |sizes| {
      assert Sum(sizes, first, e + 2) == Sum(sizes, first, e + 1) + sizes[e + 1];
    }
  }

  /** The reference partition is greedy. */
  lemma {:induction false} GreedyPlanIsGreedy(sizes: seq<nat>, budget: real, lo: nat)
    requires lo <= |sizes|
    ensures GreedyTiling(sizes, budget, GreedyPlan(sizes, budget, lo), lo, |sizes|)
    decreases |sizes| - lo
  {
    if lo < |sizes| {
      var e := GreedyEnd(sizes, budget, lo, lo);
      GreedyEndSound(sizes, budget, lo);
      GreedyPlanIsGreedy(sizes, budget, e + 1);
      var rs := GreedyPlan(sizes, budget, lo);
      assert rs[0] == PageRange(lo, e) && rs[1..] == GreedyPlan(sizes, budget, e + 1);
    }
  }

  /** The reference partition is its first part followed by the reference partition
      of the rest. */
  lemma GreedyPlanCons(sizes: seq<nat>, budget: real, lo: nat, e: nat)
    requires lo <= e < |sizes| && e == GreedyEnd(sizes, budget, lo, lo)
    ensures GreedyPlan(sizes, budget, lo) == [PageRange(lo, e)] + GreedyPlan(sizes, budget, e + 1)
  {
  }

  /** There is only one greedy partition of a document: it is the reference one. */
  lemma {:induction false} GreedyTilingIsPlan(sizes: seq<nat>, budget: real, rs: seq<PageRange>, lo: nat)
    requires lo <= |sizes|
    requires GreedyTiling(sizes, budget, rs, lo, |sizes|)
    ensures rs == GreedyPlan(sizes, budget, lo)
    decreases |rs|
  {
    if |rs| == 0 {
      assert lo == |sizes|;
    } else {
      GreedyEndUnique(sizes, budget, lo, lo, rs[0].last);
      GreedyTilingIsPlan(sizes, budget, rs[1..], rs[0].last + 1);
      GreedyPlanCons(sizes, budget, lo, rs[0].last);
      assert rs == [rs[0]] + rs[1..];
    }
  }

  // ---------------------------------------------------------------------------------
  // The loop of perform_split.

  /** A part as `save_part` writes it: its number, its pages and the summed standalone
      size of its pages (`current_size`). */
  datatype SavedPart = SavedPart(number: nat, range: PageRange, size: nat)
  {
    /** The name the part is saved under. */
    function FileName(baseName: string): string { SavedFileName(baseName, number) }
  }

  /** The page ranges of the saved parts, in order. */
  function Ranges(saved: seq<SavedPart>): (rs: seq<PageRange>)
    ensures |rs| == |saved|
  {
    seq(|saved|, k requires 0 <= k < |saved| => saved[k].range)
  }

  /** The parts are numbered 1, 2, 3, ... and each records the summed size of its pages. */
  ghost predicate Recorded(sizes: seq<nat>, saved: seq<SavedPart>)
  {
    forall k :: 0 <= k < |saved| ==>
      saved[k].number == k + 1 &&
      saved[k].range.first <= saved[k].range.last < |sizes| &&
      saved[k].size == Sum(sizes, saved[k].range.first, saved[k].range.last + 1)
  }

  /** The progress percentage logged after page `pageIdx` of `totalPages`. */
  function Progress(pageIdx: nat, totalPages: nat): real
    requires pageIdx < totalPages
  {
    (pageIdx + 1) as real / totalPages as real * 100.0
  }

  /** `progress` holds the values logged for pages 0..count-1. */
  ghost predicate ProgressLogged(progress: seq<real>, count: nat, totalPages: nat)
  {
    count <= totalPages && |progress| == count &&
    forall k :: 0 <= k < count ==> progress[k] == Progress(k, totalPages)
  }

  /** The loop variables at the top of the `for`: the pending part is
      `current_pages == [first, ..., pageIdx-1]`. */
  datatype Loop = Loop(first: nat, currentSize: nat, partNum: nat, saved: seq<SavedPart>, progress: seq<real>)

  const Start := Loop(0, 0, 1, [], [])

  /** One pass of the loop body for page `pageIdx` (app.py:320-348). */
  function Step(sizes: seq<nat>, budget: real, pageIdx: nat, st: Loop): Loop
    requires st.first <= pageIdx < |sizes|
  {
    var pageSize := sizes[pageIdx];
    var st' :=
      if (st.currentSize + pageSize) as real > budget && st.first < pageIdx then
        var part := SavedPart(st.partNum, PageRange(st.first, pageIdx - 1), st.currentSize);
        Loop(pageIdx, 0, st.partNum + 1, st.saved + [part], st.progress)
      else st;
    st'.(currentSize := st'.currentSize + pageSize, progress := st'.progress + [Progress(pageIdx, |sizes|)])
  }

  /** What holds at the top of the loop before page `pageIdx`. */
  ghost predicate Invariant(sizes: seq<nat>, budget: real, pageIdx: nat, st: Loop)
  {
    st.first <= pageIdx <= |sizes| &&
    (pageIdx > 0 ==> st.first < pageIdx) &&
    st.currentSize == Sum(sizes, st.first, pageIdx) &&
    (st.first + 1 < pageIdx ==> st.currentSize as real <= budget) &&
    st.partNum == |st.saved| + 1 &&
    Recorded(sizes, st.saved) &&
    GreedyTiling(sizes, budget, Ranges(st.saved), 0, st.first) &&
    ProgressLogged(st.progress, pageIdx, |sizes|)
  }

  /** Saving the pending part keeps the saved parts numbered and measured. */
  lemma RecordedAppend(sizes: seq<nat>, saved: seq<SavedPart>, p: SavedPart)
    requires Recorded(sizes, saved)
    requires p.number == |saved| + 1
    requires p.range.first <= p.range.last < |sizes|
    requires p.size == Sum(sizes, p.range.first, p.range.last + 1)
    ensures Recorded(sizes, saved + [p])
  {
  }

  /** The ranges of the saved parts after one more part is saved. */
  lemma RangesAppend(saved: seq<SavedPart>, p: SavedPart)
    ensures Ranges(saved + [p]) == Ranges(saved) + [p.range]
  {
  }

  /** One pass of the loop body keeps the invariant. */
  lemma StepKeepsInvariant(sizes: seq<nat>, budget: real, pageIdx: nat, st: Loop)
    requires pageIdx < |sizes|
    requires Invariant(sizes, budget, pageIdx, st)
    ensures Invariant(sizes, budget, pageIdx + 1, Step(sizes, budget, pageIdx, st))
  {
    var next := Step(sizes, budget, pageIdx, st);
    var pageSize := sizes[pageIdx];
    if (st.currentSize + pageSize) as real > budget && st.first < pageIdx {
      var r := PageRange(st.first, pageIdx - 1);
      var part := SavedPart(st.partNum, r, st.currentSize);
      assert WithinBudget(sizes, budget, r);
      assert Closed(sizes, budget, r);
      GreedyTilingExtend(sizes, budget, Ranges(st.saved), 0, st.first, pageIdx - 1);
      RangesAppend(st.saved, part);
      RecordedAppend(sizes, st.saved, part);
      assert next.saved == st.saved + [part];
      assert next.currentSize == Sum(sizes, pageIdx, pageIdx + 1);
    } else {
      assert next.currentSize == Sum(sizes, st.first, pageIdx + 1);
    }
  }

  /** The loop from page `pageIdx` to the end. */
  function Run(sizes: seq<nat>, budget: real, pageIdx: nat, st: Loop): (r: Loop)
    requires Invariant(sizes, budget, pageIdx, st)
    ensures Invariant(sizes, budget, |sizes|, r)
    decreases |sizes| - pageIdx
  {
    if pageIdx == |sizes| then st
    else
      StepKeepsInvariant(sizes, budget, pageIdx, st);
      Run(sizes, budget, pageIdx + 1, Step(sizes, budget, pageIdx, st))
  }

  /** What perform_split leaves behind: the parts it saved, the `part_num` it reports
      as the total, and the progress values it logged. */
  datatype Split = Split(saved: seq<SavedPart>, partNum: nat, progress: seq<real>)

  /** perform_split's partition loop (app.py:310-354), followed by saving the trailing
      part when pages are pending. The saved parts are the greedy partition of the
      document, numbered from 1 and each recording its summed size; the reported total
      is the number of saved parts, except for an empty document, for which it is 1. */
  function PerformSplit(sizes: seq<nat>, budget: real): (r: Split)
    ensures GreedyTiling(sizes, budget, Ranges(r.saved), 0, |sizes|)
    ensures Ranges(r.saved) == GreedyPlan(sizes, budget, 0)
    ensures Recorded(sizes, r.saved)
    ensures r.partNum == if |sizes| == 0 then 1 else |r.saved|
    ensures ProgressLogged(r.progress, |sizes|, |sizes|)
  {
    var st := Run(sizes, budget, 0, Start);
    if st.first < |sizes| then
      var part := SavedPart(st.partNum, PageRange(st.first, |sizes| - 1), st.currentSize);
      var r := Split(st.saved + [part], st.partNum, st.progress);
      assert WithinBudget(sizes, budget, part.range);
      GreedyTilingExtend(sizes, budget, Ranges(st.saved), 0, st.first, |sizes| - 1);
      RangesAppend(st.saved, part);
      RecordedAppend(sizes, st.saved, part);
      GreedyTilingIsPlan(sizes, budget, Ranges(r.saved), 0);
      r
    else
      GreedyTilingIsPlan(sizes, budget, Ranges(st.saved), 0);
      Split(st.saved, st.partNum, st.progress)
  }

  /** start_split followed by perform_split: a non-positive maximum size is rejected
      before any page is looked at. */
  function SplitDocument(sizes: seq<nat>, maxSizeMb: real): (r: Result<Split, SizeError>)
    ensures r.Err? <==> maxSizeMb <= 0.0
    ensures r.Ok? ==> r.value == PerformSplit(sizes, maxSizeMb * BytesPerMb * SafetyFactor)
  {
    match PartBudget(maxSizeMb)
    case Err(e) => Err(e)
    case Ok(budget) => Ok(PerformSplit(sizes, budget))
  }

  // ---------------------------------------------------------------------------------
  // Properties of the saved parts.

  /** Writing the saved parts one after the other gives every page of the document
      exactly once, in order; every part is non-empty, and when the document has pages
      the trailing part, which ends at the last page, is saved too. */
  lemma PerformSplitCovers(sizes: seq<nat>, budget: real)
    ensures Flatten(Ranges(PerformSplit(sizes, budget).saved)) == Span(0, |sizes|)
    ensures forall k :: 0 <= k < |PerformSplit(sizes, budget).saved| ==>
      PerformSplit(sizes, budget).saved[k].range.Count() >= 1
    ensures |sizes| > 0 <==> |PerformSplit(sizes, budget).saved| > 0
    ensures |sizes| > 0 ==> PerformSplit(sizes, budget).saved[|PerformSplit(sizes, budget).saved| - 1].range.last == |sizes| - 1
  {
    var r := PerformSplit(sizes, budget);
    var rs := Ranges(r.saved);
    GreedyTilingTiles(sizes, budget, rs, 0, |sizes|);
    TilesFlatten(rs, 0, |sizes|);
    TilesEnds(rs, 0, |sizes|);
    forall k | 0 <= k < |r.saved|
      ensures r.saved[k].range.Count() >= 1
    {
      TilesWithin(rs, 0, |sizes|, k);
    }
  }

  /** Budget and maximality: a saved part of two or more pages sums to at most the
      budget, and every saved part but the last would have gone over the budget with the
      page that follows it. */
  lemma {:induction false} GreedyTilingBudget(sizes: seq<nat>, budget: real, rs: seq<PageRange>, lo: nat, k: nat)
    requires GreedyTiling(sizes, budget, rs, lo, |sizes|)
    requires k < |rs|
    ensures rs[k].first <= rs[k].last < |sizes|
    ensures rs[k].first < rs[k].last ==> Sum(sizes, rs[k].first, rs[k].last + 1) as real <= budget
    ensures k + 1 < |rs| ==>
      rs[k].last + 1 < |sizes| &&
      (Sum(sizes, rs[k].first, rs[k].last + 1) + sizes[rs[k].last + 1]) as real > budget
    decreases k
  {
    if k > 0 {
      GreedyTilingBudget(sizes, budget, rs[1..], rs[0].last + 1, k - 1);
      assert rs[k] == rs[1..][k - 1];
    } else if 1 < |rs| {
      GreedyTilingTiles(sizes, budget, rs[1..], rs[0].last + 1, |sizes|);
      TilesWithin(rs[1..], rs[0].last + 1, |sizes|, 0);
    }
  }

  /** The same two facts about the parts perform_split saves. */
  lemma PerformSplitBudget(sizes: seq<nat>, budget: real, k: nat)
    requires k < |PerformSplit(sizes, budget).saved|
    ensures var p := PerformSplit(sizes, budget).saved[k];
      p.range.first < p.range.last ==> p.size as real <= budget
    ensures var saved := PerformSplit(sizes, budget).saved;
      k + 1 < |saved| ==>
        saved[k].range.last + 1 < |sizes| &&
        (saved[k].size + sizes[saved[k].range.last + 1]) as real > budget
  {
    var saved := PerformSplit(sizes, budget).saved;
    GreedyTilingBudget(sizes, budget, Ranges(saved), 0, k);
  }

  /** The saved parts are strictly increasing and pairwise disjoint. */
  lemma PerformSplitOrdered(sizes: seq<nat>, budget: real, i: nat, j: nat)
    requires i < j < |PerformSplit(sizes, budget).saved|
    ensures PerformSplit(sizes, budget).saved[i].range.last < PerformSplit(sizes, budget).saved[j].range.first
  {
    var rs := Ranges(PerformSplit(sizes, budget).saved);
    GreedyTilingTiles(sizes, budget, rs, 0, |sizes|);
    TilesOrdered(rs, 0, |sizes|, i, j);
  }

  /** Every page of the document is in some saved part. */
  lemma PerformSplitCoversPage(sizes: seq<nat>, budget: real, page: nat)
    requires page < |sizes|
    ensures exists k ::
      && 0 <= k < |PerformSplit(sizes, budget).saved|
      && PerformSplit(sizes, budget).saved[k].range.first <= page <= PerformSplit(sizes, budget).saved[k].range.last
  {
    var saved := PerformSplit(sizes, budget).saved;
    var rs := Ranges(saved);
    GreedyTilingTiles(sizes, budget, rs, 0, |sizes|);
    TilesCover(rs, 0, |sizes|, page);
    var k :| 0 <= k < |rs| && rs[k].first <= page <= rs[k].last;
    assert saved[k].range == rs[k];
  }

  /** The parts are saved under distinct names, numbered 1, 2, 3, ... without gaps. */
  lemma PerformSplitNames(sizes: seq<nat>, budget: real, baseName: string, i: nat, j: nat)
    requires i < |PerformSplit(sizes, budget).saved| && j < |PerformSplit(sizes, budget).saved|
    ensures PerformSplit(sizes, budget).saved[i].number == i + 1
    ensures i != j ==>
      PerformSplit(sizes, budget).saved[i].FileName(baseName) != PerformSplit(sizes, budget).saved[j].FileName(baseName)
  {
    var saved := PerformSplit(sizes, budget).saved;
    if i != j && saved[i].FileName(baseName) == saved[j].FileName(baseName) {
      SavedFileNameInjective(baseName, saved[i].number, saved[j].number);
    }
  }

  /** The logged progress rises strictly from page to page, stays within (0, 100], and
      reaches 100 exactly at the last page. */
  lemma ProgressRises(a: nat, b: nat, totalPages: nat)
    requires a < b < totalPages
    ensures Progress(a, totalPages) < Progress(b, totalPages)
  {
    var t := totalPages as real;
    assert (a + 1) as real / t < (b + 1) as real / t;
  }

  lemma ProgressRange(pageIdx: nat, totalPages: nat)
    requires pageIdx < totalPages
    ensures 0.0 < Progress(pageIdx, totalPages) <= 100.0
    ensures Progress(pageIdx, totalPages) == 100.0 <==> pageIdx == totalPages - 1
  {
    var t := totalPages as real;
    var q := (pageIdx + 1) as real / t;
    assert q * t == (pageIdx + 1) as real;
    if pageIdx + 1 < totalPages {
      assert q < 1.0;
    } else {
      assert q == 1.0;
    }
  }

  /** The progress values perform_split logs, one per page, rise strictly, stay
      within (0, 100] and end at 100. */
  lemma PerformSplitProgress(sizes: seq<nat>, budget: real)
    ensures var p := PerformSplit(sizes, budget).progress;
      && |p| == |sizes|
      && (forall i, j :: 0 <= i < j < |p| ==> p[i] < p[j])
      && (forall i :: 0 <= i < |p| ==> 0.0 < p[i] <= 100.0)
      && (|p| > 0 ==> p[|p| - 1] == 100.0)
  {
    var p := PerformSplit(sizes, budget).progress;
    forall i, j | 0 <= i < j < |p|
      ensures p[i] < p[j]
    {
      ProgressRises(i, j, |sizes|);
    }
    forall i | 0 <= i < |p|
      ensures 0.0 < p[i] <= 100.0
    {
      ProgressRange(i, |sizes|);
    }
    if |p| > 0 {
      ProgressRange(|p| - 1, |sizes|);
    }
  }

  /** The page range logged for a part, 1-based: `first+1` and `last+1` in decimal,
      joined by a dash. */
  function LoggedPages(r: PageRange): string
  {
    Digits(r.first + 1) + "-" + Digits(r.last + 1)
  }

  /** The logged range reads back as the part's 1-based first and last page: the text
      splits at its only dash into two decimal numbers. */
  lemma LoggedPagesReadBack(r: PageRange)
    ensures var s := LoggedPages(r); var j := |Digits(r.first + 1)|;
      j < |s| && s[j] == '-' && AllDigits(s[..j]) && AllDigits(s[j + 1..]) &&
      Value(s[..j]) == r.first + 1 && Value(s[j + 1..]) == r.last + 1
  {
    var s := LoggedPages(r);
    var j := |Digits(r.first + 1)|;
    DigitsRoundTrip(r.first + 1);
    DigitsRoundTrip(r.last + 1);
    assert s[..j] == Digits(r.first + 1);
    assert s[j + 1..] == Digits(r.last + 1);
  }

  // ---------------------------------------------------------------------------------
  // The reported total.

  /** As written, perform_split reports `part_num` parts; for a document without pages
      that is 1 although no part is saved. */
  lemma EmptyDocumentReportsOnePart(budget: real)
    ensures PerformSplit([], budget).partNum == 1
    ensures PerformSplit([], budget).saved == []
  {
  }

  /** The total the summary evidently means: the number of parts saved. */
  function PartsSaved(r: Split): nat
  {
    |r.saved|
  }

  /** The corrected total agrees with `part_num` whenever the document has pages, and
      is 0 exactly when it has none. */
  lemma PartsSavedCounts(sizes: seq<nat>, budget: real)
    ensures |sizes| > 0 ==> PartsSaved(PerformSplit(sizes, budget)) == PerformSplit(sizes, budget).partNum
    ensures PartsSaved(PerformSplit(sizes, budget)) == 0 <==> |sizes| == 0
  {
    PerformSplitCovers(sizes, budget);
  }
}
