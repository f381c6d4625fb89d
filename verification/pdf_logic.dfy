/** The web splitter's partitioner (`split_pdf` in pdf_logic.py): pages are appended to
    a pending run, the whole run is serialised only every fifth page and at the last
    page, and a run that turns out too large is shortened from the tail, one page and
    one re-serialisation at a time, until a prefix fits; the pages taken off are
    processed again as the start of the next part.

    Serialisation (pypdf's `PdfWriter.write`) is replaced by an oracle `measure`
    giving the byte size of a contiguous run of pages. */
module PdfLogic {
  import opened Pages
  import opened Naming
  import opened Outcomes

  /** `measure(first, last)`: byte length of pages `first..last` serialised as one
      document. Not additive: pages may share embedded resources. */
  type Measure = (nat, nat) -> nat

  /** The run length at which the pending run is serialised (besides the last page). */
  const ProbeInterval: nat := 5

  /** Fraction of the requested maximum that a part may use. */
  const SafetyFactor: real := 0.95

  /** Effective byte threshold for a maximum given in megabytes (exact arithmetic). */
  function Threshold(maxSizeMb: real): real
  {
    maxSizeMb * BytesPerMb * SafetyFactor
  }

  /** The run `first..last` serialises within the threshold. */
  predicate Fits(measure: Measure, t: real, first: nat, last: nat)
  {
    measure(first, last) as real <= t
  }

  /** Appending pages to the tail of a run never makes it smaller. This is the
      assumption under which shortening from the tail finds the longest fitting run;
      the algorithm itself does not depend on it to terminate or to cover all pages. */
  ghost predicate Monotone(measure: Measure, n: nat)
  {
    forall s: nat, e1: nat, e2: nat :: s <= e1 <= e2 < n ==> measure(s, e1) <= measure(s, e2)
  }

  /** An emitted part: its 1-based part number, page run, byte length of its content,
      and whether it is a single page whose own size is already over the threshold. */
  datatype Part = Part(number: nat, range: PageRange, size: nat, overBudget: bool)
  {
    /** The file name the part is emitted under, `parte_NNN.pdf`. */
    function Name(): string { PartName(number) }
  }

  /** One serialisation performed: of the whole pending run, or of a shortened run
      while backtracking. */
  datatype Probe = Forward(range: PageRange) | Backtrack(range: PageRange)

  function Ranges(parts: seq<Part>): seq<PageRange>
  {
    seq(|parts|, k requires 0 <= k < |parts| => parts[k].range)
  }

  /** A run that is settled as a part: either it fits and, unless it reaches the last
      page, one more page would not fit; or it is one page that does not fit alone. */
  ghost predicate Settled(measure: Measure, t: real, n: nat, r: PageRange)
  {
    || (Fits(measure, t, r.first, r.last) && (r.last + 1 < n ==> !Fits(measure, t, r.first, r.last + 1)))
    || (r.first == r.last && !Fits(measure, t, r.first, r.first))
  }

  /** The `number`-th emitted part (1-based) is numbered, sized and flagged as the source
      emits it, and its run is settled. */
  ghost predicate Committed(measure: Measure, t: real, n: nat, p: Part, number: nat)
  {
    && p.number == number
    && p.size == measure(p.range.first, p.range.last)
    && (p.overBudget <==> !Fits(measure, t, p.range.first, p.range.last))
    && (p.overBudget ==> p.range.first == p.range.last)
    && Settled(measure, t, n, p.range)
  }

  /** A serialisation of a non-empty run of existing pages; a forward one happens only
      when the run length is a multiple of the interval or the run reaches the last
      page. */
  predicate ProbeAllowed(p: Probe, interval: nat, n: nat)
    requires interval >= 1
  {
    && p.range.Valid()
    && p.range.last < n
    && (p.Forward? ==> p.range.Count() % interval == 0 || p.range.last == n - 1)
  }

  /** Reference boundary, free of batching: from the run `first..e`, keep adding one
      page while the longer run still fits, and stop at the last page. */
  function GrowEnd(measure: Measure, t: real, n: nat, first: nat, e: nat): (r: nat)
    requires first <= e < n
    ensures e <= r < n
    ensures forall m :: e < m <= r ==> Fits(measure, t, first, m)
    ensures r + 1 < n ==> !Fits(measure, t, first, r + 1)
    decreases n - e
  {
    if e + 1 == n || !Fits(measure, t, first, e + 1) then e
    else GrowEnd(measure, t, n, first, e + 1)
  }

  /** Last page of the reference run starting at `lo`. */
  function RunEnd(measure: Measure, t: real, n: nat, lo: nat): (e: nat)
    requires lo < n
    ensures lo <= e < n
  {
    GrowEnd(measure, t, n, lo, lo)
  }

  /** Reference partition of pages `lo..n-1`: each part is the run grown page by page
      from its first page. */
  function ReferencePlan(measure: Measure, t: real, n: nat, lo: nat): seq<PageRange>
    requires lo <= n
    decreases n - lo
  {
    if lo == n then []
    else [PageRange(lo, RunEnd(measure, t, n, lo))] + ReferencePlan(measure, t, n, RunEnd(measure, t, n, lo) + 1)
  }

  /** Prepending a settled run to a settled tiling of the pages after it gives a
      settled tiling. */
  lemma SettledTilingCons(measure: Measure, t: real, n: nat, r: PageRange, rest: seq<PageRange>, rs: seq<PageRange>)
    requires r.Valid() && Settled(measure, t, n, r)
    requires SettledTiling(measure, t, n, rest, r.last + 1)
    requires rs == [r] + rest
    ensures SettledTiling(measure, t, n, rs, r.first)
  {
    TilesCons(r, rest, n);
    assert forall k :: 0 < k < |rs| ==> rs[k] == rest[k - 1];
  }

  /** `rs` tiles `lo..n-1` with settled runs. */
  ghost predicate SettledTiling(measure: Measure, t: real, n: nat, rs: seq<PageRange>, lo: nat)
  {
    Tiles(rs, lo, n) && forall k {:trigger Settled(measure, t, n, rs[k])} :: 0 <= k < |rs| ==> Settled(measure, t, n, rs[k])
  }

  /** The run grown from `lo` is settled. */
  lemma GrownRunSettled(measure: Measure, t: real, n: nat, lo: nat)
    requires lo < n
    ensures Settled(measure, t, n, PageRange(lo, RunEnd(measure, t, n, lo)))
  {
  }

  /** The reference partition tiles the pages and every part is settled. */
  lemma {:induction false} ReferencePlanSettled(measure: Measure, t: real, n: nat, lo: nat)
    requires lo <= n
    ensures SettledTiling(measure, t, n, ReferencePlan(measure, t, n, lo), lo)
    decreases n - lo
  {
    var rs := ReferencePlan(measure, t, n, lo);
    if lo == n {
      assert rs == [];
    } else {
      var e := RunEnd(measure, t, n, lo);
      var rest := ReferencePlan(measure, t, n, e + 1);
      ReferencePlanSettled(measure, t, n, e + 1);
      GrownRunSettled(measure, t, n, lo);
      SettledTilingCons(measure, t, n, PageRange(lo, e), rest, rs);
    }
  }

  /** Under a monotone measure, growing from any point inside a settled run stops
      exactly at that run's end. */
  lemma {:induction false} GrowEndReaches(measure: Measure, t: real, n: nat, s: nat, e: nat, from: nat)
    requires Monotone(measure, n)
    requires s <= from <= e < n
    requires Settled(measure, t, n, PageRange(s, e))
    ensures GrowEnd(measure, t, n, s, from) == e
    decreases e - from
  {
    if from < e {
      assert measure(s, from + 1) <= measure(s, e);
      GrowEndReaches(measure, t, n, s, e, from + 1);
    } else if e + 1 < n && !Fits(measure, t, s, e) {
      assert measure(s, e) <= measure(s, e + 1);
    }
  }

  /** A run that starts at `r.first` and ends where the reference grows to. */
  ghost predicate GrownRun(measure: Measure, t: real, n: nat, r: PageRange)
  {
    r.first <= r.last < n && r.last == RunEnd(measure, t, n, r.first)
  }

  /** The reference partition is its first run followed by the reference partition
      of the rest. */
  lemma ReferencePlanCons(measure: Measure, t: real, n: nat, lo: nat, rs: seq<PageRange>)
    requires lo < n && |rs| > 0
    requires rs[0] == PageRange(lo, RunEnd(measure, t, n, lo))
    requires rs[1..] == ReferencePlan(measure, t, n, rs[0].last + 1)
    ensures rs == ReferencePlan(measure, t, n, lo)
  {
    assert rs == [rs[0]] + rs[1..];
  }

  /** `rs` tiles `lo..n-1` with runs grown as the reference grows them. */
  ghost predicate GrownTiling(measure: Measure, t: real, n: nat, rs: seq<PageRange>, lo: nat)
  {
    Tiles(rs, lo, n) && forall k :: 0 <= k < |rs| ==> GrownRun(measure, t, n, rs[k])
  }

  lemma GrownTilingTail(measure: Measure, t: real, n: nat, rs: seq<PageRange>, lo: nat)
    requires GrownTiling(measure, t, n, rs, lo)
    requires |rs| > 0
    ensures rs[0] == PageRange(lo, RunEnd(measure, t, n, lo))
    ensures GrownTiling(measure, t, n, rs[1..], rs[0].last + 1)
  {
    TilesTail(rs, lo, n);
    assert GrownRun(measure, t, n, rs[0]);
    assert forall k :: 0 <= k < |rs[1..]| ==> rs[1..][k] == rs[k + 1];
  }

  /** A tiling in which every run is grown as the reference grows it is the reference
      partition. */
  lemma {:induction false} GrownTilingIsReference(measure: Measure, t: real, n: nat, rs: seq<PageRange>, lo: nat)
    requires GrownTiling(measure, t, n, rs, lo)
    ensures rs == ReferencePlan(measure, t, n, lo)
    decreases |rs|
  {
    if |rs| == 0 {
      assert lo == n;
    } else {
      GrownTilingTail(measure, t, n, rs, lo);
      GrownTilingIsReference(measure, t, n, rs[1..], rs[0].last + 1);
      ReferencePlanCons(measure, t, n, lo, rs);
    }
  }

  /** Under a monotone measure, a tiling made of settled runs is the reference
      partition: the settled condition fixes every boundary. */
  lemma SettledTilingIsReference(measure: Measure, t: real, n: nat, rs: seq<PageRange>, lo: nat)
    requires Monotone(measure, n)
    requires SettledTiling(measure, t, n, rs, lo)
    ensures rs == ReferencePlan(measure, t, n, lo)
  {
    forall k | 0 <= k < |rs|
      ensures GrownRun(measure, t, n, rs[k])
    {
      TilesWithin(rs, lo, n, k);
      GrowEndReaches(measure, t, n, rs[k].first, rs[k].last, rs[k].first);
    }
    GrownTilingIsReference(measure, t, n, rs, lo);
  }

  /** `parts` tiles pages `0..upto-1` and each is committed as the source emits it. */
  ghost predicate Emitted(measure: Measure, t: real, n: nat, parts: seq<Part>, upto: nat)
  {
    && Tiles(Ranges(parts), 0, upto)
    && forall k :: 0 <= k < |parts| ==> Committed(measure, t, n, parts[k], k + 1)
  }

  ghost predicate AllAllowed(probes: seq<Probe>, interval: nat, n: nat)
    requires interval >= 1
  {
    forall k :: 0 <= k < |probes| ==> ProbeAllowed(probes[k], interval, n)
  }

  lemma AllowedAppend(probes: seq<Probe>, more: seq<Probe>, interval: nat, n: nat)
    requires interval >= 1
    requires AllAllowed(probes, interval, n)
    requires AllAllowed(more, interval, n)
    ensures AllAllowed(probes + more, interval, n)
  {
  }

  /** Under a monotone measure, parts emitted over the whole document are the
      reference partition. */
  lemma EmittedIsReference(measure: Measure, t: real, n: nat, parts: seq<Part>)
    requires Emitted(measure, t, n, parts, n)
    ensures Monotone(measure, n) ==> Ranges(parts) == ReferencePlan(measure, t, n, 0)
  {
    assert SettledTiling(measure, t, n, Ranges(parts), 0);
    if Monotone(measure, n) {
      SettledTilingIsReference(measure, t, n, Ranges(parts), 0);
    }
  }

  /** Emitting the next committed part, which starts where the emitted ones end,
      extends the emitted span to that part's end. */
  lemma EmitNext(measure: Measure, t: real, n: nat, parts: seq<Part>, upto: nat, p: Part)
    requires Emitted(measure, t, n, parts, upto)
    requires p.range.first == upto <= p.range.last
    requires Committed(measure, t, n, p, |parts| + 1)
    ensures Emitted(measure, t, n, parts + [p], p.range.last + 1)
  {
    assert Ranges(parts + [p]) == Ranges(parts) + [p.range];
    TilesExtend(Ranges(parts), 0, upto, p.range.last);
  }

  /** The backtracking of pdf_logic.py:45-77 on a pending run `start..top` of two or
      more pages that is over the threshold: drop the tail page and re-serialise until
      the run fits or one page is left. Returns the committed part and the
      serialisations made. */
  method ShortenFromTail(n: nat, measure: Measure, t: real, start: nat, top: nat, number: nat)
    returns (part: Part, steps: seq<Probe>)
    requires start < top < n
    requires !Fits(measure, t, start, top)
    ensures Committed(measure, t, n, part, number)
    ensures part.range.first == start <= part.range.last < top
    ensures forall k :: 0 <= k < |steps| ==> steps[k].Backtrack? && steps[k].range.first == start
    ensures forall k :: 0 <= k < |steps| ==> start <= steps[k].range.last < top
    ensures forall j :: part.range.last < j <= top ==> !Fits(measure, t, start, j)
    ensures |steps| == top - part.range.last
    ensures forall k :: 0 <= k < |steps| ==> steps[k].range.last == top - 1 - k
  {
    steps := [];
    var i := top;
    var found := false;
    while start < i && !found
      invariant start <= i <= top
      invariant found ==> Fits(measure, t, start, i) && i < top && !Fits(measure, t, start, i + 1)
      invariant !found ==> !Fits(measure, t, start, i)
      invariant forall j :: i < j <= top ==> !Fits(measure, t, start, j)
      invariant |steps| == top - i
      invariant forall k :: 0 <= k < |steps| ==> steps[k].range.last == top - 1 - k
      invariant forall k :: 0 <= k < |steps| ==> steps[k].Backtrack? && steps[k].range.first == start
      invariant forall k :: 0 <= k < |steps| ==> start <= steps[k].range.last < top
      decreases i - start
    {
      i := i - 1;
      var shorter := measure(start, i);
      steps := steps + [Backtrack(PageRange(start, i))];
      found := shorter as real <= t;
    }
    if found {
      part := Part(number, PageRange(start, i), measure(start, i), false);
    } else {
      // Divergence from pdf_logic.py:72-77: there the loop's `else: pass` emits
      // nothing and keeps the stale writer, so this page is never split off.
      // As the comment there intends, the page is committed alone, over budget.
      part := Part(number, PageRange(start, start), measure(start, start), true);
    }
  }

  /** What `split_pdf` does once the pending run `start..i` has been serialised to
      `size` bytes (pdf_logic.py:40-87): a run over the threshold is committed
      (shortened from the tail first when it has two or more pages); a fitting run is
      committed only at the last page. Returns whether a part was committed, the part,
      and the serialisations made while shortening. */
  method AfterProbe(n: nat, measure: Measure, t: real, start: nat, i: nat, number: nat, size: nat)
    returns (committed: bool, part: Part, steps: seq<Probe>)
    requires start <= i < n
    requires size == measure(start, i)
    ensures committed <==> !Fits(measure, t, start, i) || i == n - 1
    ensures committed ==> Committed(measure, t, n, part, number)
    ensures committed ==> part.range.first == start <= part.range.last <= i
    ensures Fits(measure, t, start, i) && i == n - 1 ==> part.range.last == i
    ensures forall k :: 0 <= k < |steps| ==> steps[k].Backtrack? && steps[k].range.first == start
    ensures forall k :: 0 <= k < |steps| ==> start <= steps[k].range.last < i
  {
    steps := [];
    committed := false;
    part := Part(number, PageRange(start, i), size, false);
    if size as real > t {
      committed := true;
      if i > start {
        part, steps := ShortenFromTail(n, measure, t, start, i, number);
      } else {
        // A one-page run that does not fit is a part of its own.
        part := Part(number, PageRange(start, i), size, true);
      }
    } else if i == n - 1 {
      // Last page reached and the run fits: it is the final part.
      committed := true;
    }
  }

  /** `split_pdf` with the run serialised every `interval` pages (the source uses 5)
      against the byte threshold `t`. Returns the parts and the serialisations it
      performed, in order. */
  method SplitPdfEvery(n: nat, measure: Measure, t: real, interval: nat)
    returns (parts: seq<Part>, probes: seq<Probe>)
    requires interval >= 1
    ensures Tiles(Ranges(parts), 0, n)
    ensures forall k :: 0 <= k < |parts| ==> Committed(measure, t, n, parts[k], k + 1)
    ensures forall k :: 0 <= k < |probes| ==> ProbeAllowed(probes[k], interval, n)
    ensures n == 0 ==> probes == []
    ensures Monotone(measure, n) ==> Ranges(parts) == ReferencePlan(measure, t, n, 0)
  {
    parts := [];
    probes := [];
    var start: nat := 0;
    var i: nat := 0;
    // The pending run (`current_pages`) is start..i-1, empty when start == i.
    while i < n
      invariant start <= i <= n
      invariant i == n ==> start == n
      invariant i == 0 ==> probes == []
      invariant Emitted(measure, t, n, parts, start)
      invariant AllAllowed(probes, interval, n)
      decreases n - start, n - i
    {
      // Page i joins the pending run start..i.
      if (i - start + 1) % interval == 0 || i == n - 1 {
        var size := measure(start, i);
        var committed, part, steps := AfterProbe(n, measure, t, start, i, |parts| + 1, size);
        assert AllAllowed([Forward(PageRange(start, i))] + steps, interval, n);
        AllowedAppend(probes, [Forward(PageRange(start, i))] + steps, interval, n);
        probes := probes + ([Forward(PageRange(start, i))] + steps);
        if committed {
          EmitNext(measure, t, n, parts, start, part);
          parts := parts + [part];
          // Pages after the part's end, dropped while shortening, are processed again.
          i := part.range.last;
          start := i + 1;
        }
      }
      i := i + 1;
    }
    EmittedIsReference(measure, t, n, parts);
  }

  /** `split_pdf(input, max_size_mb)` over a document of `n` pages. Under a monotone
      measure its parts are the reference partition, so the probe interval affects
      only how many serialisations are made. */
  method SplitPdf(n: nat, measure: Measure, maxSizeMb: real)
    returns (parts: seq<Part>, probes: seq<Probe>)
    ensures Tiles(Ranges(parts), 0, n)
    ensures forall k :: 0 <= k < |parts| ==> Committed(measure, Threshold(maxSizeMb), n, parts[k], k + 1)
    ensures forall k :: 0 <= k < |probes| ==> ProbeAllowed(probes[k], ProbeInterval, n)
    ensures n == 0 ==> parts == [] && probes == []
    ensures Monotone(measure, n) ==> Ranges(parts) == ReferencePlan(measure, Threshold(maxSizeMb), n, 0)
  {
    parts, probes := SplitPdfEvery(n, measure, Threshold(maxSizeMb), ProbeInterval);
  }

  /** Under a monotone measure a settled run is the longest fitting run from its first
      page: no longer run from there fits. */
  lemma SettledIsLongestFit(measure: Measure, t: real, n: nat, r: PageRange, e: nat)
    requires Monotone(measure, n)
    requires r.first <= r.last < e < n
    requires Settled(measure, t, n, r)
    ensures !Fits(measure, t, r.first, e)
  {
    if Fits(measure, t, r.first, r.last) {
      assert measure(r.first, r.last + 1) <= measure(r.first, e);
    } else {
      assert measure(r.first, r.first) <= measure(r.first, e);
    }
  }

  /** Parts numbered 1, 2, 3, ... in emission order, as committed parts are, carry
      distinct file names from which their part number reads back. */
  lemma NumberedPartNames(parts: seq<Part>, i: nat, j: nat)
    requires forall k :: 0 <= k < |parts| ==> parts[k].number == k + 1
    requires i < |parts| && j < |parts|
    ensures ParsePartName(parts[i].Name()) == Some(i + 1)
    ensures i != j ==> parts[i].Name() != parts[j].Name()
  {
    var a := parts[i].number;
    var b := parts[j].number;
    assert a == i + 1 && b == j + 1;
    PartNameRoundTrip(a);
    if i != j && PartName(a) == PartName(b) {
      PartNameInjective(a, b);
    }
  }

  /** Parts whose ranges tile the document, as `SplitPdfEvery` emits them, are strictly
      increasing and pairwise disjoint, and every page lies in one of them. */
  lemma TiledPartsOrdered(parts: seq<Part>, n: nat, i: nat, j: nat)
    requires Tiles(Ranges(parts), 0, n)
    requires i < j < |parts|
    ensures parts[i].range.last < parts[j].range.first
  {
    TilesOrdered(Ranges(parts), 0, n, i, j);
  }

  lemma TiledPartsCover(parts: seq<Part>, n: nat, page: nat)
    requires Tiles(Ranges(parts), 0, n)
    requires page < n
    ensures exists k :: 0 <= k < |parts| && parts[k].range.first <= page <= parts[k].range.last
  {
    TilesCover(Ranges(parts), 0, n, page);
    var k :| 0 <= k < |parts| && Ranges(parts)[k].first <= page <= Ranges(parts)[k].last;
    assert parts[k].range == Ranges(parts)[k];
  }
}
