/** Page ranges, and the tiling invariant both partitioners promise of their output:
    the parts are non-empty contiguous runs that follow one another without gap or
    overlap and together cover a span of page ordinals. */
module Pages {

  /** Bytes in one megabyte, as both splitters convert a maximum size given in MB. */
  const BytesPerMb: real := 1048576.0

  /** The inclusive run of page ordinals `first..last` (0-based), as kept in
      `current_pages` by both partitioners. */
  datatype PageRange = PageRange(first: nat, last: nat)
  {
    /** The run is non-empty. */
    predicate Valid() { first <= last }

    /** Number of pages in the run. */
    function Count(): nat { if last < first then 0 else last - first + 1 }

    /** The page ordinals of the run, in order. */
    function PageList(): seq<nat> { Span(first, first + Count()) }
  }

  /** The ordinals lo, lo+1, ..., hi-1. */
  function Span(lo: nat, hi: nat): seq<nat>
    requires lo <= hi
  {
    seq(hi - lo, k => lo + k)
  }

  /** `rs` tiles the span `lo..hi-1`: its first run starts at `lo`, every run is
      non-empty and ends inside the span, and the next run starts right after it; the
      sequence is empty exactly when the span is. */
  ghost predicate Tiles(rs: seq<PageRange>, lo: nat, hi: nat)
    decreases |rs|
  {
    if |rs| == 0 then lo == hi
    else rs[0].first == lo && rs[0].Valid() && rs[0].last < hi && Tiles(rs[1..], rs[0].last + 1, hi)
  }

  /** Concatenation of the page lists of the runs, as the parts are written out. */
  function Flatten(rs: seq<PageRange>): seq<nat>
  {
    if |rs| == 0 then [] else rs[0].PageList() + Flatten(rs[1..])
  }

  /** Every run of a tiling is a non-empty run inside the span. */
  lemma {:induction false} TilesWithin(rs: seq<PageRange>, lo: nat, hi: nat, k: nat)
    requires Tiles(rs, lo, hi)
    requires k < |rs|
    ensures lo <= rs[k].first <= rs[k].last < hi
    decreases k
  {
    if k > 0 {
      TilesWithin(rs[1..], rs[0].last + 1, hi, k - 1);
      assert rs[k] == rs[1..][k - 1];
    }
  }

  /** A tiling spans a well-formed interval and its last run ends at `hi - 1`. */
  lemma {:induction false} TilesEnds(rs: seq<PageRange>, lo: nat, hi: nat)
    requires Tiles(rs, lo, hi)
    ensures lo <= hi
    ensures |rs| > 0 ==> lo < hi && rs[|rs| - 1].last + 1 == hi
    decreases |rs|
  {
    if |rs| > 0 {
      TilesEnds(rs[1..], rs[0].last + 1, hi);
      if |rs| > 1 {
        assert rs[|rs| - 1] == rs[1..][|rs| - 2];
      }
    }
  }

  /** Appending the run `mid..e` to a tiling of `lo..mid-1` tiles `lo..e`. */
  lemma {:induction false} TilesExtend(rs: seq<PageRange>, lo: nat, mid: nat, e: nat)
    requires Tiles(rs, lo, mid)
    requires mid <= e
    ensures Tiles(rs + [PageRange(mid, e)], lo, e + 1)
    decreases |rs|
  {
    var r := PageRange(mid, e);
    if |rs| == 0 {
      assert [r][1..] == [];
    } else {
      TilesExtend(rs[1..], rs[0].last + 1, mid, e);
      assert (rs + [r])[1..] == rs[1..] + [r];
    }
  }

  /** Prepending a run that ends just before a tiling starts extends the tiling. */
  lemma TilesCons(r: PageRange, rest: seq<PageRange>, hi: nat)
    requires r.Valid()
    requires Tiles(rest, r.last + 1, hi)
    ensures Tiles([r] + rest, r.first, hi)
  {
    TilesEnds(rest, r.last + 1, hi);
    assert ([r] + rest)[1..] == rest;
  }

  /** Dropping the first run of a tiling leaves a tiling of the rest of the span. */
  lemma TilesTail(rs: seq<PageRange>, lo: nat, hi: nat)
    requires Tiles(rs, lo, hi)
    requires |rs| > 0
    ensures Tiles(rs[1..], rs[0].last + 1, hi)
  {
  }

  /** Writing the parts of a tiling one after the other lists every page of the span
      exactly once, in increasing order. */
  lemma {:induction false} TilesFlatten(rs: seq<PageRange>, lo: nat, hi: nat)
    requires Tiles(rs, lo, hi)
    ensures Flatten(rs) == Span(lo, hi)
    decreases |rs|
  {
    if |rs| == 0 {
      assert lo == hi;
    } else {
      var mid := rs[0].last + 1;
      TilesFlatten(rs[1..], mid, hi);
      TilesEnds(rs[1..], mid, hi);
      assert rs[0].PageList() == Span(lo, mid);
      assert Span(lo, mid) + Span(mid, hi) == Span(lo, hi);
    }
  }

  /** The runs of a tiling are strictly increasing and pairwise disjoint. */
  lemma {:induction false} TilesOrdered(rs: seq<PageRange>, lo: nat, hi: nat, i: nat, j: nat)
    requires Tiles(rs, lo, hi)
    requires i < j < |rs|
    ensures rs[i].last < rs[j].first
    decreases i
  {
    assert rs[j] == rs[1..][j - 1];
    if i == 0 {
      TilesWithin(rs[1..], rs[0].last + 1, hi, j - 1);
    } else {
      TilesOrdered(rs[1..], rs[0].last + 1, hi, i - 1, j - 1);
      assert rs[i] == rs[1..][i - 1];
    }
  }

  /** Every page of the span lies in some run of the tiling. */
  lemma {:induction false} TilesCover(rs: seq<PageRange>, lo: nat, hi: nat, p: nat)
    requires Tiles(rs, lo, hi)
    requires lo <= p < hi
    ensures exists k :: 0 <= k < |rs| && rs[k].first <= p <= rs[k].last
    decreases |rs|
  {
    if p > rs[0].last {
      TilesCover(rs[1..], rs[0].last + 1, hi, p);
      var k :| 0 <= k < |rs[1..]| && rs[1..][k].first <= p <= rs[1..][k].last;
      assert rs[k + 1] == rs[1..][k];
    }
  }
}
