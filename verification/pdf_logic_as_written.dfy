/** `split_pdf` exactly as pdf_logic.py writes it, including the state the corrected
    model in `PdfLogic` does not need: the writer (`current_writer`) as the list of
    pages added to it, which after a failed backtrack keeps stale and duplicated
    pages. Serialising a writer is an oracle on that list.

    The `while ... else: pass` at pdf_logic.py:72-77 leaves `current_pages` at its
    first page and moves `i` back to it, but emits nothing and does not rebuild the
    writer. The next pages are re-added and the same over-threshold run is probed
    again; on a two-page document whose first page alone is over the threshold this
    repeats forever (`AsWrittenNeverFinishes`). */
module PdfLogicAsWritten {
  import opened Naming

  /** Byte size of a writer holding the given pages, in the order they were added. */
  type WriterSize = seq<nat> -> nat

  /** The loop variables of `split_pdf` at the top of its `while`. */
  datatype LoopState = LoopState(
    i: int,                          // page index
    current: seq<nat>,               // current_pages
    writer: seq<nat>,                // pages added to current_writer
    parts: seq<(string, nat)>,       // (file name, content length)
    partNum: nat)

  const Initial := LoopState(0, [], [], [], 1)

  /** pdf_logic.py:48-77: pop the tail page, move `i` back, serialise the remaining
      pages in a fresh writer, and commit them if they fit. When one page is left
      without success the loop's `else: pass` leaves everything else untouched. */
  function ShortenAsWritten(size: WriterSize, t: real, st: LoopState): LoopState
    decreases |st.current|
  {
    if |st.current| <= 1 then st
    else
      var kept := st.current[..|st.current| - 1];
      var i := st.i - 1;
      if size(kept) as real <= t then
        LoopState(i, [], [], st.parts + [(PartName(st.partNum), size(kept))], st.partNum + 1)
      else
        ShortenAsWritten(size, t, LoopState(i, kept, st.writer, st.parts, st.partNum))
  }

  /** One pass of the `while i < total_pages` body (pdf_logic.py:26-89). */
  function StepAsWritten(n: nat, size: WriterSize, t: real, st: LoopState): LoopState
    requires 0 <= st.i
  {
    var writer := st.writer + [st.i as nat];
    var current := st.current + [st.i as nat];
    var next :=
      if |current| % 5 == 0 || st.i == n - 1 then
        var sz := size(writer);
        if sz as real > t then
          if |current| > 1 then
            ShortenAsWritten(size, t, LoopState(st.i, current, writer, st.parts, st.partNum))
          else
            LoopState(st.i, [], [], st.parts + [(PartName(st.partNum), sz)], st.partNum + 1)
        else if st.i == n - 1 then
          LoopState(st.i, current, writer, st.parts + [(PartName(st.partNum), sz)], st.partNum)
        else LoopState(st.i, current, writer, st.parts, st.partNum)
      else LoopState(st.i, current, writer, st.parts, st.partNum);
    next.(i := next.i + 1)
  }

  /** The loop state after `k` passes, or the state at which the loop exits. */
  function RunAsWritten(n: nat, size: WriterSize, t: real, k: nat): LoopState
  {
    if k == 0 then Initial
    else
      var st := RunAsWritten(n, size, t, k - 1);
      if st.i < 0 || st.i >= n then st else StepAsWritten(n, size, t, st)
  }

  /** Size of a writer whose page 0 takes 10 bytes and every other page 1 byte. */
  function TwoPageSize(w: seq<nat>): nat
  {
    if |w| == 0 then 0 else (if w[0] == 0 then 10 else 1) + TwoPageSize(w[1..])
  }

  /** The state the two-page run keeps returning to: back at page 1 with page 0
      pending, page 0 still in the writer, and nothing emitted. */
  predicate Stuck(st: LoopState)
  {
    st.i == 1 && st.current == [0] && |st.writer| > 0 && st.writer[0] == 0 &&
    st.parts == [] && st.partNum == 1
  }

  /** From the stuck state, one pass of the loop body returns to a stuck state. */
  lemma StuckStep(st: LoopState)
    requires Stuck(st)
    ensures Stuck(StepAsWritten(2, TwoPageSize, 4.0, st))
  {
    var writer := st.writer + [1];
    var current := st.current + [1];
    assert current == [0, 1] && current[..1] == [0];
    assert writer[0] == 0;
    assert TwoPageSize(writer) >= 10;
    assert TwoPageSize([0]) == 10;
    var back := LoopState(0, [0], writer, [], 1);
    assert ShortenAsWritten(TwoPageSize, 4.0, back) == back;
    assert ShortenAsWritten(TwoPageSize, 4.0, LoopState(1, current, writer, [], 1)) == back;
  }

  /** The first pass adds page 0, which is not probed, and reaches the stuck state. */
  lemma FirstPass()
    ensures RunAsWritten(2, TwoPageSize, 4.0, 1) == LoopState(1, [0], [0], [], 1)
    ensures Stuck(RunAsWritten(2, TwoPageSize, 4.0, 1))
  {
    assert RunAsWritten(2, TwoPageSize, 4.0, 0) == Initial;
  }

  /** A two-page document whose first page alone (10 bytes) is over a 4-byte
      threshold: as written, `split_pdf` never leaves its loop and never emits a
      part, however many passes it makes. */
  lemma {:induction false} AsWrittenNeverFinishes(k: nat)
    ensures k >= 1 ==> Stuck(RunAsWritten(2, TwoPageSize, 4.0, k))
    ensures RunAsWritten(2, TwoPageSize, 4.0, k).i < 2
    ensures RunAsWritten(2, TwoPageSize, 4.0, k).parts == []
  {
    if k == 1 {
      FirstPass();
    } else if k > 1 {
      AsWrittenNeverFinishes(k - 1);
      StuckStep(RunAsWritten(2, TwoPageSize, 4.0, k - 1));
    }
  }
}
