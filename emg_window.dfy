/** The pure part of the EMG callback: stacking a batch of samples on top of
    the most-recent-first window, truncating back to the window's row count,
    and the counter value that goes with it. */
module EmgWindow {
  import opened NdArrays
  import opened Int32

  /** `s[:n, :]`: the first `n` rows of `s`, or all of them when there are fewer. */
  function Truncate(s: seq<Row>, n: nat): (r: seq<Row>)
    ensures r <= s
    ensures |r| == if n <= |s| then n else |s|
  {
    if n <= |s| then s[..n] else s
  }

  /** The window after `batch` is stacked on top of it and the result is cut
      back to the window's own row count. */
  function Shift(window: seq<Row>, batch: seq<Row>): (r: seq<Row>)
    ensures |r| == |window|
  {
    Truncate(batch + window, |window|)
  }

  /** Stack `a` on an (|window|, cols) window and keep `|window|` rows, or
      the error `np.vstack` raises when the widths differ. */
  function StackAndTruncate(window: seq<Row>, cols: nat, a: NdArray): (r: Result<seq<Row>>)
    requires IsMatrix(window, cols)
    ensures r.Err? <==> a.Width() != cols
    ensures r.Err? ==> r.error == ColumnMismatch(a.Width(), cols)
    ensures r.Ok? ==> |r.value| == |window| && IsMatrix(r.value, cols)
  {
    match VStack(a, window, cols)
    case Err(e) => Err(e)
    case Ok(stacked) => Ok(Truncate(stacked, |window|))
  }

  /** The counter after adding `a.shape[0]` in int32 arithmetic. */
  function CountAfter(count: int32, a: NdArray): (r: int32)
    ensures (r as int - (count as int + a.Leading())) % Modulus == 0
    ensures InRange(count as int + a.Leading()) ==> r as int == count as int + a.Leading()
  {
    Wrap(count as int + a.Leading())
  }

  /** An accepted array moves the window exactly as `Shift` does with the
      rows `np.vstack` takes from it. */
  lemma StackAndTruncateIsShift(window: seq<Row>, cols: nat, a: NdArray)
    requires IsMatrix(window, cols) && a.Width() == cols
    ensures StackAndTruncate(window, cols, a) == Ok(Shift(window, a.StackedRows()))
  {
  }

  /** Row `i` of the new window: the `i`-th incoming row if there is one,
      otherwise the old row that was `|batch|` places higher. */
  lemma ShiftAt(window: seq<Row>, batch: seq<Row>, i: nat)
    requires i < |window|
    ensures Shift(window, batch)[i] == if i < |batch| then batch[i] else window[i - |batch|]
  {
  }

  /** The first min(k, N) rows are the incoming rows, in their order. */
  lemma ShiftNewestFirst(window: seq<Row>, batch: seq<Row>)
    ensures forall i :: 0 <= i < |batch| && i < |window| ==> Shift(window, batch)[i] == batch[i]
  {
    forall i | 0 <= i < |batch| && i < |window| {
      ShiftAt(window, batch, i);
    }
  }

  /** Old row `j` moves to row `j + k` whenever that is still inside the window. */
  lemma ShiftAgesOld(window: seq<Row>, batch: seq<Row>)
    ensures forall j :: 0 <= j && j + |batch| < |window| ==>
      Shift(window, batch)[j + |batch|] == window[j]
  {
    forall j | 0 <= j && j + |batch| < |window|
      ensures Shift(window, batch)[j + |batch|] == window[j]
    {
      ShiftAt(window, batch, j + |batch|);
    }
  }

  /** The old rows with index N - k or more are discarded: two windows of the
      same height that agree on their first N - k rows give the same result. */
  lemma ShiftIgnoresOldest(window: seq<Row>, other: seq<Row>, batch: seq<Row>)
    requires |other| == |window|
    requires forall j :: 0 <= j && j + |batch| < |window| ==> other[j] == window[j]
    ensures Shift(other, batch) == Shift(window, batch)
  {
    forall i | 0 <= i < |window|
      ensures Shift(other, batch)[i] == Shift(window, batch)[i]
    {
      ShiftAt(window, batch, i);
      ShiftAt(other, batch, i);
    }
  }

  /** A batch of at least N rows replaces the whole window by its first N rows. */
  lemma ShiftOverflow(window: seq<Row>, batch: seq<Row>)
    requires |batch| >= |window|
    ensures Shift(window, batch) == batch[..|window|]
  {
    forall i | 0 <= i < |window|
      ensures Shift(window, batch)[i] == batch[i]
    {
      ShiftAt(window, batch, i);
    }
  }

  /** Rows of the window's width keep the window rectangular. */
  lemma ShiftKeepsWidth(window: seq<Row>, batch: seq<Row>, cols: nat)
    requires IsMatrix(window, cols) && IsMatrix(batch, cols)
    ensures IsMatrix(Shift(window, batch), cols)
  {
    forall i | 0 <= i < |window| {
      ShiftAt(window, batch, i);
    }
  }

  /** Writing `first` and then `second` leaves the window that one write of
      `second` stacked on `first` would leave. */
  lemma ShiftCompose(window: seq<Row>, first: seq<Row>, second: seq<Row>)
    ensures Shift(Shift(window, first), second) == Shift(window, second + first)
  {
    var once := Shift(window, first);
    forall i | 0 <= i < |window|
      ensures Shift(once, second)[i] == Shift(window, second + first)[i]
    {
      ShiftAt(once, second, i);
      ShiftAt(window, second + first, i);
      if i >= |second| {
        ShiftAt(window, first, i - |second|);
      }
    }
  }

  /** Two counter updates add up, wrap-around included. */
  lemma CountAfterCompose(count: int32, first: NdArray, second: NdArray)
    ensures CountAfter(CountAfter(count, first), second)
      == Wrap(count as int + first.Leading() + second.Leading())
  {
    WrapAdd(count as int + first.Leading(), second.Leading());
  }

  /** One sample of `cols` channel values adds a single row to the window but
      `cols` to the counter. */
  lemma SampleShiftsOneRowCountsWidth(window: seq<Row>, count: int32, values: seq<real>)
    requires IsMatrix(window, |values|) && |window| > 0
    ensures StackAndTruncate(window, |values|, Vector(values)).Ok?
    ensures StackAndTruncate(window, |values|, Vector(values)).value
      == [values] + window[..|window| - 1]
    ensures (CountAfter(count, Vector(values)) as int - count as int - |values|) % Modulus == 0
    ensures InRange(count as int + |values|) ==>
      CountAfter(count, Vector(values)) as int == count as int + |values|
  {
    StackAndTruncateIsShift(window, |values|, Vector(values));
  }

  // Successive callbacks: the armband delivers batches one after another and
  // each delivery runs the callback once.

  /** The window after the batches' rows are written one after another. */
  function ShiftAll(window: seq<Row>, batches: seq<seq<Row>>): (r: seq<Row>)
    ensures |r| == |window|
  {
    if batches == [] then window
    else Shift(ShiftAll(window, batches[..|batches| - 1]), batches[|batches| - 1])
  }

  /** The rows of all batches, newest first: the last batch's rows on top,
      each batch in its own order. */
  function NewestFirst(batches: seq<seq<Row>>): (r: seq<Row>)
  {
    if batches == [] then []
    else batches[|batches| - 1] + NewestFirst(batches[..|batches| - 1])
  }

  /** After any number of writes the window is the stream's rows, newest
      batch first, on top of the original window, cut to the window's height. */
  lemma {:induction false} ShiftAllIsOneShift(window: seq<Row>, batches: seq<seq<Row>>)
    ensures ShiftAll(window, batches) == Shift(window, NewestFirst(batches))
  {
    if batches != [] {
      var init, last := batches[..|batches| - 1], batches[|batches| - 1];
      ShiftAllIsOneShift(window, init);
      ShiftCompose(window, NewestFirst(init), last);
    }
  }

  /** The counter after the arrays are counted one after another. */
  function CountAll(count: int32, arrays: seq<NdArray>): (r: int32)
  {
    if arrays == [] then count
    else CountAfter(CountAll(count, arrays[..|arrays| - 1]), arrays[|arrays| - 1])
  }

  /** The sum of `shape[0]` over the arrays. */
  function TotalLeading(arrays: seq<NdArray>): nat
  {
    if arrays == [] then 0
    else TotalLeading(arrays[..|arrays| - 1]) + arrays[|arrays| - 1].Leading()
  }

  /** After any number of callbacks the counter is the original count plus
      the sum of `shape[0]` over the batches, modulo 2^32. */
  lemma {:induction false} CountAllIsWrappedTotal(count: int32, arrays: seq<NdArray>)
    ensures CountAll(count, arrays) == Wrap(count as int + TotalLeading(arrays))
  {
    if arrays != [] {
      var init, last := arrays[..|arrays| - 1], arrays[|arrays| - 1];
      CountAllIsWrappedTotal(count, init);
      WrapAdd(count as int + TotalLeading(init), last.Leading());
    }
  }

  /** Each sample as the rows `np.vstack` takes from it: one row apiece. */
  function SampleRows(samples: seq<seq<real>>): seq<seq<Row>>
  {
    seq(|samples|, i requires 0 <= i < |samples| => [samples[i]])
  }

  /** Each sample as the 1-D array `np.array` makes of it. */
  function SampleArrays(samples: seq<seq<real>>): seq<NdArray>
  {
    seq(|samples|, i requires 0 <= i < |samples| => Vector(samples[i]))
  }

  /** A stream of single samples delivers its samples in reverse order, one
      row each, while `shape[0]` sums to `cols` per sample. */
  lemma {:induction false} SampleStreamTotals(samples: seq<seq<real>>, cols: nat)
    requires forall i :: 0 <= i < |samples| ==> |samples[i]| == cols
    ensures |NewestFirst(SampleRows(samples))| == |samples|
    ensures forall i :: 0 <= i < |samples| ==>
      NewestFirst(SampleRows(samples))[i] == samples[|samples| - 1 - i]
    ensures TotalLeading(SampleArrays(samples)) == cols * |samples|
  {
    if samples != [] {
      var n := |samples|;
      var init := samples[..n - 1];
      SampleStreamTotals(init, cols);
      assert SampleRows(samples)[..n - 1] == SampleRows(init);
      assert SampleArrays(samples)[..n - 1] == SampleArrays(init);
      assert NewestFirst(SampleRows(samples)) == [samples[n - 1]] + NewestFirst(SampleRows(init));
    }
  }

  /** One 1-D sample per callback: after n callbacks the window holds the n
      samples on top, newest first, one row each, over the old window, while
      the counter has grown by `cols * n`, modulo 2^32. */
  lemma SampleStreamCounts(window: seq<Row>, count: int32, samples: seq<seq<real>>, cols: nat)
    requires forall i :: 0 <= i < |samples| ==> |samples[i]| == cols
    ensures ShiftAll(window, SampleRows(samples)) == Shift(window, NewestFirst(SampleRows(samples)))
    ensures |NewestFirst(SampleRows(samples))| == |samples|
    ensures forall i :: 0 <= i < |samples| ==>
      NewestFirst(SampleRows(samples))[i] == samples[|samples| - 1 - i]
    ensures CountAll(count, SampleArrays(samples)) == Wrap(count as int + cols * |samples|)
  {
    SampleStreamTotals(samples, cols);
    ShiftAllIsOneShift(window, SampleRows(samples));
    CountAllIsWrappedTotal(count, SampleArrays(samples));
  }
}
