# Myo EMG viewer: the shared sample window

The viewer script `hardware_check.py` creates two process-shared variables.
`emg` is a 1000 x 8 array of doubles: one row per EMG sample, newest first,
one column per armband channel. `emg_count` is a 1 x 1 int32 sample counter.
The EMG callback `write_emg` runs for every batch the armband delivers. It
turns the batch into an ndarray and stacks it on top of the current window
with `np.vstack`. It cuts the result back to the window's own row count,
so the oldest rows fall off the bottom. Then it copies that into the shared
array in place and adds `shape[0]` of the batch to the counter.

This project models that callback and proves what it does to the window
and the counter.

- `Int32` holds the int32 counter arithmetic. NumPy array arithmetic wraps
  modulo 2^32 rather than raising, and `Wrap` models that.
- `NdArrays` holds the batch as NumPy sees it after `np.array`. It is either
  a one-dimensional `Vector` (a single sample) or a rectangular `Matrix` of
  rows. `VStack` models `np.vstack`: it rejects a batch whose width differs
  from the window's, and it promotes a vector to one row.
- `EmgWindow` holds the pure stack-and-truncate step (`StackAndTruncate`,
  `Shift`) and the counter update (`CountAfter`), with the lemmas about them.
- `HardwareCheck.EmgBuffer` is the pair of shared arrays. `Write` is the
  callback: it updates the `array2` window element by element in one
  parallel assignment (the slice assignment `data[:] = new_data`) and the
  1 x 1 counter in place.

The counter does not always count rows. For a 2-D batch of k rows it grows
by k, the number of rows added. A single 1-D sample of 8 channel values is
stacked as one row, but its `shape[0]` is 8, so the counter grows by 8.
`LeadingIsStackedRowsIffMatrix` proves that the two agree exactly for
matrices. `SampleShiftsOneRowCountsWidth` states the 1-D case outright.
`Write` follows the code as written and adds `shape[0]`. The counter is
never read in this file, so the model does not decide which count was meant.

An array whose width is not 8 makes `np.vstack` raise before anything is
assigned. `Write` returns `Err(ColumnMismatch(width, 8))` and leaves both
shared variables unchanged. An empty 1-D array has width 0 and is rejected
the same way. An empty 2-D array of width 8 is accepted; it leaves the
window as it was and adds 0 to the counter.

## Model

| member | source | states |
|---|---|---|
| `Int32.Wrap` | hardware_check.py:38 | the stored counter is the unique int32 congruent to the sum modulo 2^32, and equals the sum when that is in range |
| `Int32.WrapUnique` | hardware_check.py:38 | any int32 congruent to x modulo 2^32 is `Wrap(x)`, so the wrap-around is fully determined |
| `Int32.WrapAdd` | hardware_check.py:38 | adding in two steps with a wrap after each gives the same int32 as one wrapped sum |
| `NdArrays.Dense.StackedRows` | hardware_check.py:31-34 | `np.vstack` takes one row from a 1-D sample and all rows from a 2-D batch, each as wide as the batch |
| `NdArrays.VStack` | hardware_check.py:34 | the stack is rejected exactly when the batch's width differs from the window's; otherwise it holds the batch rows in order, then the window rows, all of the window's width |
| `NdArrays.LeadingIsStackedRowsIffMatrix` | hardware_check.py:31-38 | for an accepted batch whose width is not 1 (the window's width is 8), `shape[0]` equals the number of rows stacked if and only if the batch is 2-D; a one-channel vector is the one exception, as its `shape[0]` and its single row are both 1 |
| `EmgWindow.Truncate` | hardware_check.py:35 | `[:n, :]` gives a prefix of min(n, rows) rows |
| `EmgWindow.Shift` | hardware_check.py:33-35 | the new window has exactly as many rows as the old one |
| `EmgWindow.StackAndTruncate` | hardware_check.py:33-35 | the stack-and-truncate step fails exactly on a width mismatch, with that error; on success it keeps the window's row count and width |
| `EmgWindow.CountAfter` | hardware_check.py:38 | the counter grows by `shape[0]` modulo 2^32, and by exactly `shape[0]` when the sum fits in int32 |
| `EmgWindow.StackAndTruncateIsShift` | hardware_check.py:34-35 | an accepted batch moves the window as `Shift` does with the rows `np.vstack` takes from it |
| `EmgWindow.ShiftAt` | hardware_check.py:34-35 | row i of the new window is incoming row i when i < k, else old row i - k |
| `EmgWindow.ShiftNewestFirst` | hardware_check.py:34-35 | the first min(k, N) rows of the new window are the incoming rows in their order |
| `EmgWindow.ShiftAgesOld` | hardware_check.py:34-35 | old row j moves to row j + k whenever j + k < N |
| `EmgWindow.ShiftIgnoresOldest` | hardware_check.py:34-35 | the old rows with index N - k or more are discarded: they have no influence on the new window |
| `EmgWindow.ShiftOverflow` | hardware_check.py:35 | a batch of k >= N rows leaves exactly its first N rows and no old data |
| `EmgWindow.ShiftKeepsWidth` | hardware_check.py:34-35 | rows of the window's width keep the window rectangular with that width |
| `EmgWindow.ShiftCompose` | hardware_check.py:34-35 | writing batch A and then batch B leaves the same window as one write of B stacked on A |
| `EmgWindow.CountAfterCompose` | hardware_check.py:38 | two counter updates equal one update by the sum of both `shape[0]` values, wrap-around included |
| `EmgWindow.SampleShiftsOneRowCountsWidth` | hardware_check.py:31-38 | a 1-D sample of c channels is accepted, becomes row 0 and pushes every old row down by one, yet the counter grows by c modulo 2^32, and by exactly c when the sum fits in int32 |
| `EmgWindow.ShiftAll` | hardware_check.py:30-38 | successive callbacks never change the window's row count |
| `EmgWindow.ShiftAllIsOneShift` | hardware_check.py:30-38 | after any number of callbacks the window is the delivered rows, newest batch first and each batch in its own order, on top of the original window, cut to its height |
| `EmgWindow.CountAllIsWrappedTotal` | hardware_check.py:30-38 | after any number of callbacks the counter is the original count plus the sum of `shape[0]` over the batches, modulo 2^32 |
| `EmgWindow.SampleStreamTotals` | hardware_check.py:31-38 | a stream of n 1-D samples of c channels stacks n rows, the samples in reverse order, while `shape[0]` sums to c * n |
| `EmgWindow.SampleStreamCounts` | hardware_check.py:30-38 | after n callbacks with one 1-D sample of c channels each, the window is the n samples, newest first, on top of the old window, cut to its height, and the counter is the old count plus c * n, modulo 2^32 |
| `HardwareCheck.EmgBuffer.Rows` | hardware_check.py:33 | the window read as rows has the array's row count and every row the array's width |
| `HardwareCheck.EmgBuffer.constructor` | hardware_check.py:19-20 | creates a 1000 x 8 window and a 1 x 1 counter, both zero |
| `HardwareCheck.EmgBuffer.Write` | hardware_check.py:30-38 | rejects a width mismatch with nothing changed; otherwise the window becomes `Shift` of the old window by the stacked rows and the counter becomes `CountAfter` of the old one; both arrays keep their shapes |

## Left out

- Device connection, the serial timeout and the `myo.run()` polling thread (hardware_check.py:12, 23-25, 41-51): these are vendor SDK calls and I/O. The model takes the batch the SDK hands to the callback as a parameter.
- The lock and the shared-memory manager (hardware_check.py:13, 18, 36, 84). The model is sequential. The unlocked read of the window at line 33 can race with another writer; the model cannot state that.
- The shared-memory manager's own code is not part of this model. The constructor starts from a zero window and a zero counter, as freshly created shared memory is zero-filled.
- Plotting, animation, key handling and the vibration command (hardware_check.py:57-113): these are GUI and device commands.
- my_streamer.py, data_recording.py, read_data.py and test.py: network, library calls, CSV parsing and a lock demo, with no logic of their own.
- Floating point: samples are `real`. Conversion of integer samples to doubles is exact for EMG-sized values, and no arithmetic is done on them.
- 0-dimensional arrays and arrays of three or more dimensions: `np.vstack` rejects them against the 2-D window. Non-numeric and ragged inputs are not modelled either: the device delivers numeric tuples. From such input `np.array` would build a string or object array, or, since NumPy 1.24, reject a ragged list. An `NdArray` is always a rectangular 1-D or 2-D array.
- `EmgWindow.CountAfter`: batches of 2^31 rows or more are treated with the same wrap-around. Depending on the NumPy version, adding such a Python integer to an int32 array may raise instead.
