/** The shared EMG buffer of the viewer script: a 1000 x 8 window of doubles,
    newest sample in row 0, and a 1 x 1 int32 sample counter, both updated
    in place by the EMG callback. */
module HardwareCheck {
  import opened NdArrays
  import opened Int32
  import opened EmgWindow

  /** The window's row count and its channel count. */
  const WindowRows: nat := 1000
  const Channels: nat := 8

  class EmgBuffer {
    /** The "emg" shared variable. */
    const data: array2<real>
    /** The "emg_count" shared variable. */
    const count: array2<int32>

    /** Both shared variables keep the shapes they were created with. */
    ghost predicate Valid() {
      data.Length0 == WindowRows && data.Length1 == Channels &&
      count.Length0 == 1 && count.Length1 == 1
    }

    /** The window as a sequence of rows, newest first. */
    function Rows(): (r: seq<Row>)
      reads data
      ensures |r| == data.Length0 && IsMatrix(r, data.Length1)
    {
      seq(data.Length0, i requires 0 <= i < data.Length0 reads data =>
        seq(data.Length1, j requires 0 <= j < data.Length1 reads data => data[i, j]))
    }

    /** The sample counter. */
    function Count(): int32
      reads count
      requires Valid()
    {
      count[0, 0]
    }

    /** The two shared variables, zero-filled as freshly created shared memory is. */
    constructor ()
      ensures Valid() && fresh(data) && fresh(count)
      ensures forall i, j :: 0 <= i < WindowRows && 0 <= j < Channels ==> data[i, j] == 0.0
      ensures Count() == 0
    {
      data := new real[WindowRows, Channels]((i, j) => 0.0);
      count := new int32[1, 1]((i, j) => 0);
    }

    /** The EMG callback. An array whose width is not the window's is
        rejected and nothing changes; otherwise its rows are stacked on top
        of the window, the window keeps its first `WindowRows` rows, and the
        counter grows by `a.shape[0]`. */
    method Write(a: NdArray) returns (r: Result<()>)
      requires Valid()
      modifies data, count
      ensures Valid()
      ensures r.Err? <==> a.Width() != Channels
      ensures r.Err? ==> r.error == ColumnMismatch(a.Width(), Channels)
      ensures r.Err? ==> unchanged(data) && unchanged(count)
      ensures r.Ok? ==> Rows() == Shift(old(Rows()), a.StackedRows())
      ensures r.Ok? ==> Count() == CountAfter(old(Count()), a)
    {
      var current := Rows();
      var next := StackAndTruncate(current, Channels, a);
      if next.Err? {
        return Err(next.error);
      }
      var newData := next.value;
      StackAndTruncateIsShift(current, Channels, a);
      forall i, j | 0 <= i < data.Length0 && 0 <= j < data.Length1 {
        data[i, j] := newData[i][j];
      }
      count[0, 0] := Wrap(count[0, 0] as int + a.Leading());
      forall i | 0 <= i < data.Length0
        ensures Rows()[i] == newData[i]
      {
      }
      return Ok(());
    }
  }
}
