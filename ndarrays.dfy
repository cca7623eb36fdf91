/** The value of `np.array(emg_data)` as far as `np.vstack` and `.shape[0]`
    see it: a one-dimensional vector (one sample of channel values) or a
    two-dimensional array of rows, all of the same width. */
module NdArrays {

  type Row = seq<real>

  datatype ShapeError = ColumnMismatch(got: nat, expected: nat)

  datatype Result<T> = Ok(value: T) | Err(error: ShapeError)

  /** Every row of `m` has `cols` entries: `m` is an (|m|, cols) array. */
  predicate IsMatrix(m: seq<Row>, cols: nat) {
    forall i :: 0 <= i < |m| ==> |m[i]| == cols
  }

  datatype Dense = Vector(values: seq<real>) | Matrix(rows: seq<Row>, cols: nat)
  {
    /** An ndarray is rectangular by construction. */
    predicate Rectangular() {
      Matrix? ==> IsMatrix(rows, cols)
    }

    /** `shape[0]`: the length of a vector, the row count of a matrix. */
    function Leading(): nat {
      if Vector? then |values| else |rows|
    }

    /** `shape[-1]`: the width a vector or a matrix has once stacked. */
    function Width(): nat {
      if Vector? then |values| else cols
    }

    /** The rows `np.vstack` stacks: a vector is promoted to a single row
        (as by `np.atleast_2d`), a matrix contributes its own rows. */
    function StackedRows(): (r: seq<Row>)
      requires Rectangular()
      ensures IsMatrix(r, Width())
      ensures |r| == if Vector? then 1 else Leading()
    {
      if Vector? then [values] else rows
    }
  }

  type NdArray = a: Dense | a.Rectangular() witness Vector([])

  /** `np.vstack((top, below))` where `below` is an (|below|, cols) array:
      accepted exactly when `top` has `cols` columns, and then the rows of
      `top` come first, in order, followed by those of `below`. */
  function VStack(top: NdArray, below: seq<Row>, cols: nat): (r: Result<seq<Row>>)
    requires IsMatrix(below, cols)
    ensures r.Err? <==> top.Width() != cols
    ensures r.Err? ==> r.error == ColumnMismatch(top.Width(), cols)
    ensures r.Ok? ==> IsMatrix(r.value, cols)
    ensures r.Ok? ==> |r.value| == |top.StackedRows()| + |below|
    ensures r.Ok? ==> forall i :: 0 <= i < |top.StackedRows()| ==> r.value[i] == top.StackedRows()[i]
    ensures r.Ok? ==> forall j :: 0 <= j < |below| ==> r.value[|top.StackedRows()| + j] == below[j]
  {
    if top.Width() != cols then Err(ColumnMismatch(top.Width(), cols))
    else Ok(top.StackedRows() + below)
  }

  /** `shape[0]` equals the number of rows `np.vstack` adds exactly for a
      matrix; a vector of `cols` channel values adds one row while its
      `shape[0]` is `cols`. */
  lemma LeadingIsStackedRowsIffMatrix(a: NdArray, cols: nat)
    requires a.Width() == cols && cols != 1
    ensures a.Leading() == |a.StackedRows()| <==> a.Matrix?
  {
  }
}
