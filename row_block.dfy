/** The row block a parser fills: CSR-style rows where offset[i] .. offset[i+1]
    delimit the features of row i in index/value, labels holds label_count
    entries per row and weight at most one entry per row. */
module RowBlock {

  /** The contents of a row block container as a value. */
  datatype Block = Block(offset: seq<nat>, labels: seq<int>, weight: seq<int>, index: seq<nat>, value: seq<int>)

  /** A block holding no rows: the single offset 0. */
  function EmptyBlock(): (b: Block)
    ensures |b.offset| == 1 && b.offset[0] == 0
    ensures b.labels == b.weight == b.value == [] && b.index == []
  {
    Block([0], [], [], [], [])
  }

  /** The number of rows of a block: one less than its offsets. */
  function Rows(b: Block): nat
  {
    if |b.offset| == 0 then 0 else |b.offset| - 1
  }

  /** The container the parser writes to; only the members the parser
      touches are kept. */
  class RowBlockContainer {
    var offset: seq<nat>
    var labels: seq<int>
    var weight: seq<int>
    var index: seq<nat>
    var value: seq<int>
    var labelCount: nat

    constructor ()
      ensures Contents() == EmptyBlock() && labelCount == 0
    {
      offset := [0];
      labels := [];
      weight := [];
      index := [];
      value := [];
      labelCount := 0;
    }

    function Contents(): Block
      reads this
    {
      Block(offset, labels, weight, index, value)
    }

    /** Empties every vector and leaves the single offset 0. */
    method Clear()
      modifies this
      ensures Contents() == EmptyBlock()
      ensures labelCount == old(labelCount)
    {
      offset := [0];
      labels := [];
      weight := [];
      index := [];
      value := [];
    }
  }

  lemma MulAtLeast(width: nat, k: int)
    requires width > 0 && k >= 1
    ensures width * k >= width
  {
  }

  /** Appending one more row of width labels keeps the length a multiple. */
  lemma RowsOfLabels(len: nat, width: nat, n: nat)
    requires len == width * n
    ensures len + width == width * (n + 1)
  {
  }

  /** A length that is n times width divides evenly into n pieces. */
  lemma MultipleOf(len: nat, width: nat, n: nat)
    requires width > 0 && len == width * n
    ensures len % width == 0 && len / width == n
  {
    var q := len / width;
    var r := len % width;
    assert width * (n - q) == r;
    if n > q {
      MulAtLeast(width, n - q);
    }
  }
}
