/** A whole CSV block: lines are parsed one after another into a row block,
    and the block is checked once every line is in. */
module CsvBlock {
  import opened Results
  import opened TextScan
  import opened CsvConfig
  import opened CsvRows
  import opened RowBlock

  /** The fatal outcomes of ParseBlock: a line where the delimiter scan
      found no separator before any feature (the line start is kept), and
      a weight vector that neither is empty nor has one entry per row. */
  datatype ParseError = DelimiterNotFound(lineStart: nat) | WeightCountMismatch

  /** Appends a finished row: its labels, its weight when one was read,
      its features and the new row's end offset. */
  function CloseRow(b: Block, r: Row): (b': Block)
    ensures Rows(b') == Rows(b) + 1 || |b.offset| == 0
  {
    Block(
      b.offset + [|b.index| + |r.index|],
      b.labels + r.labels,
      b.weight + (if r.weight.Some? then [r.weight.value] else []),
      b.index + r.index,
      b.value + r.value)
  }

  /** The line starting at lb ends at the first line terminator after lb. */
  function LineStop(s: seq<char>, lb: nat): (le: nat)
    requires lb < |s|
    ensures lb < le <= |s|
  {
    LineEnd(s, lb + 1)
  }

  /** The row the line starting at lb produces, or None when it aborts. */
  function LineRow(cfg: ParserConfig, s: seq<char>, lb: nat): (r: Option<Row>)
    requires Valid(cfg) && lb < |s|
    ensures r.Some? ==> |r.value.labels| == cfg.labelCount
  {
    LineFrom(cfg, s, LineStop(s, lb), lb, 0, EmptyRow(cfg))
  }

  /** Parses the lines from lb on, appending their rows to b. */
  ghost function ParseLines(cfg: ParserConfig, s: seq<char>, lb: nat, b: Block): Result<Block, ParseError>
    requires Valid(cfg) && lb <= |s|
    decreases |s| - lb
  {
    if lb == |s| then Ok(b)
    else match LineRow(cfg, s, lb)
      case None => Err(DelimiterNotFound(lb))
      case Some(row) => ParseLines(cfg, s, SkipNewlines(s, LineStop(s, lb)), CloseRow(b, row))
  }

  /** The weight vector is empty or holds one entry per row. */
  predicate WeightsConsistent(b: Block)
  {
    |b.weight| == 0 || |b.weight| + 1 == |b.offset|
  }

  /** What ParseBlock leaves in the container, or the fatal error it stops at. */
  ghost function ParseBlockSpec(cfg: ParserConfig, s: seq<char>): Result<Block, ParseError>
    requires Valid(cfg)
  {
    match ParseLines(cfg, s, SkipNewlines(s, 0), EmptyBlock())
    case Err(e) => Err(e)
    case Ok(b) => if WeightsConsistent(b) then Ok(b) else Err(WeightCountMismatch)
  }
}
