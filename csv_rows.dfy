/** One line of a CSV block: how the cursor walks from field to field and
    what the row holds after each field. */
module CsvRows {
  import opened Results
  import opened NumParse
  import opened TextScan
  import opened CsvConfig

  /** Where the delimiter scan starts: the end of the field's conversion,
      but no further than the line end le. */
  function ScanStart(s: seq<char>, le: nat, p: nat): (start: nat)
    requires p <= le <= |s|
    ensures p <= start <= le
  {
    var e := ParseNum(s, p).end;
    if e >= le then le else e
  }

  /** Where the delimiter scan after the field starting at p stops: the
      conversion's end, clamped to the line end le, then forward to the
      first delimiter d or to le. */
  function FieldStop(s: seq<char>, le: nat, d: char, p: nat): (q: nat)
    requires p <= le <= |s|
    ensures p <= q <= le
    ensures q < le ==> s[q] == d
    ensures ScanStart(s, le, p) <= q
    ensures forall k :: ScanStart(s, le, p) <= k < q ==> s[k] != d
  {
    Find(s, d, ScanStart(s, le, p), le)
  }

  /** Where the next field starts: just past the delimiter, or the line end. */
  function NextField(s: seq<char>, le: nat, d: char, p: nat): (n: nat)
    requires p < le <= |s|
    ensures p < n <= le
    ensures n < le ==> s[n - 1] == d && ScanStart(s, le, p) < n
    ensures forall k :: ScanStart(s, le, p) <= k < n - 1 ==> s[k] != d
  {
    var q := FieldStop(s, le, d, p);
    if q == le then le else q + 1
  }

  /** The per-line state: label buffer, weight (None while NaN), the
      feature counter idx and the features pushed so far. */
  datatype Row = Row(labels: seq<int>, weight: Option<int>, idx: nat, index: seq<nat>, value: seq<int>)

  /** The state at the start of a line: labels zeroed, weight NaN, idx 0. */
  function EmptyRow(cfg: ParserConfig): (r: Row)
    ensures |r.labels| == cfg.labelCount && r.weight == None && r.idx == 0 && r.index == [] && r.value == []
    ensures forall j :: 0 <= j < |r.labels| ==> r.labels[j] == 0
  {
    Row(seq(cfg.labelCount, _ => 0), None, 0, [], [])
  }

  /** The field starting at p in column `column`: its value goes to the
      column's label slot, else to the weight of a float parser, else to
      the features when the conversion consumed something; a feature column
      always advances idx. */
  function FieldStep(cfg: ParserConfig, s: seq<char>, p: nat, column: nat, r: Row): (r': Row)
    requires Valid(cfg) && p <= |s| && |r.labels| == cfg.labelCount
    ensures |r'.labels| == cfg.labelCount
  {
    var conv := ParseNum(s, p);
    var v := Convert(cfg.kind, conv.value);
    if column in cfg.labelColumnIndices then r.(labels := r.labels[cfg.labelColumnIndices[column] := v])
    else if cfg.kind == Float32 && column == cfg.weightColumn then r.(weight := Some(v))
    else if conv.end != p then r.(idx := r.idx + 1, index := r.index + [r.idx], value := r.value + [v])
    else r.(idx := r.idx + 1)
  }

  /** The rest of a line: the field at p is in column `column` and r is
      the row so far. Each field is stored, the cursor moves to the next
      delimiter, and the line aborts (None) when that scan reaches the line
      end before any feature column was seen. */
  function LineFrom(cfg: ParserConfig, s: seq<char>, le: nat, p: nat, column: nat, r: Row): (result: Option<Row>)
    requires Valid(cfg) && p <= le <= |s| && |r.labels| == cfg.labelCount
    ensures result.Some? ==> |result.value.labels| == cfg.labelCount
    decreases le - p
  {
    if p == le then Some(r)
    else
      var r' := FieldStep(cfg, s, p, column, r);
      if FieldStop(s, le, cfg.delimiter, p) == le && r'.idx == 0 then None
      else LineFrom(cfg, s, le, NextField(s, le, cfg.delimiter, p), column + 1, r')
  }
}
