/** The CSV parser: construction from the options, and ParseBlock, which
    turns a block of text into rows of labels, weights and dense features. */
module CsvParser {
  import opened Results
  import opened NumParse
  import opened TextScan
  import opened LabelColumns
  import opened CsvConfig
  import opened CsvRows
  import opened RowBlock
  import opened CsvBlock

  /** The constructor: initialises the parameters, extracts the label
      columns, then checks the format and that the weight column is not a
      label column. The warnings of the extraction are returned alongside. */
  method NewCsvParser(format: string, labelColumn: string, delimiter: string, weightColumn: int, kind: NumKind)
    returns (parser: Result<ParserConfig, ConfigError>, warnings: seq<Warning>)
    ensures parser == ParserSpec(format, labelColumn, delimiter, weightColumn, kind)
    ensures parser.Ok? ==> warnings == ExtractSpec(map[], labelColumn).value.warnings
  {
    var param := new CsvParserParam(format, labelColumn, delimiter, weightColumn);
    var extracted := param.ExtractLabelColumnIndices();
    if extracted.Err? {
      return Err(extracted.error), [];
    }
    warnings := extracted.value;
    if param.format != "csv" {
      return Err(FormatNotCsv), warnings;
    }
    if param.weightColumn in param.labelColumnIndices {
      return Err(LabelWeightOverlap), warnings;
    }
    parser := Ok(ParserConfig(param.labelColumnIndices, param.labelCount, DelimiterChar(param.delimiter), param.weightColumn, kind));
  }

  /** Converts the field at p and stores it: in the column's label slot,
      as the weight of a float parser, or as the next feature when the
      conversion consumed something; a feature column always advances idx.
      Returns where the conversion ended. */
  method StoreField(cfg: ParserConfig, s: seq<char>, p: nat, column: nat, rowLabels: array<int>,
                    out: RowBlockContainer, idx: nat, weight: Option<int>,
                    ghost row: Row, ghost index0: seq<nat>, ghost value0: seq<int>)
    returns (end: nat, idx': nat, weight': Option<int>)
    requires Valid(cfg) && p <= |s| && |row.labels| == cfg.labelCount
    requires rowLabels[..] == row.labels && weight == row.weight && idx == row.idx
    requires out.index == index0 + row.index && out.value == value0 + row.value
    modifies rowLabels, out
    ensures end == ParseNum(s, p).end
    ensures var r := FieldStep(cfg, s, p, column, row);
            && rowLabels[..] == r.labels && weight' == r.weight && idx' == r.idx
            && out.index == index0 + r.index && out.value == value0 + r.value
    ensures out.offset == old(out.offset) && out.labels == old(out.labels) && out.weight == old(out.weight)
    ensures out.labelCount == old(out.labelCount)
  {
    var conv := ParseNum(s, p);
    var v := Convert(cfg.kind, conv.value);
    end, idx', weight' := conv.end, idx, weight;
    if column in cfg.labelColumnIndices {
      rowLabels[cfg.labelColumnIndices[column]] := v;
    } else if cfg.kind == Float32 && column == cfg.weightColumn {
      weight' := Some(v);
    } else if conv.end != p {
      out.value := out.value + [v];
      out.index := out.index + [idx];
      idx' := idx + 1;
    } else {
      idx' := idx + 1;
    }
  }

  /** The field loop of one line [lbegin, lend): each field is converted
      and stored, and the cursor moves past the next delimiter. Reports
      whether the line aborts and the weight it read. */
  method ParseFields(cfg: ParserConfig, s: seq<char>, lbegin: nat, lend: nat, rowLabels: array<int>, out: RowBlockContainer)
    returns (aborted: bool, weight: Option<int>)
    requires Valid(cfg) && lbegin < |s| && lend == LineStop(s, lbegin)
    requires rowLabels.Length == cfg.labelCount
    modifies rowLabels, out
    ensures aborted <==> LineRow(cfg, s, lbegin).None?
    ensures out.offset == old(out.offset) && out.labels == old(out.labels) && out.weight == old(out.weight)
    ensures out.labelCount == old(out.labelCount)
    ensures !aborted ==>
              var row := LineRow(cfg, s, lbegin).value;
              && rowLabels[..] == row.labels && weight == row.weight
              && out.index == old(out.index) + row.index && out.value == old(out.value) + row.value
  {
    ghost var index0 := out.index;
    ghost var value0 := out.value;
    var d := cfg.delimiter;
    var p := lbegin;
    var column: nat := 0;
    var idx: nat := 0;
    forall i | 0 <= i < rowLabels.Length {
      rowLabels[i] := 0;
    }
    weight := None;
    ghost var row := EmptyRow(cfg);
    ghost var line := LineRow(cfg, s, lbegin);
    while p != lend
      invariant lbegin <= p <= lend && |row.labels| == cfg.labelCount
      invariant LineFrom(cfg, s, lend, p, column, row) == line
      invariant rowLabels[..] == row.labels && weight == row.weight && idx == row.idx
      invariant out.index == index0 + row.index && out.value == value0 + row.value
      invariant out.offset == old(out.offset) && out.labels == old(out.labels) && out.weight == old(out.weight)
      invariant out.labelCount == old(out.labelCount)
      decreases lend - p
    {
      ghost var start := p;
      var end;
      end, idx, weight := StoreField(cfg, s, p, column, rowLabels, out, idx, weight, row, index0, value0);
      row := FieldStep(cfg, s, start, column, row);
      p := if end >= lend then lend else end;
      column := column + 1;
      p := ScanToDelimiter(s, d, p, lend);
      assert p == FieldStop(s, lend, d, start);
      if p == lend && idx == 0 {
        return true, weight;
      }
      if p != lend {
        p := p + 1;
      }
      assert p == NextField(s, lend, d, start);
    }
    return false, weight;
  }

  /** Advances p to the first delimiter at or after p, or to lend. */
  method ScanToDelimiter(s: seq<char>, d: char, p: nat, lend: nat) returns (q: nat)
    requires p <= lend <= |s|
    ensures q == Find(s, d, p, lend)
  {
    q := p;
    while q != lend && s[q] != d
      invariant p <= q <= lend
      invariant forall j :: p <= j < q ==> s[j] != d
      decreases lend - q
    {
      q := q + 1;
    }
    FindUnique(s, d, p, lend, q);
  }

  /** Advances i past a run of line terminators. */
  method SkipLineBreaks(s: seq<char>, i: nat) returns (j: nat)
    requires i <= |s|
    ensures j == SkipNewlines(s, i)
  {
    j := i;
    while j < |s| && IsNewline(s[j])
      invariant i <= j <= |s| && SkipNewlines(s, j) == SkipNewlines(s, i)
      decreases |s| - j
    {
      j := j + 1;
    }
  }

  /** The end of the line starting at lbegin: the first line terminator
      after lbegin, or the end of the block. */
  method FindLineEnd(s: seq<char>, lbegin: nat) returns (lend: nat)
    requires lbegin < |s|
    ensures lend == LineStop(s, lbegin)
  {
    lend := lbegin + 1;
    while lend < |s| && !IsNewline(s[lend])
      invariant lbegin < lend <= |s| && LineEnd(s, lend) == LineEnd(s, lbegin + 1)
      decreases |s| - lend
    {
      lend := lend + 1;
    }
  }

  /** One iteration of the line loop: finds the line end, parses the
      fields, skips the line terminators and appends the row's labels,
      weight and end offset. Returns where the next line starts. */
  method ParseLine(cfg: ParserConfig, s: seq<char>, lbegin: nat, rowLabels: array<int>, out: RowBlockContainer)
    returns (aborted: bool, next: nat)
    requires Valid(cfg) && lbegin < |s| && rowLabels.Length == cfg.labelCount
    modifies rowLabels, out
    ensures aborted <==> LineRow(cfg, s, lbegin).None?
    ensures out.labelCount == old(out.labelCount)
    ensures !aborted ==>
              && next == SkipNewlines(s, LineStop(s, lbegin))
              && out.Contents() == CloseRow(old(out.Contents()), LineRow(cfg, s, lbegin).value)
  {
    var lend := FindLineEnd(s, lbegin);
    ghost var b0 := out.Contents();
    var weight;
    aborted, weight := ParseFields(cfg, s, lbegin, lend, rowLabels, out);
    if aborted {
      return true, lend;
    }
    ghost var row := LineRow(cfg, s, lbegin).value;
    next := SkipLineBreaks(s, lend);
    out.labels := out.labels + rowLabels[..];
    if weight.Some? {
      out.weight := out.weight + [weight.value];
    }
    out.offset := out.offset + [|out.index|];
    assert out.Contents() == CloseRow(b0, row);
  }

  /** Parses the block s into out. Returns the fatal error that stops the
      parse, if any; otherwise out holds exactly the rows ParseBlockSpec
      describes. */
  method ParseBlock(cfg: ParserConfig, s: seq<char>, out: RowBlockContainer) returns (failure: Option<ParseError>)
    requires Valid(cfg)
    modifies out
    ensures out.labelCount == cfg.labelCount
    ensures ParseBlockSpec(cfg, s).Ok? <==> failure == None
    ensures ParseBlockSpec(cfg, s).Ok? ==> out.Contents() == ParseBlockSpec(cfg, s).value
    ensures ParseBlockSpec(cfg, s).Err? ==> failure == Some(ParseBlockSpec(cfg, s).error)
  {
    out.Clear();
    out.labelCount := cfg.labelCount;
    var rowLabels := new int[cfg.labelCount];
    var lbegin := SkipLineBreaks(s, 0);
    ghost var spec := ParseLines(cfg, s, lbegin, EmptyBlock());
    ghost var rows: nat := 0;
    while lbegin < |s|
      invariant lbegin <= |s|
      invariant out.labelCount == cfg.labelCount && rowLabels.Length == cfg.labelCount
      invariant |out.offset| == rows + 1 && |out.labels| == cfg.labelCount * rows
      invariant ParseLines(cfg, s, lbegin, out.Contents()) == spec
      decreases |s| - lbegin
    {
      ghost var labels0 := out.labels;
      var aborted, next := ParseLine(cfg, s, lbegin, rowLabels, out);
      if aborted {
        return Some(DelimiterNotFound(lbegin));
      }
      RowsOfLabels(|labels0|, cfg.labelCount, rows);
      rows := rows + 1;
      lbegin := next;
    }
    assert cfg.labelCount > 0;
    MultipleOf(|out.labels|, cfg.labelCount, rows);
    assert |out.labels| % cfg.labelCount == 0;
    assert |out.labels| / cfg.labelCount + 1 == |out.offset|;
    if !WeightsConsistent(out.Contents()) {
      return Some(WeightCountMismatch);
    }
    return None;
  }
}
