/** Properties of a parsed block: the container stays a well-formed CSR
    block, the consistency checks at the end of ParseBlock hold, there is
    one row per line holding that line's labels and features, the weights
    are the lines' weights in order, and which line stops a parse. */
module CsvBlockProperties {
  import opened Results
  import opened NumParse
  import opened TextScan
  import opened CsvConfig
  import opened CsvRows
  import opened RowBlock
  import opened CsvBlock
  import opened CsvRowProperties

  /** A row block with rows of `width` labels: offsets start at 0, never
      decrease and end at the number of features; index and value match;
      at most one weight per row; indices increase within each row. */
  ghost predicate WellFormed(b: Block, width: nat)
  {
    && |b.offset| >= 1 && b.offset[0] == 0
    && (forall i, j :: 0 <= i <= j < |b.offset| ==> b.offset[i] <= b.offset[j])
    && b.offset[|b.offset| - 1] == |b.index|
    && |b.index| == |b.value|
    && |b.labels| == width * (|b.offset| - 1)
    && |b.weight| <= |b.offset| - 1
    && (forall i, j, k :: 0 <= i < |b.offset| - 1 && b.offset[i] <= j < k < b.offset[i + 1] ==> b.index[j] < b.index[k])
  }

  lemma EmptyBlockWellFormed(width: nat)
    ensures WellFormed(EmptyBlock(), width)
  {
  }

  /** Closing a row with width labels and ordered features keeps the block well formed. */
  lemma CloseRowKeepsWellFormed(b: Block, r: Row, width: nat)
    requires WellFormed(b, width) && |r.labels| == width && FeaturesOrdered(r)
    ensures WellFormed(CloseRow(b, r), width)
  {
    var b' := CloseRow(b, r);
    var n := |b.offset|;
    assert b'.offset[n] == |b'.index|;
    RowsOfLabels(|b.labels|, width, n - 1);
    forall i, j, k | 0 <= i < |b'.offset| - 1 && b'.offset[i] <= j < k < b'.offset[i + 1]
      ensures b'.index[j] < b'.index[k]
    {
      if i < n - 1 {
        assert b'.offset[i + 1] == b.offset[i + 1] <= |b.index|;
      } else {
        assert b'.index[j] == r.index[j - |b.index|] && b'.index[k] == r.index[k - |b.index|];
      }
    }
  }

  /** Every block ParseLines completes is well formed when it starts from one. */
  lemma {:induction false} ParseLinesKeepsWellFormed(cfg: ParserConfig, s: seq<char>, lb: nat, b: Block)
    requires Valid(cfg) && lb <= |s| && WellFormed(b, cfg.labelCount)
    ensures ParseLines(cfg, s, lb, b).Ok? ==> WellFormed(ParseLines(cfg, s, lb, b).value, cfg.labelCount)
    decreases |s| - lb
  {
    if lb < |s| && LineRow(cfg, s, lb).Some? {
      var row := LineRow(cfg, s, lb).value;
      LineRowFeatures(cfg, s, lb);
      CloseRowKeepsWellFormed(b, row, cfg.labelCount);
      ParseLinesKeepsWellFormed(cfg, s, SkipNewlines(s, LineStop(s, lb)), CloseRow(b, row));
    }
  }

  /** A successful parse yields a well-formed block that passes the
      consistency checks ParseBlock ends with: a positive label count, a
      label vector of label_count entries per row and a weight vector that
      is empty or has one entry per row. */
  lemma ParseBlockChecks(cfg: ParserConfig, s: seq<char>)
    requires Valid(cfg)
    ensures ParseBlockSpec(cfg, s).Ok? ==>
              var b := ParseBlockSpec(cfg, s).value;
              && WellFormed(b, cfg.labelCount)
              && cfg.labelCount > 0
              && |b.labels| % cfg.labelCount == 0
              && |b.labels| / cfg.labelCount + 1 == |b.offset|
              && WeightsConsistent(b)
  {
    EmptyBlockWellFormed(cfg.labelCount);
    ParseLinesKeepsWellFormed(cfg, s, SkipNewlines(s, 0), EmptyBlock());
    if ParseBlockSpec(cfg, s).Ok? {
      var b := ParseBlockSpec(cfg, s).value;
      MultipleOf(|b.labels|, cfg.labelCount, |b.offset| - 1);
    }
  }

  /** The weight check fails exactly when some but not all rows carry a weight. */
  lemma WeightMismatch(cfg: ParserConfig, s: seq<char>)
    requires Valid(cfg)
    ensures ParseBlockSpec(cfg, s) == Err(WeightCountMismatch) <==>
              var lines := ParseLines(cfg, s, SkipNewlines(s, 0), EmptyBlock());
              lines.Ok? && 0 < |lines.value.weight| < Rows(lines.value)
  {
    var lines := ParseLines(cfg, s, SkipNewlines(s, 0), EmptyBlock());
    EmptyBlockWellFormed(cfg.labelCount);
    ParseLinesKeepsWellFormed(cfg, s, SkipNewlines(s, 0), EmptyBlock());
    if lines.Ok? {
      var b := lines.value;
      assert Rows(b) == |b.offset| - 1;
      assert ParseBlockSpec(cfg, s) == if WeightsConsistent(b) then Ok(b) else Err(WeightCountMismatch);
    } else {
      assert lines.error.DelimiterNotFound? by {
        FirstLineStart(s);
        ParseLinesOutcome(cfg, s, SkipNewlines(s, 0), EmptyBlock());
      }
    }
  }

  /** The block's first line starts after the leading terminators, and
      none starts before. */
  lemma FirstLineStart(s: seq<char>)
    ensures var lb := SkipNewlines(s, 0);
            && (lb == |s| || IsLineStart(s, lb))
            && (forall k :: 0 <= k < lb ==> !IsLineStart(s, k))
  {
    var lb := SkipNewlines(s, 0);
    forall k | 0 <= k < lb
      ensures !IsLineStart(s, k)
    {
      assert IsNewline(s[k]);
    }
    if lb < |s| {
      assert lb == 0 || IsNewline(s[lb - 1]);
    }
  }

  /** ParseBlock stops with DelimiterNotFound exactly when a line of the
      block aborts, and names the first such line; otherwise only the
      weight check can fail it. */
  lemma ParseBlockOutcome(cfg: ParserConfig, s: seq<char>)
    requires Valid(cfg)
    ensures ParseBlockSpec(cfg, s).Ok? ==> LinesParse(cfg, s, 0, |s|)
    ensures LinesParse(cfg, s, 0, |s|) ==>
              ParseBlockSpec(cfg, s).Ok? || ParseBlockSpec(cfg, s) == Err(WeightCountMismatch)
    ensures ParseBlockSpec(cfg, s).Err? && ParseBlockSpec(cfg, s).error.DelimiterNotFound? ==>
              var k := ParseBlockSpec(cfg, s).error.lineStart;
              && k < |s| && IsLineStart(s, k) && LineRow(cfg, s, k).None?
              && LinesParse(cfg, s, 0, k)
  {
    var lb := SkipNewlines(s, 0);
    FirstLineStart(s);
    ParseLinesOutcome(cfg, s, lb, EmptyBlock());
  }

  /** Every line that starts in [lo, hi) parses without aborting. */
  ghost predicate LinesParse(cfg: ParserConfig, s: seq<char>, lo: nat, hi: nat)
    requires Valid(cfg) && hi <= |s|
  {
    forall k :: lo <= k < hi && IsLineStart(s, k) ==> LineRow(cfg, s, k).Some?
  }

  /** ParseLines succeeds exactly when no line from lb on aborts; when it
      fails, it reports the first line that aborts, and nothing else. */
  lemma {:induction false} ParseLinesOutcome(cfg: ParserConfig, s: seq<char>, lb: nat, b: Block)
    requires Valid(cfg) && lb <= |s|
    requires lb == |s| || IsLineStart(s, lb)
    ensures ParseLines(cfg, s, lb, b).Ok? <==> LinesParse(cfg, s, lb, |s|)
    ensures ParseLines(cfg, s, lb, b).Err? ==>
              && ParseLines(cfg, s, lb, b).error.DelimiterNotFound?
              && var k := ParseLines(cfg, s, lb, b).error.lineStart;
                 && lb <= k < |s| && IsLineStart(s, k) && LineRow(cfg, s, k).None?
                 && LinesParse(cfg, s, lb, k)
    decreases |s| - lb
  {
    if lb < |s| {
      var row := LineRow(cfg, s, lb);
      if row.Some? {
        var next := SkipNewlines(s, LineStop(s, lb));
        assert ParseLines(cfg, s, lb, b) == ParseLines(cfg, s, next, CloseRow(b, row.value));
        NextLineStart(s, lb);
        ParseLinesOutcome(cfg, s, next, CloseRow(b, row.value));
        LinesParseExtend(cfg, s, lb, next, |s|);
        if ParseLines(cfg, s, lb, b).Err? {
          LinesParseExtend(cfg, s, lb, next, ParseLines(cfg, s, lb, b).error.lineStart);
        }
      } else {
        assert ParseLines(cfg, s, lb, b) == Err(DelimiterNotFound(lb));
      }
    }
  }

  /** A line that parses, followed by lines that parse, parse together. */
  lemma LinesParseExtend(cfg: ParserConfig, s: seq<char>, lb: nat, next: nat, hi: nat)
    requires Valid(cfg) && lb < next <= hi <= |s|
    requires IsLineStart(s, lb) && LineRow(cfg, s, lb).Some?
    requires forall k :: lb < k < next ==> !IsLineStart(s, k)
    ensures LinesParse(cfg, s, lb, hi) <==> LinesParse(cfg, s, next, hi)
  {
    if LinesParse(cfg, s, next, hi) {
      forall k | lb <= k < hi && IsLineStart(s, k)
        ensures LineRow(cfg, s, k).Some?
      {
        assert k == lb || next <= k;
      }
    }
  }

  /** Positions lo .. hi-1 hold no line start. */
  lemma {:induction false} NoLineStartsBetween(s: seq<char>, lo: nat, hi: nat)
    requires lo <= hi <= |s|
    requires forall k :: lo <= k < hi ==> !IsLineStart(s, k)
    ensures CountLineStarts(s, hi) == CountLineStarts(s, lo)
    decreases hi - lo
  {
    if lo < hi {
      NoLineStartsBetween(s, lo, hi - 1);
    }
  }

  /** The next line starts where the terminators after this line end;
      no line starts in between. */
  lemma NextLineStart(s: seq<char>, lb: nat)
    requires lb < |s| && IsLineStart(s, lb)
    ensures var next := SkipNewlines(s, LineStop(s, lb));
            && (forall k :: lb < k < next ==> !IsLineStart(s, k))
            && (next == |s| || IsLineStart(s, next))
  {
    var le := LineStop(s, lb);
    var next := SkipNewlines(s, le);
    forall k | lb < k < next
      ensures !IsLineStart(s, k)
    {
      if k < le {
        assert !IsNewline(s[k - 1]);
      } else {
        assert IsNewline(s[k]);
      }
    }
    if next < |s| {
      assert le < next && IsNewline(s[next - 1]);
    }
  }

  /** From one line start to the next there is exactly one line start. */
  lemma OneLineStartPerLine(s: seq<char>, lb: nat)
    requires lb < |s| && IsLineStart(s, lb)
    ensures var next := SkipNewlines(s, LineStop(s, lb));
            && CountLineStarts(s, next) == CountLineStarts(s, lb) + 1
            && (next == |s| || IsLineStart(s, next))
  {
    var next := SkipNewlines(s, LineStop(s, lb));
    assert CountLineStarts(s, lb + 1) == CountLineStarts(s, lb) + 1;
    NextLineStart(s, lb);
    NoLineStartsBetween(s, lb + 1, next);
  }

  /** ParseLines adds one row per line start from lb on. */
  lemma {:induction false} ParseLinesCountsLines(cfg: ParserConfig, s: seq<char>, lb: nat, b: Block)
    requires Valid(cfg) && lb <= |s| && |b.offset| >= 1
    requires lb == |s| || IsLineStart(s, lb)
    ensures ParseLines(cfg, s, lb, b).Ok? ==>
              Rows(ParseLines(cfg, s, lb, b).value) == Rows(b) + CountLineStarts(s, |s|) - CountLineStarts(s, lb)
    decreases |s| - lb
  {
    if lb < |s| && LineRow(cfg, s, lb).Some? {
      var next := SkipNewlines(s, LineStop(s, lb));
      OneLineStartPerLine(s, lb);
      ParseLinesCountsLines(cfg, s, next, CloseRow(b, LineRow(cfg, s, lb).value));
    }
  }

  /** A successful parse has one row per line of the block; runs of line
      terminators, leading ones included, produce no rows. */
  lemma BlockRowsAreLines(cfg: ParserConfig, s: seq<char>)
    requires Valid(cfg)
    ensures ParseBlockSpec(cfg, s).Ok? ==> Rows(ParseBlockSpec(cfg, s).value) == CountLineStarts(s, |s|)
  {
    var lb := SkipNewlines(s, 0);
    forall k | 0 <= k < lb
      ensures !IsLineStart(s, k)
    {
      assert IsNewline(s[k]);
    }
    NoLineStartsBetween(s, 0, lb);
    if lb < |s| {
      assert lb == 0 || IsNewline(s[lb - 1]);
    }
    ParseLinesCountsLines(cfg, s, lb, EmptyBlock());
  }

  /** An integer parser, or a negative weight column, adds no weights. */
  lemma {:induction false} ParseLinesWithoutWeights(cfg: ParserConfig, s: seq<char>, lb: nat, b: Block)
    requires Valid(cfg) && lb <= |s|
    requires cfg.kind != Float32 || cfg.weightColumn < 0
    ensures ParseLines(cfg, s, lb, b).Ok? ==> ParseLines(cfg, s, lb, b).value.weight == b.weight
    decreases |s| - lb
  {
    if lb < |s| && LineRow(cfg, s, lb).Some? {
      LineRowWeight(cfg, s, lb);
      ParseLinesWithoutWeights(cfg, s, SkipNewlines(s, LineStop(s, lb)), CloseRow(b, LineRow(cfg, s, lb).value));
    }
  }

  lemma BlockWithoutWeights(cfg: ParserConfig, s: seq<char>)
    requires Valid(cfg)
    requires cfg.kind != Float32 || cfg.weightColumn < 0
    ensures ParseBlockSpec(cfg, s).Ok? ==> ParseBlockSpec(cfg, s).value.weight == []
  {
    ParseLinesWithoutWeights(cfg, s, SkipNewlines(s, 0), EmptyBlock());
  }

  /** Every line of s from lb on reaches the weight column. */
  ghost predicate LinesReachWeight(cfg: ParserConfig, s: seq<char>, lb: nat)
    requires lb <= |s|
  {
    forall k :: lb <= k < |s| && IsLineStart(s, k) ==> cfg.weightColumn < LineFields(cfg, s, k)
  }

  /** When a float parser's weight column is in every line, each row adds
      exactly one weight. */
  lemma {:induction false} ParseLinesAllWeighted(cfg: ParserConfig, s: seq<char>, lb: nat, b: Block)
    requires Valid(cfg) && lb <= |s| && |b.offset| >= 1
    requires lb == |s| || IsLineStart(s, lb)
    requires cfg.kind == Float32 && cfg.weightColumn >= 0 && LinesReachWeight(cfg, s, lb)
    ensures ParseLines(cfg, s, lb, b).Ok? ==>
              |ParseLines(cfg, s, lb, b).value.weight| - |b.weight| == Rows(ParseLines(cfg, s, lb, b).value) - Rows(b)
    decreases |s| - lb
  {
    if lb < |s| && LineRow(cfg, s, lb).Some? {
      var next := SkipNewlines(s, LineStop(s, lb));
      LineRowWeight(cfg, s, lb);
      OneLineStartPerLine(s, lb);
      ParseLinesAllWeighted(cfg, s, next, CloseRow(b, LineRow(cfg, s, lb).value));
    }
  }

  /** A float parser whose weight column is in every line passes the
      weight check: one weight per row. */
  lemma EveryLineWeighted(cfg: ParserConfig, s: seq<char>)
    requires Valid(cfg) && cfg.kind == Float32 && cfg.weightColumn >= 0
    requires LinesReachWeight(cfg, s, 0)
    ensures ParseLines(cfg, s, SkipNewlines(s, 0), EmptyBlock()).Ok? ==>
              && ParseBlockSpec(cfg, s).Ok?
              && |ParseBlockSpec(cfg, s).value.weight| == Rows(ParseBlockSpec(cfg, s).value)
  {
    var lb := SkipNewlines(s, 0);
    if lb < |s| {
      assert lb == 0 || IsNewline(s[lb - 1]);
    }
    ParseLinesAllWeighted(cfg, s, lb, EmptyBlock());
    EmptyBlockWellFormed(cfg.labelCount);
    ParseLinesKeepsWellFormed(cfg, s, lb, EmptyBlock());
  }

  /** b' holds b: every vector of b is a prefix of the same vector of b'. */
  ghost predicate Extends(b: Block, b': Block)
  {
    && b.offset <= b'.offset && b.labels <= b'.labels && b.weight <= b'.weight
    && b.index <= b'.index && b.value <= b'.value
  }

  /** Row i of b, with rows of `width` labels, holds the labels and the
      features of r: labels[i*width .. (i+1)*width] and index/value
      between offset[i] and offset[i+1]. */
  ghost predicate RowIs(b: Block, width: nat, i: nat, r: Row)
  {
    && i + 1 < |b.offset|
    && b.offset[i] <= b.offset[i + 1] <= |b.index| && |b.index| == |b.value|
    && b.index[b.offset[i]..b.offset[i + 1]] == r.index
    && b.value[b.offset[i]..b.offset[i + 1]] == r.value
    && (i + 1) * width <= |b.labels|
    && b.labels[i * width..(i + 1) * width] == r.labels
  }

  /** Rows i, i + 1, ... of b are the rows of `rows`, in order. */
  ghost predicate RowsAt(b: Block, width: nat, i: nat, rows: seq<Row>)
  {
    forall j :: 0 <= j < |rows| ==> RowIs(b, width, i + j, rows[j])
  }

  /** The weights rows carry, in order; a row without one adds nothing. */
  function RowWeights(rows: seq<Row>): seq<int>
  {
    if rows == [] then []
    else (if rows[0].weight.Some? then [rows[0].weight.value] else []) + RowWeights(rows[1..])
  }

  /** The line starts of s at or after i, in order. */
  ghost function LineStartsFrom(s: seq<char>, i: nat): (ks: seq<nat>)
    requires i <= |s|
    ensures forall j :: 0 <= j < |ks| ==> i <= ks[j] < |s| && IsLineStart(s, ks[j])
    decreases |s| - i
  {
    if i == |s| then []
    else if IsLineStart(s, i) then [i] + LineStartsFrom(s, i + 1)
    else LineStartsFrom(s, i + 1)
  }

  /** The rows the lines starting at ks parse to, in order, or None when
      one of them aborts. */
  ghost function LineRows(cfg: ParserConfig, s: seq<char>, ks: seq<nat>): Option<seq<Row>>
    requires Valid(cfg) && forall j :: 0 <= j < |ks| ==> ks[j] < |s|
  {
    if ks == [] then Some([])
    else
      var first := LineRow(cfg, s, ks[0]);
      var rest := LineRows(cfg, s, ks[1..]);
      if first.Some? && rest.Some? then Some([first.value] + rest.value) else None
  }

  /** LineRows has one row per line. */
  lemma {:induction false} LineRowsLength(cfg: ParserConfig, s: seq<char>, ks: seq<nat>)
    requires Valid(cfg) && forall j :: 0 <= j < |ks| ==> ks[j] < |s|
    ensures LineRows(cfg, s, ks).Some? ==> |LineRows(cfg, s, ks).value| == |ks|
    decreases |ks|
  {
    if ks != [] {
      LineRowsLength(cfg, s, ks[1..]);
    }
  }

  /** Position j of LineRows is the row line ks[j] parses to. */
  lemma {:induction false} LineRowsAt(cfg: ParserConfig, s: seq<char>, ks: seq<nat>, j: nat)
    requires Valid(cfg) && forall i :: 0 <= i < |ks| ==> ks[i] < |s|
    requires LineRows(cfg, s, ks).Some? && j < |ks|
    ensures j < |LineRows(cfg, s, ks).value|
    ensures LineRow(cfg, s, ks[j]) == Some(LineRows(cfg, s, ks).value[j])
    decreases j
  {
    var first := LineRow(cfg, s, ks[0]);
    var rest := LineRows(cfg, s, ks[1..]);
    var rows := LineRows(cfg, s, ks).value;
    assert first.Some? && rest.Some? && rows == [first.value] + rest.value;
    if j > 0 {
      LineRowsAt(cfg, s, ks[1..], j - 1);
      assert ks[j] == ks[1..][j - 1] && rows[j] == rest.value[j - 1];
    }
  }

  /** Positions that hold no line start add nothing to LineStartsFrom. */
  lemma {:induction false} LineStartsSkip(s: seq<char>, lo: nat, hi: nat)
    requires lo <= hi <= |s|
    requires forall k :: lo <= k < hi ==> !IsLineStart(s, k)
    ensures LineStartsFrom(s, lo) == LineStartsFrom(s, hi)
    decreases hi - lo
  {
    if lo < hi {
      LineStartsSkip(s, lo + 1, hi);
    }
  }

  /** Closing row r in a well-formed block keeps the block's vectors as
      prefixes, makes r its last row and adds r's weight, if any. */
  lemma CloseRowContents(b: Block, r: Row, width: nat)
    requires WellFormed(b, width) && |r.labels| == width && |r.index| == |r.value|
    ensures var b' := CloseRow(b, r);
            && Extends(b, b')
            && RowIs(b', width, Rows(b), r)
            && b'.weight == b.weight + RowWeights([r])
  {
    var b' := CloseRow(b, r);
    var n := Rows(b);
    RowsOfLabels(|b.labels|, width, n);
    assert n * width == |b.labels| && (n + 1) * width == |b.labels| + width;
    assert b'.offset[n] == |b.index|;
    assert b'.index[|b.index|..|b'.index|] == r.index;
    assert b'.value[|b.value|..|b'.value|] == r.value;
    assert b'.labels[|b.labels|..|b'.labels|] == r.labels;
    assert RowWeights([r]) == (if r.weight.Some? then [r.weight.value] else []) + RowWeights([]);
  }

  /** A row of b is the same row of every block that extends b. */
  lemma RowIsExtends(b: Block, b': Block, width: nat, i: nat, r: Row)
    requires RowIs(b, width, i, r) && Extends(b, b') && |b'.index| == |b'.value|
    ensures RowIs(b', width, i, r)
  {
    assert b'.offset[i] == b.offset[i] && b'.offset[i + 1] == b.offset[i + 1];
    assert b'.index[b.offset[i]..b.offset[i + 1]] == b.index[b.offset[i]..b.offset[i + 1]];
    assert b'.value[b.offset[i]..b.offset[i + 1]] == b.value[b.offset[i]..b.offset[i + 1]];
    assert b'.labels[i * width..(i + 1) * width] == b.labels[i * width..(i + 1) * width];
  }

  /** b' is b with `rows` appended: b's vectors are kept as prefixes, one
      row per element of rows follows in order, and so do their weights. */
  ghost predicate Appended(b: Block, b': Block, width: nat, rows: seq<Row>)
  {
    && Extends(b, b')
    && |b'.offset| == |b.offset| + |rows|
    && RowsAt(b', width, Rows(b), rows)
    && b'.weight == b.weight + RowWeights(rows)
  }

  /** Appending r, then rest, appends [r] + rest. */
  lemma AppendedStep(b: Block, b1: Block, b': Block, width: nat, r: Row, rest: seq<Row>)
    requires Extends(b, b1) && |b.offset| >= 1 && |b1.offset| == |b.offset| + 1
    requires b1.weight == b.weight + RowWeights([r])
    requires RowIs(b', width, Rows(b), r)
    requires Appended(b1, b', width, rest)
    ensures Appended(b, b', width, [r] + rest)
  {
    var rows := [r] + rest;
    assert rows[0] == r && rows[1..] == rest;
    assert RowWeights([r]) == (if r.weight.Some? then [r.weight.value] else []) + RowWeights([]);
    assert RowWeights(rows) == RowWeights([r]) + RowWeights(rest);
    AppendAssoc(b.weight, RowWeights([r]), RowWeights(rest));
    forall j | 0 < j < |rows|
      ensures RowIs(b', width, Rows(b) + j, rows[j])
    {
      assert rows[j] == rest[j - 1] && Rows(b) + j == Rows(b1) + (j - 1);
    }
  }

  /** The line loop appends the rows of the lines from lb on, in order:
      every such line parses, row Rows(b) + j holds the labels and
      features the j-th line parses to, the weights are the lines'
      weights in order, and what b held is kept. */
  lemma {:induction false} ParseLinesContents(cfg: ParserConfig, s: seq<char>, lb: nat, b: Block)
    requires Valid(cfg) && lb <= |s| && (lb == |s| || IsLineStart(s, lb))
    requires WellFormed(b, cfg.labelCount)
    ensures ParseLines(cfg, s, lb, b).Ok? ==>
              && LineRows(cfg, s, LineStartsFrom(s, lb)).Some?
              && Appended(b, ParseLines(cfg, s, lb, b).value, cfg.labelCount, LineRows(cfg, s, LineStartsFrom(s, lb)).value)
    decreases |s| - lb
  {
    if lb < |s| && LineRow(cfg, s, lb).Some? {
      var row := LineRow(cfg, s, lb).value;
      var next := SkipNewlines(s, LineStop(s, lb));
      var b1 := CloseRow(b, row);
      var result := ParseLines(cfg, s, lb, b);
      assert result == ParseLines(cfg, s, next, b1);
      LineRowFeatures(cfg, s, lb);
      CloseRowKeepsWellFormed(b, row, cfg.labelCount);
      NextLineStart(s, lb);
      ParseLinesContents(cfg, s, next, b1);
      if result.Ok? {
        ParseLinesKeepsWellFormed(cfg, s, next, b1);
        ContentsStep(cfg, s, lb, b, result.value);
      }
    }
  }

  /** One step of ParseLinesContents: the row of line lb followed by the
      rows of the later lines are the rows of the lines from lb on. */
  lemma ContentsStep(cfg: ParserConfig, s: seq<char>, lb: nat, b: Block, b': Block)
    requires Valid(cfg) && lb < |s| && IsLineStart(s, lb) && WellFormed(b, cfg.labelCount)
    requires LineRow(cfg, s, lb).Some? && |b'.index| == |b'.value|
    requires var ks' := LineStartsFrom(s, SkipNewlines(s, LineStop(s, lb)));
             && LineRows(cfg, s, ks').Some?
             && Appended(CloseRow(b, LineRow(cfg, s, lb).value), b', cfg.labelCount, LineRows(cfg, s, ks').value)
    ensures LineRows(cfg, s, LineStartsFrom(s, lb)).Some?
    ensures Appended(b, b', cfg.labelCount, LineRows(cfg, s, LineStartsFrom(s, lb)).value)
  {
    var row := LineRow(cfg, s, lb).value;
    var next := SkipNewlines(s, LineStop(s, lb));
    var b1 := CloseRow(b, row);
    LineRowFeatures(cfg, s, lb);
    CloseRowContents(b, row, cfg.labelCount);
    NextLineStart(s, lb);
    LineStartsSkip(s, lb + 1, next);
    var ks' := LineStartsFrom(s, next);
    var ks := [lb] + ks';
    assert LineStartsFrom(s, lb) == ks;
    assert ks[0] == lb && ks[1..] == ks';
    var rest := LineRows(cfg, s, ks').value;
    assert LineRows(cfg, s, ks) == Some([row] + rest);
    RowIsExtends(b1, b', cfg.labelCount, Rows(b), row);
    AppendedStep(b, b1, b', cfg.labelCount, row, rest);
  }

  /** A successful parse holds one row per line of the block, in order:
      every line parses, row j holds the row of the j-th line (see
      BlockRowOfLine), and the weight vector lists the rows' weights in
      order. */
  lemma BlockContents(cfg: ParserConfig, s: seq<char>)
    requires Valid(cfg)
    ensures ParseBlockSpec(cfg, s).Ok? ==>
              var b := ParseBlockSpec(cfg, s).value;
              var ks := LineStartsFrom(s, 0);
              && LineRows(cfg, s, ks).Some?
              && var rows := LineRows(cfg, s, ks).value;
                 && Rows(b) == |rows| == |ks|
                 && RowsAt(b, cfg.labelCount, 0, rows)
                 && b.weight == RowWeights(rows)
  {
    var lb := SkipNewlines(s, 0);
    FirstLineStart(s);
    LineStartsSkip(s, 0, lb);
    EmptyBlockWellFormed(cfg.labelCount);
    ParseLinesContents(cfg, s, lb, EmptyBlock());
    LineRowsLength(cfg, s, LineStartsFrom(s, 0));
    var lines := ParseLines(cfg, s, lb, EmptyBlock());
    if lines.Ok? {
      assert ParseBlockSpec(cfg, s).Ok? ==> ParseBlockSpec(cfg, s).value == lines.value;
    }
  }

  /** Row j of a successfully parsed block holds the labels and features
      of the block's j-th line: labels[j*label_count .. (j+1)*label_count]
      are that line's label slots, and index/value between offset[j] and
      offset[j+1] are its feature pairs. */
  lemma BlockRowOfLine(cfg: ParserConfig, s: seq<char>, j: nat)
    requires Valid(cfg)
    ensures ParseBlockSpec(cfg, s).Ok? && j < |LineStartsFrom(s, 0)| ==>
              var k := LineStartsFrom(s, 0)[j];
              && LineRow(cfg, s, k).Some?
              && RowIs(ParseBlockSpec(cfg, s).value, cfg.labelCount, j, LineRow(cfg, s, k).value)
  {
    BlockContents(cfg, s);
    var ks := LineStartsFrom(s, 0);
    if ParseBlockSpec(cfg, s).Ok? && j < |ks| {
      LineRowsAt(cfg, s, ks, j);
    }
  }
}
