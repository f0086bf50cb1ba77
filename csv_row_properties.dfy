/** Properties of one parsed line: how many fields it has, what idx counts,
    when the line aborts, where the weight comes from and which label slots
    stay zero. */
module CsvRowProperties {
  import opened Results
  import opened NumParse
  import opened TextScan
  import opened CsvConfig
  import opened CsvRows
  import opened CsvBlock

  /** The number of fields from p to the line end le. */
  function FieldCount(s: seq<char>, le: nat, d: char, p: nat): (n: nat)
    requires p <= le <= |s|
    ensures n == 0 <==> p == le
    decreases le - p
  {
    if p == le then 0 else 1 + FieldCount(s, le, d, NextField(s, le, d, p))
  }

  /** The delimiter scan after the last field from p on reaches the line end. */
  predicate LastScanHitsLineEnd(s: seq<char>, le: nat, d: char, p: nat)
    requires p <= le <= |s|
    decreases le - p
  {
    p < le &&
    if NextField(s, le, d, p) == le then FieldStop(s, le, d, p) == le
    else LastScanHitsLineEnd(s, le, d, NextField(s, le, d, p))
  }

  /** The number of feature columns among the n columns from lo. */
  function FeatureColumns(cfg: ParserConfig, lo: nat, n: nat): (k: nat)
    ensures k <= n
    decreases n
  {
    if n == 0 then 0 else (if IsFeatureColumn(cfg, lo) then 1 else 0) + FeatureColumns(cfg, lo + 1, n - 1)
  }

  /** The features of a row: one index/value pair each, indices strictly
      increasing and all below idx. */
  ghost predicate FeaturesOrdered(r: Row)
  {
    && |r.index| == |r.value|
    && (forall i, j :: 0 <= i < j < |r.index| ==> r.index[i] < r.index[j])
    && (forall i :: 0 <= i < |r.index| ==> r.index[i] < r.idx)
  }

  /** LineFrom consumes one field. */
  lemma LineFromUnfold(cfg: ParserConfig, s: seq<char>, le: nat, p: nat, column: nat, r: Row)
    requires Valid(cfg) && p < le <= |s| && |r.labels| == cfg.labelCount
    ensures var r' := FieldStep(cfg, s, p, column, r);
            LineFrom(cfg, s, le, p, column, r)
            == if FieldStop(s, le, cfg.delimiter, p) == le && r'.idx == 0 then None
               else LineFrom(cfg, s, le, NextField(s, le, cfg.delimiter, p), column + 1, r')
  {
  }

  /** One field of the line: the counts split into this field and the rest. */
  lemma FieldUnfold(cfg: ParserConfig, s: seq<char>, le: nat, p: nat, column: nat, r: Row)
    requires Valid(cfg) && p < le <= |s| && |r.labels| == cfg.labelCount
    ensures var d := cfg.delimiter;
            var next := NextField(s, le, d, p);
            && FieldCount(s, le, d, p) == 1 + FieldCount(s, le, d, next)
            && FeatureColumns(cfg, column, FieldCount(s, le, d, p))
               == (if IsFeatureColumn(cfg, column) then 1 else 0) + FeatureColumns(cfg, column + 1, FieldCount(s, le, d, next))
            && FieldStep(cfg, s, p, column, r).idx == r.idx + (if IsFeatureColumn(cfg, column) then 1 else 0)
            && (LastScanHitsLineEnd(s, le, d, p) <==>
                  if next == le then FieldStop(s, le, d, p) == le else LastScanHitsLineEnd(s, le, d, next))
  {
  }

  /** idx advances once per feature column. */
  lemma {:induction false} LineFromCountsFeatures(cfg: ParserConfig, s: seq<char>, le: nat, p: nat, column: nat, r: Row)
    requires Valid(cfg) && p <= le <= |s| && |r.labels| == cfg.labelCount
    ensures LineFrom(cfg, s, le, p, column, r).Some? ==>
              LineFrom(cfg, s, le, p, column, r).value.idx == r.idx + FeatureColumns(cfg, column, FieldCount(s, le, cfg.delimiter, p))
    decreases le - p
  {
    if p < le {
      FieldUnfold(cfg, s, le, p, column, r);
      LineFromUnfold(cfg, s, le, p, column, r);
      LineFromCountsFeatures(cfg, s, le, NextField(s, le, cfg.delimiter, p), column + 1, FieldStep(cfg, s, p, column, r));
    }
  }

  /** The line aborts exactly when the scan after its last field hits the
      line end while no feature column has been seen. */
  lemma {:induction false} LineFromAborts(cfg: ParserConfig, s: seq<char>, le: nat, p: nat, column: nat, r: Row)
    requires Valid(cfg) && p <= le <= |s| && |r.labels| == cfg.labelCount
    ensures LineFrom(cfg, s, le, p, column, r).None? <==>
              r.idx + FeatureColumns(cfg, column, FieldCount(s, le, cfg.delimiter, p)) == 0
              && LastScanHitsLineEnd(s, le, cfg.delimiter, p)
    decreases le - p
  {
    if p < le {
      var next := NextField(s, le, cfg.delimiter, p);
      FieldUnfold(cfg, s, le, p, column, r);
      LineFromUnfold(cfg, s, le, p, column, r);
      LineFromAborts(cfg, s, le, next, column + 1, FieldStep(cfg, s, p, column, r));
      if next == le {
        assert FieldCount(s, le, cfg.delimiter, next) == 0;
      }
    }
  }

  /** Each line step keeps the features ordered. */
  lemma {:induction false} LineFromKeepsFeaturesOrdered(cfg: ParserConfig, s: seq<char>, le: nat, p: nat, column: nat, r: Row)
    requires Valid(cfg) && p <= le <= |s| && |r.labels| == cfg.labelCount
    requires FeaturesOrdered(r)
    ensures LineFrom(cfg, s, le, p, column, r).Some? ==> FeaturesOrdered(LineFrom(cfg, s, le, p, column, r).value)
    decreases le - p
  {
    if p < le {
      var r' := FieldStep(cfg, s, p, column, r);
      assert FeaturesOrdered(r');
      LineFromUnfold(cfg, s, le, p, column, r);
      LineFromKeepsFeaturesOrdered(cfg, s, le, NextField(s, le, cfg.delimiter, p), column + 1, r');
    }
  }

  /** A float parser sets the weight exactly when the weight column is one
      of the columns the line reaches; an integer parser never does. */
  lemma {:induction false} LineFromWeight(cfg: ParserConfig, s: seq<char>, le: nat, p: nat, column: nat, r: Row)
    requires Valid(cfg) && p <= le <= |s| && |r.labels| == cfg.labelCount
    ensures LineFrom(cfg, s, le, p, column, r).Some? ==>
              (LineFrom(cfg, s, le, p, column, r).value.weight.Some? <==>
                 r.weight.Some? ||
                 (cfg.kind == Float32 && column <= cfg.weightColumn < column + FieldCount(s, le, cfg.delimiter, p)))
    decreases le - p
  {
    if p < le {
      var r' := FieldStep(cfg, s, p, column, r);
      assert r'.weight.Some? <==> r.weight.Some? || (cfg.kind == Float32 && column == cfg.weightColumn);
      LineFromUnfold(cfg, s, le, p, column, r);
      LineFromWeight(cfg, s, le, NextField(s, le, cfg.delimiter, p), column + 1, r');
    }
  }

  /** A label slot that no label column of the remaining fields owns keeps
      its value. */
  lemma {:induction false} LineFromKeepsUnownedSlot(cfg: ParserConfig, s: seq<char>, le: nat, p: nat, column: nat, r: Row, slot: nat)
    requires Valid(cfg) && p <= le <= |s| && |r.labels| == cfg.labelCount && slot < cfg.labelCount
    requires forall c :: c in cfg.labelColumnIndices && column <= c < column + FieldCount(s, le, cfg.delimiter, p) ==>
               cfg.labelColumnIndices[c] != slot
    ensures LineFrom(cfg, s, le, p, column, r).Some? ==> LineFrom(cfg, s, le, p, column, r).value.labels[slot] == r.labels[slot]
    decreases le - p
  {
    if p < le {
      var r' := FieldStep(cfg, s, p, column, r);
      assert r'.labels[slot] == r.labels[slot];
      LineFromUnfold(cfg, s, le, p, column, r);
      LineFromKeepsUnownedSlot(cfg, s, le, NextField(s, le, cfg.delimiter, p), column + 1, r', slot);
    }
  }

  /** Where the k-th field from p starts (counting from 0), or the line
      end when the line has no more fields. */
  function FieldAt(s: seq<char>, le: nat, d: char, p: nat, k: nat): (q: nat)
    requires p <= le <= |s|
    ensures p <= q <= le
    decreases k
  {
    if k == 0 || p == le then p else FieldAt(s, le, d, NextField(s, le, d, p), k - 1)
  }

  /** Field k + 1 starts where the field after field k does, or at the
      line end once the fields run out. */
  lemma {:induction false} FieldAtNext(s: seq<char>, le: nat, d: char, p: nat, k: nat)
    requires p <= le <= |s|
    ensures FieldAt(s, le, d, p, k + 1) ==
              if FieldAt(s, le, d, p, k) == le then le else NextField(s, le, d, FieldAt(s, le, d, p, k))
    decreases k
  {
    if p < le && k > 0 {
      FieldAtNext(s, le, d, NextField(s, le, d, p), k - 1);
    }
  }

  /** For a delimiter that no conversion consumes (not white space, a sign
      or a digit), the next field starts one past the first delimiter at or
      after p, or at the line end when the line has no more delimiters. */
  lemma NextFieldAfterFirstDelimiter(s: seq<char>, le: nat, d: char, p: nat)
    requires p < le <= |s|
    requires !IsSpace(d) && !IsDigit(d) && d != '-' && d != '+'
    ensures var f := Find(s, d, p, le);
            NextField(s, le, d, p) == if f == le then le else f + 1
  {
    var q := FieldStop(s, le, d, p);
    ParseNumConsumes(s, p);
    assert forall k :: p <= k < ScanStart(s, le, p) ==> s[k] != d;
    FindUnique(s, d, p, le, q);
  }

  /** The field at p, in column `column`, is pushed as a feature: the
      column is a feature column and the conversion consumed a character. */
  predicate StoresFeature(cfg: ParserConfig, s: seq<char>, p: nat, column: nat)
    requires p <= |s|
  {
    IsFeatureColumn(cfg, column) && ParseNum(s, p).end != p
  }

  /** How many of the first n fields from p, the first in column `column`,
      are pushed as features. */
  function StoredCount(cfg: ParserConfig, s: seq<char>, le: nat, p: nat, column: nat, n: nat): (k: nat)
    requires p <= le <= |s|
    ensures k <= n
    decreases n
  {
    if n == 0 || p == le then 0
    else (if StoresFeature(cfg, s, p, column) then 1 else 0)
         + StoredCount(cfg, s, le, NextField(s, le, cfg.delimiter, p), column + 1, n - 1)
  }

  /** The value the field at p converts to. */
  function FieldValue(cfg: ParserConfig, s: seq<char>, p: nat): int
    requires p <= |s|
  {
    Convert(cfg.kind, ParseNum(s, p).value)
  }

  /** Past the first field, the k-th field is the (k-1)-th of the rest. */
  lemma FieldAtStep(s: seq<char>, le: nat, d: char, p: nat, k: nat)
    requires p < le <= |s| && k > 0
    ensures FieldAt(s, le, d, p, k) == FieldAt(s, le, d, NextField(s, le, d, p), k - 1)
    ensures FieldCount(s, le, d, p) == 1 + FieldCount(s, le, d, NextField(s, le, d, p))
  {
  }

  /** What storing one field does to the label buffer, the weight and the features. */
  lemma FieldStepStores(cfg: ParserConfig, s: seq<char>, p: nat, column: nat, r: Row)
    requires Valid(cfg) && p <= |s| && |r.labels| == cfg.labelCount
    ensures var r' := FieldStep(cfg, s, p, column, r);
            && (column in cfg.labelColumnIndices ==> r'.labels == r.labels[cfg.labelColumnIndices[column] := FieldValue(cfg, s, p)])
            && (column !in cfg.labelColumnIndices ==> r'.labels == r.labels)
            && r'.weight == (if cfg.kind == Float32 && column == cfg.weightColumn then Some(FieldValue(cfg, s, p)) else r.weight)
            && r'.idx == r.idx + (if IsFeatureColumn(cfg, column) then 1 else 0)
            && r'.index == r.index + (if StoresFeature(cfg, s, p, column) then [r.idx] else [])
            && r'.value == r.value + (if StoresFeature(cfg, s, p, column) then [FieldValue(cfg, s, p)] else [])
  {
  }

  /** The converted value of the field in column c, when the field at p is
      in column `column`. */
  function ColumnValue(cfg: ParserConfig, s: seq<char>, le: nat, p: nat, column: nat, c: nat): int
    requires p <= le <= |s| && column <= c
  {
    FieldValue(cfg, s, FieldAt(s, le, cfg.delimiter, p, c - column))
  }

  /** The field of each label column c among the remaining fields lands in
      c's slot, converted. */
  lemma {:induction false} LineFromLabel(cfg: ParserConfig, s: seq<char>, le: nat, p: nat, column: nat, r: Row, c: nat)
    requires Valid(cfg) && p <= le <= |s| && |r.labels| == cfg.labelCount
    requires c in cfg.labelColumnIndices && column <= c < column + FieldCount(s, le, cfg.delimiter, p)
    ensures LineFrom(cfg, s, le, p, column, r).Some? ==>
              LineFrom(cfg, s, le, p, column, r).value.labels[cfg.labelColumnIndices[c]] == ColumnValue(cfg, s, le, p, column, c)
    decreases le - p
  {
    if c == column {
      LabelOfFirstField(cfg, s, le, p, column, r);
    } else {
      var next := NextField(s, le, cfg.delimiter, p);
      var r' := FieldStep(cfg, s, p, column, r);
      LineFromLabel(cfg, s, le, next, column + 1, r', c);
      LabelOfLaterField(cfg, s, le, p, column, r, c, next, r');
    }
  }

  /** The label of the line's first remaining field, when it is a label column. */
  lemma LabelOfFirstField(cfg: ParserConfig, s: seq<char>, le: nat, p: nat, column: nat, r: Row)
    requires Valid(cfg) && p < le <= |s| && |r.labels| == cfg.labelCount && column in cfg.labelColumnIndices
    ensures LineFrom(cfg, s, le, p, column, r).Some? ==>
              LineFrom(cfg, s, le, p, column, r).value.labels[cfg.labelColumnIndices[column]] == ColumnValue(cfg, s, le, p, column, column)
  {
    var r' := FieldStep(cfg, s, p, column, r);
    LineFromUnfold(cfg, s, le, p, column, r);
    LabelHere(cfg, s, le, p, column, r);
    LineFromKeepsUnownedSlot(cfg, s, le, NextField(s, le, cfg.delimiter, p), column + 1, r', cfg.labelColumnIndices[column]);
  }

  /** The label of a later field is its label among the fields after p. */
  lemma LabelOfLaterField(cfg: ParserConfig, s: seq<char>, le: nat, p: nat, column: nat, r: Row, c: nat, next: nat, r': Row)
    requires Valid(cfg) && p < le <= |s| && |r.labels| == cfg.labelCount
    requires c in cfg.labelColumnIndices && column < c < column + FieldCount(s, le, cfg.delimiter, p)
    requires next == NextField(s, le, cfg.delimiter, p) && r' == FieldStep(cfg, s, p, column, r)
    requires LineFrom(cfg, s, le, next, column + 1, r').Some? ==>
               LineFrom(cfg, s, le, next, column + 1, r').value.labels[cfg.labelColumnIndices[c]] == ColumnValue(cfg, s, le, next, column + 1, c)
    ensures LineFrom(cfg, s, le, p, column, r).Some? ==>
              LineFrom(cfg, s, le, p, column, r).value.labels[cfg.labelColumnIndices[c]] == ColumnValue(cfg, s, le, p, column, c)
  {
    LineFromUnfold(cfg, s, le, p, column, r);
    FieldAtStep(s, le, cfg.delimiter, p, c - column);
  }

  /** The field of label column `column` lands in the column's slot, and no
      later label column owns that slot. */
  lemma LabelHere(cfg: ParserConfig, s: seq<char>, le: nat, p: nat, column: nat, r: Row)
    requires Valid(cfg) && p < le <= |s| && |r.labels| == cfg.labelCount && column in cfg.labelColumnIndices
    ensures FieldStep(cfg, s, p, column, r).labels[cfg.labelColumnIndices[column]]
            == FieldValue(cfg, s, FieldAt(s, le, cfg.delimiter, p, column - column))
    ensures forall c :: c in cfg.labelColumnIndices && column + 1 <= c ==> cfg.labelColumnIndices[c] != cfg.labelColumnIndices[column]
  {
    FieldStepStores(cfg, s, p, column, r);
  }

  /** The weight a line ends with, given the weight w before the field at
      p in column `column`: the converted weight field when it is among the
      remaining fields of a float parser's line, else w. */
  function WeightFrom(cfg: ParserConfig, s: seq<char>, le: nat, p: nat, column: nat, w: Option<int>): Option<int>
    requires p <= le <= |s|
  {
    if cfg.kind == Float32 && column <= cfg.weightColumn < column + FieldCount(s, le, cfg.delimiter, p)
    then Some(ColumnValue(cfg, s, le, p, column, cfg.weightColumn))
    else w
  }

  lemma WeightFromStep(cfg: ParserConfig, s: seq<char>, le: nat, p: nat, column: nat, r: Row)
    requires Valid(cfg) && p < le <= |s| && |r.labels| == cfg.labelCount
    ensures WeightFrom(cfg, s, le, p, column, r.weight)
            == WeightFrom(cfg, s, le, NextField(s, le, cfg.delimiter, p), column + 1, FieldStep(cfg, s, p, column, r).weight)
  {
    var d := cfg.delimiter;
    FieldAtStep(s, le, d, p, 1);
    if column < cfg.weightColumn < column + FieldCount(s, le, d, p) {
      FieldAtStep(s, le, d, p, cfg.weightColumn - column);
    }
  }

  /** A float parser's weight is the converted field of the weight column
      when the remaining fields include it; otherwise the weight so far
      stays. */
  lemma {:induction false} LineFromWeightValue(cfg: ParserConfig, s: seq<char>, le: nat, p: nat, column: nat, r: Row)
    requires Valid(cfg) && p <= le <= |s| && |r.labels| == cfg.labelCount
    ensures LineFrom(cfg, s, le, p, column, r).Some? ==>
              LineFrom(cfg, s, le, p, column, r).value.weight == WeightFrom(cfg, s, le, p, column, r.weight)
    decreases le - p
  {
    if p < le {
      var r' := FieldStep(cfg, s, p, column, r);
      LineFromUnfold(cfg, s, le, p, column, r);
      LineFromWeightValue(cfg, s, le, NextField(s, le, cfg.delimiter, p), column + 1, r');
      WeightFromStep(cfg, s, le, p, column, r);
    }
  }

  /** The pair of the k-th field from p sits in res after r's features and
      the features the fields before it stored, and holds the number of
      feature columns before it, offset by r's idx, and the field's
      converted value. */
  ghost predicate PairAt(cfg: ParserConfig, s: seq<char>, le: nat, p: nat, column: nat, r: Row, res: Row, k: nat)
    requires p <= le <= |s|
  {
    var i := |r.index| + StoredCount(cfg, s, le, p, column, k);
    && i < |res.index| && i < |res.value|
    && res.index[i] == r.idx + FeatureColumns(cfg, column, k)
    && res.value[i] == FieldValue(cfg, s, FieldAt(s, le, cfg.delimiter, p, k))
  }

  /** res holds the features r holds, then one pair per field from p on
      that stores a feature, each where PairAt says. */
  ghost predicate PushedFeatures(cfg: ParserConfig, s: seq<char>, le: nat, p: nat, column: nat, r: Row, res: Row)
    requires p <= le <= |s|
  {
    var d := cfg.delimiter;
    && |res.index| == |res.value| == |r.index| + StoredCount(cfg, s, le, p, column, FieldCount(s, le, d, p))
    && |r.index| <= |res.index| && |r.value| <= |res.value|
    && res.index[..|r.index|] == r.index && res.value[..|r.value|] == r.value
    && (forall k: nat {:trigger PairAt(cfg, s, le, p, column, r, res, k)} ::
          k < FieldCount(s, le, d, p) && StoresFeature(cfg, s, FieldAt(s, le, d, p, k), column + k) ==>
          PairAt(cfg, s, le, p, column, r, res, k))
  }

  /** The counts over the fields from p split into the first field and the rest. */
  lemma CountsStep(cfg: ParserConfig, s: seq<char>, le: nat, p: nat, column: nat, k: nat)
    requires p < le <= |s| && k > 0
    ensures var d := cfg.delimiter;
            var next := NextField(s, le, d, p);
            && FieldAt(s, le, d, p, k) == FieldAt(s, le, d, next, k - 1)
            && StoredCount(cfg, s, le, p, column, k)
               == (if StoresFeature(cfg, s, p, column) then 1 else 0) + StoredCount(cfg, s, le, next, column + 1, k - 1)
            && FeatureColumns(cfg, column, k)
               == (if IsFeatureColumn(cfg, column) then 1 else 0) + FeatureColumns(cfg, column + 1, k - 1)
  {
  }

  /** The features of r' are those of r plus the pair the field at p stores. */
  predicate FeatureAppended(cfg: ParserConfig, s: seq<char>, p: nat, column: nat, r: Row, r': Row)
    requires p <= |s|
  {
    && r'.idx == r.idx + (if IsFeatureColumn(cfg, column) then 1 else 0)
    && r'.index == r.index + (if StoresFeature(cfg, s, p, column) then [r.idx] else [])
    && r'.value == r.value + (if StoresFeature(cfg, s, p, column) then [FieldValue(cfg, s, p)] else [])
  }

  /** The pair of the first field, when it stores a feature, is the one
      appended right after r's features. */
  lemma PairAtFirst(cfg: ParserConfig, s: seq<char>, le: nat, p: nat, column: nat, r: Row, r': Row, res: Row)
    requires p < le <= |s| && |r.index| == |r.value|
    requires r'.index == r.index + [r.idx] && r'.value == r.value + [FieldValue(cfg, s, p)]
    requires |r'.index| <= |res.index| && |r'.value| <= |res.value|
    requires res.index[..|r'.index|] == r'.index && res.value[..|r'.value|] == r'.value
    ensures PairAt(cfg, s, le, p, column, r, res, 0)
  {
    assert res.index[|r.index|] == res.index[..|r'.index|][|r.index|];
    assert res.value[|r.index|] == res.value[..|r'.value|][|r.index|];
  }

  /** The pair of a later field is its pair among the fields after p,
      shifted by the `here` features and `feat` feature columns the first
      field added. */
  lemma PairAtLater(cfg: ParserConfig, s: seq<char>, le: nat, p: nat, next: nat, column: nat, r: Row, r': Row, res: Row,
                    k: nat, here: nat, feat: nat)
    requires p < le <= |s| && next <= le && k > 0
    requires StoredCount(cfg, s, le, p, column, k) == here + StoredCount(cfg, s, le, next, column + 1, k - 1)
    requires FeatureColumns(cfg, column, k) == feat + FeatureColumns(cfg, column + 1, k - 1)
    requires FieldAt(s, le, cfg.delimiter, p, k) == FieldAt(s, le, cfg.delimiter, next, k - 1)
    requires |r'.index| == |r.index| + here && r'.idx == r.idx + feat
    requires PairAt(cfg, s, le, next, column + 1, r', res, k - 1)
    ensures PairAt(cfg, s, le, p, column, r, res, k)
  {
    var i := |r'.index| + StoredCount(cfg, s, le, next, column + 1, k - 1);
    assert |r.index| + StoredCount(cfg, s, le, p, column, k) == i;
    assert r.idx + FeatureColumns(cfg, column, k) == r'.idx + FeatureColumns(cfg, column + 1, k - 1);
  }

  /** A later field that stores a feature is one among the fields after p. */
  lemma StoresLater(cfg: ParserConfig, s: seq<char>, le: nat, p: nat, column: nat, k: nat)
    requires p < le <= |s| && 0 < k < FieldCount(s, le, cfg.delimiter, p)
    requires StoresFeature(cfg, s, FieldAt(s, le, cfg.delimiter, p, k), column + k)
    ensures var next := NextField(s, le, cfg.delimiter, p);
            k - 1 < FieldCount(s, le, cfg.delimiter, next)
            && StoresFeature(cfg, s, FieldAt(s, le, cfg.delimiter, next, k - 1), column + 1 + (k - 1))
  {
    FieldAtStep(s, le, cfg.delimiter, p, k);
  }

  /** The pair of the k-th field from p, given the pairs of the fields after p. */
  lemma PushedFeatureAt(cfg: ParserConfig, s: seq<char>, le: nat, p: nat, column: nat, r: Row, r': Row, res: Row, k: nat)
    requires p < le <= |s| && |r.index| == |r.value|
    requires FeatureAppended(cfg, s, p, column, r, r')
    requires PushedFeatures(cfg, s, le, NextField(s, le, cfg.delimiter, p), column + 1, r', res)
    requires k < FieldCount(s, le, cfg.delimiter, p) && StoresFeature(cfg, s, FieldAt(s, le, cfg.delimiter, p, k), column + k)
    ensures PairAt(cfg, s, le, p, column, r, res, k)
  {
    if k == 0 {
      PairAtFirst(cfg, s, le, p, column, r, r', res);
    } else {
      StoresLater(cfg, s, le, p, column, k);
      CountsStep(cfg, s, le, p, column, k);
      PairAtLater(cfg, s, le, p, NextField(s, le, cfg.delimiter, p), column, r, r', res, k,
                  if StoresFeature(cfg, s, p, column) then 1 else 0, if IsFeatureColumn(cfg, column) then 1 else 0);
    }
  }

  /** A prefix of a prefix is a prefix. */
  lemma PrefixKept<T>(a: seq<T>, b: seq<T>, c: seq<T>)
    requires |a| <= |b| <= |c| && b[..|a|] == a && c[..|b|] == b
    ensures c[..|a|] == a
  {
    assert c[..|a|] == c[..|b|][..|a|];
  }

  /** The stored features of the whole rest of the line: the first field's
      and those of the fields after it. */
  lemma StoredCountStep(cfg: ParserConfig, s: seq<char>, le: nat, p: nat, column: nat)
    requires p < le <= |s|
    ensures var d := cfg.delimiter;
            var next := NextField(s, le, d, p);
            && FieldCount(s, le, d, p) == 1 + FieldCount(s, le, d, next)
            && StoredCount(cfg, s, le, p, column, FieldCount(s, le, d, p))
               == (if StoresFeature(cfg, s, p, column) then 1 else 0) + StoredCount(cfg, s, le, next, column + 1, FieldCount(s, le, d, next))
  {
    var d := cfg.delimiter;
    var next := NextField(s, le, d, p);
    var m := FieldCount(s, le, d, next);
    assert FieldCount(s, le, d, p) == 1 + m;
    assert StoredCount(cfg, s, le, p, column, 1 + m)
           == (if StoresFeature(cfg, s, p, column) then 1 else 0) + StoredCount(cfg, s, le, next, column + 1, m);
  }

  /** The counts and the kept prefix of PushedFeatures, one field earlier. */
  lemma PushedFrameStep(cfg: ParserConfig, s: seq<char>, le: nat, p: nat, column: nat, r: Row, r': Row, res: Row)
    requires p < le <= |s| && |r.index| == |r.value|
    requires FeatureAppended(cfg, s, p, column, r, r')
    requires PushedFeatures(cfg, s, le, NextField(s, le, cfg.delimiter, p), column + 1, r', res)
    ensures |res.index| == |res.value| == |r.index| + StoredCount(cfg, s, le, p, column, FieldCount(s, le, cfg.delimiter, p))
    ensures |r.index| <= |res.index| && |r.value| <= |res.value|
    ensures res.index[..|r.index|] == r.index && res.value[..|r.value|] == r.value
  {
    StoredCountStep(cfg, s, le, p, column);
    assert r'.index[..|r.index|] == r.index && r'.value[..|r.value|] == r.value;
    PrefixKept(r.index, r'.index, res.index);
    PrefixKept(r.value, r'.value, res.value);
  }

  /** The feature pairs of one field followed by those of the rest of the line. */
  lemma PushedFeaturesStep(cfg: ParserConfig, s: seq<char>, le: nat, p: nat, column: nat, r: Row, r': Row, res: Row)
    requires p < le <= |s| && |r.index| == |r.value|
    requires FeatureAppended(cfg, s, p, column, r, r')
    requires PushedFeatures(cfg, s, le, NextField(s, le, cfg.delimiter, p), column + 1, r', res)
    ensures PushedFeatures(cfg, s, le, p, column, r, res)
  {
    var d := cfg.delimiter;
    PushedFrameStep(cfg, s, le, p, column, r, r', res);
    forall k: nat | k < FieldCount(s, le, d, p) && StoresFeature(cfg, s, FieldAt(s, le, d, p, k), column + k)
      ensures PairAt(cfg, s, le, p, column, r, res, k)
    {
      PushedFeatureAt(cfg, s, le, p, column, r, r', res, k);
    }
  }

  /** The features a line pushes are the ones PushedFeatures describes. */
  lemma {:induction false} LineFromFeatures(cfg: ParserConfig, s: seq<char>, le: nat, p: nat, column: nat, r: Row)
    requires Valid(cfg) && p <= le <= |s| && |r.labels| == cfg.labelCount && |r.index| == |r.value|
    ensures LineFrom(cfg, s, le, p, column, r).Some? ==> PushedFeatures(cfg, s, le, p, column, r, LineFrom(cfg, s, le, p, column, r).value)
    decreases le - p
  {
    if p < le {
      var r' := FieldStep(cfg, s, p, column, r);
      LineFromUnfold(cfg, s, le, p, column, r);
      LineFromFeatures(cfg, s, le, NextField(s, le, cfg.delimiter, p), column + 1, r');
      if LineFrom(cfg, s, le, p, column, r).Some? {
        FieldStepStores(cfg, s, p, column, r);
        PushedFeaturesStep(cfg, s, le, p, column, r, r', LineFrom(cfg, s, le, p, column, r).value);
      }
    } else {
      assert FieldCount(s, le, cfg.delimiter, p) == 0;
    }
  }

  /** The number of fields of the line starting at lb. */
  function LineFields(cfg: ParserConfig, s: seq<char>, lb: nat): (n: nat)
    requires lb < |s|
    ensures n >= 1
  {
    FieldCount(s, LineStop(s, lb), cfg.delimiter, lb)
  }

  /** A parsed line has one idx per feature column and ordered features. */
  lemma LineRowFeatures(cfg: ParserConfig, s: seq<char>, lb: nat)
    requires Valid(cfg) && lb < |s|
    ensures LineRow(cfg, s, lb).Some? ==>
              && LineRow(cfg, s, lb).value.idx == FeatureColumns(cfg, 0, LineFields(cfg, s, lb))
              && FeaturesOrdered(LineRow(cfg, s, lb).value)
  {
    LineFromCountsFeatures(cfg, s, LineStop(s, lb), lb, 0, EmptyRow(cfg));
    LineFromKeepsFeaturesOrdered(cfg, s, LineStop(s, lb), lb, 0, EmptyRow(cfg));
  }

  /** A line aborts exactly when none of its columns is a feature column
      and the scan after its last field reaches the line end. */
  lemma LineRowAborts(cfg: ParserConfig, s: seq<char>, lb: nat)
    requires Valid(cfg) && lb < |s|
    ensures LineRow(cfg, s, lb).None? <==>
              FeatureColumns(cfg, 0, LineFields(cfg, s, lb)) == 0 && LastScanHitsLineEnd(s, LineStop(s, lb), cfg.delimiter, lb)
  {
    LineFromAborts(cfg, s, LineStop(s, lb), lb, 0, EmptyRow(cfg));
  }

  /** A line whose first column is a feature column never aborts. */
  lemma FeatureFirstNeverAborts(cfg: ParserConfig, s: seq<char>, lb: nat)
    requires Valid(cfg) && lb < |s| && IsFeatureColumn(cfg, 0)
    ensures LineRow(cfg, s, lb).Some?
  {
    LineRowAborts(cfg, s, lb);
    assert FeatureColumns(cfg, 0, LineFields(cfg, s, lb)) >= 1;
  }

  /** A line without the delimiter is a single field, and it aborts
      exactly when that field is a label or the weight. */
  lemma LineWithoutDelimiter(cfg: ParserConfig, s: seq<char>, lb: nat)
    requires Valid(cfg) && lb < |s|
    requires forall k :: lb <= k < LineStop(s, lb) ==> s[k] != cfg.delimiter
    ensures LineFields(cfg, s, lb) == 1
    ensures LineRow(cfg, s, lb).None? <==> !IsFeatureColumn(cfg, 0)
  {
    var le := LineStop(s, lb);
    var d := cfg.delimiter;
    assert FieldStop(s, le, d, lb) == le;
    assert NextField(s, le, d, lb) == le;
    assert FieldCount(s, le, d, le) == 0;
    assert LastScanHitsLineEnd(s, le, d, lb);
    assert FeatureColumns(cfg, 1, 0) == 0;
    LineRowAborts(cfg, s, lb);
  }

  /** With a tab delimiter, the conversion of "5" stops at the trailing
      tab, so the scan finds it and a label-only line parses. */
  lemma TrailingTabAfterValue()
    ensures LineRow(ParserConfig(map[0 := 0], 1, '\t', -1, Float32), "5\t\n7", 0).Some?
  {
  }

  /** A blank field before a trailing tab converts across the tab and the
      line terminator into the next line's "7"; its end is clamped to the
      line end, the scan finds no delimiter and the label-only line aborts. */
  lemma TrailingTabAfterBlank()
    ensures LineRow(ParserConfig(map[0 := 0, 1 := 1], 2, '\t', -1, Float32), "5\t\t\n7", 0).None?
  {
    var s := "5\t\t\n7";
    assert LineStop(s, 0) == 3;
    assert ScanStart(s, 3, 2) == 3;
  }

  /** At the block end the same blank field converts nothing, the scan finds
      the trailing tab and the line parses. */
  lemma TrailingTabAtBlockEnd()
    ensures LineRow(ParserConfig(map[0 := 0, 1 := 1], 2, '\t', -1, Float32), "5\t\t\n", 0).Some?
  {
  }

  /** A parsed line carries a weight exactly when the parser reads floats
      and the weight column is one of the line's columns. */
  lemma LineRowWeight(cfg: ParserConfig, s: seq<char>, lb: nat)
    requires Valid(cfg) && lb < |s|
    ensures LineRow(cfg, s, lb).Some? ==>
              (LineRow(cfg, s, lb).value.weight.Some? <==>
                 cfg.kind == Float32 && 0 <= cfg.weightColumn < LineFields(cfg, s, lb))
  {
    LineFromWeight(cfg, s, LineStop(s, lb), lb, 0, EmptyRow(cfg));
  }

  /** A label slot that no label column of the line owns stays 0. */
  lemma LineRowUnownedSlotIsZero(cfg: ParserConfig, s: seq<char>, lb: nat, slot: nat)
    requires Valid(cfg) && lb < |s| && slot < cfg.labelCount
    requires forall c :: c in cfg.labelColumnIndices && 0 <= c < LineFields(cfg, s, lb) ==> cfg.labelColumnIndices[c] != slot
    ensures LineRow(cfg, s, lb).Some? ==> LineRow(cfg, s, lb).value.labels[slot] == 0
  {
    LineFromKeepsUnownedSlot(cfg, s, LineStop(s, lb), lb, 0, EmptyRow(cfg), slot);
  }

  /** The label of each label column among the line's fields is that field's
      converted value. */
  lemma LineRowLabels(cfg: ParserConfig, s: seq<char>, lb: nat, c: nat)
    requires Valid(cfg) && lb < |s|
    requires c in cfg.labelColumnIndices && c < LineFields(cfg, s, lb)
    ensures LineRow(cfg, s, lb).Some? ==>
              LineRow(cfg, s, lb).value.labels[cfg.labelColumnIndices[c]] == ColumnValue(cfg, s, LineStop(s, lb), lb, 0, c)
  {
    LineFromLabel(cfg, s, LineStop(s, lb), lb, 0, EmptyRow(cfg), c);
  }

  /** A float parser's row carries the converted weight field when the line
      reaches the weight column, and no weight otherwise. */
  lemma LineRowWeightValue(cfg: ParserConfig, s: seq<char>, lb: nat)
    requires Valid(cfg) && lb < |s|
    ensures LineRow(cfg, s, lb).Some? ==>
              LineRow(cfg, s, lb).value.weight
              == if cfg.kind == Float32 && 0 <= cfg.weightColumn < LineFields(cfg, s, lb)
                 then Some(ColumnValue(cfg, s, LineStop(s, lb), lb, 0, cfg.weightColumn))
                 else None
  {
    LineFromWeightValue(cfg, s, LineStop(s, lb), lb, 0, EmptyRow(cfg));
  }

  /** The features of a row: one pair per feature field whose conversion
      consumed a character, and nothing for the other fields. The pair of
      field k sits after the pairs of the earlier stored fields and holds
      the number of feature columns before k and the field's converted
      value. */
  lemma LineRowFeatureValues(cfg: ParserConfig, s: seq<char>, lb: nat)
    requires Valid(cfg) && lb < |s|
    ensures var le := LineStop(s, lb);
            var row := LineRow(cfg, s, lb);
            row.Some? ==>
              && |row.value.index| == |row.value.value| == StoredCount(cfg, s, le, lb, 0, LineFields(cfg, s, lb))
              && forall k: nat :: k < LineFields(cfg, s, lb) && StoresFeature(cfg, s, FieldAt(s, le, cfg.delimiter, lb, k), k) ==>
                   && StoredCount(cfg, s, le, lb, 0, k) < |row.value.index|
                   && row.value.index[StoredCount(cfg, s, le, lb, 0, k)] == FeatureColumns(cfg, 0, k)
                   && row.value.value[StoredCount(cfg, s, le, lb, 0, k)] == ColumnValue(cfg, s, le, lb, 0, k)
  {
    var le := LineStop(s, lb);
    var row := LineRow(cfg, s, lb);
    LineFromFeatures(cfg, s, le, lb, 0, EmptyRow(cfg));
    if row.Some? {
      forall k: nat | k < LineFields(cfg, s, lb) && StoresFeature(cfg, s, FieldAt(s, le, cfg.delimiter, lb, k), k)
        ensures StoredCount(cfg, s, le, lb, 0, k) < |row.value.index|
        ensures row.value.index[StoredCount(cfg, s, le, lb, 0, k)] == FeatureColumns(cfg, 0, k)
        ensures row.value.value[StoredCount(cfg, s, le, lb, 0, k)] == ColumnValue(cfg, s, le, lb, 0, k)
      {
        assert PairAt(cfg, s, le, lb, 0, EmptyRow(cfg), row.value, k);
      }
    }
  }
}
