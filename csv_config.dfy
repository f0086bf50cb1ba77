/** The state a CSV parser keeps after construction: the label map, the
    label count, the delimiter character, the weight column and the value
    type the parser was instantiated with. */
module CsvConfig {
  import opened Results
  import opened NumParse
  import opened LabelColumns

  datatype ParserConfig = ParserConfig(
    labelColumnIndices: map<int, int>,
    labelCount: nat,
    delimiter: char,
    weightColumn: int,
    kind: NumKind)

  /** What construction guarantees: at least one label slot, every label
      column owns a distinct slot below labelCount, and the weight column is
      not a label column. */
  ghost predicate Valid(cfg: ParserConfig)
  {
    && cfg.labelCount >= 1
    && cfg.weightColumn !in cfg.labelColumnIndices
    && (forall c :: c in cfg.labelColumnIndices ==> 0 <= cfg.labelColumnIndices[c] < cfg.labelCount)
    && (forall c1, c2 :: c1 in cfg.labelColumnIndices && c2 in cfg.labelColumnIndices && c1 != c2 ==>
          cfg.labelColumnIndices[c1] != cfg.labelColumnIndices[c2])
  }

  /** The character the field scan compares against: the first character of
      the delimiter option, or the terminating NUL of an empty one. */
  function DelimiterChar(delimiter: string): (c: char)
    ensures |delimiter| > 0 ==> c == delimiter[0]
    ensures |delimiter| == 0 ==> c == '\0'
  {
    if |delimiter| == 0 then '\0' else delimiter[0]
  }

  /** A column whose value goes to the features: neither a label column nor,
      for a float parser, the weight column. */
  predicate IsFeatureColumn(cfg: ParserConfig, column: int)
  {
    column !in cfg.labelColumnIndices && !(cfg.kind == Float32 && column == cfg.weightColumn)
  }

  /** What the constructor produces from the options: the label map is
      extracted from an empty map, then the format must be "csv" and the
      weight column must not be a label column. */
  function ParserSpec(format: string, labelColumn: string, delimiter: string, weightColumn: int, kind: NumKind)
    : Result<ParserConfig, ConfigError>
  {
    match ExtractSpec(map[], labelColumn)
    case Err(e) => Err(e)
    case Ok(st) =>
      if format != "csv" then Err(FormatNotCsv)
      else if weightColumn in st.indices then Err(LabelWeightOverlap)
      else Ok(ParserConfig(st.indices, LabelCountFor(|st.indices|), DelimiterChar(delimiter), weightColumn, kind))
  }
}
