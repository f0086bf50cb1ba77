/** Properties of parser construction: what a constructed parser
    guarantees, and when construction fails. */
module CsvConfigProperties {
  import opened Results
  import opened NumParse
  import opened LabelColumns
  import opened CsvConfig

  /** A constructed parser is valid: the format was "csv", the parser keeps
      the extracted label map and the options' weight column, delimiter and
      element type, its label columns are the columns the list spells (first
      occurrences, slot i for the i-th), their slots are 0 .. n-1 without
      gaps or repeats, label_count is n (at least one), and the weight column
      is not a label column. */
  lemma ConstructedParserIsValid(format: string, labelColumn: string, delimiter: string, weightColumn: int, kind: NumKind)
    requires ParserSpec(format, labelColumn, delimiter, weightColumn, kind).Ok?
    ensures format == "csv" && ExtractSpec(map[], labelColumn).Ok?
    ensures var cfg := ParserSpec(format, labelColumn, delimiter, weightColumn, kind).value;
            && cfg.labelColumnIndices == ExtractSpec(map[], labelColumn).value.indices
            && cfg.weightColumn == weightColumn && cfg.delimiter == DelimiterChar(delimiter) && cfg.kind == kind
            && (forall i :: 0 <= i < |FirstSeen(SplitEntries(labelColumn))| ==>
                  FirstSeen(SplitEntries(labelColumn))[i] in cfg.labelColumnIndices &&
                  cfg.labelColumnIndices[FirstSeen(SplitEntries(labelColumn))[i]] == i)
            && |cfg.labelColumnIndices| == |FirstSeen(SplitEntries(labelColumn))|
    ensures var cfg := ParserSpec(format, labelColumn, delimiter, weightColumn, kind).value;
            && Valid(cfg)
            && cfg.labelCount == LabelCountFor(|cfg.labelColumnIndices|)
            && (forall c :: c in cfg.labelColumnIndices ==> 0 <= c && cfg.labelColumnIndices[c] < |cfg.labelColumnIndices|)
            && (forall slot :: 0 <= slot < |cfg.labelColumnIndices| ==> slot in cfg.labelColumnIndices.Values)
  {
    ExtractKeepsFirstSeen(labelColumn);
    var st := ExtractSpec(map[], labelColumn).value;
    var m := st.indices;
    assert ParserSpec(format, labelColumn, delimiter, weightColumn, kind).value.labelColumnIndices == m;
    forall c1, c2 | c1 in m && c2 in m && c1 != c2
      ensures m[c1] != m[c2]
    {
      assert st.accepted[m[c1]] == c1 && st.accepted[m[c2]] == c2;
    }
    forall slot | 0 <= slot < |m|
      ensures slot in m.Values
    {
      var c := st.accepted[slot];
      assert c in m && m[c] == slot;
    }
  }

  /** The checks after extraction, in the constructor's order: extraction
      errors come first, then a format other than "csv", then a weight
      column that the label_column list spells. */
  lemma ConstructionFailures(format: string, labelColumn: string, delimiter: string, weightColumn: int, kind: NumKind)
    ensures ExtractSpec(map[], labelColumn).Err? ==>
              ParserSpec(format, labelColumn, delimiter, weightColumn, kind) == Err(ExtractSpec(map[], labelColumn).error)
    ensures ExtractSpec(map[], labelColumn).Ok? && format != "csv" ==>
              ParserSpec(format, labelColumn, delimiter, weightColumn, kind) == Err(FormatNotCsv)
    ensures ExtractSpec(map[], labelColumn).Ok? && format == "csv" ==>
              (ParserSpec(format, labelColumn, delimiter, weightColumn, kind) == Err(LabelWeightOverlap) <==>
               weightColumn in FirstSeen(SplitEntries(labelColumn)))
    ensures ParserSpec(format, labelColumn, delimiter, weightColumn, kind).Ok? <==>
              ExtractSpec(map[], labelColumn).Ok? && format == "csv" && weightColumn !in FirstSeen(SplitEntries(labelColumn))
  {
    if ExtractSpec(map[], labelColumn).Ok? {
      ExtractKeepsFirstSeen(labelColumn);
      var st := ExtractSpec(map[], labelColumn).value;
      assert weightColumn in st.indices <==> weightColumn in st.accepted;
    }
  }

  /** A negative weight column (the default -1) never collides with a
      label column. */
  lemma NegativeWeightNeverOverlaps(format: string, labelColumn: string, delimiter: string, weightColumn: int, kind: NumKind)
    requires weightColumn < 0
    ensures ParserSpec(format, labelColumn, delimiter, weightColumn, kind) != Err(LabelWeightOverlap)
  {
    if ExtractSpec(map[], labelColumn).Ok? {
      ExtractDenseSlots(labelColumn);
    } else {
      FoldFailsOnUnconvertibleEntry(InitialState(map[]), SplitEntries(labelColumn));
    }
  }

  /** With the default empty label_column there are no label columns and
      a single label slot; only the format can make construction fail. */
  lemma DefaultLabelColumn(format: string, delimiter: string, weightColumn: int, kind: NumKind)
    ensures ParserSpec(format, "", delimiter, weightColumn, kind)
            == if format == "csv" then Ok(ParserConfig(map[], 1, DelimiterChar(delimiter), weightColumn, kind))
               else Err(FormatNotCsv)
  {
    assert SplitEntries("") == [];
  }

  /** Extraction fails only on an entry of the list that starts like a
      number but that std::stoi cannot convert to an int. */
  lemma {:induction false} FoldFailsOnUnconvertibleEntry(st: LabelState, entries: seq<string>)
    ensures Fold(st, entries).Err? ==>
              && Fold(st, entries).error.LabelEntryNotConvertible?
              && Fold(st, entries).error.entry in entries
              && Stoi(Fold(st, entries).error.entry).None?
    decreases |entries|
  {
    if entries != [] {
      if Step(st, entries[0]).Ok? {
        FoldFailsOnUnconvertibleEntry(Step(st, entries[0]).value, entries[1..]);
        if Fold(st, entries).Err? {
          assert Fold(st, entries).error.entry in entries[1..];
        }
      }
    }
  }
}
