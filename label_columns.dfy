/** The label-column configuration of the CSV parser: splitting the
    label_column option into entries, accepting the well-formed ones and
    giving each accepted column a dense output label slot. */
module LabelColumns {
  import opened Results
  import opened NumParse
  import opened TextScan

  /** The separator of the label_column list. */
  const ListDelimiter: char := ','

  /** Diagnostics the source logs as warnings for skipped list entries. */
  datatype Warning =
    | MissingEntry
    | NonNumericEntry(entry: string)
    | UnexpectedCharacter(entry: string, ch: char)
    | NegativeIndex(column: int)
    | DuplicateIndex(column: int)

  /** Fatal configuration errors: a list entry std::stoi rejects with an
      exception, a format other than "csv", a weight column that is also a
      label column. */
  datatype ConfigError =
    | LabelEntryNotConvertible(entry: string)
    | FormatNotCsv
    | LabelWeightOverlap

  /** The entries std::getline extracts from text, starting at pos, when
      reading up to each ListDelimiter. A final empty piece after a trailing
      delimiter is not extracted. */
  function SplitFrom(text: string, pos: nat): (entries: seq<string>)
    requires pos <= |text|
    ensures pos < |text| <==> |entries| > 0
    decreases |text| - pos
  {
    if pos == |text| then []
    else
      var stop := Find(text, ListDelimiter, pos, |text|);
      [text[pos..stop]] + (if stop == |text| then [] else SplitFrom(text, stop + 1))
  }

  /** No extracted entry contains the list delimiter. */
  lemma {:induction false} SplitFromNoDelimiter(text: string, pos: nat)
    requires pos <= |text|
    ensures forall i :: 0 <= i < |SplitFrom(text, pos)| ==> ListDelimiter !in SplitFrom(text, pos)[i]
    decreases |text| - pos
  {
    if pos < |text| {
      var stop := Find(text, ListDelimiter, pos, |text|);
      var head := text[pos..stop];
      assert forall j :: 0 <= j < |head| ==> head[j] == text[pos + j];
      if stop < |text| {
        SplitFromNoDelimiter(text, stop + 1);
      }
    }
  }

  function SplitEntries(text: string): seq<string>
  {
    SplitFrom(text, 0)
  }

  /** Entries joined back together with ListDelimiter. */
  function JoinEntries(entries: seq<string>): string
  {
    if |entries| == 0 then []
    else if |entries| == 1 then entries[0]
    else entries[0] + [ListDelimiter] + JoinEntries(entries[1..])
  }

  /** One unfolding of SplitFrom at a position before the end. */
  lemma SplitFromUnfold(text: string, pos: nat, stop: nat)
    requires pos < |text| && stop == Find(text, ListDelimiter, pos, |text|)
    ensures stop == |text| || stop + 1 == |text| ==> SplitFrom(text, pos) == [text[pos..stop]]
    ensures stop + 1 < |text| ==> SplitFrom(text, pos) == [text[pos..stop]] + SplitFrom(text, stop + 1)
  {
  }

  lemma JoinCons(head: string, rest: seq<string>)
    requires |rest| > 0
    ensures JoinEntries([head] + rest) == head + [ListDelimiter] + JoinEntries(rest)
  {
    assert ([head] + rest)[1..] == rest;
  }

  lemma SliceAround(text: string, pos: nat, stop: nat)
    requires pos <= stop < |text|
    ensures text[pos..] == text[pos..stop] + [text[stop]] + text[stop + 1..]
  {
    assert text[stop..] == [text[stop]] + text[stop + 1..];
    assert text[pos..] == text[pos..stop] + text[stop..];
  }

  /** The text from pos on ends with a delimiter, whose empty last piece
      getline does not extract. */
  predicate TrailingDelimiter(text: string, pos: nat)
  {
    pos < |text| && text[|text| - 1] == ListDelimiter
  }

  /** What joining the entries leaves out: the trailing delimiter, if any. */
  function Dropped(text: string, pos: nat): string
  {
    if TrailingDelimiter(text, pos) then [ListDelimiter] else []
  }

  /** The inductive step of SplitFromJoin, for a delimiter strictly inside the text. */
  lemma JoinStep(text: string, pos: nat, stop: nat, rest: seq<string>)
    requires pos <= stop && stop + 1 < |text| && text[stop] == ListDelimiter
    requires JoinEntries(rest) + Dropped(text, stop + 1) == text[stop + 1..]
    requires |rest| > 0
    ensures JoinEntries([text[pos..stop]] + rest) + Dropped(text, pos) == text[pos..]
  {
    var head, tail := text[pos..stop], Dropped(text, pos);
    JoinCons(head, rest);
    SliceAround(text, pos, stop);
    assert head + [ListDelimiter] + JoinEntries(rest) + tail == head + [ListDelimiter] + (JoinEntries(rest) + tail);
  }

  /** Splitting from pos loses nothing but a trailing delimiter: the
      entries joined with ListDelimiter give back the rest of the text,
      exactly when it does not end with the delimiter, and otherwise all
      of it but that last delimiter. */
  lemma {:induction false} SplitFromJoin(text: string, pos: nat)
    requires pos <= |text|
    ensures JoinEntries(SplitFrom(text, pos)) + Dropped(text, pos) == text[pos..]
    decreases |text| - pos
  {
    if pos < |text| {
      var stop := Find(text, ListDelimiter, pos, |text|);
      SplitFromUnfold(text, pos, stop);
      if stop == |text| {
        assert text[|text| - 1] != ListDelimiter;
        assert text[pos..stop] == text[pos..];
      } else if stop + 1 == |text| {
        assert text[pos..] == text[pos..stop] + [ListDelimiter];
      } else {
        SplitFromJoin(text, stop + 1);
        JoinStep(text, pos, stop, SplitFrom(text, stop + 1));
      }
    }
  }

  /** The whole label_column option: a text that ends with ListDelimiter
      joins back without it, any other text joins back unchanged. */
  lemma SplitJoin(text: string)
    ensures |text| > 0 && text[|text| - 1] == ListDelimiter ==> JoinEntries(SplitEntries(text)) + [ListDelimiter] == text
    ensures !(|text| > 0 && text[|text| - 1] == ListDelimiter) ==> JoinEntries(SplitEntries(text)) == text
  {
    SplitFromJoin(text, 0);
    assert text[0..] == text;
  }

  /** The length of an entry's leading sign: 1 after '+' or '-', else 0. */
  function SignLength(entry: string): (n: nat)
    ensures n <= |entry|
  {
    if entry != [] && (entry[0] == '+' || entry[0] == '-') then 1 else 0
  }

  /** How ParseNum reads an entry that starts with a digit or a sign: the
      digits after the sign, or nothing when no digit follows the sign. */
  lemma EntryConversion(entry: string)
    ensures StartsLikeNumber(entry) ==>
              var d := SignLength(entry);
              var e := DigitsEnd(entry, d);
              ParseNum(entry, 0) == if d < e then Conversion(SignedDigits(entry, 0, d, e), e) else Conversion(0, 0)
  {
    if StartsLikeNumber(entry) {
      var d := SignLength(entry);
      var e := DigitsEnd(entry, d);
      assert NumberPrefix(entry, 0, 0, d);
      if d < e {
        ParseNumConverts(entry, 0, 0, d, e);
      } else {
        ParseNumNoDigits(entry, 0, 0, d);
      }
    }
  }

  /** std::stoi on an entry: a decimal conversion that must consume at least
      one digit and fit a 32-bit int, or it throws (None). On an entry that
      starts with a digit or a sign it succeeds exactly when a digit follows
      the optional sign and the signed value of the digit run fits an int,
      and it then stops right after that run. */
  function Stoi(entry: string): (r: Option<Conversion>)
    ensures r.Some? ==> 0 < r.value.end <= |entry| && Int32Min <= r.value.value <= Int32Max
    ensures StartsLikeNumber(entry) ==>
              var d := SignLength(entry);
              var e := DigitsEnd(entry, d);
              && (r.Some? <==> d < e && Int32Min <= SignedDigits(entry, 0, d, e) <= Int32Max)
              && (r.Some? ==> r.value == Conversion(SignedDigits(entry, 0, d, e), e))
  {
    EntryConversion(entry);
    var c := ParseNum(entry, 0);
    if c.end == 0 || c.value < Int32Min || c.value > Int32Max then None else Some(c)
  }

  /** What the extraction loop does with one entry, given the columns accepted so far. */
  datatype Verdict = Accept(column: int) | Skip(warning: Warning) | Throws

  /** The first character std::stoi is tried on: a digit or a sign. */
  predicate StartsLikeNumber(entry: string)
  {
    entry != [] && (IsDigit(entry[0]) || entry[0] == '-' || entry[0] == '+')
  }

  /** An entry std::stoi is tried on and throws on. */
  predicate Unconvertible(entry: string)
  {
    StartsLikeNumber(entry) && Stoi(entry).None?
  }

  /** No entry of the list makes std::stoi throw. */
  predicate AllConvertible(entries: seq<string>)
  {
    forall j :: 0 <= j < |entries| ==> !Unconvertible(entries[j])
  }

  /** The decision for one entry: an entry that starts like a number and
      that std::stoi converts in full to a non-negative, new column is
      accepted as that column; a negative one is skipped; one std::stoi
      rejects ends the extraction. */
  function Classify(indices: map<int, int>, entry: string): (v: Verdict)
    ensures v.Accept? ==> 0 <= v.column <= Int32Max && v.column !in indices
    ensures v.Accept? ==> StartsLikeNumber(entry) && Stoi(entry) == Some(Conversion(v.column, |entry|))
    ensures Stoi(entry).Some? && Stoi(entry).value.end == |entry| && Stoi(entry).value.value < 0 ==> v.Skip?
    ensures v.Throws? <==> StartsLikeNumber(entry) && Stoi(entry).None?
  {
    if entry == [] then Skip(MissingEntry)
    else if !(IsDigit(entry[0]) || entry[0] == '-' || entry[0] == '+') then Skip(NonNumericEntry(entry))
    else match Stoi(entry)
      case None => Throws
      case Some(c) =>
        if c.end != |entry| then Skip(UnexpectedCharacter(entry, entry[c.end]))
        else if c.value < 0 then Skip(NegativeIndex(c.value))
        else if c.value in indices then Skip(DuplicateIndex(c.value))
        else
          assert SkipSpaces(entry, 0) == 0;
          Accept(c.value)
  }

  /** The state of the extraction loop: the map from input column to output
      slot, the next output slot, the warnings so far and (for the proofs)
      the accepted columns in the order they were accepted. */
  datatype LabelState = LabelState(indices: map<int, int>, outputIndex: int, warnings: seq<Warning>, accepted: seq<int>)

  /** One iteration of the extraction loop. */
  function Step(st: LabelState, entry: string): (r: Result<LabelState, ConfigError>)
    ensures r.Err? <==> Unconvertible(entry)
    ensures r.Err? ==> r.error == LabelEntryNotConvertible(entry)
  {
    match Classify(st.indices, entry)
    case Accept(c) =>
      Ok(LabelState(st.indices[c := st.outputIndex], st.outputIndex + 1, st.warnings, st.accepted + [c]))
    case Skip(w) => Ok(st.(warnings := st.warnings + [w]))
    case Throws => Err(LabelEntryNotConvertible(entry))
  }

  /** The extraction loop over the remaining entries, from state st. */
  function Fold(st: LabelState, entries: seq<string>): Result<LabelState, ConfigError>
    decreases |entries|
  {
    if entries == [] then Ok(st)
    else match Step(st, entries[0])
      case Err(e) => Err(e)
      case Ok(next) => Fold(next, entries[1..])
  }

  /** The loop ends with the error of the first entry std::stoi throws on. */
  lemma {:induction false} FoldFailsAtFirstUnconvertible(st: LabelState, entries: seq<string>, i: nat)
    requires i < |entries| && Unconvertible(entries[i])
    requires forall j :: 0 <= j < i ==> !Unconvertible(entries[j])
    ensures Fold(st, entries) == Err(LabelEntryNotConvertible(entries[i]))
    decreases i
  {
    if i > 0 {
      FoldFailsAtFirstUnconvertible(Step(st, entries[0]).value, entries[1..], i - 1);
    }
  }

  /** The loop succeeds exactly when std::stoi throws on no entry. */
  lemma {:induction false} FoldSucceedsIffConvertible(st: LabelState, entries: seq<string>)
    ensures Fold(st, entries).Ok? <==> AllConvertible(entries)
    decreases |entries|
  {
    if entries != [] {
      if Unconvertible(entries[0]) {
        assert !AllConvertible(entries);
      } else {
        FoldSucceedsIffConvertible(Step(st, entries[0]).value, entries[1..]);
        assert AllConvertible(entries) <==> AllConvertible(entries[1..]) by {
          if AllConvertible(entries[1..]) {
            forall j | 0 <= j < |entries| ensures !Unconvertible(entries[j]) {
              if j > 0 { assert entries[j] == entries[1..][j - 1]; }
            }
          }
        }
      }
    }
  }

  /** Fold consumes the first entry with one Step. */
  lemma FoldCons(st: LabelState, entry: string, rest: seq<string>)
    ensures Fold(st, [entry] + rest) == if Step(st, entry).Err? then Err(Step(st, entry).error) else Fold(Step(st, entry).value, rest)
  {
    assert ([entry] + rest)[0] == entry && ([entry] + rest)[1..] == rest;
  }

  /** The state before the first entry: the map as found, output slot 0. */
  function InitialState(init: map<int, int>): LabelState
  {
    LabelState(init, 0, [], [])
  }

  /** What ExtractLabelColumnIndices computes from the label_column text,
      starting from the map init. */
  function ExtractSpec(init: map<int, int>, text: string): Result<LabelState, ConfigError>
  {
    Fold(InitialState(init), SplitEntries(text))
  }

  /** label_count: the number of label columns, but at least one. */
  function LabelCountFor(n: nat): (r: nat)
    ensures r >= 1 && r >= n
    ensures n >= 1 ==> r == n
    ensures n == 0 ==> r == 1
  {
    if n > 1 then n else 1
  }

  /** The accepted columns form a bijection with the slots 0 .. n-1, assigned
      in the order the columns were first accepted, and no key is negative. */
  ghost predicate DenseSlots(st: LabelState)
  {
    && st.outputIndex == |st.accepted| == |st.indices|
    && (forall i :: 0 <= i < |st.accepted| ==> st.accepted[i] in st.indices && st.indices[st.accepted[i]] == i)
    && (forall c :: c in st.indices ==> 0 <= c && 0 <= st.indices[c] < |st.accepted| && st.accepted[st.indices[c]] == c)
  }

  /** One successful Step from dense slots keeps them dense. */
  lemma StepKeepsDenseSlots(st: LabelState, entry: string)
    requires DenseSlots(st)
    requires Step(st, entry).Ok?
    ensures DenseSlots(Step(st, entry).value)
  {
    var next := Step(st, entry).value;
    var verdict := Classify(st.indices, entry);
    if verdict.Accept? {
      var c := verdict.column;
      assert next.indices == st.indices[c := st.outputIndex];
      assert next.indices.Keys == st.indices.Keys + {c};
      assert |next.indices| == |st.indices| + 1;
    }
  }

  /** Every successful Fold from dense slots ends in dense slots. */
  lemma {:induction false} FoldKeepsDenseSlots(st: LabelState, entries: seq<string>)
    requires DenseSlots(st)
    requires Fold(st, entries).Ok?
    ensures DenseSlots(Fold(st, entries).value)
    decreases |entries|
  {
    if entries != [] {
      StepKeepsDenseSlots(st, entries[0]);
      FoldKeepsDenseSlots(Step(st, entries[0]).value, entries[1..]);
    }
  }

  /** Starting from an empty map, every successful extraction yields dense
      slots in first-accepted order. */
  lemma ExtractDenseSlots(text: string)
    requires ExtractSpec(map[], text).Ok?
    ensures DenseSlots(ExtractSpec(map[], text).value)
  {
    FoldKeepsDenseSlots(InitialState(map[]), SplitEntries(text));
  }

  /** The column an entry spells in full, independently of std::stoi: an
      optional sign followed by at least one decimal digit and nothing else,
      with a value of at most Int32Max, and no minus sign in front of a
      non-zero value ("+7" names column 7, "-0" column 0, "-1" none). */
  function SpelledColumn(entry: string): Option<int>
  {
    var d := SignLength(entry);
    if d < |entry| && forall k :: d <= k < |entry| ==> IsDigit(entry[k]) then
      var magnitude := DigitsValue(entry, d, |entry|);
      if magnitude > Int32Max || (d == 1 && entry[0] == '-' && magnitude != 0) then None
      else Some(magnitude)
    else None
  }

  /** An entry is accepted exactly when it spells a column that is not yet
      a label column, and then it is accepted as that column. */
  lemma AcceptedIffSpelled(indices: map<int, int>, entry: string)
    ensures Classify(indices, entry).Accept? <==> SpelledColumn(entry).Some? && SpelledColumn(entry).value !in indices
    ensures Classify(indices, entry).Accept? ==> Classify(indices, entry).column == SpelledColumn(entry).value
  {
    if StartsLikeNumber(entry) {
      assert SkipSpaces(entry, 0) == 0;
      var d := if entry[0] == '+' || entry[0] == '-' then 1 else 0;
      var e := DigitsEnd(entry, d);
      if e == |entry| && d < e {
        assert forall k :: d <= k < |entry| ==> IsDigit(entry[k]);
      } else if d < |entry| {
        assert !IsDigit(entry[e]) || e == d;
        assert !(forall k :: d <= k < |entry| ==> IsDigit(entry[k]));
      }
    } else if entry != [] {
      assert !IsDigit(entry[0]);
    }
  }

  /** The column an entry adds to those already seen: the column it
      spells, unless that column was seen before. */
  function NewColumn(seen: seq<int>, entry: string): seq<int>
  {
    match SpelledColumn(entry)
    case Some(c) => if c in seen then [] else [c]
    case None => []
  }

  /** The columns the list spells, in list order, each kept at its first
      occurrence and dropped when it was already seen (or is in seen). */
  function FirstSeenAfter(seen: seq<int>, entries: seq<string>): seq<int>
    decreases |entries|
  {
    if entries == [] then []
    else
      var added := NewColumn(seen, entries[0]);
      added + FirstSeenAfter(seen + added, entries[1..])
  }

  function FirstSeen(entries: seq<string>): seq<int>
  {
    FirstSeenAfter([], entries)
  }

  /** A successful Step from dense slots accepts the new column the entry
      spells, if any, and keeps the slots dense. */
  lemma StepAcceptsNewColumn(st: LabelState, entry: string)
    requires DenseSlots(st)
    requires Step(st, entry).Ok?
    ensures Step(st, entry).value.accepted == st.accepted + NewColumn(st.accepted, entry)
    ensures DenseSlots(Step(st, entry).value)
  {
    AcceptedIffSpelled(st.indices, entry);
    StepKeepsDenseSlots(st, entry);
    var spelled := SpelledColumn(entry);
    if spelled.Some? {
      assert spelled.value in st.indices <==> spelled.value in st.accepted;
    }
  }

  /** A successful Fold from dense slots accepts exactly the spelled
      columns not accepted before, in first-seen order. */
  lemma {:induction false} FoldAcceptsFirstSeen(st: LabelState, entries: seq<string>)
    requires DenseSlots(st)
    requires Fold(st, entries).Ok?
    ensures Fold(st, entries).value.accepted == st.accepted + FirstSeenAfter(st.accepted, entries)
    decreases |entries|
  {
    if entries != [] {
      var next := Step(st, entries[0]).value;
      var added := NewColumn(st.accepted, entries[0]);
      StepAcceptsNewColumn(st, entries[0]);
      FoldAcceptsFirstSeen(next, entries[1..]);
      assert FirstSeenAfter(st.accepted, entries) == added + FirstSeenAfter(st.accepted + added, entries[1..]);
      AppendAssoc(st.accepted, added, FirstSeenAfter(next.accepted, entries[1..]));
    }
  }

  /** A successful extraction from an empty map keeps the spelled columns
      in first-seen order, slot i going to the i-th of them (FirstSeenExample
      works one list through). */
  lemma ExtractKeepsFirstSeen(text: string)
    requires ExtractSpec(map[], text).Ok?
    ensures var st := ExtractSpec(map[], text).value;
            && st.accepted == FirstSeen(SplitEntries(text))
            && DenseSlots(st)
  {
    FoldAcceptsFirstSeen(InitialState(map[]), SplitEntries(text));
    ExtractDenseSlots(text);
  }

  /** Extraction fails exactly when std::stoi throws on some entry of the
      list, and then it fails with the first such entry. */
  lemma ExtractFailsOnFirstUnconvertible(init: map<int, int>, text: string)
    ensures ExtractSpec(init, text).Ok? <==> AllConvertible(SplitEntries(text))
    ensures forall i :: 0 <= i < |SplitEntries(text)| && Unconvertible(SplitEntries(text)[i]) &&
                        (forall j :: 0 <= j < i ==> !Unconvertible(SplitEntries(text)[j])) ==>
              ExtractSpec(init, text) == Err(LabelEntryNotConvertible(SplitEntries(text)[i]))
  {
    var entries := SplitEntries(text);
    FoldSucceedsIffConvertible(InitialState(init), entries);
    forall i | 0 <= i < |entries| && Unconvertible(entries[i]) && (forall j :: 0 <= j < i ==> !Unconvertible(entries[j]))
      ensures ExtractSpec(init, text) == Err(LabelEntryNotConvertible(entries[i]))
    {
      FoldFailsAtFirstUnconvertible(InitialState(init), entries, i);
    }
  }

  /** How the entries of "2,0,2,-1,abc,0" spell columns. */
  lemma SpelledExamples()
    ensures SpelledColumn("2") == Some(2) && SpelledColumn("0") == Some(0)
    ensures SpelledColumn("-1") == None && SpelledColumn("abc") == None
  {
    assert DigitsValue("2", 0, 1) == 2 && DigitsValue("0", 0, 1) == 0 && DigitsValue("-1", 1, 2) == 1;
    assert !IsDigit("abc"[0]);
  }

  /** The list "2,0,2,-1,abc,0": the repeated 2 and 0 and the negative -1
      are skipped with a warning, and "abc" is not numeric. */
  lemma FirstSeenExample()
    ensures FirstSeen(["2", "0", "2", "-1", "abc", "0"]) == [2, 0]
  {
    SpelledExamples();
    var tail := ["2", "-1", "abc", "0"];
    assert FirstSeenAfter([2, 0], ["0"]) == [];
    assert FirstSeenAfter([2, 0], ["abc", "0"]) == [];
    assert FirstSeenAfter([2, 0], ["-1", "abc", "0"]) == [];
    assert FirstSeenAfter([2, 0], tail) == [];
    assert ["0"] + tail == ["0", "2", "-1", "abc", "0"];
    assert FirstSeenAfter([2], ["0"] + tail) == [0];
  }

  /** A skipped entry changes neither the map nor the next slot. */
  lemma SkippedEntryTakesNoSlot(st: LabelState, entry: string, rest: seq<string>)
    requires Classify(st.indices, entry).Skip?
    ensures Fold(st, [entry] + rest) == Fold(st.(warnings := st.warnings + [Classify(st.indices, entry).warning]), rest)
  {
    assert ([entry] + rest)[1..] == rest;
  }

  /** An unsigned decimal entry that fits an int and names a column not yet
      accepted is accepted as that column. */
  lemma DecimalEntryAccepted(indices: map<int, int>, entry: string)
    requires entry != [] && forall k :: 0 <= k < |entry| ==> IsDigit(entry[k])
    requires DigitsValue(entry, 0, |entry|) <= Int32Max
    requires DigitsValue(entry, 0, |entry|) !in indices
    ensures Classify(indices, entry) == Accept(DigitsValue(entry, 0, |entry|))
  {
    assert SkipSpaces(entry, 0) == 0;
    assert DigitsEnd(entry, 0) == |entry|;
  }

  /** std::getline on a stream positioned at pos: the entry up to the next
      list delimiter, and the position after that delimiter. */
  method GetLine(text: string, pos: nat) returns (entry: string, next: nat)
    requires pos < |text|
    ensures pos < next <= |text|
    ensures SplitFrom(text, pos) == [entry] + SplitFrom(text, next)
  {
    var stop := pos;
    while stop < |text| && text[stop] != ListDelimiter
      invariant pos <= stop <= |text|
      invariant forall j :: pos <= j < stop ==> text[j] != ListDelimiter
    {
      stop := stop + 1;
    }
    FindUnique(text, ListDelimiter, pos, |text|, stop);
    SplitFromUnfold(text, pos, stop);
    entry := text[pos..stop];
    next := if stop < |text| then stop + 1 else stop;
    assert SplitFrom(text, |text|) == [];
  }

  /** The parameter structure of the parser. The options are set when the
      structure is initialised; ExtractLabelColumnIndices derives the label
      map and label_count from them. */
  class CsvParserParam {
    var format: string
    var labelColumn: string
    var delimiter: string
    var weightColumn: int
    var labelColumnIndices: map<int, int>
    var labelCount: nat

    constructor (format: string, labelColumn: string, delimiter: string, weightColumn: int)
      ensures this.format == format && this.labelColumn == labelColumn
      ensures this.delimiter == delimiter && this.weightColumn == weightColumn
      ensures labelColumnIndices == map[]
    {
      this.format := format;
      this.labelColumn := labelColumn;
      this.delimiter := delimiter;
      this.weightColumn := weightColumn;
      labelColumnIndices := map[];
      labelCount := 0;
    }

    /** Reads the label_column list entry by entry, inserting each accepted
        column with the next output slot, and sets label_count. */
    method ExtractLabelColumnIndices() returns (outcome: Result<seq<Warning>, ConfigError>)
      modifies this
      ensures format == old(format) && labelColumn == old(labelColumn)
      ensures delimiter == old(delimiter) && weightColumn == old(weightColumn)
      ensures outcome.Ok? <==> AllConvertible(SplitEntries(labelColumn))
      ensures ExtractSpec(old(labelColumnIndices), labelColumn).Err? ==>
                outcome == Err(ExtractSpec(old(labelColumnIndices), labelColumn).error)
      ensures ExtractSpec(old(labelColumnIndices), labelColumn).Ok? ==>
                var st := ExtractSpec(old(labelColumnIndices), labelColumn).value;
                && outcome == Ok(st.warnings)
                && labelColumnIndices == st.indices
                && labelCount == LabelCountFor(|st.indices|)
    {
      var text := labelColumn;
      var warnings: seq<Warning> := [];
      ghost var spec := ExtractSpec(labelColumnIndices, text);
      FoldSucceedsIffConvertible(InitialState(labelColumnIndices), SplitEntries(text));
      if |text| > 0 {
        var pos := 0;
        var outputIndex := 0;
        ghost var st := InitialState(labelColumnIndices);
        while pos < |text|
          modifies this`labelColumnIndices
          invariant pos <= |text|
          invariant st.indices == labelColumnIndices && st.outputIndex == outputIndex && st.warnings == warnings
          invariant spec == Fold(st, SplitFrom(text, pos))
          decreases |text| - pos
        {
          var element, next := GetLine(text, pos);
          FoldCons(st, element, SplitFrom(text, next));
          pos := next;
          match Classify(labelColumnIndices, element)
          case Accept(inputIndex) =>
            labelColumnIndices := labelColumnIndices[inputIndex := outputIndex];
            outputIndex := outputIndex + 1;
            st := Step(st, element).value;
          case Skip(w) =>
            warnings := warnings + [w];
            st := Step(st, element).value;
          case Throws =>
            return Err(LabelEntryNotConvertible(element));
        }
        assert SplitFrom(text, pos) == [];
        assert spec == Ok(st);
      }
      labelCount := if |labelColumnIndices| > 1 then |labelColumnIndices| else 1;
      return Ok(warnings);
    }
  }
}
