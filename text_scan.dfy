/** Cursor scans over the raw characters of a block: searching for a
    separator character, and the newline handling of the line scanner. */
module TextScan {

  /** The line terminators the scanner recognises. */
  predicate IsNewline(c: char) { c == '\n' || c == '\r' }

  /** The first position k in [i, hi) with s[k] == c, or hi when there is none. */
  function Find(s: seq<char>, c: char, i: nat, hi: nat): (k: nat)
    requires i <= hi <= |s|
    ensures i <= k <= hi
    ensures forall j :: i <= j < k ==> s[j] != c
    ensures k == hi || s[k] == c
    decreases hi - i
  {
    if i < hi && s[i] != c then Find(s, c, i + 1, hi) else i
  }

  /** Any position with the defining property of Find is the one Find returns. */
  lemma FindUnique(s: seq<char>, c: char, i: nat, hi: nat, k: nat)
    requires i <= k <= hi <= |s|
    requires forall j :: i <= j < k ==> s[j] != c
    requires k == hi || s[k] == c
    ensures Find(s, c, i, hi) == k
  {
  }

  /** The end of the run of line terminators that starts at i. */
  function SkipNewlines(s: seq<char>, i: nat): (j: nat)
    requires i <= |s|
    ensures i <= j <= |s|
    ensures forall k :: i <= k < j ==> IsNewline(s[k])
    ensures j == |s| || !IsNewline(s[j])
    decreases |s| - i
  {
    if i < |s| && IsNewline(s[i]) then SkipNewlines(s, i + 1) else i
  }

  /** The first line terminator at or after i, or the end of the block. */
  function LineEnd(s: seq<char>, i: nat): (j: nat)
    requires i <= |s|
    ensures i <= j <= |s|
    ensures forall k :: i <= k < j ==> !IsNewline(s[k])
    ensures j == |s| || IsNewline(s[j])
    decreases |s| - i
  {
    if i < |s| && !IsNewline(s[i]) then LineEnd(s, i + 1) else i
  }

  /** Position i starts a line: it holds a character that is not a line
      terminator and follows the block start or a line terminator. */
  predicate IsLineStart(s: seq<char>, i: nat)
    requires i < |s|
  {
    !IsNewline(s[i]) && (i == 0 || IsNewline(s[i - 1]))
  }

  /** The number of line starts among the first n positions of s. */
  function CountLineStarts(s: seq<char>, n: nat): nat
    requires n <= |s|
  {
    if n == 0 then 0 else CountLineStarts(s, n - 1) + (if IsLineStart(s, n - 1) then 1 else 0)
  }
}
