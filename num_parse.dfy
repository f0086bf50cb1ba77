/** Numeric field conversion.

    The parser converts a field with strtof (32-bit float element type) or
    strtoll with base 0 followed by a cast (32-bit and 64-bit integer element
    types). This module models that conversion on decimal integers: leading
    C white space is skipped, an optional sign is accepted, then a run of
    decimal digits. When no digit follows, nothing is converted: the end
    position equals the start and the value is 0, as with the C functions. */
module NumParse {

  /** The element type the parser is instantiated with. */
  datatype NumKind = Float32 | Int32 | Int64

  /** A conversion result: the value and the first position not consumed. */
  datatype Conversion = Conversion(value: int, end: nat)

  const Int32Min: int := -0x8000_0000
  const Int32Max: int := 0x7FFF_FFFF
  const Int64Min: int := -0x8000_0000_0000_0000
  const Int64Max: int := 0x7FFF_FFFF_FFFF_FFFF

  /** C isspace in the "C" locale: space, \t, \n, \v, \f and \r. */
  predicate IsSpace(c: char) { c == ' ' || '\t' <= c <= '\r' }

  predicate IsDigit(c: char) { '0' <= c <= '9' }

  /** The first position at or after i that is not white space. */
  function SkipSpaces(s: seq<char>, i: nat): (j: nat)
    requires i <= |s|
    ensures i <= j <= |s|
    ensures forall k :: i <= k < j ==> IsSpace(s[k])
    ensures j == |s| || !IsSpace(s[j])
    decreases |s| - i
  {
    if i < |s| && IsSpace(s[i]) then SkipSpaces(s, i + 1) else i
  }

  /** The end of the run of decimal digits that starts at i. */
  function DigitsEnd(s: seq<char>, i: nat): (j: nat)
    requires i <= |s|
    ensures i <= j <= |s|
    ensures forall k :: i <= k < j ==> IsDigit(s[k])
    ensures j == |s| || !IsDigit(s[j])
    decreases |s| - i
  {
    if i < |s| && IsDigit(s[i]) then DigitsEnd(s, i + 1) else i
  }

  /** The decimal value of the digits s[i..j]. */
  function DigitsValue(s: seq<char>, i: nat, j: nat): nat
    requires i <= j <= |s|
    requires forall k :: i <= k < j ==> IsDigit(s[k])
    decreases j - i
  {
    if i == j then 0
    else
      assert IsDigit(s[j - 1]);
      DigitsValue(s, i, j - 1) * 10 + (s[j - 1] as int - '0' as int)
  }

  /** Converts the number at position p of s. A successful conversion ends
      right after its last digit; an unsuccessful one consumes nothing and
      yields 0. */
  function ParseNum(s: seq<char>, p: nat): (r: Conversion)
    requires p <= |s|
    ensures p <= r.end <= |s|
    ensures r.end == p ==> r.value == 0
    ensures r.end > p ==> IsDigit(s[r.end - 1]) && (r.end == |s| || !IsDigit(s[r.end]))
  {
    var q := SkipSpaces(s, p);
    var signed := q < |s| && (s[q] == '-' || s[q] == '+');
    var d := if signed then q + 1 else q;
    var e := DigitsEnd(s, d);
    if e == d then Conversion(0, p)
    else
      var magnitude: int := DigitsValue(s, d, e);
      Conversion(if signed && s[q] == '-' then -magnitude else magnitude, e)
  }

  /** Any position with the defining property of SkipSpaces is the one it returns. */
  lemma {:induction false} SkipSpacesUnique(s: seq<char>, i: nat, j: nat)
    requires i <= j <= |s|
    requires forall k :: i <= k < j ==> IsSpace(s[k])
    requires j == |s| || !IsSpace(s[j])
    ensures SkipSpaces(s, i) == j
    decreases j - i
  {
    if i < j {
      SkipSpacesUnique(s, i + 1, j);
    }
  }

  /** Any position with the defining property of DigitsEnd is the one it returns. */
  lemma {:induction false} DigitsEndUnique(s: seq<char>, i: nat, j: nat)
    requires i <= j <= |s|
    requires forall k :: i <= k < j ==> IsDigit(s[k])
    requires j == |s| || !IsDigit(s[j])
    ensures DigitsEnd(s, i) == j
    decreases j - i
  {
    if i < j {
      DigitsEndUnique(s, i + 1, j);
    }
  }

  /** The layout of a number at p: white space s[p..q], then an optional
      sign, then the digits from d on; d is q + 1 after a sign, else q. */
  predicate NumberPrefix(s: seq<char>, p: nat, q: nat, d: nat)
  {
    && p <= q <= |s|
    && (forall k :: p <= k < q ==> IsSpace(s[k]))
    && (q == |s| || !IsSpace(s[q]))
    && d == (if q < |s| && (s[q] == '-' || s[q] == '+') then q + 1 else q)
  }

  /** The signed value of the digits s[d..e] after the layout of NumberPrefix. */
  function SignedDigits(s: seq<char>, q: nat, d: nat, e: nat): int
    requires d <= e <= |s| && q <= d
    requires forall k :: d <= k < e ==> IsDigit(s[k])
  {
    if d == q + 1 && s[q] == '-' then -(DigitsValue(s, d, e) as int) else DigitsValue(s, d, e)
  }

  /** A conversion consumes only white space, a sign and digits. */
  lemma ParseNumConsumes(s: seq<char>, p: nat)
    requires p <= |s|
    ensures forall k :: p <= k < ParseNum(s, p).end ==> IsSpace(s[k]) || IsDigit(s[k]) || s[k] == '-' || s[k] == '+'
  {
  }

  /** Text that spells a number converts to its signed decimal value and
      ends right after its last digit, as strtoll and strtof do. */
  lemma ParseNumConverts(s: seq<char>, p: nat, q: nat, d: nat, e: nat)
    requires NumberPrefix(s, p, q, d)
    requires d < e <= |s|
    requires forall k :: d <= k < e ==> IsDigit(s[k])
    requires e == |s| || !IsDigit(s[e])
    ensures ParseNum(s, p) == Conversion(SignedDigits(s, q, d, e), e)
  {
    SkipSpacesUnique(s, p, q);
    DigitsEndUnique(s, d, e);
  }

  /** Text where no digit follows the white space and the optional sign
      converts nothing: the value is 0 and the end is p. */
  lemma ParseNumNoDigits(s: seq<char>, p: nat, q: nat, d: nat)
    requires NumberPrefix(s, p, q, d)
    requires d == |s| || !IsDigit(s[d])
    ensures ParseNum(s, p) == Conversion(0, p)
  {
    SkipSpacesUnique(s, p, q);
    DigitsEndUnique(s, d, d);
  }

  /** strtoll saturates at the bounds of a 64-bit integer. */
  function Saturate64(v: int): (r: int)
    ensures Int64Min <= r <= Int64Max
    ensures Int64Min <= v <= Int64Max ==> r == v
    ensures v < Int64Min ==> r == Int64Min
    ensures v > Int64Max ==> r == Int64Max
  {
    if v < Int64Min then Int64Min else if v > Int64Max then Int64Max else v
  }

  /** A cast to a 32-bit signed integer keeps the value modulo 2^32. */
  function Wrap32(v: int): (r: int)
    ensures Int32Min <= r <= Int32Max
    ensures (v - r) % 0x1_0000_0000 == 0
    ensures Int32Min <= v <= Int32Max ==> r == v
  {
    var m := v % 0x1_0000_0000;
    if m > Int32Max then m - 0x1_0000_0000 else m
  }

  /** The element value stored for a converted number under each element type.
      Out of the int64 range strtoll returns the nearer bound, and the int32
      cast keeps the low 32 bits of it: -1 above the range, 0 below it. */
  function Convert(kind: NumKind, v: int): (r: int)
    ensures kind == Int32 ==> Int32Min <= r <= Int32Max
    ensures kind == Int64 ==> Int64Min <= r <= Int64Max
    ensures kind == Float32 ==> r == v
    ensures kind != Int32 && Int64Min <= v <= Int64Max ==> r == v
    ensures Int32Min <= v <= Int32Max ==> r == v
    ensures kind == Int64 && v < Int64Min ==> r == Int64Min
    ensures kind == Int64 && v > Int64Max ==> r == Int64Max
    ensures kind == Int32 && Int64Min <= v <= Int64Max ==> (v - r) % 0x1_0000_0000 == 0
    ensures kind == Int32 && v < Int64Min ==> r == 0
    ensures kind == Int32 && v > Int64Max ==> r == -1
  {
    match kind
    case Float32 => v
    case Int64 => Saturate64(v)
    case Int32 => Wrap32(Saturate64(v))
  }

  /** A field that starts with a digit always converts at least one character. */
  lemma DigitStartConverts(s: seq<char>, p: nat)
    requires p < |s| && IsDigit(s[p])
    ensures ParseNum(s, p).end > p
  {
    assert SkipSpaces(s, p) == p;
    assert DigitsEnd(s, p) > p;
  }

  /** A field that starts with a character that is neither white space, a sign
      nor a digit (a delimiter such as ',', for one) converts nothing. */
  lemma PunctuationConvertsNothing(s: seq<char>, p: nat)
    requires p < |s| && !IsSpace(s[p]) && !IsDigit(s[p]) && s[p] != '-' && s[p] != '+'
    ensures ParseNum(s, p) == Conversion(0, p)
  {
    assert SkipSpaces(s, p) == p;
  }

  /** At the very end of the input nothing is converted. */
  lemma EndConvertsNothing(s: seq<char>)
    ensures ParseNum(s, |s|) == Conversion(0, |s|)
  {
  }
}
