/** String operations of the JavaScript runtime that the reconciler relies on:
    `trim`, splitting on whitespace, `includes`, `split` on a fixed separator,
    `toUpperCase`, `replace` of one character, `join`, and number formatting. */
module Text {
  import opened Wrappers

  /** The characters JavaScript treats as white space: those matched by `\s`
      and removed by `String.prototype.trim`. */
  predicate IsSpace(c: char) {
    || c == ' ' || c == '\t' || c == '\n' || c == '\r'
    || c == '\U{000B}' || c == '\U{000C}' || c == '\U{00A0}' || c == '\U{1680}'
    || ('\U{2000}' <= c <= '\U{200A}')
    || c == '\U{2028}' || c == '\U{2029}' || c == '\U{202F}' || c == '\U{205F}'
    || c == '\U{3000}' || c == '\U{FEFF}'
  }

  predicate NoSpace(s: string) {
    forall i :: 0 <= i < |s| ==> !IsSpace(s[i])
  }

  predicate AllSpace(s: string) {
    forall i :: 0 <= i < |s| ==> IsSpace(s[i])
  }

  /** Neither the first nor the last character is white space. */
  predicate IsTrimmed(s: string) {
    s == [] || (!IsSpace(s[0]) && !IsSpace(s[|s| - 1]))
  }

  /** The first index at or after `i` that does not hold white space. */
  function SkipSpaces(s: string, i: nat): (j: nat)
    requires i <= |s|
    ensures i <= j <= |s|
    ensures j == |s| || !IsSpace(s[j])
    decreases |s| - i
  {
    if i < |s| && IsSpace(s[i]) then SkipSpaces(s, i + 1) else i
  }

  /** Everything skipped is white space. */
  lemma {:induction false} SkipSpacesSkipsBlanks(s: string, i: nat)
    requires i <= |s|
    ensures forall k :: i <= k < SkipSpaces(s, i) ==> IsSpace(s[k])
    decreases |s| - i
  {
    if i < |s| && IsSpace(s[i]) {
      SkipSpacesSkipsBlanks(s, i + 1);
    }
  }

  /** Skipping blanks from `i` stops at the first non-blank. */
  lemma SkipSpacesTo(s: string, i: nat, j: nat)
    requires i <= j <= |s|
    requires forall k :: i <= k < j ==> IsSpace(s[k])
    requires j == |s| || !IsSpace(s[j])
    ensures SkipSpaces(s, i) == j
  {
    SkipSpacesSkipsBlanks(s, i);
  }

  /** The end of `s[..j]` once trailing white space is dropped. */
  function TrailingStart(s: string, j: nat): (e: nat)
    requires j <= |s|
    ensures e <= j
    ensures forall k :: e <= k < j ==> IsSpace(s[k])
    ensures e == 0 || !IsSpace(s[e - 1])
    decreases j
  {
    if j > 0 && IsSpace(s[j - 1]) then TrailingStart(s, j - 1) else j
  }

  /** `String.prototype.trim`. */
  function Trim(s: string): (r: string)
    ensures |r| <= |s|
  {
    var i := SkipSpaces(s, 0);
    var j := TrailingStart(s, |s|);
    if j <= i then [] else s[i..j]
  }

  /** Trimming leaves no white space at either end, gives the empty string
      exactly for an all-blank text, keeps a trimmed text as it is, and
      introduces no character. */
  lemma TrimSpec(s: string)
    ensures IsTrimmed(Trim(s))
    ensures Trim(s) == [] <==> AllSpace(s)
    ensures IsTrimmed(s) ==> Trim(s) == s
    ensures forall c :: c in Trim(s) ==> c in s
  {
    var i := SkipSpaces(s, 0);
    var j := TrailingStart(s, |s|);
    SkipSpacesSkipsBlanks(s, 0);
    if j <= i {
      forall k | 0 <= k < |s|
        ensures IsSpace(s[k])
      {
      }
    } else {
      assert !IsSpace(s[i]) && !IsSpace(s[j - 1]);
      assert Trim(s) == s[i..j];
      assert forall c :: c in s[i..j] ==> c in s;
    }
    if s != [] && IsTrimmed(s) {
      assert i == 0 && j == |s|;
      assert s[0..|s|] == s;
    }
  }

  /** The characters before the first white space: `s.split(/[\s\r\n]+/)[0]`. */
  function FirstToken(s: string): (r: string)
    ensures NoSpace(r)
    ensures |r| <= |s| && r == s[..|r|]
    ensures |r| == |s| || IsSpace(s[|r|])
    decreases |s|
  {
    if s == [] || IsSpace(s[0]) then [] else [s[0]] + FirstToken(s[1..])
  }

  /** `t` occurs in `s` starting at index `i`. */
  predicate OccursAt(s: string, t: string, i: nat) {
    i + |t| <= |s| && s[i..i + |t|] == t
  }

  /** The leftmost occurrence of `t` in `s` at or after `from`: `indexOf`. */
  function IndexOfFrom(s: string, t: string, from: nat): (r: Option<nat>)
    requires from <= |s|
    ensures r.Some? ==> from <= r.value && OccursAt(s, t, r.value)
    ensures r.Some? ==> forall i :: from <= i < r.value ==> !OccursAt(s, t, i)
    ensures r.None? ==> forall i :: from <= i ==> !OccursAt(s, t, i)
    decreases |s| - from
  {
    if OccursAt(s, t, from) then Some(from)
    else if from == |s| then None
    else IndexOfFrom(s, t, from + 1)
  }

  function IndexOf(s: string, t: string): Option<nat> {
    IndexOfFrom(s, t, 0)
  }

  /** `String.prototype.includes`. */
  predicate Contains(s: string, t: string) {
    IndexOf(s, t).Some?
  }

  /** `s.split(delim)[0]`: everything before the first occurrence of `delim`. */
  function PrefixBefore(s: string, delim: string): (r: string)
    requires delim != ""
    ensures |r| <= |s| && r == s[..|r|]
    ensures !Contains(r, delim)
    ensures !Contains(s, delim) ==> r == s
    ensures Contains(s, delim) ==> OccursAt(s, delim, |r|)
  {
    match IndexOf(s, delim)
    case None => s
    case Some(i) =>
      assert forall k :: OccursAt(s[..i], delim, k) ==> OccursAt(s, delim, k);
      s[..i]
  }

  /** Upper-casing of one character, for the ASCII letters. */
  function UpperChar(c: char): char {
    if 'a' <= c <= 'z' then (c as int - 32) as char else c
  }

  /** `toUpperCase`, for the ASCII letters. */
  function ToUpper(s: string): (r: string)
    ensures |r| == |s|
    ensures forall i :: 0 <= i < |s| ==> r[i] == UpperChar(s[i])
  {
    seq(|s|, i requires 0 <= i < |s| => UpperChar(s[i]))
  }

  /** Lower-casing of one character, for the ASCII letters. */
  function LowerChar(c: char): char {
    if 'A' <= c <= 'Z' then (c as int + 32) as char else c
  }

  /** `toLowerCase`, for the ASCII letters. */
  function ToLower(s: string): (r: string)
    ensures |r| == |s|
    ensures forall i :: 0 <= i < |s| ==> r[i] == LowerChar(s[i])
  {
    seq(|s|, i requires 0 <= i < |s| => LowerChar(s[i]))
  }

  /** `s.replace(/a/g, b)` for a single character `a`. */
  function ReplaceChar(s: string, a: char, b: char): (r: string)
    ensures |r| == |s|
    ensures forall i :: 0 <= i < |s| ==> r[i] == (if s[i] == a then b else s[i])
  {
    seq(|s|, i requires 0 <= i < |s| => if s[i] == a then b else s[i])
  }

  /** `Array.prototype.join(sep)`. */
  function Join(parts: seq<string>, sep: string): (r: string)
    ensures parts == [] ==> r == ""
    ensures |parts| == 1 ==> r == parts[0]
    ensures parts != [] && parts[0] != "" ==> r != "" && r[0] == parts[0][0]
    decreases |parts|
  {
    if parts == [] then ""
    else if |parts| == 1 then parts[0]
    else parts[0] + sep + Join(parts[1..], sep)
  }

  predicate IsDigit(c: char) {
    '0' <= c <= '9'
  }

  predicate AllDigits(s: string) {
    forall i :: 0 <= i < |s| ==> IsDigit(s[i])
  }

  /** The first index at or after `i` that does not hold a digit. */
  function SkipDigits(s: string, i: nat): (j: nat)
    requires i <= |s|
    ensures i <= j <= |s|
    ensures j == |s| || !IsDigit(s[j])
    decreases |s| - i
  {
    if i < |s| && IsDigit(s[i]) then SkipDigits(s, i + 1) else i
  }

  /** Everything skipped is a digit. */
  lemma {:induction false} SkipDigitsSkipsDigits(s: string, i: nat)
    requires i <= |s|
    ensures forall k :: i <= k < SkipDigits(s, i) ==> IsDigit(s[k])
    decreases |s| - i
  {
    if i < |s| && IsDigit(s[i]) {
      SkipDigitsSkipsDigits(s, i + 1);
    }
  }

  /** Skipping digits from `i` stops at the first non-digit. */
  lemma SkipDigitsTo(s: string, i: nat, j: nat)
    requires i <= j <= |s|
    requires forall k :: i <= k < j ==> IsDigit(s[k])
    requires j == |s| || !IsDigit(s[j])
    ensures SkipDigits(s, i) == j
  {
    SkipDigitsSkipsDigits(s, i);
  }

  function DigitChar(d: nat): (c: char)
    requires d < 10
    ensures IsDigit(c)
  {
    (d + '0' as int) as char
  }

  /** The decimal value of a string of digits. */
  function DecimalValue(s: string): nat
    requires AllDigits(s)
    decreases |s|
  {
    if s == [] then 0 else 10 * DecimalValue(s[..|s| - 1]) + (s[|s| - 1] as int - '0' as int)
  }

  /** The decimal numeral of `n`, as a template literal `${n}` writes it. */
  function NatToString(n: nat): (r: string)
    ensures r != [] && AllDigits(r)
    ensures r[0] == '0' ==> n == 0 && |r| == 1
    decreases n
  {
    if n < 10 then [DigitChar(n)] else NatToString(n / 10) + [DigitChar(n % 10)]
  }

  /** Printing a number and reading it back gives the number. */
  lemma {:induction false} DecimalValueOfNatToString(n: nat)
    ensures DecimalValue(NatToString(n)) == n
    decreases n
  {
    if n >= 10 {
      var s := NatToString(n);
      DecimalValueOfNatToString(n / 10);
      assert s[..|s| - 1] == NatToString(n / 10);
    }
  }
}
