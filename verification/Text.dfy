/** Searching in strings, blanks, and hex digits. */
module Text {
  import opened Options

  /** The first c at or after `from`. */
  function Find(s: string, c: char, from: nat): (r: Option<nat>)
    ensures r.Some? ==> from <= r.value < |s| && s[r.value] == c
    ensures r.Some? ==> forall i :: from <= i < r.value ==> s[i] != c
    ensures r.None? ==> forall i :: from <= i < |s| ==> s[i] != c
    decreases |s| - from
  {
    if from >= |s| then None
    else if s[from] == c then Some(from)
    else Find(s, c, from + 1)
  }

  /** The last c. */
  function FindLast(s: string, c: char): (r: Option<nat>)
    ensures r.Some? ==> r.value < |s| && s[r.value] == c && forall i :: r.value < i < |s| ==> s[i] != c
    ensures r.None? ==> c !in s
  {
    if s == [] then None
    else if s[|s| - 1] == c then Some(|s| - 1)
    else FindLast(s[..|s| - 1], c)
  }

  /** The first place the word stands. */
  function FindWord(s: string, word: string): (r: Option<nat>)
    ensures r.Some? ==> r.value + |word| <= |s| && s[r.value..r.value + |word|] == word
  {
    if |word| > |s| then None
    else if word <= s then Some(0)
    else
      match FindWord(s[1..], word)
      case None => None
      case Some(k) => Some(k + 1)
  }

  // ---- blanks --------------------------------------------------------------------------------------

  /** Python's `str.isspace`, which is also what `\s` of its regular expressions matches. */
  predicate IsSpace(c: char) {
    var n := c as int;
    9 <= n <= 13 || 28 <= n <= 32 || n == 0x85 || n == 0xA0 || n == 0x1680 || 0x2000 <= n <= 0x200A
    || n == 0x2028 || n == 0x2029 || n == 0x202F || n == 0x205F || n == 0x3000
  }

  /** The first place at or after `from` that is no blank. */
  function SkipSpaces(s: string, from: nat): (r: nat)
    requires from <= |s|
    ensures from <= r <= |s| && (forall i :: from <= i < r ==> IsSpace(s[i])) && (r < |s| ==> !IsSpace(s[r]))
    decreases |s| - from
  {
    if from < |s| && IsSpace(s[from]) then SkipSpaces(s, from + 1) else from
  }

  /** Where the blanks at the end begin. */
  function TrimEnd(s: string): (r: nat)
    ensures r <= |s| && (forall i :: r <= i < |s| ==> IsSpace(s[i])) && (r > 0 ==> !IsSpace(s[r - 1]))
  {
    if s != "" && IsSpace(s[|s| - 1]) then TrimEnd(s[..|s| - 1]) else |s|
  }

  /** `s.strip()`. */
  function Stripped(s: string): string {
    var t := s[SkipSpaces(s, 0)..];
    t[..TrimEnd(t)]
  }

  // ---- hex digits ----------------------------------------------------------------------------------

  const HEX := "0123456789abcdef"

  function HexDigit(n: nat): char
    requires n < 16
  {
    HEX[n]
  }

  /** What a hex digit stands for. */
  function DigitValue(c: char): nat {
    if '0' <= c <= '9' then c as int - '0' as int
    else if 'a' <= c <= 'f' then c as int - 'a' as int + 10
    else 0
  }

  lemma HexDigitBack(n: nat)
    requires n < 16
    ensures DigitValue(HexDigit(n)) == n
  {
  }
}
