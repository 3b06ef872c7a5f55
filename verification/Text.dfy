/** The string operations the sources rely on, over ASCII text. */
module Text {

  function UpperChar(c: char): char {
    if 'a' <= c <= 'z' then c - 'a' + 'A' else c
  }

  /** toUpperCase() */
  function Upper(s: string): (r: string)
    ensures |r| == |s|
    ensures forall k | 0 <= k < |s| :: r[k] == UpperChar(s[k])
  {
    if s == "" then "" else [UpperChar(s[0])] + Upper(s[1..])
  }

  function LowerChar(c: char): char {
    if 'A' <= c <= 'Z' then c - 'A' + 'a' else c
  }

  /** toLowerCase() */
  function Lower(s: string): (r: string)
    ensures |r| == |s|
    ensures forall k | 0 <= k < |s| :: r[k] == LowerChar(s[k])
  {
    if s == "" then "" else [LowerChar(s[0])] + Lower(s[1..])
  }

  predicate IsSpace(c: char) {
    c == ' ' || c == '\t' || c == '\n' || c == '\r'
  }

  function TrimStart(s: string): (r: string)
    ensures r == "" || !IsSpace(r[0])
    ensures |r| <= |s| && r == s[|s| - |r|..]
  {
    if s != "" && IsSpace(s[0]) then TrimStart(s[1..]) else s
  }

  function TrimEnd(s: string): (r: string)
    ensures r == "" || !IsSpace(r[|r| - 1])
    ensures r <= s
  {
    if s != "" && IsSpace(s[|s| - 1]) then TrimEnd(s[..|s| - 1]) else s
  }

  /** trim() */
  function Trim(s: string): string {
    TrimEnd(TrimStart(s))
  }

  /** Text with no blank at either end. */
  predicate Bare(s: string) {
    s == "" || (!IsSpace(s[0]) && !IsSpace(s[|s| - 1]))
  }

  lemma TrimOfBare(s: string)
    requires Bare(s)
    ensures Trim(s) == s
  {
  }

  lemma TrimIsBare(s: string)
    ensures Bare(Trim(s))
  {
  }

  lemma UpperIsBareIff(s: string)
    ensures Bare(Upper(s)) <==> Bare(s)
  {
  }

  predicate IsUpperLetter(c: char) {
    'A' <= c <= 'Z'
  }

  predicate IsDigit(c: char) {
    '0' <= c <= '9'
  }

  predicate IsUpperAlnum(c: char) {
    IsUpperLetter(c) || IsDigit(c)
  }

  predicate AllLetters(s: string) {
    forall c <- s :: IsUpperLetter(c)
  }

  predicate AllAlnum(s: string) {
    forall c <- s :: IsUpperAlnum(c)
  }

  lemma UpperIsIdempotent(s: string)
    ensures Upper(Upper(s)) == Upper(s)
  {
  }

  /** Codes in upper case and digits are their own upper case. */
  lemma UpperOfAlnum(s: string)
    requires forall c <- s :: IsUpperAlnum(c) || c == '*'
    ensures Upper(s) == s
  {
    forall k | 0 <= k < |s| ensures UpperChar(s[k]) == s[k] {
      assert s[k] in s;
    }
  }
}
