/** String helpers: JavaScript's `trim` and a case-insensitive comparison. */
module Text {

  /** The code points `String.prototype.trim` strips: WhiteSpace and LineTerminator. */
  predicate IsWhitespace(c: char)
  {
    || c == '\t' || c == '\n' || c == '\U{000B}' || c == '\U{000C}' || c == '\r' || c == ' '
    || c == '\U{00A0}' || c == '\U{1680}' || ('\U{2000}' <= c <= '\U{200A}')
    || c == '\U{2028}' || c == '\U{2029}' || c == '\U{202F}' || c == '\U{205F}'
    || c == '\U{3000}' || c == '\U{FEFF}'
  }

  /** Every character is whitespace (the empty string included). */
  predicate IsBlank(s: string)
  {
    forall i :: 0 <= i < |s| ==> IsWhitespace(s[i])
  }

  /** Neither the first nor the last character is whitespace. */
  predicate IsTrimmed(s: string)
  {
    |s| > 0 ==> !IsWhitespace(s[0]) && !IsWhitespace(s[|s| - 1])
  }

  /** The number of leading whitespace characters. */
  function LeadingWhitespace(s: string): (n: nat)
    ensures n <= |s|
    ensures forall i :: 0 <= i < n ==> IsWhitespace(s[i])
    ensures n < |s| ==> !IsWhitespace(s[n])
  {
    if |s| > 0 && IsWhitespace(s[0]) then 1 + LeadingWhitespace(s[1..]) else 0
  }

  /** Where `s[lo..]` ends once its trailing whitespace is dropped, searching down from `hi`. */
  function TrailingCut(s: string, lo: nat, hi: nat): (end: nat)
    requires lo <= hi <= |s|
    ensures lo <= end <= hi
    ensures forall i :: end <= i < hi ==> IsWhitespace(s[i])
    ensures end > lo ==> !IsWhitespace(s[end - 1])
    decreases hi
  {
    if hi > lo && IsWhitespace(s[hi - 1]) then TrailingCut(s, lo, hi - 1) else hi
  }

  /**
   * `String.prototype.trim`: the infix of `s` left once leading and trailing whitespace is
   * dropped. All that is cut off is whitespace, and what is left neither starts nor ends with it.
   */
  function Trim(s: string): (r: string)
    ensures IsTrimmed(r)
    ensures r == "" <==> IsBlank(s)
    ensures var lo := LeadingWhitespace(s);
      && lo + |r| <= |s| && r == s[lo..lo + |r|]
      && (forall i :: 0 <= i < lo ==> IsWhitespace(s[i]))
      && (forall i :: lo + |r| <= i < |s| ==> IsWhitespace(s[i]))
  {
    var lo := LeadingWhitespace(s);
    var hi := TrailingCut(s, lo, |s|);
    s[lo..hi]
  }

  /** Trimming is idempotent, and it leaves a string alone exactly when it is already trimmed. */
  lemma TrimIdempotent(s: string)
    ensures Trim(Trim(s)) == Trim(s)
    ensures Trim(s) == s <==> IsTrimmed(s)
  {
    TrimOfTrimmed(Trim(s));
    if IsTrimmed(s) {
      TrimOfTrimmed(s);
    }
  }

  lemma TrimOfTrimmed(s: string)
    requires IsTrimmed(s)
    ensures Trim(s) == s
  {
    assert LeadingWhitespace(s) == 0;
    assert TrailingCut(s, 0, |s|) == |s|;
  }

  /** ASCII case folding: 'A'..'Z' become 'a'..'z', every other character is kept. */
  function LowerChar(c: char): char
  {
    if 'A' <= c <= 'Z' then (c as int + 32) as char else c
  }

  /** `toLowerCase`, restricted to ASCII letters. */
  function ToLower(s: string): (r: string)
    ensures |r| == |s|
    ensures forall i :: 0 <= i < |s| ==> r[i] == LowerChar(s[i])
  {
    if |s| == 0 then "" else [LowerChar(s[0])] + ToLower(s[1..])
  }

  /** The two strings are equal once both are folded to lower case. */
  predicate SameIgnoringCase(a: string, b: string)
  {
    ToLower(a) == ToLower(b)
  }

  /** Some entry of the list equals `x` up to case. */
  predicate ContainsIgnoringCase(items: seq<string>, x: string)
  {
    exists i :: 0 <= i < |items| && SameIgnoringCase(items[i], x)
  }

  /** No two entries of the list are equal up to case. */
  predicate DistinctIgnoringCase(items: seq<string>)
  {
    forall i, j :: 0 <= i < j < |items| ==> !SameIgnoringCase(items[i], items[j])
  }
}
