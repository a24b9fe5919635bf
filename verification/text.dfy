/** Character classes and substring search over strings, where a string is a
    sequence of UTF-16 code units (one `char` per unit), as in JavaScript. */
module Text {

  datatype Option<T> = None | Some(value: T)

  /** Membership in the hiragana or katakana Unicode blocks, U+3040 to U+30FF. */
  predicate IsKana(c: char) {
    0x3040 <= c as int <= 0x30FF
  }

  /** Every character of `s` is kana (vacuously true of the empty string). */
  predicate AllKana(s: string) {
    forall i :: 0 <= i < |s| ==> IsKana(s[i])
  }

  /** `s.endsWith(suffix)`. */
  predicate EndsWith(s: string, suffix: string) {
    |suffix| <= |s| && s[|s| - |suffix|..] == suffix
  }

  /** `pat` occurs in `text` at offset `i`. */
  predicate MatchesAt(text: string, pat: string, i: nat) {
    i + |pat| <= |text| && text[i..i + |pat|] == pat
  }

  /** The offset from which `text.indexOf(pat, from)` starts looking: JavaScript
      clamps a position past the end to the length of the string. */
  function Clamp(text: string, from: nat): (lo: nat)
    ensures lo <= |text|
    ensures from <= |text| ==> lo == from
  {
    if from <= |text| then from else |text|
  }

  /** `text.indexOf(pat, from)`: the first offset at or after `from` where `pat`
      occurs, or None where JavaScript answers -1. */
  function IndexOf(text: string, pat: string, from: nat): (r: Option<nat>)
    ensures r.Some? ==>
      && Clamp(text, from) <= r.value
      && MatchesAt(text, pat, r.value)
      && forall j :: Clamp(text, from) <= j < r.value ==> !MatchesAt(text, pat, j)
    ensures r.None? ==>
      forall j :: Clamp(text, from) <= j ==> !MatchesAt(text, pat, j)
  {
    FindFrom(text, pat, Clamp(text, from))
  }

  /** Scans offsets `i`, `i + 1`, ..., `|text|` for the first match of `pat`. */
  function FindFrom(text: string, pat: string, i: nat): (r: Option<nat>)
    requires i <= |text|
    ensures r.Some? ==>
      && i <= r.value
      && MatchesAt(text, pat, r.value)
      && forall j :: i <= j < r.value ==> !MatchesAt(text, pat, j)
    ensures r.None? ==> forall j :: i <= j ==> !MatchesAt(text, pat, j)
    decreases |text| - i
  {
    if MatchesAt(text, pat, i) then Some(i)
    else if i == |text| then None
    else FindFrom(text, pat, i + 1)
  }
}
