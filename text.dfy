/** The two string operations the tools rely on: `str.lower()` and the `in` operator on
    strings. Lower-casing is modelled on ASCII letters only. */
module Text {

  predicate IsUpper(c: char) {
    'A' <= c <= 'Z'
  }

  /** One character of `str.lower()`, restricted to ASCII. */
  function LowerChar(c: char): (r: char)
    ensures !IsUpper(r)
    ensures !IsUpper(c) ==> r == c
    ensures IsUpper(c) ==> r as int == c as int + ('a' as int - 'A' as int)
  {
    if IsUpper(c) then (c as int + ('a' as int - 'A' as int)) as char else c
  }

  /** `s.lower()`. */
  function Lower(s: string): (r: string)
    ensures |r| == |s|
    ensures forall i :: 0 <= i < |r| ==> !IsUpper(r[i])
    ensures forall i :: 0 <= i < |s| && !IsUpper(s[i]) ==> r[i] == s[i]
    ensures forall i :: 0 <= i < |s| && IsUpper(s[i]) ==> r[i] as int == s[i] as int + ('a' as int - 'A' as int)
  {
    seq(|s|, i requires 0 <= i < |s| => LowerChar(s[i]))
  }

  lemma LowerIdempotent(s: string)
    ensures Lower(Lower(s)) == Lower(s)
  {
    assert forall i :: 0 <= i < |s| ==> Lower(Lower(s))[i] == LowerChar(LowerChar(s[i]));
  }

  /** `pat` occurs in `text` starting at position `i`. */
  ghost predicate OccursAt(text: string, pat: string, i: int) {
    0 <= i <= |text| - |pat| && text[i..i + |pat|] == pat
  }

  /** Python's `pat in text` for strings: is `pat` a contiguous substring of `text`? */
  function Contains(text: string, pat: string): (r: bool)
    decreases |text|
    ensures r <==> exists i :: OccursAt(text, pat, i)
  {
    if |pat| > |text| then
      false
    else if text[..|pat|] == pat then
      assert OccursAt(text, pat, 0);
      true
    else
      OccursAfterMismatch(text, pat);
      Contains(text[1..], pat)
  }

  /** When `pat` is not a prefix of `text`, its occurrences in `text` are exactly those in
      `text[1..]`, shifted by one. */
  lemma OccursAfterMismatch(text: string, pat: string)
    requires |pat| <= |text| && text[..|pat|] != pat
    ensures (exists i :: OccursAt(text, pat, i)) <==> (exists i :: OccursAt(text[1..], pat, i))
  {
    if i :| OccursAt(text, pat, i) {
      assert i > 0 && OccursAt(text[1..], pat, i - 1);
    }
    if i :| OccursAt(text[1..], pat, i) {
      assert OccursAt(text, pat, i + 1);
    }
  }

  /** The empty string is in every string. */
  lemma ContainsEmpty(text: string)
    ensures Contains(text, "")
  {
    assert OccursAt(text, "", 0);
  }

  /** Every string is in itself. */
  lemma ContainsSelf(s: string)
    ensures Contains(s, s)
  {
    assert OccursAt(s, s, 0);
  }
}
