/**
 * The two string rules the services rely on: "blank" (`string.IsNullOrWhiteSpace`)
 * and case-insensitive equality of category names, the latter restricted to
 * ASCII letters.
 */
module Text {

  /** The characters `char.IsWhiteSpace` accepts: the Unicode separators plus the C0/C1 spacing controls. */
  predicate IsWhiteSpace(c: char) {
    || c == ' '
    || ('\t' <= c <= '\r')
    || c == '\U{0085}' || c == '\U{00A0}' || c == '\U{1680}'
    || ('\U{2000}' <= c <= '\U{200A}')
    || c == '\U{2028}' || c == '\U{2029}' || c == '\U{202F}' || c == '\U{205F}' || c == '\U{3000}'
  }

  /** Empty or made only of white space: the title and name validation rule. */
  predicate IsBlank(s: string) {
    forall i :: 0 <= i < |s| ==> IsWhiteSpace(s[i])
  }

  /** The character with an ASCII upper-case letter lowered; every other character is kept. */
  function LowerChar(c: char): (r: char)
    ensures 'A' <= c <= 'Z' ==> 'a' <= r <= 'z' && r as int == c as int + 32
    ensures !('A' <= c <= 'Z') ==> r == c
  {
    if 'A' <= c <= 'Z' then (c as int + 32) as char else c
  }

  /** The string with every ASCII upper-case letter lowered. */
  function Lower(s: string): (r: string)
    ensures |r| == |s|
    ensures forall i :: 0 <= i < |s| ==> r[i] == LowerChar(s[i])
  {
    if s == [] then [] else [LowerChar(s[0])] + Lower(s[1..])
  }

  /** Case-insensitive name equality, as used by the category name lookup. */
  predicate SameName(a: string, b: string) {
    Lower(a) == Lower(b)
  }

  /** Case-insensitive equality is an equivalence, so "taken" and "free" partition the names. */
  lemma SameNameIsEquivalence(a: string, b: string, c: string)
    ensures SameName(a, a)
    ensures SameName(a, b) ==> SameName(b, a)
    ensures SameName(a, b) && SameName(b, c) ==> SameName(a, c)
  {
  }

  /** Strings of the same length that differ only in the case of ASCII letters are the same name. */
  lemma {:induction false} SameNameIgnoresCase(a: string, b: string)
    requires |a| == |b|
    requires forall i :: 0 <= i < |a| ==> LowerChar(a[i]) == LowerChar(b[i])
    ensures SameName(a, b)
  {
    if a != [] {
      SameNameIgnoresCase(a[1..], b[1..]);
    }
  }

  /**
   * Asking for "work" finds "Work"; as a contrast of this model's own, a name
   * of another length ("NonExistent") is not the name "Work".
   */
  lemma NameExamples()
    ensures SameName("work", "Work")
    ensures !SameName("NonExistent", "Work")
  {
    SameNameIgnoresCase("work", "Work");
    assert |Lower("NonExistent")| != |Lower("Work")|;
  }

  /** An empty or all-space name or title is blank; "Work" is not. */
  lemma BlankExamples()
    ensures IsBlank("") && IsBlank("   ")
    ensures !IsBlank("Work")
  {
    assert !IsWhiteSpace("Work"[0]);
  }
}
