/**
 ASCII case handling and the blog's tag normalisation, `str.capitalize`:
 the first character is upper-cased and every other character lower-cased.
 Only the ASCII letters change case; every other character is left alone.
 */
module Text {
  import Seqs

  predicate IsUpper(c: char) { 'A' <= c <= 'Z' }

  predicate IsLower(c: char) { 'a' <= c <= 'z' }

  /** Distance between a lower-case ASCII letter and its upper-case partner. */
  const CaseShift: int := 'a' as int - 'A' as int

  function ToUpper(c: char): (u: char)
    ensures !IsLower(u)
    ensures IsLower(c) ==> IsUpper(u) && u as int + CaseShift == c as int
    ensures !IsLower(c) ==> u == c
  {
    if IsLower(c) then (c as int - CaseShift) as char else c
  }

  function ToLower(c: char): (l: char)
    ensures !IsUpper(l)
    ensures IsUpper(c) ==> IsLower(l) && l as int == c as int + CaseShift
    ensures !IsUpper(c) ==> l == c
  {
    if IsUpper(c) then (c as int + CaseShift) as char else c
  }

  /** Two characters that differ at most in ASCII case. */
  predicate SameLetter(a: char, b: char) { ToLower(a) == ToLower(b) }

  /** The shape `capitalize` gives a string: no lower-case first letter, no upper-case letter after it. */
  predicate IsCapitalized(s: string) {
    && (|s| > 0 ==> !IsLower(s[0]))
    && forall i :: 1 <= i < |s| ==> !IsUpper(s[i])
  }

  /** A string of the capitalized shape that spells `s` up to case. */
  predicate IsCapitalizationOf(r: string, s: string) {
    && |r| == |s|
    && IsCapitalized(r)
    && forall i :: 0 <= i < |s| ==> SameLetter(r[i], s[i])
  }

  /** Lower-cases every character. */
  function LowerAll(t: string): (r: string)
    ensures |r| == |t|
    ensures forall i :: 0 <= i < |t| ==> r[i] == ToLower(t[i])
  {
    Seqs.Map(ToLower, t)
  }

  lemma CaseChangeKeepsLetter(c: char)
    ensures SameLetter(ToUpper(c), c) && SameLetter(ToLower(c), c)
  {
  }

  /** Upper-casing the first character and lower-casing the rest gives the capitalized shape. */
  lemma UpperFirstLowerRest(s: string, r: string)
    requires |s| > 0 && r == [ToUpper(s[0])] + LowerAll(s[1..])
    ensures IsCapitalizationOf(r, s)
  {
    assert |r| == |s|;
    forall i | 1 <= i < |s|
      ensures r[i] == ToLower(s[i])
    {
      assert r[i] == LowerAll(s[1..])[i - 1];
    }
    forall i | 0 <= i < |s|
      ensures SameLetter(r[i], s[i])
    {
      CaseChangeKeepsLetter(s[i]);
    }
  }

  function Capitalize(s: string): (r: string)
    ensures IsCapitalizationOf(r, s)
  {
    if |s| == 0 then s
    else
      var r := [ToUpper(s[0])] + LowerAll(s[1..]);
      UpperFirstLowerRest(s, r);
      r
  }

  /** A character that is not lower-case is fixed by its case class and its lower-case form. */
  lemma SameLetterNotLower(a: char, b: char)
    requires SameLetter(a, b) && !IsLower(a) && !IsLower(b)
    ensures a == b
  {
  }

  lemma SameLetterNotUpper(a: char, b: char)
    requires SameLetter(a, b) && !IsUpper(a) && !IsUpper(b)
    ensures a == b
  {
  }

  /** The capitalized shape together with "same letters" pins the result down:
      `Capitalize` is the only function meeting its own contract. */
  lemma CapitalizationUnique(s: string, r: string)
    requires IsCapitalizationOf(r, s)
    ensures r == Capitalize(s)
  {
    var c := Capitalize(s);
    forall i | 0 <= i < |s|
      ensures r[i] == c[i]
    {
      if i == 0 {
        SameLetterNotLower(r[0], c[0]);
      } else {
        SameLetterNotUpper(r[i], c[i]);
      }
    }
  }

  /** A string is left unchanged by `Capitalize` exactly when it already has the capitalized shape. */
  lemma CapitalizeFixpoint(s: string)
    ensures Capitalize(s) == s <==> IsCapitalized(s)
  {
    if IsCapitalized(s) {
      CapitalizationUnique(s, s);
    }
  }

  lemma CapitalizeIdempotent(s: string)
    ensures Capitalize(Capitalize(s)) == Capitalize(s)
  {
    CapitalizeFixpoint(Capitalize(s));
  }

  /** Capitalizes every tag, as the sidebar loop does before counting. */
  function CapitalizeAll(tags: seq<string>): (caps: seq<string>)
    ensures |caps| == |tags|
    ensures forall i :: 0 <= i < |tags| ==> caps[i] == Capitalize(tags[i])
  {
    Seqs.Map(Capitalize, tags)
  }

  /** Tags that are already capitalized come through the sidebar's capitalization unchanged. */
  lemma CapitalizeAllFixpoint(tags: seq<string>)
    requires forall i :: 0 <= i < |tags| ==> IsCapitalized(tags[i])
    ensures CapitalizeAll(tags) == tags
  {
    forall i | 0 <= i < |tags|
      ensures CapitalizeAll(tags)[i] == tags[i]
    {
      CapitalizeFixpoint(tags[i]);
    }
  }
}
