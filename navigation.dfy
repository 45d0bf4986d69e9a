/**
 * The language test of `verify_and_navigate`: read the `lang` value of
 * the root element, lowercase it, and warn unless it contains "es". The
 * run goes on to the opinion page either way.
 */
module Navigation {
  import opened Options
  import opened Ascii

  predicate OccursAt(p: string, s: string, i: nat) {
    i + |p| <= |s| && s[i..i + |p|] == p
  }

  /** Python's `p in s` on strings: `p` is a substring of `s`. */
  function Contains(s: string, p: string): (r: bool)
    ensures r <==> exists i: nat :: OccursAt(p, s, i)
    decreases |s|
  {
    if |s| < |p| then false
    else if s[..|p|] == p then
      assert OccursAt(p, s, 0);
      true
    else
      var r := Contains(s[1..], p);
      ShiftOccurrence(p, s);
      r
  }

  /** `p` occurs in `s` past the front exactly when it occurs in `s[1..]`. */
  lemma ShiftOccurrence(p: string, s: string)
    requires |p| <= |s|
    requires s[..|p|] != p
    ensures (exists i: nat :: OccursAt(p, s, i)) <==> (exists i: nat :: OccursAt(p, s[1..], i))
  {
    forall i: nat | OccursAt(p, s, i)
      ensures OccursAt(p, s[1..], i - 1)
    {
      assert i != 0;
      assert s[1..][i - 1..i - 1 + |p|] == s[i..i + |p|];
    }
    forall i: nat | OccursAt(p, s[1..], i)
      ensures OccursAt(p, s, i + 1)
    {
      assert s[1..][i..i + |p|] == s[i + 1..i + 1 + |p|];
    }
  }

  /** The substring the test looks for. */
  const SpanishTag: string := "es"

  /** What the language test leads to. */
  datatype LanguageCheck =
    | Confirmed     // "Confirmed: Spanish language detected."
    | Warned        // "Warning: Language is ..."; the run still proceeds
    | Crashed       // `get_attribute("lang")` returned None: `None.lower()` raises outside every handler

  /**
   * The test at the top of `verify_and_navigate`, given what
   * `get_attribute("lang")` returned for the root element (None or a string).
   */
  function CheckLanguage(lang: Option<string>): (r: LanguageCheck)
    ensures r == Crashed <==> lang.None?
    ensures r == Confirmed <==> lang.Some? && exists i: nat :: OccursAt(SpanishTag, LowerString(lang.value), i)
  {
    match lang
    case None => Crashed
    case Some(tag) =>
      var found := Contains(LowerString(tag), SpanishTag);
      assert found ==> exists i: nat :: OccursAt(SpanishTag, LowerString(tag), i);
      if found then Confirmed else Warned
  }

  /** A tag that starts with "es" in any letter case is confirmed as Spanish. */
  lemma SpanishTagConfirmed(tag: string)
    requires |tag| >= 2 && LowerString(tag[..2]) == SpanishTag
    ensures CheckLanguage(Some(tag)) == Confirmed
  {
    assert LowerString(tag)[..2] == LowerString(tag[..2]);
    assert OccursAt(SpanishTag, LowerString(tag), 0);
  }

  /** "en-US" draws the warning, not a crash: the run proceeds. */
  lemma EnglishTagWarned()
    ensures CheckLanguage(Some("en-US")) == Warned
  {
    var l := LowerString("en-US");
    assert l == "en-us";
    forall i: nat ensures !OccursAt(SpanishTag, l, i) {
      if i + 2 <= |l| {
        assert l[i..i + 2] == [l[i], l[i + 1]];
      }
    }
  }
}
