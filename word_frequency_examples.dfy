/**
 * Two analysis examples, proved from the general lemmas:
 * "spain" seen twice in ["Spain Votes", "spain, again"] is not reported,
 * "a" seen four times in ["A A A A"] is.
 *
 * The titles are parameters fixed by a `requires` rather than literals in
 * the lemma's statement, which keeps the verifier from unfolding the
 * recursive definitions on literal text without bound.
 */
module WordFrequencyExamples {
  import opened Ascii
  import opened WordFrequency

  /** A word followed by a separator contributes itself as the first token. */
  lemma TokensOfLeadingWord(w: string, sep: char, rest: string)
    requires IsWord(w) && !IsWordChar(sep)
    ensures Tokens(w + [sep] + rest) == [w] + Tokens(rest)
  {
    TokensOfWord(w);
    TokensSplit(w, sep, rest);
  }

  lemma LowercaseTitles()
    ensures LowerString("Spain Votes") == "spain votes"
    ensures LowerString("spain, again") == "spain, again"
    ensures LowerString("A A A A") == "a a a a"
  {
  }

  lemma ExampleWords()
    ensures IsWord("spain") && IsWord("votes") && IsWord("again") && IsWord("a")
  {
  }

  lemma TokensOfSpainVotes()
    ensures Tokens(LowerString("Spain Votes")) == ["spain", "votes"]
  {
    LowercaseTitles();
    ExampleWords();
    // The text is cut at its separator so that the splitting lemmas apply.
    assert "spain votes" == "spain" + [' '] + "votes";
    TokensOfWord("votes");
    TokensOfLeadingWord("spain", ' ', "votes");
  }

  lemma TokensOfSpainAgain()
    ensures Tokens(LowerString("spain, again")) == ["spain", "again"]
  {
    LowercaseTitles();
    ExampleWords();
    // The text is cut at its separators so that the splitting lemmas apply;
    // the space before "again" has nothing in front of it.
    assert "spain, again" == "spain" + [','] + " again";
    assert " again" == [] + [' '] + "again";
    TokensOfWord("again");
    TokensSplit([], ' ', "again");
    TokensOfLeadingWord("spain", ',', " again");
  }

  lemma CountsOfTwoTitles(first: string, second: string, w: string)
    ensures Occurrences(Words([first, second]), w)
            == Occurrences(Tokens(LowerString(first)), w) + Occurrences(Tokens(LowerString(second)), w)
  {
    CountIsSumOverTitles([first, second], w);
    assert [first, second][1..] == [second];
    assert [second][1..] == [];
    assert OccurrencesPerTitle([second], w) == Occurrences(Tokens(LowerString(second)), w) + OccurrencesPerTitle([], w);
  }

  lemma PairCount(a: string, b: string, w: string)
    ensures Occurrences([a, b], w) == (if a == w then 1 else 0) + (if b == w then 1 else 0)
  {
    assert [a, b][1..] == [b];
    assert [b][1..] == [];
  }

  /** A count of exactly two is not reported. */
  lemma TwiceNotReported(titles: seq<string>)
    requires titles == ["Spain Votes", "spain, again"]
    ensures Occurrences(Words(titles), "spain") == 2
    ensures AnalyzeWords(titles) == NoneRepeated
  {
    TokensOfSpainVotes();
    TokensOfSpainAgain();
    forall w ensures Occurrences(Words(titles), w) <= 2 {
      CountsOfTwoTitles(titles[0], titles[1], w);
      PairCount("spain", "votes", w);
      PairCount("spain", "again", w);
    }
    CountsOfTwoTitles(titles[0], titles[1], "spain");
    PairCount("spain", "votes", "spain");
    PairCount("spain", "again", "spain");
  }

  lemma {:induction false} OccurrencesOfUniform(words: seq<string>, w: string)
    requires forall k :: 0 <= k < |words| ==> words[k] == w
    ensures Occurrences(words, w) == |words|
    decreases |words|
  {
    if words != [] {
      OccurrencesOfUniform(words[1..], w);
    }
  }

  /** When every counted word is the same word `w`, seen more than twice, `w` alone is reported. */
  lemma ReportOfUniform(titles: seq<string>, w: string)
    requires |Words(titles)| > 2
    requires forall k :: 0 <= k < |Words(titles)| ==> Words(titles)[k] == w
    ensures AnalyzeWords(titles) == Repeated(map[w := |Words(titles)|])
  {
    var words := Words(titles);
    OccurrencesOfUniform(words, w);
    var r := AnalyzeWords(titles);
    forall v | v in r.counts ensures v == w {
      assert v in words;
    }
    assert r.counts == map[w := |words|];
  }

  /** Four copies of a word with single spaces between them make four tokens. */
  lemma TokensOfFourCopies(w: string)
    requires IsWord(w)
    ensures Tokens(w + [' '] + (w + [' '] + (w + [' '] + w))) == [w, w, w, w]
  {
    TokensOfWord(w);
    TokensOfLeadingWord(w, ' ', w);
    TokensOfLeadingWord(w, ' ', w + [' '] + w);
    TokensOfLeadingWord(w, ' ', w + [' '] + (w + [' '] + w));
  }

  /** A count of four is reported, under the lowercased word. */
  lemma FourTimesReported(titles: seq<string>)
    requires titles == ["A A A A"]
    ensures AnalyzeWords(titles) == Repeated(map["a" := 4])
  {
    assert Words(titles) == Tokens(LowerString(titles[0]));
    LowercaseTitles();
    ExampleWords();
    assert "a a a a" == "a" + [' '] + ("a" + [' '] + ("a" + [' '] + "a"));
    TokensOfFourCopies("a");
    ReportOfUniform(titles, "a");
  }
}
