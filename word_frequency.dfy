/**
 * Word-frequency analysis of the translated titles (`analyze_words`):
 * join the titles with single spaces, lowercase the text, split it into
 * maximal runs of word characters, count each distinct token and keep the
 * tokens seen more than twice.
 */
module WordFrequency {
  import opened Ascii

  /** A token: a non-empty run of word characters. */
  predicate IsWord(t: string) {
    |t| > 0 && forall i :: 0 <= i < |t| ==> IsWordChar(t[i])
  }

  /** Length of the run of word characters at the front of `s`. */
  function RunLength(s: string): (n: nat)
    ensures n <= |s|
    ensures forall i :: 0 <= i < n ==> IsWordChar(s[i])
    ensures n < |s| ==> !IsWordChar(s[n])
  {
    if s == [] || !IsWordChar(s[0]) then 0 else 1 + RunLength(s[1..])
  }

  /**
   * `re.findall(r'\b\w+\b', s)`: scanning left to right, skip non-word
   * characters and take each maximal run of word characters as a token.
   */
  function Tokens(s: string): (ts: seq<string>)
    ensures forall k :: 0 <= k < |ts| ==> IsWord(ts[k])
    decreases |s|
  {
    if s == [] then []
    else if !IsWordChar(s[0]) then Tokens(s[1..])
    else
      var n := RunLength(s);
      [s[..n]] + Tokens(s[n..])
  }

  /** The word characters of `s`, in order. */
  function WordChars(s: string): string {
    if s == [] then []
    else if IsWordChar(s[0]) then [s[0]] + WordChars(s[1..])
    else WordChars(s[1..])
  }

  function Concat(ts: seq<string>): string {
    if ts == [] then [] else ts[0] + Concat(ts[1..])
  }

  /** A single run of word characters is one token, itself. */
  lemma TokensOfWord(w: string)
    requires IsWord(w)
    ensures Tokens(w) == [w]
  {
    RunLengthOfWord(w);
    assert w[..|w|] == w;
    assert w[|w|..] == [];
  }

  lemma {:induction false} RunLengthOfWord(w: string)
    requires forall i :: 0 <= i < |w| ==> IsWordChar(w[i])
    ensures RunLength(w) == |w|
    decreases |w|
  {
    if w != [] {
      RunLengthOfWord(w[1..]);
    }
  }

  /** Text without word characters has no tokens. */
  lemma {:induction false} TokensOfGap(s: string)
    requires forall i :: 0 <= i < |s| ==> !IsWordChar(s[i])
    ensures Tokens(s) == []
    decreases |s|
  {
    if s != [] {
      TokensOfGap(s[1..]);
    }
  }

  /** A run of word characters stops at the first non-word character. */
  lemma {:induction false} RunLengthStops(a: string, b: string)
    requires b != [] && !IsWordChar(b[0])
    ensures RunLength(a + b) == RunLength(a)
    decreases |a|
  {
    if a == [] {
      assert a + b == b;
    } else {
      assert (a + b)[0] == a[0];
      assert (a + b)[1..] == a[1..] + b;
      RunLengthStops(a[1..], b);
    }
  }

  /**
   * Tokens never straddle a non-word character: splitting the text at one
   * splits its token list at the same place.
   */
  lemma {:induction false} TokensSplit(a: string, c: char, b: string)
    requires !IsWordChar(c)
    ensures Tokens(a + [c] + b) == Tokens(a) + Tokens(b)
    decreases |a|
  {
    var s := a + [c] + b;
    if a == [] {
      assert s[1..] == b;
    } else if !IsWordChar(a[0]) {
      assert s[1..] == a[1..] + [c] + b;
      TokensSplit(a[1..], c, b);
    } else {
      RunLengthStops(a, [c] + b);
      assert s == a + ([c] + b);
      var n := RunLength(a);
      assert s[..n] == a[..n];
      assert s[n..] == a[n..] + [c] + b;
      TokensSplit(a[n..], c, b);
    }
  }

  /** The tokens hold exactly the word characters of the text, in order. */
  lemma {:induction false} TokensKeepWordChars(s: string)
    ensures Concat(Tokens(s)) == WordChars(s)
    decreases |s|
  {
    if s == [] {
    } else if !IsWordChar(s[0]) {
      TokensKeepWordChars(s[1..]);
    } else {
      var n := RunLength(s);
      TokensKeepWordChars(s[n..]);
      assert Concat(Tokens(s)) == s[..n] + WordChars(s[n..]);
      WordCharsOfRun(s, n);
    }
  }

  lemma {:induction false} WordCharsOfRun(s: string, n: nat)
    requires n <= |s|
    requires forall i :: 0 <= i < n ==> IsWordChar(s[i])
    ensures WordChars(s) == s[..n] + WordChars(s[n..])
    decreases n
  {
    if n > 0 {
      WordCharsOfRun(s[1..], n - 1);
      assert s[1..][..n - 1] == s[1..n];
      assert s[1..][n - 1..] == s[n..];
      assert s[..n] == [s[0]] + s[1..n];
    }
  }

  function LowerAll(ts: seq<string>): (r: seq<string>)
    ensures |r| == |ts|
    ensures forall k :: 0 <= k < |ts| ==> r[k] == LowerString(ts[k])
  {
    if ts == [] then [] else [LowerString(ts[0])] + LowerAll(ts[1..])
  }

  lemma {:induction false} RunLengthOfLower(s: string)
    ensures RunLength(LowerString(s)) == RunLength(s)
    decreases |s|
  {
    if s != [] {
      assert LowerString(s)[1..] == LowerString(s[1..]);
      RunLengthOfLower(s[1..]);
    }
  }

  /**
   * Tokenisation commutes with lowercasing: the tokens of the lowercased
   * text are the lowercased tokens of the text.
   */
  lemma {:induction false} TokensOfLower(s: string)
    ensures Tokens(LowerString(s)) == LowerAll(Tokens(s))
    decreases |s|
  {
    var l := LowerString(s);
    if s == [] {
    } else if !IsWordChar(s[0]) {
      assert l[1..] == LowerString(s[1..]);
      TokensOfLower(s[1..]);
    } else {
      var n := RunLength(s);
      RunLengthOfLower(s);
      assert l[..n] == LowerString(s[..n]);
      assert l[n..] == LowerString(s[n..]);
      TokensOfLower(s[n..]);
    }
  }

  /** Total number of characters in `titles`. */
  function TotalLength(titles: seq<string>): nat {
    if titles == [] then 0 else |titles[0]| + TotalLength(titles[1..])
  }

  /**
   * `" ".join(titles)`: the first title comes first, and exactly one
   * separator character is added between each two neighbouring titles.
   */
  function Join(titles: seq<string>): (r: string)
    ensures titles == [] ==> r == []
    ensures |titles| > 0 ==> r == titles[0] + Concat(Spaced(titles[1..]))
    ensures |titles| > 0 ==> |r| == TotalLength(titles) + |titles| - 1
  {
    if |titles| == 0 then []
    else if |titles| == 1 then titles[0]
    else
      var rest := Spaced(titles[2..]);
      assert Spaced(titles[1..]) == [" " + titles[1]] + rest;
      assert Spaced(titles[1..])[0] == " " + titles[1] && Spaced(titles[1..])[1..] == rest;
      assert titles[1..][1..] == titles[2..];
      titles[0] + " " + Join(titles[1..])
  }

  /** Each title preceded by the separator. */
  function Spaced(titles: seq<string>): (r: seq<string>)
    ensures |r| == |titles|
    ensures forall k :: 0 <= k < |titles| ==> r[k] == " " + titles[k]
  {
    seq(|titles|, k requires 0 <= k < |titles| => " " + titles[k])
  }

  /** The tokens of each title, one title after the other. */
  function TitleTokens(titles: seq<string>): seq<string> {
    if titles == [] then [] else Tokens(titles[0]) + TitleTokens(titles[1..])
  }

  /**
   * Titles are joined with a space, which is not a word character, so the
   * tokens of the joined text are the tokens of the titles in turn.
   */
  lemma {:induction false} TokensOfJoin(titles: seq<string>)
    ensures Tokens(Join(titles)) == TitleTokens(titles)
    decreases |titles|
  {
    if |titles| == 1 {
      assert TitleTokens(titles[1..]) == [];
    } else if |titles| > 1 {
      TokensOfJoin(titles[1..]);
      assert Join(titles) == titles[0] + [' '] + Join(titles[1..]);
      TokensSplit(titles[0], ' ', Join(titles[1..]));
    }
  }

  /** Lowercasing the joined text is joining the lowercased titles. */
  lemma {:induction false} LowerJoin(titles: seq<string>)
    ensures LowerString(Join(titles)) == Join(LowerAll(titles))
    decreases |titles|
  {
    if |titles| > 1 {
      LowerJoin(titles[1..]);
      LowerStringAppend(titles[0] + " ", Join(titles[1..]));
      LowerStringAppend(titles[0], " ");
      assert LowerAll(titles)[1..] == LowerAll(titles[1..]);
    }
  }

  /**
   * The token list the analysis counts: `re.findall` over the lowercased
   * join. Every counted word is a run of word characters with no
   * upper-case letter.
   */
  function Words(titles: seq<string>): (words: seq<string>)
    ensures forall k :: 0 <= k < |words| ==> IsWord(words[k])
    ensures forall k, i :: 0 <= k < |words| && 0 <= i < |words[k]| ==> !IsUpper(words[k][i])
  {
    TokensOfLower(Join(titles));
    Tokens(LowerString(Join(titles)))
  }

  /** Number of times `w` occurs in `words` (what `Counter` records for `w`). */
  function Occurrences(words: seq<string>, w: string): (n: nat)
    ensures n <= |words|
    ensures n == 0 <==> w !in words
  {
    if words == [] then 0
    else (if words[0] == w then 1 else 0) + Occurrences(words[1..], w)
  }

  lemma {:induction false} OccurrencesAppend(a: seq<string>, b: seq<string>, w: string)
    ensures Occurrences(a + b, w) == Occurrences(a, w) + Occurrences(b, w)
    decreases |a|
  {
    if a == [] {
      assert a + b == b;
    } else {
      assert (a + b)[0] == a[0];
      assert (a + b)[1..] == a[1..] + b;
      OccurrencesAppend(a[1..], b, w);
    }
  }

  /** The multiplicity `Counter` (a multiset) gives a word is its number of occurrences. */
  lemma {:induction false} OccurrencesIsMultiplicity(words: seq<string>, w: string)
    ensures Occurrences(words, w) == multiset(words)[w]
    decreases |words|
  {
    if words != [] {
      assert words == [words[0]] + words[1..];
      OccurrencesIsMultiplicity(words[1..], w);
    }
  }

  /** Sum over the titles of the occurrences of `w` among each title's own tokens. */
  function OccurrencesPerTitle(titles: seq<string>, w: string): nat {
    if titles == [] then 0
    else Occurrences(Tokens(LowerString(titles[0])), w) + OccurrencesPerTitle(titles[1..], w)
  }

  lemma {:induction false} OccurrencesOfTitleTokens(titles: seq<string>, w: string)
    ensures Occurrences(TitleTokens(LowerAll(titles)), w) == OccurrencesPerTitle(titles, w)
    decreases |titles|
  {
    if titles != [] {
      assert LowerAll(titles)[1..] == LowerAll(titles[1..]);
      OccurrencesAppend(Tokens(LowerString(titles[0])), TitleTokens(LowerAll(titles[1..])), w);
      OccurrencesOfTitleTokens(titles[1..], w);
    }
  }

  /**
   * The count of a word over the joined text is the sum of its counts over
   * each title taken on its own.
   */
  lemma CountIsSumOverTitles(titles: seq<string>, w: string)
    ensures Occurrences(Words(titles), w) == OccurrencesPerTitle(titles, w)
  {
    LowerJoin(titles);
    TokensOfJoin(LowerAll(titles));
    OccurrencesOfTitleTokens(titles, w);
  }

  /**
   * `{word: count for word, count in Counter(words).items() if count > 2}`.
   */
  function RepeatedWords(words: seq<string>): (m: map<string, nat>)
    ensures forall w :: w in m <==> Occurrences(words, w) > 2
    ensures forall w :: w in m ==> m[w] == Occurrences(words, w)
  {
    var counts := multiset(words);
    forall w ensures Occurrences(words, w) == counts[w] {
      OccurrencesIsMultiplicity(words, w);
    }
    map w | w in counts && counts[w] > 2 :: counts[w]
  }

  /** What the analysis reports: the repeated words, or that there are none. */
  datatype Report = Repeated(counts: map<string, nat>) | NoneRepeated

  /** `analyze_words`, with the report as a value instead of printed lines. */
  function AnalyzeWords(titles: seq<string>): (r: Report)
    ensures r.NoneRepeated? <==> forall w :: Occurrences(Words(titles), w) <= 2
    ensures r.Repeated? ==> r.counts != map[]
    ensures r.Repeated? ==> forall w :: w in r.counts <==> Occurrences(Words(titles), w) > 2
    ensures r.Repeated? ==> forall w :: w in r.counts ==> r.counts[w] == Occurrences(Words(titles), w)
  {
    var repeated := RepeatedWords(Words(titles));
    RepeatedIffSomeWord(Words(titles));
    if repeated != map[] then Repeated(repeated) else NoneRepeated
  }

  lemma RepeatedIffSomeWord(words: seq<string>)
    ensures RepeatedWords(words) != map[] <==> exists w :: Occurrences(words, w) > 2
  {
    var m := RepeatedWords(words);
    if m != map[] {
      assert |m.Keys| == |m| > 0;
      var w :| w in m.Keys;
      assert Occurrences(words, w) > 2;
    }
  }

  /** The analysis does not depend on letter case. */
  lemma AnalyzeIgnoresCase(titles: seq<string>, other: seq<string>)
    requires LowerAll(titles) == LowerAll(other)
    ensures AnalyzeWords(titles) == AnalyzeWords(other)
  {
    LowerJoin(titles);
    LowerJoin(other);
  }
}
