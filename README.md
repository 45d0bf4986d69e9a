# Opinion-article scraper: the decision logic, in Dafny

The script `main.py` opens the El País home page and checks that the page
language is Spanish. It then scrapes the first five articles of the opinion
section (title, first paragraph, cover image), saves the cover images, and
sends each title and content to a translation API. Last, it counts the words
of the translated titles and reports every word seen more than twice.

Almost all of this is calls into a browser driver and an HTTP client. This
project models the logic the script itself writes around those calls:

- `WordFrequency` (`word_frequency.dfy`): `analyze_words`, a pure pipeline.
  It joins the titles with spaces, lowercases the text and takes the maximal
  runs of word characters (`re.findall(r'\b\w+\b', …)`). It counts them
  (`Counter`) and keeps the counts above 2.
- `Translation` (`translation.dfy`): `translate_articles`, a loop that
  appends one title per article. It appends the translated title when the
  reply carries one and the original title otherwise.
- `Scraper` (`scraper.dfy`): the `for i in range(5)` loop of
  `scrape_opinion_section`. It fills each article's record field by field,
  with fallbacks. It saves `article_{i+1}.jpg` when the image download
  answers 200.
- `Navigation` (`navigation.dfy`): the language test of
  `verify_and_navigate`.
- `Pipeline` (`pipeline.dfy`): the `__main__` sequence chaining these.
- `WordFrequencyExamples` (`word_frequency_examples.dfy`): two analysis
  examples, `["Spain Votes", "spain, again"]` and `["A A A A"]`, proved
  from the general lemmas.
- `Ascii` and `Options` (`ascii.dfy`, `options.dfy`): character classes and
  an `Option` type.

The browser and the network are inputs. Each `article` element is an
`ArticleElement`: whether its `h2` and `p` lookups succeeded and what they
read, and whether an `img` was found. It also says whether the download of
that image raised or what status it answered. Each translation request is
answered by a `Reply`: the POST raised, or it answered with a status code and
a body. The body is either not JSON, not a JSON object, or an object whose
`trans` member is missing, is not an object, or is an object with or without
a `title`. Written image files are modelled by their numbers `n` in
`cover_images/article_n.jpg`.

Python's `\w` and `str.lower()` are restricted to ASCII (see "Left out").

An article whose heading lookup fails adds no record, so there are at most
5 records and exactly as many translated titles as records.

## Model

| member | source | states |
|---|---|---|
| `Ascii.Lower` | main.py:144 | Lowercasing leaves no upper-case letter, keeps a character a word character exactly when it was one, and changes only `A`..`Z`. |
| `Ascii.LowerString` | main.py:144 | Lowercasing a text keeps its length and which positions hold word characters, and leaves no upper-case letter. Each upper-case letter becomes its own lower-case letter (code point plus 32), and every other character stays as it was. |
| `Ascii.LowerStringAppend` | main.py:144 | Lowercasing a concatenation is the concatenation of the lowercased parts. |
| `WordFrequency.RunLength` | main.py:145 | The leading run of word characters is as long as possible: every character in it is a word character and the next one, if any, is not. |
| `WordFrequency.Tokens` | main.py:145 | Every token is a non-empty run of word characters, so no space or punctuation is ever part of a token. |
| `WordFrequency.TokensOfWord` | main.py:145 | A text that is a single run of word characters is one token, the whole text. |
| `WordFrequency.TokensOfGap` | main.py:145 | A text without word characters yields no token. |
| `WordFrequency.TokensSplit` | main.py:144-145 | Tokens never cross a non-word character: splitting the text at one splits the token list at the same place (with the two lemmas above, this pins tokens down as the maximal runs). |
| `WordFrequency.TokensKeepWordChars` | main.py:145 | Concatenated in order, the tokens are exactly the word characters of the text. |
| `WordFrequency.TokensOfLower` | main.py:144-145 | The tokens of the lowercased text are the lowercased tokens of the text. |
| `WordFrequency.TokensOfJoin` | main.py:144-145 | Because the joining space is not a word character, the tokens of `" ".join(titles)` are the tokens of each title in turn. |
| `WordFrequency.Join` | main.py:144 | `" ".join(titles)` is empty for no titles. Otherwise it is the first title followed by each further title, in order, each preceded by one space. Its length is the titles' total length plus one separator between each two neighbours. |
| `WordFrequency.LowerJoin` | main.py:144 | Lowercasing the joined text equals joining the lowercased titles. |
| `WordFrequency.Words` | main.py:144-145 | Every counted word is a run of word characters with no upper-case letter. |
| `WordFrequency.Occurrences` | main.py:146 | A word's count is at most the number of tokens, and it is zero exactly when the word is not among them. |
| `WordFrequency.OccurrencesAppend` | main.py:146 | Counts over two token lists add up. |
| `WordFrequency.OccurrencesIsMultiplicity` | main.py:146 | The count `Counter` keeps for a word (its multiplicity in the multiset of tokens) is its number of occurrences in the token list. |
| `WordFrequency.CountIsSumOverTitles` | main.py:144-146 | A word's count over the joined, lowercased text is the sum of its counts over each lowercased title taken separately. |
| `WordFrequency.RepeatedWords` | main.py:147 | A word is kept if and only if it occurs more than twice, and the kept count is its number of occurrences. |
| `WordFrequency.AnalyzeWords` | main.py:142-152 | The report is "no words repeated" exactly when no word occurs more than twice. Otherwise it is a non-empty map holding exactly the words that occur more than twice, each with its number of occurrences. |
| `WordFrequency.RepeatedIffSomeWord` | main.py:147-148 | The filtered map is non-empty if and only if some word occurs more than twice. |
| `WordFrequency.AnalyzeIgnoresCase` | main.py:144 | Titles that differ only in letter case get the same report. |
| `WordFrequencyExamples.TwiceNotReported` | main.py:144-152 | For `["Spain Votes", "spain, again"]`, "spain" is counted twice (across case and punctuation) and nothing is reported. |
| `WordFrequencyExamples.FourTimesReported` | main.py:144-152 | For `["A A A A"]`, the report is exactly `{"a": 4}`. |
| `WordFrequencyExamples.ReportOfUniform` | main.py:146-150 | When every counted word is the same word, seen more than twice, that word alone is reported, with the number of tokens as its count. |
| `Translation.TranslateArticles` | main.py:99-140 | One request per article, in order, asking for es→en with the article's title and content. The result has one title per article, in order. Entry k is the original title when the POST raised or the status is not 200. On status 200 it is `trans.title` when the JSON object carries one, and the original title otherwise (unparseable body, non-object body or `trans`, missing `trans` or `title`). |
| `Translation.CarriesTitle` | main.py:121-133 | A translated title is taken only from a reply with status 200. A body that is not JSON, or is JSON but not an object, never supplies one. |
| `Scraper.Assemble` | main.py:61-95 | An element without a readable heading gives no record. Otherwise the record has the heading as title, the paragraph text or "No content available" as content, and the image URL when an image was found and its download did not raise. When the download raised, the URL is None, even though it had already been stored. |
| `Scraper.SavesImage` | main.py:74-84 | An image is written only for an element that has an image, gives a record, and whose record keeps that image's URL. |
| `Scraper.SavedFiles` | main.py:80-84 | File number n is written exactly when the element at position n-1 has a heading and an image whose download answered 200. |
| `Scraper.ProcessArticle` | main.py:58-95 | The imperative loop body (fields filled one by one, image URL overwritten on failure) yields exactly `Assemble`'s record, and writes file i+1 exactly when the image is saved. |
| `Scraper.Collected` | main.py:55-97 | The records from the first `count` positions are at most `count` in number. |
| `Scraper.HeadingPositions` | main.py:57-64 | The positions that produce a record are strictly ascending and below `count`, and they are exactly the positions whose heading could be read. |
| `Scraper.CollectedInOrder` | main.py:57-97 | There is one record per position with a heading. Record k comes from the k-th such position, so the records keep the page order. |
| `Scraper.CollectedStep` | main.py:57-97 | The correspondence between records and heading positions survives visiting one more element. |
| `Scraper.ScrapeOpinionSection` | main.py:42-97 | With at least five elements, the loop visits exactly positions 0..4 and returns the records of those positions. With fewer, the run aborts. Either way, the files written are those of the positions visited. |
| `Scraper.PositionalFileNames` | main.py:80-84 | File names follow loop positions, not a success count: when only positions 0, 2 and 4 answer 200, the files are 1, 3 and 5. |
| `Navigation.Contains` | main.py:28 | `p in s` holds exactly when `p` occurs at some index of `s`. |
| `Navigation.CheckLanguage` | main.py:27-31 | When `get_attribute("lang")` returns None, the run crashes. Otherwise the run proceeds, and Spanish is confirmed exactly when the lowercased tag contains "es". |
| `Navigation.SpanishTagConfirmed` | main.py:28-31 | A tag starting with "es" in any letter case is confirmed as Spanish. |
| `Navigation.EnglishTagWarned` | main.py:28-29 | "en-US" draws the warning, and the run still proceeds. |
| `Pipeline.Run` | main.py:155-164 | The run completes exactly when `get_attribute("lang")` returns a string and at least five articles are found. It then has the records the scrape collects from positions 0..4, and one title per record, in order. Title k is the translation reply k carries, or record k's own title when the reply carries none. The report is the analysis of these titles. Whether the run completes or fails, it reports the image files written: none when the language test crashed (before the scrape), otherwise those of the positions visited. |

## Left out

- Browser setup, page loads, `WebDriverWait` polling, the consent-button click, and `driver.quit()` on every exit path are not modelled. They are library behaviour. A wait that times out before the loop is folded into the aborted outcome.
- The HTTP calls, the JSON parsing, the API key, the request headers and the URLs are not modelled. Replies and downloads are inputs describing their outcome.
- `os.makedirs` and the image bytes are not modelled. A written file is recorded only by its number.
- Console output is not modelled. That includes the order in which repeated words are printed (the order in which `Counter` first saw them). The report is a map.
- Unicode is not modelled. `\w` is taken as ASCII letters, digits and `_`, and `str.lower()` as the ASCII `A`..`Z` mapping. Python treats accented letters such as `ñ` as word characters, while this model treats them as separators.
- A `trans.title` that is present but is not a JSON string (for example `null`) is not modelled. Python would append it, and `" ".join` would then raise.
- The model assumes `print` and the image file write never raise. If the write raised, Python would set `image_url` to None. If a `print` raised after an append in `translate_articles`, Python would append a second title for the same article.
- Whether `get_attribute("lang")` can return None is browser-driver behaviour and not part of this model. The language test takes its result as an input, None or a string. The driver may return `""` for a page without a `lang` attribute, which takes the warning branch.
- An `img` without a `src` attribute is not a separate case: `requests.get(None)` raises, which is the same as a download that raised.
