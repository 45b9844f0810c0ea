# Text utilities and settings of PythonToExe, modelled in Dafny

PythonToExe is a desktop writing assistant. Around its GUI and its calls to a language
model sit two small pieces of plain logic, and this project models them and proves what
they do:

- **The text processors of `src/utils.py`:**
  - `DocumentFormatter.format_text_for_docx` cuts Markdown-like text into sections. Each
    section has a level, a title and its content lines.
  - `DocumentFormatter.extract_keywords` ranks the Chinese words of a text by frequency.
  - `TextProcessor.extract_sections` files the text under its `#` headers, in a name → body
    dict. Text before the first header goes under "引言".
  - `TextProcessor.add_page_numbers` puts a page marker before every fortieth line.
  - `TextProcessor.estimate_word_count` counts CJK characters plus English words.
- **The settings of `src/config.py`:**
  - `load_config` fills the missing default keys into the stored settings, and falls back
    to the defaults when anything goes wrong.
  - `get_api_key` reads the API key, with an environment fallback.
  - `update_config` changes one setting.

Modules:

- `Text`: Python's `str.isspace`, `str.strip()`, `str.split('\n')` and `'\n'.join`.
  `split` and `join` are proved to be inverse to each other.
- `WordScan`: the two `re.findall` patterns `\b[a-zA-Z]+\b` and `\b[一-鿿]{2,5}\b`.
  - They are modelled as the regex engine runs them: `\b`, greedy repetition with
    backtracking, and resuming after each match.
  - They are proved equal to "the maximal runs of word characters that the pattern keeps".
  - The class `\w` that `\b` refers to is a parameter `isWord`. The only requirement on it
    (`Text.CoversWord`) is that it holds for the ASCII letters and digits, `_` and the
    CJK block, as Python's Unicode `\w` does. So every result holds for Python's own `\w`,
    including full-width digits, kana and accented letters.
- `Outline`: the section shape shared by `format_text_for_docx` and `extract_sections`.
  - A list of sections renders to a stream of heading and line tokens.
  - That rendering is proved injective, so "the sections render to the text's stream"
    determines the sections.
- `Ranking`:
  - the insertion order of a counting dict;
  - Python's stable `sorted(..., reverse=True)` by count;
  - the slice `[:n]`, negative `n` included.
- `DocumentFormatter`, `TextProcessor`: the five operations. Each loop is a `method` whose
  invariant ties the loop state to a specification function of the lines read so far.
- `Config`: the settings, with the file and the environment as parameters.
  - The file is given as what reading and parsing it produced: no file, an unreadable
    file, or a JSON document.
  - The environment is given as the value of `DEEPSEEK_API_KEY`, if any.

Behaviour of the code as written that the model keeps:

- **Page markers.** `add_page_numbers` puts the marker of page 2 before line 40, so the
  first page holds 39 lines and later pages 40. `PaginatePositions` states exactly where
  each line and marker goes.
- **Non-dict settings files.** `load_config` only merges into a dict. A JSON list that
  holds every default key as an element is returned as it is, and so is a JSON string
  that holds every default key as a substring. Any other non-dict document falls back to
  the defaults, because the `in` test or the item assignment raises. `get_api_key` then
  fails on such a list or string, since it has no `.get`, and the model returns `None`
  there.
- **Non-string API keys.** `get_api_key` returns any truthy stored value, not only a
  string.

## Model

| member | source | states |
|---|---|---|
| Text.Strip | src/utils.py:41 | the stripped line starts and ends with non-whitespace, and is empty exactly when the line is all whitespace |
| Text.StripParts | src/utils.py:41 | the line is leading whitespace, then the stripped text, then trailing whitespace |
| Text.StripTail | src/utils.py:41 | the stripped text is the slice of the line that starts after its leading whitespace, and only whitespace follows it |
| Text.StripEmpty | src/utils.py:42-43 | stripping leaves nothing exactly when every character is whitespace |
| Text.SplitLines | src/utils.py:170 | `str.split('\n')` gives at least one piece, and no piece holds a newline |
| Text.JoinLines | src/utils.py:202 | `'\n'.join` starts with the first piece, and joining two pieces or more puts a newline in |
| Text.JoinSplit | src/utils.py:193-202 | joining the pieces of `split('\n')` with newlines gives the text back |
| Text.SplitJoin | src/utils.py:193-202 | splitting a join of newline-free pieces gives the pieces back |
| WordScan.MatchAt | src/utils.py:66 | a match at p lies between two `\b` positions, consists of the pattern's class and has a length within its bounds |
| WordScan.FindAll | src/utils.py:66 | every string `re.findall` reports consists of the pattern's class and has a length within its bounds |
| WordScan.MatchAtRunStart | src/utils.py:66 | at the start of a maximal word run, the pattern matches exactly when it keeps the whole run, and then the match is the whole run |
| WordScan.FindAllKeepsRuns | src/utils.py:66 | `re.findall` of `\b C{lo,hi} \b` returns exactly the maximal word runs that consist of C and have a length within the bounds, in order |
| WordScan.WordRunsAppend | src/utils.py:158-159 | two texts that do not meet inside a word have the word runs of each, in order |
| WordScan.CountCjk | src/utils.py:158 | the number of `[一-鿿]` matches is at most the length of the text |
| WordScan.CountCjkAppend | src/utils.py:158 | the number of CJK characters of two texts put together is the sum of their numbers |
| DocumentFormatter.HeadingMatch | src/utils.py:46 | a heading match has level 1 to 6, equal to the number of leading '#', and a non-empty title |
| DocumentFormatter.HeadingMatchParts | src/utils.py:46-52 | a matched line is the '#' run, then a non-empty whitespace gap, then the title |
| DocumentFormatter.HeadingMatchIff | src/utils.py:46 | a stripped line is a heading exactly when 1 to 6 '#' are followed by whitespace, so a lone '#' or seven '#' is not one |
| DocumentFormatter.LineToken | src/utils.py:41-55 | a line gives no token when it is blank after strip, a heading token when its stripped text matches the heading pattern, and otherwise its stripped text as a content line |
| DocumentFormatter.AddLine | src/utils.py:40-55 | one line of the loop keeps the loop state consistent with the heading and line tokens read so far |
| DocumentFormatter.DocxStep | src/utils.py:40-55 | the i-th pass of the loop extends the consistent state from the first i lines to the first i + 1 |
| DocumentFormatter.DocxLines | src/utils.py:35-55 | after the loop, the finished sections and the open one render to the token stream from its first heading on |
| DocumentFormatter.FinalSection | src/utils.py:57-58 | appending the open section when it has a title completes the rendering, and every section is well formed |
| DocumentFormatter.FormatTextForDocx | src/utils.py:33-60 | the sections render to the text's token stream from its first heading on; each has a level of 1 to 6, a non-empty title, and only stripped, non-blank, non-heading content lines |
| DocumentFormatter.SectionsWellFormed | src/utils.py:41-55 | sections rendering to the stream have real headings and clean content lines; blank lines appear nowhere |
| DocumentFormatter.FormatTextForDocxUnique | src/utils.py:46-58 | the result is the one section list that regroups the stream: each section's content is exactly the lines between its heading and the next |
| DocumentFormatter.SectionTitlesInOrder | src/utils.py:47-53 | the section headings are the heading lines of the text, one per heading line, in order; lines before the first heading are dropped |
| DocumentFormatter.KeywordTokens | src/utils.py:66 | the keyword tokens are the maximal word runs made of 2 to 5 CJK characters |
| DocumentFormatter.GluedRunIsNoKeyword | src/utils.py:66 | "中文" followed by a character of `\w` outside the CJK block, such as a full-width digit, yields no keyword, since no `\b` follows the CJK characters |
| DocumentFormatter.LongWordsAll | src/utils.py:69-70 | the length test of the loop drops none of the keyword tokens |
| DocumentFormatter.CountWord | src/utils.py:69-71 | one pass counts the word when it has two characters or more, and lists it if it is new |
| DocumentFormatter.CountWords | src/utils.py:67-71 | the dict counts every word of two characters or more, and its keys are those words in order of first occurrence |
| DocumentFormatter.ExtractKeywords | src/utils.py:63-76 | the result holds as many words as the slice `[:num_keywords]` keeps, with no duplicates. They are ranked by frequency, ties by first occurrence, and each is ahead of every word left out |
| Ranking.Distinct | src/utils.py:69-71 | the dict's keys are the words, each once |
| Ranking.DistinctInFirstOccurrenceOrder | src/utils.py:69-71 | the dict's keys are in order of first occurrence |
| Ranking.InsertRanked | src/utils.py:74 | inserting a word that first occurs after every ranked word keeps the list ranked |
| Ranking.SortByCount | src/utils.py:74 | the sort is a permutation of the keys |
| Ranking.SortRanks | src/utils.py:74 | the stable descending sort by count ranks the keys by count, ties by first occurrence |
| Ranking.SliceTo | src/utils.py:76 | Python's `s[:n]` is a leading part of s: all of s once n reaches its length, the first n items for 0 <= n <= len(s), all but the last -n items for a negative n, and nothing once -n reaches the length |
| Ranking.TopOfRanking | src/utils.py:76 | a leading part of the ranking is ranked and ahead of every word it leaves out |
| Ranking.TopKeywords | src/utils.py:74-76 | sorting the counted keys and slicing gives a ranked list of the slice's length, ahead of every word left out |
| Ranking.RankedNoDuplicates | src/utils.py:74-76 | a ranked list lists no word twice |
| TextProcessor.EstimateWordCount | src/utils.py:155-161 | the count is the number of CJK characters plus the number of maximal word runs made only of ASCII letters |
| TextProcessor.WordCountAppend | src/utils.py:158-161 | two texts that do not meet inside a word are counted separately |
| TextProcessor.WordCountIgnoresNonWord | src/utils.py:158-161 | appending characters that are neither word characters nor CJK leaves the count unchanged |
| TextProcessor.HeaderTitle | src/utils.py:174-179 | after the leading '#' run, the line is whitespace, then the title, then whitespace; the title starts and ends with non-whitespace, and is empty exactly when only whitespace follows the '#' run |
| TextProcessor.IsHeader | src/utils.py:174-175 | a line is a header when the pattern `^#+` matches, so it starts with '#', and its title has fewer than 50 characters |
| TextProcessor.SectionToken | src/utils.py:174-183 | a header gives a header token with its title; another line gives a content token when it is not blank, and nothing otherwise |
| TextProcessor.Record | src/utils.py:176-177 | filing a part stores its lines, joined and stripped, under its name, provided it has a name and lines |
| TextProcessor.Emit | src/utils.py:176-186 | the parts are filed in order, so a later part overwrites an earlier one of the same name |
| TextProcessor.Sections | src/utils.py:164-188 | what `extract_sections` returns: the text's parts filed in order |
| TextProcessor.Parts | src/utils.py:167-170 | the first part of every text is named "引言" |
| TextProcessor.TakeLine | src/utils.py:172-183 | a header files the current part (when it has a name and lines) and opens a new one; another non-blank line joins the current part unstripped; a blank line changes nothing. In each case the state matches the stream with that line's token added |
| TextProcessor.WalkStep | src/utils.py:172-183 | the i-th pass of the loop carries that state from the stream of the first i lines to the stream of the first i + 1 |
| TextProcessor.WalkLines | src/utils.py:166-183 | after the loop, the current part is the last part the text's header and line stream groups into, and the dict holds what the parts before it filed |
| TextProcessor.LastPart | src/utils.py:185-186 | filing the last part completes the dict of the whole text |
| TextProcessor.ExtractSections | src/utils.py:164-188 | the result is the dict the text's parts fill in order |
| TextProcessor.EmitKeys | src/utils.py:176-177 | a name is a key exactly when a part of that name has a non-empty name and at least one line |
| TextProcessor.EmitLastWins | src/utils.py:176-177 | a repeated name holds the body of its last filed part |
| TextProcessor.EmitValuesNonEmpty | src/utils.py:185-186 | parts made of non-blank lines never file an empty body |
| TextProcessor.SectionsShape | src/utils.py:174-186 | every key is a non-empty name shorter than 50 characters and every value is non-empty, so a bare '#' header's body is never filed |
| TextProcessor.SectionKeys | src/utils.py:176-186 | a name is a key of the result exactly when some filed part of the text has that name |
| TextProcessor.Decimal | src/utils.py:198-199 | `str(page_num)` is a non-empty string of decimal digits with no leading zero, and "0" for zero |
| TextProcessor.DecimalCanonical | src/utils.py:198-199 | every digit string without a leading zero that reads as n is the string Decimal gives for n |
| TextProcessor.DecimalRoundTrip | src/utils.py:198-199 | the decimal digits of the page number read back as the number |
| TextProcessor.Marker | src/utils.py:199 | the marker of a page is the page number's digits, with a newline at each end |
| TextProcessor.MarkerPage | src/utils.py:198-199 | the page number can be read back from its marker |
| TextProcessor.Paginate | src/utils.py:196-200 | the lines with the marker of page i // 40 + 1 put before every line whose 1-based number i is a multiple of 40 |
| TextProcessor.PageStep | src/utils.py:197-200 | one pass appends the marker of page i // 40 + 1 when i % 40 == 0, then the line |
| TextProcessor.PaginateLines | src/utils.py:193-200 | the loop produces the paginated list of the lines |
| TextProcessor.AddPageNumbers | src/utils.py:191-202 | the result is the paginated lines joined with newlines, and a text of fewer than 40 lines comes back unchanged |
| TextProcessor.FewLinesUnmarked | src/utils.py:197 | fewer than 40 lines get no marker |
| TextProcessor.PaginateLength | src/utils.py:196-200 | the result has one element per line plus one marker per full 40 lines |
| TextProcessor.PaginatePositions | src/utils.py:196-200 | line i (0-based) sits at i + (i + 1) // 40, right after the marker of page (i + 1) // 40 + 1 when i + 1 is a multiple of 40 |
| TextProcessor.UnmarkPaginate | src/utils.py:196-200 | removing the markers gives back the lines in order |
| TextProcessor.CountMarkers | src/utils.py:196-200 | there are n // 40 markers for n lines |
| TextProcessor.PageNumbersKeepLines | src/utils.py:193-202 | every line of the text is kept, in order, between the n // 40 markers |
| Config.Defaults | src/config.py:11-22 | the defaults hold an empty api_key |
| Config.Contains | src/config.py:37 | Python's `in` works on a dict, a list or a string and raises on anything else. On a dict it is key membership, on a list it is element equality with the key string, and on a string it is a substring occurrence at some position |
| Config.OccursAt | src/config.py:37 | the substring test holds exactly when the key is the slice of the text at some position |
| Config.Merged | src/config.py:36-38 | the merge gives a dict every default key it lacks. A list or string survives only if it holds every default key, and otherwise the loop raises |
| Config.LoadedConfig | src/config.py:24-43 | `load_config`: the merged document, or a copy of the defaults when there is no file or anything fails |
| Config.MergeDefaults | src/config.py:36-38 | the merge loop gives a dict every default key it lacks and keeps its own values. A list or string survives only if it already holds every default key, and otherwise the loop raises |
| Config.LoadConfig | src/config.py:24-43 | loading gives the merged document, or the defaults when there is no file or reading, parsing or merging fails |
| Config.DefaultsPresent | src/config.py:36-38 | after loading a dict, every default key is present, and the ones it lacked hold the default value |
| Config.StoredWins | src/config.py:36-39 | stored values win, and the keys are the stored ones plus the defaults, so none is removed |
| Config.FallbackToDefaults | src/config.py:31-43 | no file, an unreadable file or a failed merge gives exactly the defaults |
| Config.ScalarFallsBack | src/config.py:36-43 | a document that is not a dict, list or string gives the defaults |
| Config.NonDictKept | src/config.py:36-39 | a list or string is returned unchanged exactly when it holds every default key |
| Config.ReloadIdempotent | src/config.py:36-39 | loading settings that were loaded before changes nothing |
| Config.Truthy | src/config.py:72 | `not api_key`: null, false, zero, and the empty string, list and dict are falsy |
| Config.GetApiKey | src/config.py:61-75 | reading the key succeeds exactly when the loaded settings are a dict |
| Config.ConfiguredKeyWins | src/config.py:68-75 | a truthy configured key is returned as stored, whatever its type and whatever the environment holds |
| Config.EmptyKeyFallsBack | src/config.py:69-73 | an empty or missing configured key gives the environment's value, or "" |
| Config.EnvironmentFallback | src/config.py:68-75 | without usable settings the key is the environment's value, or "" |
| Config.UpdateConfig | src/config.py:77-87 | the written settings map the key to the value, and every other key to its loaded value, with no key added or removed besides that key |
| Config.UpdatePersists | src/config.py:85-87 | the written settings reload unchanged, with the new value in place |

## Left out

- `main.py`, `src/api_client.py`, `src/document_generator.py`, `build_simple.py`,
  `setup.py` and `src/__init__.py` are not part of this model. They are GUI, network,
  prompt templates and packaging.
- `FileHandler` (src/utils.py:78-149) is left out: it writes files and calls python-docx.
- `DocumentFormatter.format_markdown_to_text` (src/utils.py:19-30) is left out: it would
  need a general model of `re.sub` with lazy quantifiers and MULTILINE anchors.
- The Unicode table of `\w` is not written out. It is the parameter `isWord`, and the
  model assumes only that it covers the ASCII letters and digits, `_` and the CJK block.
  Whitespace is the set `str.isspace` accepts, written out.
- The order of the dict that `extract_sections` returns is not modelled: the result is a
  `map`.
- Reading the settings file is a parameter: the file's existence, I/O errors and the JSON
  parser are not modelled.
  - `save_config` is not modelled. `update_config` returns the settings it hands to it,
    and whether the write succeeds is not modelled.
  - The error messages printed on failure are not modelled.
  - JSON numbers are integers or reals.
  - JSON duplicate keys are not modelled.
- `load_config` visits the default keys in an arbitrary order, not the insertion order of
  `DEFAULT_CONFIG`. The result does not depend on the order.
- `DEFAULT_CONFIG.copy()` is a shallow copy, so the `recent_files` list is shared with the
  defaults. Values are immutable here, so that aliasing is not modelled.
- Config.Defaults: its contract states only the `api_key` entry. The other nine values are
  in its body.
- Config.GetApiKey: its contract states only when it succeeds. The value it returns is
  stated by ConfiguredKeyWins, EmptyKeyFallsBack and EnvironmentFallback.
