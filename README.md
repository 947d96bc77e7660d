# News chatbot and lotto helpers, modelled in Dafny

This project models two independent pieces of plain logic from one repository.

**The news helper (`news_chatbot.py`).**
- `simple_summarize` is the heuristic summarizer. It substitutes HTML breaks and `&nbsp;`, cuts the text after every sentence-ending character (`.?!？！다요`) and keeps the first sentences.
- `validate_api_key` decides whether an API key is accepted. The trial model call is an input: a function from the stripped key to what the call did.
- The entry loop of `fetch_news` turns RSS entries, as records of optional fields, into articles.
- `summarize_with_gemini` and `chat_with_gemini` are modelled as their guards, their numbered prompt, and a single model call. The model is an input function. Each method also returns the prompts it sent.
- The key file (`get_api_key`/`save_api_key`) and the saved-news archive (`save_news`/`load_saved_news`) are in-memory state held by classes.

**The lotto page (`script.js`).**
- `clampNumber`.
- The split of a seven-number draw into six main numbers and a bonus.
- `normalizeSet`, which accepts an object form and an older array form.
- `ballClassByNumber`, and the text renderings of sets and of the clipboard.
- `loadHistory`, `saveHistory`, and the newest-first, twelve-entry history update of `generate`.
- JavaScript and JSON values are a `JsValue` datatype.

Modules:
- `Text` (text.dfy): Python's whitespace set, `strip`, `in`, `replace`, `join`, `split`, decimals and `xs[:n]`.
- `Summarizer` (summarizer.dfy).
- `Feed` (feed.dfy).
- `Credentials` (credentials.dfy).
- `Gateway` (gateway.dfy).
- `Archive` (archive.dfy).
- `Js` (js.dfy).
- `Lotto` (lotto.dfy).
- `LottoHistory` (history.dfy).
- `Options` (options.dfy): the shared `Option` type.

Two behaviours of the code are worth noting:
- A non-empty text made only of whitespace and `&nbsp;` entities summarizes to `""`, not to the placeholder. `Summarizer.SummaryOfBlank` and `Summarizer.SummaryOfSpacesAndNbsp` prove this.
- `chat_with_gemini` does not reject an empty user message. Such a message still reaches the model (`Gateway.Chat`).

## Model

| member | source | states |
|---|---|---|
| `Summarizer.SimpleSummarize` | news_chatbot.py:308-339 | The summary is the specification `Summary`: the placeholder for empty text, otherwise the first `maxSentences` sentences of the cleaned text joined by one space, or the stripped cleaned text when there are none |
| `Summarizer.Summary` | news_chatbot.py:308-339 | An empty text gives the placeholder. Any other text gives `""` or a text with no whitespace at either end |
| `Summarizer.Clean` | news_chatbot.py:314-319 | Cleaning never makes the text longer: each replacement is no longer than the pattern it replaces |
| `Summarizer.Chunks` | news_chatbot.py:323-331 | There are never more pieces than characters |
| `Summarizer.Sentences` | news_chatbot.py:323-333 | An empty text has no sentences, and no piece gives more than one sentence |
| `Summarizer.Segment` | news_chatbot.py:323-333 | The character scan yields exactly `Sentences(cleaned)`, the stripped non-empty chunks cut after each boundary character; proved with loop invariants over the unscanned rest |
| `Summarizer.ScanStep` | news_chatbot.py:325-331 | One scan step: at a boundary the accumulated text strips to something non-empty, so the `strip()` guard always holds there; otherwise the accumulation stays boundary-free |
| `Summarizer.ScanEnd` | news_chatbot.py:332-333 | After the loop, the leftover text contributes its strip as the last sentence exactly when that strip is non-empty |
| `Summarizer.CleanKeepsPlainText` | news_chatbot.py:314-319 | The substitutions leave a text with no `<` and no `&` unchanged |
| `Summarizer.FirstBoundary` | news_chatbot.py:327 | The index found is a boundary character (`.?!？！다요`) with none before it |
| `Summarizer.ChunksConcat` | news_chatbot.py:325-331 | The raw chunks concatenate back to the cleaned text |
| `Summarizer.ChunkShape` | news_chatbot.py:325-331 | Every chunk is non-empty, has no boundary before its last character, and every chunk but the trailing one ends with a boundary |
| `Summarizer.SentencesSplit` | news_chatbot.py:325-331 | The first sentence is the stripped first chunk, followed by the sentences of the rest |
| `Summarizer.SentencesAreStrippedChunks` | news_chatbot.py:329-333 | The sentences are the chunks stripped, in order; only a blank trailing chunk can be missing; each sentence is non-empty with no whitespace at either end |
| `Summarizer.SentencesOfNonBlank` | news_chatbot.py:329-335 | A text with any non-whitespace character yields at least one sentence |
| `Summarizer.SentencesOfBlank` | news_chatbot.py:332-336 | Blank text yields no sentences and strips to the empty string |
| `Summarizer.SummaryOfEmpty` | news_chatbot.py:310-311 | The empty text summarizes to the placeholder `(요약할 내용이 없습니다.)` |
| `Summarizer.SummaryOfBlank` | news_chatbot.py:332-336 | A non-empty text that is blank once cleaned summarizes to `""` |
| `Summarizer.SummaryOfSpacesAndNbsp` | news_chatbot.py:314-336 | A non-empty text made only of whitespace and `&nbsp;` entities, in any number and order, summarizes to `""` |
| `Summarizer.CleanOfSpacesAndNbsp` | news_chatbot.py:314-319 | Cleaning such a text leaves it blank: the line-break replacements do not touch it and each entity becomes a space |
| `Summarizer.SummaryOfSpacedEntities` | news_chatbot.py:314-336 | The text `" &nbsp;&nbsp; "` summarizes to `""` |
| `Text.ReplaceAllLeading` | news_chatbot.py:316-319 | `str.replace` replaces an occurrence of the pattern at the front of the text, then carries on after it |
| `Text.SpacesAndAvoids` | news_chatbot.py:316-319 | A text made only of whitespace and copies of a pattern holds no other character |
| `Text.ReplaceAllBlank` | news_chatbot.py:319 | Replacing every copy of a pattern by whitespace leaves such a text blank, when the pattern does not start with whitespace |
| `Summarizer.SummaryIsFirstSentences` | news_chatbot.py:335-339 | Otherwise the summary is the first `min(maxSentences, n)` sentences joined by one space, with no stripping left to do; for `maxSentences ≥ 1` it is non-empty with non-blank ends |
| `Summarizer.ThreeSentencesTakeTwo` | news_chatbot.py:338-339 | Three one-letter sentences with two requested give the first two: `a. b.` |
| `Summarizer.SummaryExample` | news_chatbot.py:338-339 | `"A. B. C."` with two sentences requested summarizes to `"A. B."` |
| `Credentials.StoredKey` | news_chatbot.py:21-30 | The stored key when the file holds one, `""` for a missing file, an unreadable file or a missing `api_key` |
| `Credentials.KeyStore.Get` | news_chatbot.py:21-30 | Reading the key gives `StoredKey` of the current file |
| `Credentials.KeyStore.Save` | news_chatbot.py:33-40 | On success the file holds exactly the new key and reading it gives that key back; on failure the file is unchanged; the result reports which |
| `Credentials.SaveThenGet` | test_functions.py:28-35 | A saved key is read back unchanged |
| `Credentials.ClassifyFailure` | news_chatbot.py:74-93 | Always invalid; the invalid-key message exactly when the lowered error mentions `invalid`; the quota message exactly when it does not but mentions `quota` or `limit`; the details start with the error text |
| `Credentials.ValidateApiKey` | news_chatbot.py:43-99 | A result is valid exactly when it is the success result |
| `Credentials.ValidateStripped` | news_chatbot.py:45-99 | The stripped key is accepted exactly when it is non-empty, starts with `AIza`, and the trial call made with it returns a truthy response |
| `Credentials.ValidIff` | news_chatbot.py:43-99 | A key is accepted exactly when its stripped form starts with `AIza` and the trial call with that stripped form returns a truthy response |
| `Credentials.BlankKeyNotEntered` | news_chatbot.py:45-50 | A blank key gets the "not entered" answer |
| `Credentials.WrongPrefixBadFormat` | news_chatbot.py:52-60 | A non-blank key whose stripped form lacks the prefix gets the "bad format" answer |
| `Credentials.PreCheckMakesNoCall` | news_chatbot.py:45-60 | When the prefix check fails, the answer is one of the two pre-check answers and does not depend on the trial call |
| `Credentials.FalsyResponseUnconfirmed` | news_chatbot.py:68-99 | A falsy response falls through to the generic "검증에 실패" answer |
| `Credentials.StripInvariant` | news_chatbot.py:45-52 | Validating a key and validating its stripped form give the same answer |
| `Credentials.ApiKeyInvalidIsInvalid` | news_chatbot.py:76 | Any text holding `API_KEY_INVALID` holds `invalid` once lowered, so the first test is subsumed by the second |
| `Credentials.InvalidBeforeQuota` | news_chatbot.py:76-87 | An error mentioning `invalid` is an invalid-key error even when it also mentions quota or limit |
| `Credentials.OtherErrorsGeneric` | news_chatbot.py:88-93 | An error mentioning none of the keywords gets the generic trial-error message |
| `Feed.NormalizeEntry` | news_chatbot.py:141-165 | The title defaults to `(제목 없음)` only when absent and is kept otherwise, even when empty; the link defaults to `""`; the summary is the summary when non-empty, else the description, and is empty exactly when both are absent or empty; the date is `PublishedText` |
| `Feed.NormalizeEntries` | news_chatbot.py:139-165 | Yields `min(len(entries), max_results)` articles, the i-th built from the i-th entry, in feed order; a negative `max_results` slices from the end as Python does |
| `Feed.PublishedText` | news_chatbot.py:144-156 | An entry without a date shows `""`. Otherwise it shows the raw date string or a sixteen-character reformatted date |
| `Feed.FormatDateTime` | news_chatbot.py:152-153 | The date is sixteen characters, with `-`, `-`, a space and `:` at places 4, 7, 10 and 13 |
| `Feed.PublishedRule` | news_chatbot.py:144-156 | The date is reformatted to a 16-character `YYYY-MM-DD HH:MM` exactly when the raw string is non-empty and the structured time is a valid datetime; otherwise the raw string is kept |
| `Feed.FormattedFields` | news_chatbot.py:152-153 | The reformatted date has its separators at fixed places, and each field reads back as the year, month, day, hour and minute |
| `Feed.FormatInjective` | news_chatbot.py:152-153 | Two structured times with the same reformatted date agree to the minute |
| `Gateway.BuildNewsText` | news_chatbot.py:190-195 | The news text is the header followed by one block per article, numbered from 1 in list order (the chat layout, lines 237-243, adds the date) |
| `Gateway.AppendBlocks` | news_chatbot.py:191-195 | The loop that appends one numbered block per article to the text it starts from yields that text followed by `Blocks` of the list; proved with the loop invariant over the articles done so far |
| `Gateway.Blocks` | news_chatbot.py:191-194 | The article blocks are empty exactly when there are no articles |
| `Gateway.NewsText` | news_chatbot.py:190-194 | The news text starts with the header, and is the header alone exactly when there are no articles |
| `Gateway.Outcome` | news_chatbot.py:203-214 | The result is a reply exactly when the model answered, and the reply has no whitespace at either end. A failure message starts with the operation's prefix and carries the retry hint |
| `Gateway.Summarize` | news_chatbot.py:170-214 | A missing key is reported before an empty list, and neither reaches the model; otherwise exactly one prompt is sent, and the result is the stripped reply or the error message with its hint |
| `Gateway.Chat` | news_chatbot.py:217-264 | The same guard order with the chat messages; otherwise exactly one prompt is sent, embedding the articles and the user's message unchanged |
| `Gateway.BlocksOfPrefix` | news_chatbot.py:192-195 | The blocks of the first `j` articles are a prefix of the blocks of all of them |
| `Gateway.ArticleNumbered` | news_chatbot.py:192-195 | Article `k` appears as block `[기사 k+1]`, directly after the blocks of the articles before it |
| `Gateway.NewsTextListsArticle` | news_chatbot.py:190-195 | Every article's numbered block is part of the news text |
| `Gateway.SummaryPromptListsArticle` | news_chatbot.py:197-202 | Every article's numbered block is part of the summary prompt |
| `Gateway.ChatPromptListsArticle` | news_chatbot.py:245-252 | Every article's numbered block, with its date, is part of the chat prompt |
| `Gateway.LabelsDistinct` | news_chatbot.py:192-195 | Different article numbers give different labels |
| `Archive.LoadAll` | news_chatbot.py:296-305 | The records when the file is readable, `[]` when it is missing or unreadable |
| `Archive.Appended` | news_chatbot.py:278-290 | After a save the file is a list of records: the old ones, then the new one |
| `Archive.NewsArchive.Save` | news_chatbot.py:267-293 | Succeeds exactly when the file is readable and the write succeeds; the file then holds the old records followed by the new record; otherwise the file is unchanged |
| `Archive.NewsArchive.Load` | news_chatbot.py:296-305 | Loading gives `LoadAll` of the current file |
| `Archive.SaveThenLoad` | news_chatbot.py:278-290 | After a save, loading gives one more record: the saved one last, the earlier ones unchanged |
| `Archive.FirstSave` | news_chatbot.py:274-275 | Saving into a missing file gives a one-record archive |
| `Archive.SavesInOrder` | news_chatbot.py:267-293 | After successive saves, loading gives the earlier records followed by the saved ones in the order they were saved |
| `Lotto.Trunc` | script.js:9 | `Math.trunc` rounds toward zero: the result lies within one of the input, on the zero side |
| `Lotto.ClampNumber` | script.js:6-10 | The fallback for a non-finite number; otherwise the truncated value when it lies in `[min, max]`, else the nearer bound; always within `[min, max]` when `min <= max` |
| `Lotto.GenerateSetCount` | script.js:252 | `generate` asks for five sets |
| `Lotto.SortAsc` | script.js:21 | The numeric sort gives a sorted rearrangement of its input |
| `Lotto.SortedUnique` | script.js:21 | Two sorted rearrangements of the same numbers are equal, so the sort's result is determined by the numbers |
| `Lotto.SortOfSorted` | script.js:41 | Sorting an already sorted list changes nothing |
| `Lotto.Dedup` | script.js:49 | `Array.from(new Set(...))` keeps each value once, and exactly the values of its input |
| `Lotto.SplitDraw` | script.js:21-25 | Six distinct sorted main numbers, and a bonus outside them and above every one of them; together they are the seven drawn numbers |
| `Lotto.SplitDrawSmallestSix` | script.js:21-25 | The bonus is the largest number drawn and every other drawn number is a main number |
| `Lotto.SplitDrawInRange` | script.js:16-25 | A draw from 1..45 gives main numbers and a bonus in 1..45 |
| `Lotto.LottoNumbers` | script.js:48 | The filter keeps exactly the integer values in 1..45 |
| `Lotto.NormalizeSet` | script.js:32-63 | An accepted value gives six main numbers in ascending order. An accepted object always gives a bonus |
| `Lotto.NormalizeObject` | script.js:34-44 | An accepted object gives six main numbers in ascending order and a bonus |
| `Lotto.NormalizeArray` | script.js:47-60 | An accepted array gives six main numbers in ascending order. It gives no bonus only when it holds exactly six distinct valid numbers |
| `Lotto.ObjectForm` | script.js:34-44 | The object form is accepted exactly when `main` is an array of six integers in 1..45, `bonus` an integer in 1..45 and not among them; the result's `main` is a sorted rearrangement of the input's |
| `Lotto.ObjectFormAllowsRepeats` | script.js:35-41 | A `main` with a repeated number is accepted as it is |
| `Lotto.UniqFacts` | script.js:48-49 | The array form's list is increasing and holds exactly the distinct integers in 1..45 of the input |
| `Lotto.FindNotIn` | script.js:52 | `find` returns a value of the list that is not excluded |
| `Lotto.ArrayForm` | script.js:47-60 | With seven or more distinct valid numbers, the six smallest are the main numbers and the seventh smallest is the bonus; with exactly six the bonus is `null`; with fewer the result is `null`. On the sorted, distinct list, `find` always returns the seventh number, so the `bonus != null` test of the array form never fails |
| `Lotto.ScalarsRejected` | script.js:62 | A value that is neither an object nor an array normalizes to `null` |
| `Lotto.NormalizedValid` | script.js:32-63 | Every accepted set has six sorted main numbers in 1..45, and any bonus is in 1..45 and not among them |
| `Lotto.Renormalize` | script.js:34-44 | A valid set with an integer bonus normalizes to itself a second time |
| `Lotto.RenormalizeNull` | script.js:39 | A set whose bonus is `null` normalizes to `null` a second time |
| `Lotto.NormalizeTwice` | script.js:34-44 | Normalizing a normalized set gives the same set when it has a bonus, and `null` otherwise |
| `Lotto.DrawNormalizes` | script.js:16-44 | A generated set passes normalization unchanged |
| `Lotto.BallClassIsGroup` | script.js:106-113 | The ball class is `b` followed by the group number: 1 up to 10, one group per ten up to 40, 5 above |
| `Lotto.BallGroupMonotone` | script.js:106-113 | Larger numbers never get an earlier group |
| `Lotto.BallClass` | script.js:106-113 | The class is `b` followed by one digit from 1 to 5 |
| `Lotto.FormatSetWithBonus` | script.js:65-70 | The text is `잘못된 기록` exactly when `normalizeSet` rejects the value |
| `Lotto.FormatRecord` | script.js:66-69 | The text is `잘못된 기록` exactly when there is no normalized set |
| `Lotto.FormatSetNumbers` | script.js:28-30 | The rendering is empty exactly when there are no numbers |
| `Lotto.FormatSetNumbersPieces` | script.js:28-30 | Split at its commas, the rendering of a non-empty list of natural numbers gives each number's digits in order, every one after the first preceded by a space |
| `Lotto.FormatSetNumbersInjective` | script.js:28-30 | Different non-empty lists of natural numbers render to different texts |
| `Lotto.ClipboardLinesRoundTrip` | script.js:184-186 | Split at its newlines, the clipboard text gives one line per set, in order, each opening with its number counted from 1 |
| `Lotto.ClipboardLines` | script.js:184-186 | There is one line per set, and line `i` is the number `i + 1`, `세트: ` and the rendering of set `i` |
| `Lotto.ClipboardText` | script.js:184-186 | The clipboard text is empty exactly when there are no sets |
| `LottoHistory.KeptSets` | script.js:91 | At most as many sets as stored, each a valid normalized set |
| `LottoHistory.EntryOf` | script.js:89-94 | A falsy value gives `null`. An entry has at least one set, and every one of its sets is valid |
| `LottoHistory.Entries` | script.js:88-95 | There are never more entries than stored values |
| `LottoHistory.LoadHistory` | script.js:82-100 | At most twelve entries; `[]` when nothing is stored, the text does not parse, or the value is not an array |
| `LottoHistory.SaveHistory` | script.js:102-104 | Writes an array of `min(len, 12)` entries, never more than twelve |
| `LottoHistory.EntriesValid` | script.js:88-95 | Every kept entry has at least one set, and every set is valid |
| `LottoHistory.EntriesAppend` | script.js:88-95 | Filtering preserves order: the entries of a concatenation are the concatenation of the entries |
| `LottoHistory.EntryShape` | script.js:90-93 | Only plain objects with a string `at` and an array `sets` become entries, with the non-empty list of their valid sets |
| `LottoHistory.LoadHistoryValid` | script.js:82-100 | Every loaded entry has a non-empty list of valid sets |
| `LottoHistory.KeptSetsOfStored` | script.js:91 | Stored and read back, valid sets keep those with an integer bonus, in order, and lose those whose bonus is `null` |
| `LottoHistory.EntryRoundTrip` | script.js:89-94 | An entry whose sets all have an integer bonus reads back as itself |
| `LottoHistory.LegacyEntryDropped` | script.js:55-57 | An entry whose sets all lack a bonus is dropped at the next load |
| `LottoHistory.SaveLoadRoundTrip` | script.js:82-104 | Saving a history of at most twelve such entries and loading it gives it back |
| `LottoHistory.LottoPage.constructor` | script.js:243-244 | The page starts with no last sets and the loaded history |
| `LottoHistory.LottoPage.Generate` | script.js:251-263 | Five new sets, one per draw; the history becomes the new entry followed by the old history, cut to twelve, so its tail is a prefix of the old history; the slot then holds the saved history |
| `LottoHistory.PrependBounded` | script.js:260 | The prepended history has `min(len+1, 12)` entries, the new one first, then the start of the old history |

## Left out

- HTTP fetching, URL quoting, the exception-to-message mapping of `fetch_news` (news_chatbot.py:104-137) and `feedparser.parse` are library and network calls. The model starts from the parsed entries.
- All `genai` calls are external. `configure`, model construction, `generate_content` and `response.text` are one input function. It gives a reply text or the exception's text.
- File and JSON I/O are replaced by in-memory state, and `os.path.exists` by the `Absent`/`NoKeyFile` cases. A write that fails after truncating the file is modelled as leaving it unchanged. The unlocked read-modify-write race of `save_news` is concurrency and is not modelled.
- `datetime.now()` and the browser clock are a timestamp parameter. `Math.random` and the `while` loop that draws seven distinct numbers are replaced by the drawn numbers as a parameter.
- `chat_loop`, `print_articles`, `textwrap`, console output, DOM rendering, toasts, the clipboard API, keyboard handlers and the page's Clear button are presentation and are not modelled. `localStorage` and `JSON.stringify`/`JSON.parse` are a storage slot holding the parsed value.
- `Text.LowerAscii`: lower-cases ASCII letters only. Python's `str.lower()` also folds other scripts; the keywords it looks for are ASCII.
- `Feed.FormatDateTime`: the year is zero-padded to four digits. Below year 1000, `strftime("%Y")` depends on the platform.
- `Lotto.ClampNumber`: takes the result of `Number(value)`, not the coercion itself. Its bounds are integers.
- `Credentials.StoredKey`: a stored `api_key` of `null` or of a non-string type is treated as absent.
- Numbers are unbounded integers and exact reals. JSON numbers are finite, and floating-point rounding is not modelled.
