# Series catalogue: markdown renderer, statistics, header flags, database URL

This project models four pieces of a small series-catalogue application, a
FastAPI backend plus a React frontend, in Dafny. It proves what each piece
computes.

- **The assistant's markdown renderer** (`renderMarkdown`, `flushList`,
  `formatInline`).
  - A reply is split on line feeds, and each line is trimmed.
  - Each line is then classified as one of: blank, `## ` heading, `# `
    heading, `**title**`, list line (`* ` or `- `), or paragraph.
  - Consecutive list lines collect in a pending buffer. A blank line only
    flushes that buffer as one list; any other line flushes it before its
    own element; and it is flushed once more at the end.
  - `formatInline` runs four global, non-greedy substitutions in a fixed
    order: `***`, `**`, `*`, and the backtick.
  - The renderer is a `Renderer` class whose fields are the closure's
    `elements` and `listItems`. `RenderLines` is the `forEach` loop plus the
    final flush, proved equal to `Layout`, a reference layout of the
    classified lines defined by maximal runs of list lines.
    `RenderMarkdown` splits the reply and calls it, so it returns `Render`.
  - Inline text is a sequence of pieces: original characters, or the
    opening and closing tags a substitution inserted.
  - `InlineSpans` follows one span of each style through the four passes:
    the longer star markers leave it alone, its own pass tags it, and the
    later passes find nothing left to match.
  - `InlineLines` follows a whole line through the four passes. The line is
    made of chunks, plain text or a span of any style, with text after
    every span. Each pass is followed chunk by chunk along the line, so
    every span of its style is tagged, not only the first. After all four
    passes every span is tagged in its own style and the text between
    them is unchanged.
- **The statistics handler** (`get_stats`).
  - One loop counts the series into four dictionaries: release year, IMDb
    rating, number of seasons, and first genre.
  - It then derives:
    - the two averages over the dictionary keys;
    - the most popular year;
    - the number of series rated 8 or more;
    - the key-sorted histograms.
  - A Python dict is modelled as `Dict`: its keys in insertion order plus a
    count map. `CountSeries` is the loop, proved equal to `Tally`.
  - `GetStats` is proved equal to `StatsOf`. Every exception the handler can
    raise is a `Failure`.
- **The root layout's header flags**: the three props derived from the
  pathname.
- **The `DATABASE_URL` rewrite**: `mysql://` becomes `mysql+pymysql://`.

Strings are sequences of Unicode scalar values. The JavaScript and Python
string operations the code calls are defined in `Text`:

- `split('\n')`;
- `trim` with ECMAScript's white-space set;
- `startsWith`, `endsWith` and `includes`;
- `slice`, with negative positions and clamping;
- `str.replace(a, b, 1)`.

## Model

| member | source | states |
|---|---|---|
| Text.SplitLines | frontend/src/routes/assistant/index.tsx:34 | `split('\n')` yields at least one piece, and no piece holds a line feed |
| Text.JoinSplitLines | frontend/src/routes/assistant/index.tsx:34 | joining the pieces with line feeds gives back the text, so splitting loses nothing |
| Text.SplitJoinLines | frontend/src/routes/assistant/index.tsx:34 | splitting a join of line-feed-free pieces gives back those pieces |
| Text.SplitLinesAppend | frontend/src/routes/assistant/index.tsx:34 | the pieces of `x + "\n" + y` are the pieces of `x` followed by those of `y` |
| Text.Trim | frontend/src/routes/assistant/index.tsx:64 | `trim` leaves no white space at either end and never lengthens the line |
| Text.TrimEmpty | frontend/src/routes/assistant/index.tsx:64-66 | a trimmed line is empty exactly when the raw line is all white space |
| Text.TrimAround | frontend/src/routes/assistant/index.tsx:64 | `trim` removes exactly the white space around a trimmed core, whatever that white space is |
| Text.TrimIdempotent | frontend/src/routes/assistant/index.tsx:64 | trimming twice is trimming once |
| Text.IndexOfFrom | backend/app/database.py:14 | the result is the leftmost occurrence at or after the start, with no occurrence before it; none means none at all |
| Text.Includes | frontend/src/routes/assistant/index.tsx:93 | `includes` holds exactly when the pattern occurs at some position |
| Text.ReplaceFirst | backend/app/database.py:14 | with no occurrence the string is unchanged; otherwise its length changes by the difference of the two lengths, and a leading occurrence is replaced with the rest untouched |
| Text.Slice | frontend/src/routes/assistant/index.tsx:93-95 | within bounds `slice` is the ordinary slice; a negative end counts back from the end, and the result is empty once the start passes that point; never longer than the string |
| Markdown.FindClose | frontend/src/routes/assistant/index.tsx:57-60 | the non-greedy `(.*?)M`: the first closing marker after the opener with `.` matching every piece in between; none when each later marker is cut off by a line terminator |
| Markdown.ScanUnformat | frontend/src/routes/assistant/index.tsx:57-60 | what one match step emits reads back, tags as markers, as the text it consumed |
| Markdown.UnformatSpan | frontend/src/routes/assistant/index.tsx:57-60 | a matched span reads back as its opening marker, the inner text and its closing marker |
| Markdown.PassUnformat | frontend/src/routes/assistant/index.tsx:57-60 | a global substitution only replaces matched markers by tags: read back, its output is its input |
| Markdown.FormatInlineUnformat | frontend/src/routes/assistant/index.tsx:55-61 | after all four passes, reading each tag back as its marker gives the original line, so no character is lost, added or moved |
| Markdown.LoneScan | frontend/src/routes/assistant/index.tsx:57-60 | a marker character with no copy after it is kept as literal text and the scan moves on by one |
| Markdown.PassLone | frontend/src/routes/assistant/index.tsx:57-60 | a pass over text with at most one copy of its marker's character changes nothing |
| Markdown.FormatInlineLone | frontend/src/routes/assistant/index.tsx:56-60 | a line with at most one `*` and at most one backtick is left as it is: an unmatched opener stays literal |
| Markdown.FormatInlineIdentity | frontend/src/routes/assistant/index.tsx:56-60 | `formatInline` is the identity on text without `*` and without a backtick |
| InlineSpans.FindCloseAt | frontend/src/routes/assistant/index.tsx:57-60 | the non-greedy match closes at the first closing marker reached through `.`-matching pieces only |
| InlineSpans.PassNoMatch | frontend/src/routes/assistant/index.tsx:57-60 | a pass in which no marker has a closing marker after it changes nothing |
| InlineSpans.PassNoChar | frontend/src/routes/assistant/index.tsx:57-60 | a pass over pieces that never hold its marker's character changes nothing |
| InlineSpans.PassLonger | frontend/src/routes/assistant/index.tsx:57-59 | the `***` and `**` passes leave a span with a shorter star marker around literal text as it is |
| InlineSpans.PassSpan | frontend/src/routes/assistant/index.tsx:57-60 | a style's own pass turns `M + x + M`, with literal `x`, into `x` inside that style's tags |
| InlineSpans.TaggedUntouched | frontend/src/routes/assistant/index.tsx:58-60 | the passes after a span is tagged find nothing to match in it |
| InlineSpans.CodeUntouched | frontend/src/routes/assistant/index.tsx:57-59 | the three star passes leave a backtick span alone |
| InlineSpans.FormatInlineSpan | frontend/src/routes/assistant/index.tsx:55-61 | for every text `x` without `*`, backtick or line terminator, and each of the four styles, `formatInline(M + x + M)` is `x` inside that style's tags |
| InlineLines.PassKeepAt | frontend/src/routes/assistant/index.tsx:57-60 | a stretch of the line where no marker of the pass's style starts is copied as it is, and the replacement carries on right after it |
| InlineLines.PassCopyAt | frontend/src/routes/assistant/index.tsx:57-60 | a stretch without the pass's marker character, anywhere in the line, is copied unchanged and the replacement carries on right after it |
| InlineLines.PassSpanAt | frontend/src/routes/assistant/index.tsx:57-60 | at any position of the line, not only the first match, a span `M + x + M` with literal `x` becomes `x` in the style's tags and the replacement carries on after the closing marker |
| InlineLines.PassLongerAt | frontend/src/routes/assistant/index.tsx:57-59 | anywhere in the line, the `***` and `**` passes copy a span with a shorter star marker and carry on after it |
| InlineLines.ChunkPass | frontend/src/routes/assistant/index.tsx:57-60 | a pass turns the chunk at any position into its form after that pass, and carries on with the next chunk |
| InlineLines.PassStageFrom | frontend/src/routes/assistant/index.tsx:57-60 | from any chunk boundary to the end of the line, one pass treats every chunk: every span of its style is tagged and the rest is copied |
| InlineLines.PassStage | frontend/src/routes/assistant/index.tsx:57-60 | pass `n` takes the line as it is after `n` passes to the line after `n + 1` |
| InlineLines.FormatInlineLine | frontend/src/routes/assistant/index.tsx:55-61 | for every line of literal chunks with text after each span, `formatInline` tags every span in its own style and keeps all the text between spans |
| InlineLines.FormatInlineTwoSpans | frontend/src/routes/assistant/index.tsx:57-60 | two spans of one style with text between them are both tagged, so each replace is global |
| InlineLines.FormatInlineThreeSpans | frontend/src/routes/assistant/index.tsx:55-61 | three spans, each of any style, with text between them are each tagged in their own style, with the text between them kept |
| InlineLines.FormatInlineMixed | frontend/src/routes/assistant/index.tsx:55-61 | a line with a bold, an italic and a code span, separated by " and ", becomes the three tagged spans with both separators kept |
| Markdown.TestsExclusive | frontend/src/routes/assistant/index.tsx:72-105 | a line starting `## `, `# `, `**` or `* `/`- ` fails every other of these tests |
| Markdown.Classify | frontend/src/routes/assistant/index.tsx:66-108 | each kind holds exactly when its own test passes: a line is blank exactly when empty, an h2 exactly when it starts `## `, an h1 exactly when it starts `# `, a title exactly when the bold-title test holds, a list line exactly when it starts `* ` or `- `; so the order of the tests decides nothing |
| Markdown.ListRun | frontend/src/routes/assistant/index.tsx:105-108 | the length of the leading run of list lines: all of them are list lines, and the next line is not one |
| Markdown.LineBlocks | frontend/src/routes/assistant/index.tsx:66-118 | a blank line contributes no element and every other line exactly one; that element is a list exactly for a list line |
| Markdown.LayoutAppend | frontend/src/routes/assistant/index.tsx:63-121 | where the lines at the seam are not both list lines, the layout of two stretches of lines is the layout of each, concatenated |
| Markdown.LayoutListRun | frontend/src/routes/assistant/index.tsx:39-53 | a run of list lines lays out as the one list `flushList` emits for their item texts, or nothing when the run is empty |
| Markdown.LayoutSingle | frontend/src/routes/assistant/index.tsx:66-118 | a line that is not a list line lays out as its own element, or nothing when blank |
| Markdown.Renderer.constructor | frontend/src/routes/assistant/index.tsx:35-36 | the renderer starts with no elements and no pending items |
| Markdown.Renderer.FlushList | frontend/src/routes/assistant/index.tsx:39-53 | afterwards nothing is pending; the elements gain one list of the formatted pending items only when there were any |
| Markdown.Renderer.Visit | frontend/src/routes/assistant/index.tsx:63-119 | a list line appends its text from index 2 to the pending items and emits nothing; any other line flushes the pending items and then appends its own element |
| Markdown.VisitStep | frontend/src/routes/assistant/index.tsx:63-119 | one visit keeps the loop invariant: everything before the pending run is laid out, and the run's item texts are pending |
| Markdown.LayoutStep | frontend/src/routes/assistant/index.tsx:63-119 | the layout of the lines so far is the layout before the pending run, the flushed run, then the new line's element |
| Markdown.LayoutFinish | frontend/src/routes/assistant/index.tsx:121 | the final flush completes the layout of all the lines |
| Markdown.RenderLines | frontend/src/routes/assistant/index.tsx:63-121 | the forEach loop plus the final flush produce exactly the reference layout of the trimmed, classified lines |
| Markdown.RenderMarkdown | frontend/src/routes/assistant/index.tsx:33-123 | `renderMarkdown(text)` returns exactly `Render(text)` |
| MarkdownProperties.HeadingText | frontend/src/routes/assistant/index.tsx:72-90 | a `## ` line yields one h2 of the text from index 3, a `# ` line one h1 from index 2, and neither text is empty |
| MarkdownProperties.ListItemText | frontend/src/routes/assistant/index.tsx:105-108 | a list line's item is its text from index 2, and that text is never empty |
| MarkdownProperties.TitleText | frontend/src/routes/assistant/index.tsx:93-101 | a title line yields one title of its raw `slice(2, -2)`, which holds no `**` and has no inline formatting |
| MarkdownProperties.ShortTitles | frontend/src/routes/assistant/index.tsx:93-95 | under JavaScript's slice clamping, the lines `**` and `***` both yield an empty title |
| MarkdownProperties.UngroupGroups | frontend/src/routes/assistant/index.tsx:63-121 | every line lands in exactly one group, in input order |
| MarkdownProperties.GroupsMaximal | frontend/src/routes/assistant/index.tsx:105-111 | groups are maximal: no run is empty or holds another kind of line, and a run is always followed by a single line |
| MarkdownProperties.ListItemsInOrder | frontend/src/routes/assistant/index.tsx:39-53 | the items of all emitted lists, read in order, are exactly the formatted texts of all list lines in input order: none lost and none duplicated |
| MarkdownProperties.NoEmptyList | frontend/src/routes/assistant/index.tsx:40 | no emitted list is empty |
| MarkdownProperties.LayoutCount | frontend/src/routes/assistant/index.tsx:110-119 | the element count is the number of non-blank non-list lines plus the number of maximal runs of list lines |
| MarkdownProperties.RunCountAppend | frontend/src/routes/assistant/index.tsx:105-108 | where runs do not meet at the seam, the runs of two stretches add up |
| MarkdownProperties.LayoutBlankCons | frontend/src/routes/assistant/index.tsx:63-69 | a leading blank line adds no element |
| MarkdownProperties.LayoutBlankSeparated | frontend/src/routes/assistant/index.tsx:63-69 | a blank line between two stretches separates their layouts completely |
| MarkdownProperties.RenderBlankSeparated | frontend/src/routes/assistant/index.tsx:63-69 | `Render(x + "\n\n" + y) == Render(x) + Render(y)`: a blank line only flushes |
| Stats.FindYear | backend/app/routes/stats.py:41 | the leftmost position of four digits at or after the start, with none before it |
| Stats.ReleaseYear | backend/app/routes/stats.py:41 | `findall(r'\d{4}', released)[0]` is the leftmost four-digit run; it fails with IndexError exactly when there is none |
| Stats.FirstGenre | backend/app/routes/stats.py:48 | `genre.split(', ')[0]` is a prefix holding no `", "`, and is either the whole string or followed by `", "` |
| Stats.Dict.Set | backend/app/routes/stats.py:42 | `d[k] = v` updates the count; a new key goes to the end of the insertion order and an existing key keeps its place |
| Stats.Bump | backend/app/routes/stats.py:42 | `d[k] = d.get(k, 0) + 1` keeps the dict well formed, raises the count of `k` by one from `get(k, 0)` and leaves every other count; a new key goes to the end of the order |
| Stats.Histogram | backend/app/routes/stats.py:39-49 | the dict the loop builds is well formed and holds at most one key per key met |
| Stats.HistogramCounts | backend/app/routes/stats.py:39-49 | a key is in the histogram exactly when it occurs, and its count is its number of occurrences |
| Stats.HistogramOrder | backend/app/routes/stats.py:39-49 | the dict's keys are the distinct keys in order of first occurrence |
| Stats.HistogramSnoc | backend/app/routes/stats.py:42 | counting one more key is `d[k] = d.get(k, 0) + 1` on the histogram so far |
| Stats.HistogramTotal | backend/app/routes/stats.py:39-49 | the counts sum to the number of keys counted |
| Stats.TotalBump | backend/app/routes/stats.py:42 | one increment raises the sum of counts by one |
| Stats.BelowIrreflexive | backend/app/routes/stats.py:60-62 | Python's string `<` is irreflexive |
| Stats.BelowTransitive | backend/app/routes/stats.py:60-62 | Python's string `<` is transitive |
| Stats.BelowTotal | backend/app/routes/stats.py:60-62 | Python's string `<` orders any two distinct strings |
| Stats.Insert | backend/app/routes/stats.py:60-62 | inserting an item with a new key into a key-sorted list keeps it sorted and adds exactly that item |
| Stats.Sort | backend/app/routes/stats.py:60-62 | `sorted(d.items())` is a permutation of the items, ascending by key |
| Stats.SortedItems | backend/app/routes/stats.py:60-62 | the sorted items of a dict are exactly its items, ascending by key |
| Stats.SortedItemsContent | backend/app/routes/stats.py:60-62 | a pair is in the sorted output exactly when the dict maps that key to that count |
| StatsReport.KeyOf | backend/app/routes/stats.py:40-49 | only a release date can fail to yield a key, and then with IndexError |
| StatsReport.ColumnKeys | backend/app/routes/stats.py:39-49 | collecting a column's keys fails only for release dates, with IndexError |
| StatsReport.ColumnKeysFail | backend/app/routes/stats.py:40-41 | collecting fails exactly when some set release date has no four-digit run |
| StatsReport.ColumnKeysCount | backend/app/routes/stats.py:39-49 | one key per series with the field set, and each key occurs as often as series yield it |
| StatsReport.HistogramMeaning | backend/app/routes/stats.py:39-49 | each histogram maps a key to the number of series that set the field and yield that key; its counts sum to the number of series with the field set |
| StatsReport.Tally | backend/app/routes/stats.py:39-49 | the loop's four dicts are well formed, and its only failure is IndexError |
| StatsReport.TallyCounted | backend/app/routes/stats.py:39-49 | four dicts that each count their column are what the loop computes |
| StatsReport.ColumnStep | backend/app/routes/stats.py:40-49 | counting one more series keeps a dict the histogram of its column |
| StatsReport.CountStep | backend/app/routes/stats.py:39-49 | one iteration of the loop keeps all four dicts the histograms of their columns |
| StatsReport.YearMissing | backend/app/routes/stats.py:41 | a set release date without a year makes the loop fail with IndexError |
| StatsReport.CountSeries | backend/app/routes/stats.py:39-49 | the loop that updates four dicts in place computes exactly `Tally` |
| StatsReport.SumParsed | backend/app/routes/stats.py:51 | summing the converted keys fails with ValueError exactly when some key does not convert |
| StatsReport.Mean | backend/app/routes/stats.py:51-53 | the average over the keys fails with ValueError exactly when a key does not convert, and with ZeroDivisionError exactly when there are no keys |
| StatsReport.MeanBounds | backend/app/routes/stats.py:51 | an average of values within bounds lies within those bounds |
| StatsReport.FirstMaxIndex | backend/app/routes/stats.py:52 | the first position with the greatest count: no count is greater, and every earlier one is smaller |
| StatsReport.MostPopular | backend/app/routes/stats.py:52 | `max(d, key=d.get)` fails with ValueError exactly on an empty dict, and otherwise returns a key of maximal count that is the earliest inserted among them |
| StatsReport.RatedAtLeast8 | backend/app/routes/stats.py:54 | it fails, and with ValueError, exactly when a rating key does not convert |
| StatsReport.RatedAtLeast8Bound | backend/app/routes/stats.py:54 | the count is at most the sum of all counts |
| StatsReport.RatedDictBump | backend/app/routes/stats.py:44-54 | one more rating met adds one to the count exactly when that rating is 8 or more |
| StatsReport.RatedHistogram | backend/app/routes/stats.py:44-54 | over the histogram of the ratings met, each distinct rating weighted by its count counts every rating met of 8 or more once |
| StatsReport.RatingKeysAtLeast8 | backend/app/routes/stats.py:43-44 | the series rated 8 or more are exactly the rating keys met of 8 or more |
| StatsReport.RatedAtLeast8Series | backend/app/routes/stats.py:43-54 | when every set rating converts, line 54 yields exactly the number of series rated 8 or more |
| StatsReport.RatedAtLeast8All | backend/app/routes/stats.py:54 | when every rating is 8 or more, the count is the sum of all counts |
| StatsReport.RatedAtLeast8None | backend/app/routes/stats.py:54 | when every rating is below 8, the count is zero |
| StatsReport.RatedAfterMean | backend/app/routes/stats.py:51-54 | once the average rating is computed, line 54 cannot fail |
| StatsReport.GetStats | backend/app/routes/stats.py:31-69 | the handler returns or raises exactly what `StatsOf` says, with its steps in the source's order |
| StatsReport.StatsOf | backend/app/routes/stats.py:31-69 | the handler raises only IndexError, ValueError or ZeroDivisionError, never its 404; a report counts every series, at least one, and each histogram is the key-sorted dict the loop built |
| StatsReport.TallyParts | backend/app/routes/stats.py:39-49 | a loop that ran through built each of its four dicts as the histogram of its column |
| StatsReport.BadReleaseDate | backend/app/routes/stats.py:41 | one set release date without a year makes the whole handler fail with IndexError |
| StatsReport.NoKeys | backend/app/routes/stats.py:39-49 | a column no series sets yields no keys |
| StatsReport.EmptyCatalogue | backend/app/routes/stats.py:51-57 | an empty catalogue fails with ZeroDivisionError at line 51, not with the 404 |
| StatsReport.NoRatings | backend/app/routes/stats.py:51 | with no rating set, and every release date holding a year, the handler fails with ZeroDivisionError |
| StatsReport.NoReleaseDates | backend/app/routes/stats.py:52 | with ratings that convert but no release date, `max` of the empty year dict raises ValueError |
| StatsReport.WithFieldPositive | backend/app/routes/stats.py:39-49 | a series with the field set is counted among those that set it |
| StatsReport.RatingKeysConvert | backend/app/routes/stats.py:44-51 | when every stored rating converts, so does every rating key |
| StatsReport.ReportShape | backend/app/routes/stats.py:59-69 | a successful report counts every queried series (at least one), and each histogram is the key-sorted histogram of its column |
| StatsReport.DistinctRatingKeys | backend/app/routes/stats.py:44 | the ratings 9, 9, 6 leave two keys, 9 and 6, in that order |
| StatsReport.MeanOverDistinctRatings | backend/app/routes/stats.py:51 | the average is over distinct keys: series rated 9, 9 and 6 average 7.5, not 8 |
| StatsReport.StatsOfChecked | backend/app/routes/stats.py:56-57 | with the emptiness check first, the 404 is raised exactly for an empty catalogue, and otherwise the result is the handler's |
| RootLayout.HeaderFor | frontend/src/routes/__root.tsx:13-23 | the back button and the add button are never both shown |
| RootLayout.HomeHeader | frontend/src/routes/__root.tsx:13 | the home page shows the add and login buttons and no back button, and only `"/"` shows the add button |
| RootLayout.SearchHeader | frontend/src/routes/__root.tsx:14 | `/search` and `/search/` show the back and login buttons |
| RootLayout.LoginHeader | frontend/src/routes/__root.tsx:16 | the login button is hidden exactly on `/login` and `/login/` |
| RootLayout.DetailHeader | frontend/src/routes/__root.tsx:15 | every path under `/serie/` shows the back button |
| RootLayout.BackButton | frontend/src/routes/__root.tsx:15-21 | the back button shows exactly on the search page and under `/serie/` |
| RootLayout.SeriesPathHasNoBack | frontend/src/routes/__root.tsx:15 | as written, the detail pages at `/series/<id>` get no back button |
| RootLayout.HeaderForIntended | frontend/src/routes/__root.tsx:15-21 | with the `/series/` prefix the buttons are still never both shown, and nothing changes off the detail pages |
| RootLayout.SeriesPathHasBack | frontend/src/routes/__root.tsx:15 | with the `/series/` prefix every detail page shows the back button |
| DatabaseUrl.EngineUrl | backend/app/database.py:13-14 | the URL is missing exactly when the environment variable is |
| DatabaseUrl.RewritesScheme | backend/app/database.py:13-14 | a URL starting `mysql://` becomes `mysql+pymysql://` followed by the unchanged rest, 8 characters longer |
| DatabaseUrl.LeavesOthers | backend/app/database.py:13 | a missing URL, or one not starting `mysql://`, is left as it is |
| DatabaseUrl.Idempotent | backend/app/database.py:13-14 | the result never starts with `mysql://`, so rewriting twice is rewriting once |
| DatabaseUrl.SchemeThen | backend/app/database.py:14 | whatever follows the bare `mysql://` scheme is kept, character for character, after the driver scheme |
| DatabaseUrl.LaterOccurrenceSurvives | backend/app/database.py:14 | an illustration, on one URL, of the replacement count of one: a later `mysql://` survives (the general statements are `RewritesScheme` and `SchemeThen`) |

## Left out

- Markup.
  - JSX, CSS classes, the tag strings and React keys are not modelled. This
    includes `listKey` and its increment, and the `index` keys.
  - An element is an abstract `Block`. An inserted tag is an abstract
    `Open`/`Close` piece.
  - The HTML that `dangerouslySetInnerHTML` would interpret is not
    modelled. This is presentation, not behaviour.
- String units.
  - JavaScript strings are UTF-16 code units, and `slice` and `trim` count
    units. Here a string is a sequence of Unicode scalar values, so the
    model differs on characters outside the Basic Multilingual Plane.
- Regular expressions.
  - `.` is modelled as matching everything except `\n`, `\r`, U+2028 and
    U+2029, which is ECMAScript's rule. Other regex features are not used.
- InlineLines.FormatInlineLine: covers lines whose chunks are non-empty
  literal text and spans with text after each span. An empty span on its
  own is covered by `InlineSpans.FormatInlineSpan`. Two spans side by side, or a stray
  marker among spans, can be re-paired by a longer marker's pass. Such lines
  are covered only by `Markdown.FormatInlineUnformat`, which says no
  character is lost, added or moved.
- Stats.ReleaseYear: matches ASCII digits only. Python's `\d` also matches
  other Unicode decimal digits. Those are not modelled.
- Number conversion.
  - Python's `float` and `int` are the parameters `parseFloat` and
    `parseInt`. Each returns `None` where Python raises ValueError.
  - Averages are exact reals. Floating-point rounding, NaN and infinities
    are not modelled.
- Database and HTTP.
  - The ORM query, the session dependency, the router and the JSON encoding
    of the response are not modelled. The catalogue is the parameter
    `series`.
  - Only the four columns the handler reads are modelled. The HTTP 404 is
    the `NotFound` error.
- Environment.
  - `load_dotenv` and `os.getenv` are replaced by the parameter of
    `EngineUrl`.
  - `create_engine` and the session factory are not modelled.
- Header.
  - The `Header` component's rendering and the devtools panel are not
    modelled. Only the three props are.
- StatsReport.GetStats: models the handler as written, with the 404 check
  last. The intended order is `StatsReport.StatsOfChecked` (see Findings).

## Findings

| source | as written | input that shows it | evidently intended | confidence | as-written member | corrected member |
|---|---|---|---|---|---|---|
| backend/app/routes/stats.py:51-57 | the 404 check for an empty catalogue comes after the average at line 51 divides by the number of rating keys | an empty catalogue: line 51 raises ZeroDivisionError, and the 404 at line 57 is never raised for any input | check `if not series` first, so an empty catalogue gets the 404 | not executed | StatsReport.EmptyCatalogue | StatsReport.StatsOfChecked |
| frontend/src/routes/__root.tsx:15 | the detail test is `startsWith('/serie/')` | `/series/tt0903747`, the route the app navigates to (frontend/src/routes/search/index.tsx:55, frontend/src/routes/index.tsx:63): no back button | test the `/series/` prefix of the detail route | not executed | RootLayout.SeriesPathHasNoBack | RootLayout.HeaderForIntended |
