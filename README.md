# Blog front-end: tags and post directory

This project models the rendering logic of the blog's client script
`assets/js/site.js`. The script reads the post index, which is a list of
posts with title, url, date and tags. From it the script:

- builds the tag navigation: one link per tag with its number of
  occurrences (a post listing a tag twice counts twice), ordered by that
  number and then by name;
- keeps the first five tags visible and folds the rest behind a toggle
  button;
- lists the posts that carry the tag given in the `tag` query parameter
  (all posts when there is none), newest first;
- escapes titles and dates before they are written into HTML.

Modules:

- `JsString`: the string built-ins the script uses. `String.prototype.trim`
  over the ECMAScript white-space and line-terminator characters,
  `split` on one character with its inverse `Join`, and a code-point order
  `LexLe` that stands for `localeCompare`.
- `ArraySort`: `Array.prototype.sort` with a comparator, as a stable
  insertion sort. It is proved to give a permutation that respects the
  comparator and keeps tied elements in their original order.
- `TagExtractor`: the index entries (`Post`)
  and `getTags`. A `null` entry is `None`.
- `HtmlEscaper`: `escapeHtml` and a decoder that shows it loses nothing.
- `TagNavRenderer`: `renderTags`. It holds the tag tally as a `TagMap`
  class (a JavaScript `Map`: keys in insertion order, a count per key),
  filled by a loop. It also holds the ranking, the visible/active/collapsed
  classes, the initial expanded state, and the toggle button as a
  `TagToggle` class with its click handler.
- `PostListRenderer`: `renderPosts`. It holds the filter, the date sort, the
  "no matching posts" placeholder and the directory items.

The query parameter is a parameter of the model: `None` when absent. The
script's `!activeTag` and `!filter` tests treat absent and empty alike
(`IsSet`). The DOM is modelled as values: `TagNav`, `TagLink`,
`ToggleView`, `PostsView` and `DirItem` record the elements, and the
classes and attributes that depend on the data.

## Model

| member | source | states |
|---|---|---|
| TagExtractor.GetTags | assets/js/site.js:9-18 | a `null` post, or a `tags` field that is neither array nor string, yields no tags; an array is returned unchanged; every tag taken from a string is non-empty, trimmed and comma-free |
| TagExtractor.IsSet | assets/js/site.js:52 | the `tag` parameter is truthy: present and not empty (`!activeTag`, `!filter` negate it) |
| TagExtractor.TrimAll | assets/js/site.js:15 | `.map((s) => s.trim())`: same length, each piece trimmed |
| TagExtractor.StringTags | assets/js/site.js:12-16 | the tags split from a string are non-empty, trimmed and contain no comma |
| TagExtractor.KeepNonEmpty | assets/js/site.js:16 | `filter(Boolean)` keeps exactly the non-empty strings and never lengthens the list |
| TagExtractor.KeepNonEmptyIdentity | assets/js/site.js:16 | a list without empty strings passes `filter(Boolean)` unchanged |
| TagExtractor.KeepNonEmptyAppend | assets/js/site.js:16 | `filter(Boolean)` distributes over concatenation, so it keeps order |
| TagExtractor.TrimmedPiecesClean | assets/js/site.js:14-15 | the trimmed pieces of a split on commas are trimmed and comma-free |
| TagExtractor.TrimIsInfix | assets/js/site.js:15 | trimming never introduces a character, so trimmed split pieces stay comma-free |
| TagExtractor.StringTagsOfJoined | assets/js/site.js:12-16 | non-empty, trimmed, comma-free tags joined by commas, with any white space around each, give back exactly those tags in order |
| TagExtractor.StringTagsExample | assets/js/site.js:12-16 | `getTags` of a post whose tags are `"a, b ,c"` is `["a", "b", "c"]` |
| JsString.TrimStart | assets/js/site.js:15 | the result is a suffix of the input, everything removed is white space, and the result does not start with white space |
| JsString.TrimEnd | assets/js/site.js:15 | the result is a prefix of the input, everything removed is white space, and the result does not end with white space |
| JsString.Trim | assets/js/site.js:15 | the result has no white space at either end |
| JsString.TrimPadded | assets/js/site.js:15 | the trimmed text is a piece of the input with only white space removed around it |
| JsString.TrimUnique | assets/js/site.js:15 | trimming a trimmed core with any white space around it gives that core |
| JsString.TrimIdempotent | assets/js/site.js:15 | trimming twice is trimming once |
| JsString.Split | assets/js/site.js:14 | `split(",")` yields at least one piece, no piece holds the separator, and joining the pieces with it restores the input |
| JsString.SplitJoin | assets/js/site.js:14 | splitting pieces joined by a separator they do not contain gives back the pieces |
| JsString.JoinInjective | assets/js/site.js:14 | two lists of separator-free pieces that join to the same text are equal |
| JsString.LexLe | assets/js/site.js:42 | the order standing for `localeCompare`: lexicographic on code points, a prefix first |
| JsString.LexLeTotal | assets/js/site.js:42 | any two strings are comparable |
| JsString.LexLeTransitive | assets/js/site.js:42 | the string order is transitive |
| JsString.LexLeAntisymmetric | assets/js/site.js:117 | strings that compare equal both ways are equal, so date ties are equal dates |
| ArraySort.Insert | assets/js/site.js:41-43 | one step of the insertion sort standing for `Array.prototype.sort`: one element longer |
| ArraySort.Sort | assets/js/site.js:41-43 | `Array.prototype.sort` with a comparator: same length (its meaning is in the lemmas below) |
| ArraySort.InsertPermutes | assets/js/site.js:41-43 | inserting adds exactly the one element |
| ArraySort.SortPermutes | assets/js/site.js:41-43 | `sort` returns a permutation of its input, of the same length |
| ArraySort.InsertSorted | assets/js/site.js:41-43 | inserting into a list sorted by a total preorder keeps it sorted |
| ArraySort.SortSorted | assets/js/site.js:41-43 | under a total preorder every pair of the result is in comparator order |
| ArraySort.TiesOfMembers | assets/js/site.js:41-43 | the ties of `x` in `s` are exactly the elements of `s` that compare equal to `x` |
| ArraySort.TiesOfInsert | assets/js/site.js:41-43 | insertion places an element before every element of the list it ties with |
| ArraySort.SortStable | assets/js/site.js:117 | the elements that tie with any given element keep their relative order (ECMAScript's stable sort) |
| HtmlEscaper.EscapeChar | assets/js/site.js:140-144 | each of the five reserved characters becomes an entity `&...;`; every other character is kept |
| HtmlEscaper.EscapeHtml | assets/js/site.js:138-146 | escaping never shortens the text |
| HtmlEscaper.EscapedIsSafe | assets/js/site.js:138-146 | the escaped text holds no `<`, `>`, `"` or `'` |
| HtmlEscaper.UnescapeChar | assets/js/site.js:142 | each replacement decodes to its own character, whatever follows it |
| HtmlEscaper.UnescapeEscape | assets/js/site.js:138-146 | decoding the escaped text gives the input back, so escaping is injective |
| HtmlEscaper.EscapeIdentity | assets/js/site.js:138-146 | escaping leaves a text unchanged exactly when it holds none of the five reserved characters |
| HtmlEscaper.EscapeAppend | assets/js/site.js:139-140 | the global replace works piece by piece: escaping a concatenation is concatenating the escapes |
| TagNavRenderer.OccurrencesPositive | assets/js/site.js:37-40 | a tag is counted at least once exactly when some post carries it |
| TagNavRenderer.FirstSeen | assets/js/site.js:36-40 | the Map's keys are distinct and are exactly the tags met |
| TagNavRenderer.CountsOfOccurrences | assets/js/site.js:37-40 | after the loop the Map holds exactly the tags met, each with the number of times it was met |
| TagNavRenderer.TallyStep | assets/js/site.js:39 | one `tagMap.set(t, (tagMap.get(t) or 0) + 1)` keeps the Map a tally of the tags seen so far, one more |
| TagNavRenderer.EntriesOfTally | assets/js/site.js:41 | `tagMap.entries()` of a tally has one entry per key in insertion order, with its count |
| TagNavRenderer.TagMap.constructor | assets/js/site.js:36 | a new Map is empty |
| TagNavRenderer.TagMap.Entries | assets/js/site.js:41 | `[...tagMap.entries()]`: the pairs in key insertion order |
| TagNavRenderer.TagMap.Increment | assets/js/site.js:39 | a new tag is appended with count 1; a known tag keeps its place and its count goes up by one; nothing else changes |
| TagNavRenderer.AddTags | assets/js/site.js:38-39 | the inner loop over one post's tags turns a tally of the tags seen before into a tally that also counts that post's tags |
| TagNavRenderer.Tally | assets/js/site.js:36-40 | one entry per distinct tag, in first-seen order, each with the number of times posts carry it (at least one) |
| TagNavRenderer.TallyOf | assets/js/site.js:36-40 | the tally of a tag list: distinct tags, exactly those met, each with its occurrence count |
| TagNavRenderer.TallyTags | assets/js/site.js:36-41 | the nested `forEach` loops over posts and tags build exactly `Tally(posts)` |
| TagNavRenderer.RankLe | assets/js/site.js:42 | the comparator `b[1] - a[1] or a[0].localeCompare(b[0])` is at most zero: more occurrences first, equal counts by tag |
| TagNavRenderer.RankLeIsTotalPreorder | assets/js/site.js:41-43 | the comparator "count descending, then tag" is a total preorder |
| TagNavRenderer.DistinctTagsOnce | assets/js/site.js:41-43 | in a list of distinct tags each entry occurs once |
| TagNavRenderer.Ranked | assets/js/site.js:41-43 | `sorted` is a permutation of the tally with distinct tags, ordered by count descending and, for equal counts, by tag |
| TagNavRenderer.RankExample | assets/js/site.js:41-43 | counts `{C: 1, B: 3, A: 3}` rank as A, B, C |
| TagNavRenderer.RankedContents | assets/js/site.js:36-43 | a tag appears in `sorted` exactly when some post carries it, and then once, with its occurrence count |
| TagNavRenderer.FindIndex | assets/js/site.js:74 | `findIndex` is -1 when no entry has the tag, otherwise the first index whose entry has it |
| TagNavRenderer.InitiallyExpanded | assets/js/site.js:72-76 | the list starts expanded exactly when the tag parameter is set and its tag sits at index 5 or later |
| TagNavRenderer.TagLinks | assets/js/site.js:61-69 | one link per entry of `sorted`, in order, with its tag and count, visible iff among the first 5, active iff its tag is the parameter |
| TagNavRenderer.RenderTags | assets/js/site.js:31-98 | "all" is active iff no tag is set; no list iff there are no tags; link i shows entry i of `sorted`, is visible iff i < 5 and active iff its tag equals the parameter, and at most one link is active; the list is collapsed iff not initially expanded; the toggle exists iff there are more than 5 tags, with the label and `aria-expanded` of the state |
| TagNavRenderer.LabelFor | assets/js/site.js:87 | the button text: "collapse tags" when expanded, "expand all tags (total)" otherwise (also line 93) |
| TagNavRenderer.RenderTagsWithToggle | assets/js/site.js:31-98 | when the button is shown, the click handler's state starts from what was rendered: `expanded` is the initial state, `total` the number of tags, and the list class, label and `aria-expanded` are the rendered ones |
| TagNavRenderer.TagToggle.constructor | assets/js/site.js:82-88 | the button starts in the given state, with the list class, label and `aria-expanded` matching it |
| TagNavRenderer.TagToggle.Click | assets/js/site.js:89-95 | a click flips `expanded` and brings the list's `collapsed` class, the label and `aria-expanded` in line with it |
| TagNavRenderer.ClickTwice | assets/js/site.js:89-95 | two clicks restore the button and the list exactly |
| PostListRenderer.DateKey | assets/js/site.js:117 | `p.date or ""` |
| PostListRenderer.DateLe | assets/js/site.js:117 | the comparator `(b.date or "").localeCompare(a.date or "")` is at most zero: `a` is at least as recent as `b` |
| PostListRenderer.Keeps | assets/js/site.js:106-108 | the filter callback: no filter keeps every entry, otherwise the entry's tags must include the filter |
| PostListRenderer.DateLeIsTotalPreorder | assets/js/site.js:117 | the date comparator is a total preorder |
| PostListRenderer.DateTiedIffSameDate | assets/js/site.js:117 | two posts tie under the date comparator exactly when their dates (missing as "") are equal |
| PostListRenderer.Shown | assets/js/site.js:105-109 | an entry is shown exactly when it is in the index and has the filter tag; no filter shows the whole index; with a filter no `null` entry is shown |
| PostListRenderer.ShownAppend | assets/js/site.js:105-109 | the filter distributes over concatenation, so it keeps index order |
| PostListRenderer.Present | assets/js/site.js:121 | the entries, all present, as posts in the same order |
| PostListRenderer.SortByDate | assets/js/site.js:117 | a permutation of the shown posts, newest date first |
| PostListRenderer.UndatedLast | assets/js/site.js:117 | posts without a date come after every dated post |
| PostListRenderer.SortByDateStable | assets/js/site.js:117 | posts with the same date keep their index order |
| PostListRenderer.ItemFor | assets/js/site.js:121-129 | an item links to the post's url; its title and date texts are `escapeHtml` of the title and of the date (or ""), hold no `<`, `>`, `"` or `'`, and decode back to them |
| PostListRenderer.DirectoryItems | assets/js/site.js:121-129 | one directory item per sorted post, in order |
| PostListRenderer.RenderPosts | assets/js/site.js:100-136 | the placeholder iff nothing is shown; a throw iff a shown entry is `null`, which happens only without a filter; otherwise one item per shown post, in date order |

## Left out

- Fetching `/index.json`, the `res.ok` test, JSON parsing and the `catch` block that writes the load error into the page: network I/O and exception text. The index is a parameter: a sequence of entries.
- An index that is not an array: the model takes the index as a sequence.
- `URLSearchParams(location.search).get("tag")`: the parameter is an input of `RenderTags` and `RenderPosts`. Percent-decoding is not modelled.
- `window.__getTags`: the global is always set before both renderers run, so the model calls `GetTags` directly.
- DOM construction: `createElement`, `appendChild` and `innerHTML` assignments are modelled by the values `TagNav` and `PostsView`.
- `encodeURIComponent` in the tag link `href`, and the link text `tag (count)`: the link records the tag and count they are built from.
- The Chinese toggle labels and the "no matching posts" placeholder: modelled by the constructors `ToggleLabel.CollapseTags`, `ToggleLabel.ExpandAllTags(total)` and `PostsView.NoMatches`, not by their text.
- The text of the "all" link and the directory heading (文章目录, in both the placeholder and the list): not modelled.
- Markup that does not depend on the data: the fixed class `tag` on every tag link, the list class `tags-list`, the toggle's `type="button"` and class `tag-toggle`, the "all" link's `href="./"`, and the directory's classes `directory`, `dir-title`, `dir-list`, `dir-item`, `meta` and `loading`. Only the data-dependent classes (`active`, `visible`, `collapsed`) and attributes are recorded.
- `e.preventDefault()` in the click handler: it has no state the model keeps.
- JsString.LexLe: stands for `localeCompare`. It is plain code-point order. The locale-sensitive collation of `Intl.Collator` (accents, case, CJK ordering) is not modelled, so the tag and date order follow code points.
- `String(s)` in `escapeHtml`, and non-string titles, dates or array tag elements: the model types them as strings. Array elements of `tags` are kept unchanged, which matches the script for strings.
- A post's `url` is written into the `href` unescaped. The model records it unchanged (`DirItem.href`).
- PostListRenderer.RenderPosts: `Threw` stands for the `TypeError` raised on a `null` entry when no filter is set. Its message and what the outer `catch` then shows are not modelled.
- Index entries that are neither `null` nor a post object (`false`, `0`, `""`, other numbers or strings): the model has no such entry. Without a filter the script keeps them and renders an item with `href="undefined"`, the title text `undefined` and an empty date, instead of throwing; with a filter `getTags` gives them no tags, so they are never shown.
- The JavaScript `Map` is modelled by `TagMap`, a class holding its keys in insertion order and a map of counts. Aliasing of DOM nodes between the click handler and the list is modelled by the one `TagToggle` object that holds both states.
