# jratul.github.io blog core, modelled in Dafny

The blog is a static site. Two build scripts produce its data:
`scripts/generate-posts-index.ts` walks the markdown files under `src/pages` and
writes a posts index, and `scripts/generate-sitemap.ts` writes a sitemap for the
posts. In the browser, a hook loads the index and
derives a tag-frequency table and a filtered post list from it. Small utilities
render reading times and relative dates in Korean. The tag cloud draws tags with a
rotation picked by a 32-bit string hash.

This project models that data core and proves what it promises:

- `text.dfy` (`Text`): the string primitives the code relies on. These are the
  ECMAScript whitespace set, lower-casing, substring search, `trim`, and decimal
  rendering and reading of integers.
- `seqs.dfy` (`Seqs`): order-preserving filtering, subsequences and distinctness.
- `stable_sort.dfy` (`StableSort`): a stable sort, newest or largest first. It is
  specified by a function on sequences and carried out in place on an array. A
  stable sort has only one possible result, so this is the result of
  `Array.prototype.sort` with the same comparator.
- `blog.dfy` (`Blog`): the record shapes `PostMeta`, `PostsIndex` and `TagFrequency`.
- `posts_index.dfy` (`PostsIndexBuilder`): the index generator. The file tree is a
  recursive datatype; a file that cannot be read has no contents. The front-matter
  parser, the path separator and the clock are parameters. The clock is the series of
  values `new Date()` gives, one per reading: the walk reads it once for every post
  without a date, in the order the posts are built, and the index stamp reads it once
  more after the walk. Dates are integer timestamps.
- `use_posts.dfy` (`UsePosts`): the `usePosts` hook. It is a class whose fields are
  the hook's state slots. The memoised views are functions of those fields, except
  the tag-frequency table, which is the counting loop over a map followed by the
  in-place sort. The fetch is a method that receives its outcome.
- `reading_time.dfy` (`ReadingTime`): `calculateReadingTime` and `formatReadingTime`.
- `sitemap.dfy` (`Sitemap`): `generateSitemap`, which writes the Sitemaps XML format
  (sitemaps.org protocol 0.9). It comes with a reader that recovers the URL list from
  the text.
- `format_date.dfy` (`FormatDate`): `getRelativeTime`, which takes the millisecond
  difference as input, and the fallback of `formatDate`.
- `tag_cloud.dfy` (`TagCloud`): `hashString`, the rotation choice, the `#` prefix and
  its removal, and the count range that scales font sizes.

Behaviour the model follows from the code where a plain reading would suggest
otherwise:

- A tag's count is its number of occurrences. A tag listed twice in one post counts
  twice. The counts add up to the number of tag occurrences, so they can add up to
  less than the number of posts when some posts have no tags
  (`UsePosts.TagFrequencyTableTotal`).
- Equal counts keep the order in which their tags were first met, because the map
  keeps insertion order and the sort is stable.
- Toggling a tag twice restores the selection exactly when the tag was not
  selected, or was selected once as the last tag. Otherwise the second toggle moves
  a single copy to the end, so only the set of selected tags is restored.
- An unparseable date makes `getRelativeTime` return "NaN년 전". The date parser
  does not throw, every comparison with NaN is false, and the catch branch is never
  reached.
- A date in the future gives a negative day difference, which is shown as
  "{d}일 전" with a negative d.
- Nothing is escaped in the sitemap. A slug or date containing `<` cannot be read
  back from the document.

## Model

| member | source | states |
|---|---|---|
| Text.Trim | src/hooks/usePosts.ts:66 | the result is a contiguous stretch of the input; only whitespace was dropped at either end; the result neither starts nor ends with whitespace; it is empty exactly when the input is all whitespace |
| Text.Lower | src/hooks/usePosts.ts:67 | the lower-cased string has the input's length and maps each character on its own |
| Text.IndexOf | src/components/blog/TagCloud.tsx:203 | the position of the first occurrence of the character, or the length when it does not occur |
| Text.IntToStringRoundTrip | src/utils/readingTime.ts:22 | reading back the decimal rendering of any integer gives that integer |
| Seqs.Filter | src/hooks/usePosts.ts:60-62 | every kept element passes the test, and no more elements are kept than there were |
| Seqs.FilterCounts | src/hooks/usePosts.ts:60-62 | each element's multiplicity is kept when it passes the test and is zero otherwise |
| Seqs.FilterSubsequence | src/hooks/usePosts.ts:60-62 | the kept elements are an order-preserving subsequence of the input |
| Seqs.FilterAll | src/hooks/usePosts.ts:60-62 | with a test every element passes, the input is returned unchanged |
| Seqs.FilterAppend | src/hooks/usePosts.ts:85 | filtering a concatenation is the concatenation of the filtered parts |
| Seqs.SubsequenceTrans | src/hooks/usePosts.ts:56-78 | a subsequence of a subsequence is a subsequence, so two chained filters keep the original order |
| StableSort.SortInPlace | scripts/generate-posts-index.ts:86 | the array ends up holding the stable descending sort of its old contents |
| StableSort.InsertNext | scripts/generate-posts-index.ts:86 | one pass moves the next element into the sorted prefix exactly where insertion puts it, and leaves the rest of the array alone |
| StableSort.SortDescSorted | scripts/generate-posts-index.ts:86 | the sort's result is ordered by key, largest first, and has the input's length |
| StableSort.SortDescPermutes | scripts/generate-posts-index.ts:86 | the sort's result is a permutation of the input |
| StableSort.SortDescStable | scripts/generate-posts-index.ts:86 | for every key, the elements with that key appear in the same order as in the input |
| PostsIndexBuilder.CalculateReadingTime | scripts/generate-posts-index.ts:21-25 | the minutes are the ceiling of words / 200, at least 1, and equal the client utility's result at its default speed |
| PostsIndexBuilder.NormalizeSeparators | scripts/generate-posts-index.ts:51 | no backslash is left; same length, and every backslash becomes a slash while every other character is kept |
| PostsIndexBuilder.Slug | scripts/generate-posts-index.ts:50-51 | the slug holds no backslash; it is 3 shorter than a path ending in ".md"; each character is the path's character with backslash turned into slash |
| PostsIndexBuilder.BlankMarkdownControls | scripts/generate-posts-index.ts:61 | none of `#`, `*`, backtick and newline is left; same length, each of them becomes a space and every other character is kept |
| PostsIndexBuilder.ExcerptHead | scripts/generate-posts-index.ts:61 | a prefix of the body of at most 150 characters, and the whole body when it is that short |
| PostsIndexBuilder.DerivedExcerpt | scripts/generate-posts-index.ts:61 | at most 150 characters, none of `#`, `*`, backtick or newline; exactly the stretch of the blanked head left after dropping whitespace at both ends: what was dropped is whitespace, the excerpt neither starts nor ends with whitespace, and it is empty exactly when the blanked head is all whitespace |
| PostsIndexBuilder.TrimmedBlankedIsControlFree | scripts/generate-posts-index.ts:61 | trimming the blanked text brings back none of `#`, `*`, backtick and newline and makes it no longer |
| PostsIndexBuilder.MakePost | scripts/generate-posts-index.ts:56-65 | each field of the record: a falsy title falls back to the slug, a missing date to the next clock reading, missing tags to none, a falsy excerpt to the derived one; the content is the body unchanged and the reading time is computed from that body |
| PostsIndexBuilder.FilePosts | scripts/generate-posts-index.ts:44-70 | a file yields one post exactly when its name ends in ".md" and it reads and parses, and none otherwise; that post is built from the parse result |
| PostsIndexBuilder.Scan | scripts/generate-posts-index.ts:30-73 | the recursive walk appends exactly the posts of the listing, in listing order and depth first, to the accumulated list, and ends with the clock readings the walk of that listing has taken |
| PostsIndexBuilder.ScanMarkdownFiles | scripts/generate-posts-index.ts:27-77 | the posts of the whole tree and the clock readings their dates took; a missing root yields no posts, no readings and no error |
| PostsIndexBuilder.Walk | scripts/generate-posts-index.ts:30-73 | a walk never takes back clock readings: the count after it is at least the count before |
| PostsIndexBuilder.GeneratePostsIndex | scripts/generate-posts-index.ts:82-91 | the index is the scanned posts, permuted, newest first, and with equal dates in scan order; it is stamped with the clock reading taken after the walk, and with a clock that never goes back no post dated by the clock is later than the stamp |
| PostsIndexBuilder.WalkCount | scripts/generate-posts-index.ts:38-72 | the walk yields one post per markdown file that reads and parses: failing files are skipped, other files ignored, directories descended into |
| PostsIndexBuilder.ScannedCount | scripts/generate-posts-index.ts:31-34 | the number of posts equals the number of parseable markdown files, and is zero when the root is missing |
| PostsIndexBuilder.WalkWellBuilt | scripts/generate-posts-index.ts:49-63 | every collected record has a slug without backslash and a reading time of at least 1 computed from its own content |
| PostsIndexBuilder.WalkDates | scripts/generate-posts-index.ts:38-72 | every collected date is written in some file's front matter or is one of the clock readings taken during that walk |
| PostsIndexBuilder.ClockDatesPrecedeStamp | scripts/generate-posts-index.ts:59-90 | with a clock that never goes back, every post whose date came from the clock is no later than the reading taken after the walk |
| PostsIndexBuilder.SlugOfSameFile | scripts/generate-posts-index.ts:50-51 | two relative directories that differ only in separator give a markdown file the same slug |
| PostsIndexBuilder.FileIndependentOfSeparator | scripts/generate-posts-index.ts:44-51 | apart from the file path, a file yields the same records whether its directory is written with `\` or with `/` |
| PostsIndexBuilder.WalkIndependentOfSeparator | scripts/generate-posts-index.ts:39-59 | apart from the file path, the collected records do not depend on the host's path separator, and neither does the number of clock readings |
| PostsIndexBuilder.ScanIndependentOfSeparator | scripts/generate-posts-index.ts:39-59 | the scan from the content root gives the same records and takes the same clock readings with `\` and with `/` as separator, so the index stamp is the same too |
| UsePosts.FirstSeen | src/hooks/usePosts.ts:39-47 | the map's keys in insertion order: distinct, and exactly the tags that occur |
| UsePosts.FirstSeenOrder | src/hooks/usePosts.ts:39-47 | the keys keep the order of first occurrence: a key listed before another occurs in the tags before any occurrence of the later one |
| UsePosts.Tally | src/hooks/usePosts.ts:39-48 | one entry per distinct tag, in first-seen order, whose count is the tag's number of occurrences |
| UsePosts.TagFrequencyTableCounts | src/hooks/usePosts.ts:39-48 | every tag that occurs has exactly one entry; each entry's count equals the tag's occurrences over all posts and is at least 1 |
| UsePosts.PermutedTallyCounts | src/hooks/usePosts.ts:39-49 | any reordering of the tally, the sorted table included, lists every tag that occurs, each with its number of occurrences and at least 1 |
| UsePosts.TagFrequencyTableOrder | src/hooks/usePosts.ts:47-49 | the table is ordered by count, largest first, and equal counts keep first-seen order |
| UsePosts.TagFrequencyTableTotal | src/hooks/usePosts.ts:39-48 | the counts add up to the total number of tag occurrences |
| UsePosts.CountMap | src/hooks/usePosts.ts:42-44 | the map left by counting a sequence of tags has exactly those tags as keys, each with its number of occurrences |
| UsePosts.CountStep | src/hooks/usePosts.ts:43 | one increment of a tag's count, starting from zero for an absent tag, turns the counts of what was seen into the counts of what was seen plus that tag, adding a new key at the end only for a new tag |
| UsePosts.CountIntoCounts | src/hooks/usePosts.ts:42-44 | counting more tags into a map that counts what was seen gives the counts and first-seen keys of everything seen |
| UsePosts.CountPostTags | src/hooks/usePosts.ts:42-44 | the inner loop leaves the keys and map of counting the post's tags one at a time, so the map holds, for every tag seen so far, its number of occurrences, and its keys in first-seen order |
| UsePosts.CountTags | src/hooks/usePosts.ts:39-47 | the counting loops over all posts produce exactly the tally of all tag occurrences |
| UsePosts.FilterPosts | src/hooks/usePosts.ts:56-78 | the view is an order-preserving subsequence; a post is kept exactly when it shares a selected tag (when tags are selected) and, for a query that is not blank, the untrimmed lower-cased query occurs in its lower-cased title, content or a tag; no tags and a blank query keep every post |
| UsePosts.Without | src/hooks/usePosts.ts:85 | every copy of the tag is removed; the rest is an order-preserving subsequence in which every other tag keeps its multiplicity; without the tag the selection is returned as it is |
| UsePosts.ToggledChangesOnlyTag | src/hooks/usePosts.ts:82-88 | toggling flips whether the tag is selected; removing leaves the other tags as an order-preserving subsequence with all their copies; adding appends the tag after the current selection; either way the other tags are as they were |
| UsePosts.ToggleTwiceRestores | src/hooks/usePosts.ts:82-88 | toggling a tag twice restores the exact selection if and only if the tag was unselected, or selected once as the last tag |
| UsePosts.ToggleTwiceSameSet | src/hooks/usePosts.ts:82-88 | toggling any tag twice restores the set of selected tags |
| UsePosts.FindBySlug | src/hooks/usePosts.ts:98 | the first post with the slug, and nothing exactly when no post has it |
| UsePosts.FindBySlugRoundTrip | src/hooks/usePosts.ts:97-99 | with unique slugs, looking up a post's slug finds that post |
| UsePosts.PostsHook.constructor | src/hooks/usePosts.ts:7-12 | the initial state: no index, loading, no error, empty query, the initial tags (none by default) |
| UsePosts.PostsHook.LoadPosts | src/hooks/usePosts.ts:16-30 | loading ends; a fetched index is stored; a bad response or a thrown error records the message ("Unknown error" for a non-Error) and leaves the index as it was |
| UsePosts.PostsHook.TagFrequencies | src/hooks/usePosts.ts:36-50 | the counting loop and the in-place sort give the tag-frequency table of the loaded posts, and an empty table before loading |
| UsePosts.PostsHook.FilteredPosts | src/hooks/usePosts.ts:53-79 | an order-preserving subsequence of the loaded posts with the filter's membership rule; empty before loading; all posts when no filter is active |
| UsePosts.PostsHook.SetSearchQuery | src/hooks/usePosts.ts:11 | the query becomes the given text and nothing else changes |
| UsePosts.PostsHook.ToggleTag | src/hooks/usePosts.ts:82-88 | the selection becomes the toggled selection, and nothing else changes |
| UsePosts.PostsHook.ClearFilters | src/hooks/usePosts.ts:91-94 | the query is empty and no tag is selected, so the filtered view is every loaded post |
| UsePosts.PostsHook.GetPostBySlug | src/hooks/usePosts.ts:97-99 | the first loaded post with that slug, the same as looking it up in the loaded index; nothing exactly when no loaded post has it, and nothing before loading |
| ReadingTime.SplitOnWhitespace | src/utils/readingTime.ts:11 | the split has one piece more than there are whitespace runs; the pieces hold no whitespace and together hold every other character in order |
| ReadingTime.WordCount | src/utils/readingTime.ts:11 | the word count is the number of whitespace runs plus one, so at least 1 even for empty content |
| ReadingTime.CeilDiv | src/utils/readingTime.ts:12 | the ceiling of the quotient: the smallest q with a <= q * b |
| ReadingTime.CalculateReadingTime | src/utils/readingTime.ts:7-13 | the minutes are the ceiling of words / speed and at least 1 |
| ReadingTime.CeilDivMonotone | src/utils/readingTime.ts:11-12 | more words never take fewer minutes |
| ReadingTime.FormatReadingTime | src/utils/readingTime.ts:20-33 | under an hour, "{m}분"; from an hour on, h >= 1 hours and 0 <= r <= 59 minutes with h * 60 + r equal to the input, r left out when zero |
| ReadingTime.FormatReadingTimeRoundTrip | src/utils/readingTime.ts:20-33 | reading the rendered text back gives the minutes again, so no two inputs render alike |
| ReadingTime.MinutesRoundTrip | src/utils/readingTime.ts:21-23 | "{m}분" reads back as m |
| ReadingTime.HoursRoundTrip | src/utils/readingTime.ts:28-30 | "{h}시간" reads back as h * 60 |
| ReadingTime.HoursMinutesRoundTrip | src/utils/readingTime.ts:32 | "{h}시간 {r}분" reads back as h * 60 + r |
| Sitemap.Urls | scripts/generate-sitemap.ts:18-27 | two more entries than posts: the home page (1.0, weekly) and the about page (0.8, monthly) without lastmod, then each post in order with loc "/post/" + slug, its date as lastmod, 0.9 and monthly |
| Sitemap.Blocks | scripts/generate-sitemap.ts:31-39 | one block per URL, in order |
| Sitemap.GenerateSitemap | scripts/generate-sitemap.ts:29-41 | the document starts with the XML declaration and the protocol 0.9 `urlset` tag and ends with `</urlset>` |
| Sitemap.ParseLocRoundTrip | scripts/generate-sitemap.ts:33-34 | the `<loc>` line holds the base URL followed by the entry's loc |
| Sitemap.ParseLastmodRoundTrip | scripts/generate-sitemap.ts:35 | a `<lastmod>` element is written exactly when lastmod is truthy, and holds that value |
| Sitemap.ParseFrequencyAndPriorityRoundTrip | scripts/generate-sitemap.ts:36-38 | the change frequency and priority lines hold the entry's values |
| Sitemap.ParseBlockRoundTrip | scripts/generate-sitemap.ts:33-38 | one block holds every field of its entry, with a falsy lastmod not written |
| Sitemap.ParseBlocksRoundTrip | scripts/generate-sitemap.ts:31-40 | the newline-joined blocks hold every entry, in order |
| Sitemap.SitemapRoundTrip | scripts/generate-sitemap.ts:17-42 | reading the document back gives the URL list exactly, in order, when slugs and dates contain no `<` |
| FormatDate.DayDifference | src/utils/formatDate.ts:32-33 | the floor of the difference over 86 400 000 ms: d days with d * day <= diff < (d + 1) * day; negative for a future date |
| FormatDate.Bucket | src/utils/formatDate.ts:35-40 | today exactly at 0, yesterday at 1, days for any other d < 7 (negative included), weeks 1..4 for 7..29, months 1..12 for 30..364, years >= 1 from 365, each with the floor quotient |
| FormatDate.GetRelativeTime | src/utils/formatDate.ts:28-45 | the label is the rendering of the bucket of the day difference and reads back as that bucket; an unparseable date gives "NaN년 전" |
| FormatDate.RenderRoundTrip | src/utils/formatDate.ts:35-40 | every label reads back as its bucket, so distinct buckets never share a label |
| FormatDate.BucketMonotone | src/utils/formatDate.ts:35-40 | a larger day difference never moves to a younger bucket, and within a bucket never shows a smaller number |
| FormatDate.FormatDate | src/utils/formatDate.ts:10-21 | the formatted date, with "yyyy년 MM월 dd일" when no pattern is given, or the input string unchanged when parsing or formatting fails |
| TagCloud.ToInt32 | src/components/blog/TagCloud.tsx:29 | the value in [-2^31, 2^31) congruent to the input modulo 2^32 |
| TagCloud.ToInt32Congruent | src/components/blog/TagCloud.tsx:28-29 | congruent integers wrap to the same 32-bit value |
| TagCloud.HashStep | src/components/blog/TagCloud.tsx:28-29 | one step, shift, subtract, add and `h & h`, equals ToInt32(31 * h + c) |
| TagCloud.CharCodeUnits | src/components/blog/TagCloud.tsx:27 | a character's UTF-16 code units: one unit below U+10000, else a surrogate pair that decodes back to the character |
| TagCloud.CodeUnits | src/components/blog/TagCloud.tsx:26-27 | between one and two code units per character, each below 2^16 |
| TagCloud.HashFoldIsPolynomial | src/components/blog/TagCloud.tsx:24-31 | wrapping after every step gives the same hash as wrapping the unwrapped polynomial sum of c_i * 31^(n-1-i) once |
| TagCloud.HashValue | src/components/blog/TagCloud.tsx:24-32 | the hash is in [0, 2^31] |
| TagCloud.HashString | src/components/blog/TagCloud.tsx:24-32 | the loop's result is the absolute value of the wrapped polynomial hash of the code units, in [0, 2^31], and 0 for the empty string |
| TagCloud.RotationIndex | src/components/blog/TagCloud.tsx:103 | an index in [0, 8), congruent to the hash modulo 8 |
| TagCloud.Rotation | src/components/blog/TagCloud.tsx:99-104 | one of 0, -45 or 45, decided by the index: 0 for 0, 1, 2, 5; -45 for 3, 6; 45 for 4, 7 |
| TagCloud.WordText | src/components/blog/TagCloud.tsx:88 | the word is "#" followed by the tag |
| TagCloud.StripHash | src/components/blog/TagCloud.tsx:203 | with a '#' in the text, the text with its first '#' removed (one character shorter, everything before and after that '#' kept); the text unchanged when it holds none |
| TagCloud.StripHashRoundTrip | src/components/blog/TagCloud.tsx:232 | stripping a word's text gives back exactly its tag, even a tag that contains '#' |
| TagCloud.SelectionOfWord | src/components/blog/TagCloud.tsx:203 | a word is shown as selected exactly when its own tag is selected |
| TagCloud.MaxCount | src/components/blog/TagCloud.tsx:77 | a count that occurs and bounds every count from above |
| TagCloud.MinCount | src/components/blog/TagCloud.tsx:78 | a count that occurs and bounds every count from below |
| TagCloud.CountRange | src/components/blog/TagCloud.tsx:79 | the range is at least 1, and is max - min when the counts differ |
| TagCloud.PrepareWords | src/components/blog/TagCloud.tsx:74-92 | no layout exactly when there are no tags; otherwise one word per tag with its "#" text and count, and a scale between 0 and 1 over a nonzero denominator |
| TagCloud.ScaleFollowsCounts | src/components/blog/TagCloud.tsx:77-83 | all words share the denominator; a larger count never gets a smaller scale; the smallest count gets 0 and, when counts differ, the largest gets 1 |

## Left out

- File system and process I/O are not modelled: directory listing, `stat`, reading and writing files, creating `public/`, `process.exit` and console output. The tree is a value, and a failed read is a file without contents.
- Front-matter parsing (`gray-matter`) is a parameter. Front-matter values that are not strings, timestamps or lists of strings are not modelled, for example a `tags` value that is not a list. A front-matter `date` is modelled as a millisecond timestamp; whether YAML gave it as a string or as a Date object, and what `new Date(...)` makes of a string, is not modelled.
- `path.join` and `path.relative` are not modelled. Paths are built by concatenation with the host's separator, starting from `src/pages`.
- PostsIndexBuilder.ClockDatesPrecedeStamp: holds only for a clock that never goes back. A system clock set back during the build can stamp the index earlier than a post it dated.
- Date parsing and formatting (`new Date`, `toISOString`, `parseISO`, date-fns `format` with the Korean locale) are parameters or integer timestamps. The sitemap keeps the index's date text as it is.
- `fetch`, `response.json()`, JSON serialisation of the index and the timing of asynchronous updates are not modelled; the load method receives its outcome.
- React memoisation and re-rendering are not modelled. The derived views are recomputed from the current fields.
- Text.Lower: maps only ASCII `A`-`Z`, because full Unicode lower-casing (including length-changing mappings) is not modelled.
- ReadingTime.CalculateReadingTime: requires a speed of at least 1. Zero, negative and fractional speeds give `Infinity`, negative or non-integer results in JavaScript and are not modelled.
- ReadingTime.FormatReadingTime: takes integer minutes. Fractional minutes and JavaScript's exponent notation for numbers of 1e21 and above are not modelled.
- PostsIndexBuilder.ExcerptHead: counts characters, while `slice(0, 150)` counts UTF-16 code units. They differ only for characters above U+FFFF.
- Sitemap.SitemapRoundTrip: stated only for slugs and dates without `<`, because the generator writes values without XML escaping.
- The tag cloud's layout (d3-cloud), SVG drawing, gradients, transitions, resize handling and tooltip text are not modelled. The font size `16 + scale^0.6 * 64` is floating point and is not modelled either; the scale is kept as an exact fraction.
- The `catch` branch of `getRelativeTime` is not modelled, because nothing in its `try` block throws.
- The hook's `error` field holds the error message rather than an `Error` object.
