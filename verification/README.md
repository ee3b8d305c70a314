# Media search core, modelled in Dafny

This project models the pure part of the media search of an anime/manga
community bot. A search asks the catalog for one media and asks, for every
member of the community, that member's list entry for the media. It then
builds two lists of strings:

- **results**: up to seven descriptive lines about the media, then one block
  per non-empty status bucket.
  - The descriptive lines cover episodes, status, average score, mean score,
    popularity, favourites and genres.
  - Each descriptive line is trimmed of double quotes at both ends. A line
    whose text contains `null` is dropped.
  - The blocks come in the fixed order Repeating, Current, Completed,
    Planning, Paused, Dropped.
  - Each block lists one formatted line per member whose entry has that
    status, in member order.
- **info**: four identity strings (title, page URL, cover image, banner
  image). Each is the field's JSON text with its leading and trailing double
  quotes removed.

The per-member record (`user_scores`) is a map from field name to the JSON
text of that field. A missing entry gives only `status = "null"`. Because
everything is classified and printed through JSON text, the model includes
the JSON library's compact serialisation of scalars (`Json.Render`, with
full string escaping). `Json.Unescape` is its inverse.

Modules, in dependency order:

| file | module | contents |
|---|---|---|
| options.dfy | `Options` | `Option` |
| filter_map.dfy | `FilterMaps` | `FilterMap`, the map-then-filter shape shared by the buckets, the descriptive lines and the blocks; `Rank` and its lemmas |
| json.dfy | `Json` | JSON scalars, their text form, escaping and unescaping |
| text.dfy | `Text` | `contains`, `trim_matches`, `replace`, `join`, and English thousands grouping |
| records.dfy | `Records` | the per-user record |
| status.dfy | `Status` | status classification and the three line formats |
| buckets.dfy | `Buckets` | the member loop (`Aggregate`) and its reference definition (`Bucket`) |
| assembly.dfy | `Assembly` | descriptive lines, blocks, identity fields, `Report` / `Search` |

## Model

| member | source | states |
|---|---|---|
| Records.UserRecord | src/api/search_media.rs:29-48 | A missing entry yields exactly `{status: "null"}`. A present entry yields exactly the five keys progress, status, score, progressVolumes and repeat, each holding the JSON text of that field. |
| Records.RecordShape | src/api/search_media.rs:29-46 | The record has only the status key iff the entry is missing. It has a repeat key iff the entry is present. Its status reads `null` iff the entry is missing or its status is JSON null. |
| Records.RepeatIsZero | src/api/search_media.rs:44 | The repeat text is `0` exactly when the repeat value is the integer 0. No other JSON value prints as `0`. |
| Json.Render | src/api/search_media.rs:37-44 | The compact JSON text of a scalar, as the library prints it: `null`, `true` or `false`, a decimal integer with a leading minus when negative, a float as whole part, dot and fraction, and a string between double quotes with its escapes. |
| Json.Escape | src/api/search_media.rs:37-44 | The body of a JSON string literal: each character replaced by its escape, character by character, so the body is never shorter than the string. |
| Json.NatToString | src/api/search_media.rs:37-44 | A number's text is a decimal digit string that parses back to the number. It has no leading zero, and it is one digit long iff the number is below ten. |
| Json.EscapeChar | src/api/search_media.rs:37-44 | A character is printed unchanged iff it needs no escape. An escape never starts with a quote. It ends with a quote only for the quote character itself. |
| Json.UnescapeEscape | src/api/search_media.rs:37-44 | Reading back the escaped body of a JSON string gives the original string. |
| Json.UnescapeEscapeChar | src/api/search_media.rs:37-44 | Reading back one escaped character followed by any text gives that character in front of what the rest reads back to. |
| Json.EscapePlain | src/api/search_media.rs:37-44 | A string with no quote, backslash or control character is printed unchanged. |
| Json.EscapeAppend | src/api/search_media.rs:186-194 | Escaping a concatenation escapes each part. |
| Json.EscapeLast | src/api/search_media.rs:186-194 | An escaped non-empty string ends with a quote iff the string itself does. |
| Json.RenderIsZero | src/api/search_media.rs:134 | A JSON value prints as `0` iff it is the integer 0. |
| Json.RenderIsNull | src/api/search_media.rs:165 | A JSON value prints as `null` iff it is null. |
| Json.RenderQuoted | src/api/search_media.rs:120-122 | A printed value is never empty. It starts with a quote iff the value is a string. |
| Json.RenderStrInjective | src/api/search_media.rs:120-131 | Two strings with the same JSON text are equal. |
| Status.Classify | src/api/search_media.rs:120-131 | A status text that is recognised is exactly the category's catalog name between double quotes. |
| Status.ClassifyExact | src/api/search_media.rs:120-131 | A text maps to category c iff it is c's quoted catalog name. The `null` of a missing entry classifies to nothing. |
| Status.WireNameRender | src/api/search_media.rs:120-122 | The JSON text of each catalog status name is that name between quotes, so each of the six literals is reachable. |
| Status.ClassifyEntryStatus | src/api/search_media.rs:120-131 | A present entry lands in category c iff its status is the JSON string of c's catalog name. |
| Status.FormatLine | src/api/search_media.rs:133-146 | The line of a classified member: the name in bold, then in backticks the repeat text with `repeat(s)` for a Completed entry whose repeat text is not `0`, or the progress for Repeating and Current, and always the score out of 10. |
| Status.Contribution | src/api/search_media.rs:116-150 | A member contributes a line iff it has an entry whose status text classifies. The line goes to the category of that classification. |
| Status.CompletedWithRepeatsLine | src/api/search_media.rs:134-138 | A Completed entry whose repeat is not the integer 0 gives the name, the repeat text with `repeat(s)`, and the score out of 10. A null repeat also takes this path. |
| Status.CompletedLine | src/api/search_media.rs:134-146 | A Completed member's line carries the repeat count exactly when the repeat value is not the integer 0. |
| Status.CompletedNoRepeatsLine | src/api/search_media.rs:144-145 | A Completed entry whose repeat is 0 gives the name and the score out of 10 only. |
| Status.ProgressLine | src/api/search_media.rs:139-143 | Repeating and Current entries give the name, the progress, and the score out of 10. |
| Status.ScoreOnlyLine | src/api/search_media.rs:144-145 | Planning, Paused and Dropped entries give the name and the score out of 10. |
| Status.NoLineUnlessClassified | src/api/search_media.rs:149 | A member with no entry, or with a status that is none of the six names, contributes nothing. |
| Buckets.Bucket | src/api/search_media.rs:116-147 | The reference bucket of a category: the lines of the members classified into it, in member order. |
| Buckets.BucketMap | src/api/search_media.rs:108-114 | There are always exactly six buckets, one per category, including empty ones. |
| Buckets.Aggregate | src/api/search_media.rs:108-151 | The member loop ends with exactly the six buckets. Each bucket equals the reference list of lines from the members classified into it, in member order. |
| Buckets.BucketSnoc | src/api/search_media.rs:133-147 | One more member appends at most its own line to a bucket. The line is added only when the member belongs to that bucket. |
| Buckets.AppendStep | src/api/search_media.rs:133-147 | One loop iteration turns buckets for a prefix of the members into buckets for the prefix plus the next member. |
| Buckets.BucketOrder | src/api/search_media.rs:116-151 | A classified member's line sits in its bucket at the member's rank. Ranks increase strictly along the member list. Every bucket entry comes from some member. |
| Buckets.ExactlyOneBucket | src/api/search_media.rs:120-147 | A single member's line is in its own category's bucket and in no other. |
| Buckets.TotalLinesCount | src/api/search_media.rs:108-151 | The six buckets together hold exactly one line per classified member. |
| Buckets.UnclassifiedInvisible | src/api/search_media.rs:149 | Inserting a member that does not classify, anywhere in the list, changes no bucket. |
| FilterMaps.FilterMapMembership | src/api/search_media.rs:163-166 | An element is in a map-then-filter result iff some input maps to it. |
| FilterMaps.FilterMapAt | src/api/search_media.rs:163-166 | A kept input's image sits in the result at the input's rank. |
| FilterMaps.RankIncreases | src/api/search_media.rs:163-166 | Kept inputs keep their relative order in the result. |
| FilterMaps.FilterMapOnly | src/api/search_media.rs:177-184 | When exactly one input is kept, the result is that input's image alone. |
| Text.IsInfix | src/api/search_media.rs:165 | `contains`: the pattern occurs in the text as a contiguous piece, tried at every start position from the left. |
| Text.IsInfixAt | src/api/search_media.rs:165 | The recursive `contains` agrees with "occurs at some position". |
| Text.InfixOfConcat | src/api/search_media.rs:165 | A string contains any text it is built around. |
| Text.MissingCharNotInfix | src/api/search_media.rs:165 | A text missing one of the pattern's characters does not contain the pattern. |
| Text.TrimStart | src/api/search_media.rs:164 | Trimming the front removes a run of the character and keeps a suffix that does not start with it. |
| Text.TrimEnd | src/api/search_media.rs:193 | Trimming the back removes a run of the character and keeps a prefix that does not end with it. |
| Text.TrimMatches | src/api/search_media.rs:164 | The result is a contiguous piece of the input, framed on both sides only by the trimmed character. It neither starts nor ends with that character. |
| Text.TrimMatchesNoOp | src/api/search_media.rs:164 | Trimming leaves unchanged a text that neither starts nor ends with the character. |
| Text.RemoveChar | src/api/search_media.rs:80 | `replace(c, "")`: the text with every occurrence of the character deleted. |
| Text.RemoveCharSpec | src/api/search_media.rs:80 | Deleting a character keeps exactly the other characters, in their order (it is the map-then-filter that drops that character). So no occurrence is left, the text never grows, and a text without the character is unchanged. |
| Text.Join | src/api/search_media.rs:93 | The items with the separator between consecutive ones; empty for no items. |
| Text.JoinSnoc | src/api/search_media.rs:181 | Joining one more item appends the separator and the item. A single item joins to itself. |
| Text.GroupDigits | src/api/search_media.rs:96-103 | The digits with a comma before each complete group of three, counted from the right. |
| Text.Thousands | src/api/search_media.rs:96-103 | `to_formatted_string(&Locale::en)`: an optional minus, then the decimal digits grouped in threes from the right with commas. |
| Text.GroupDigitsChars | src/api/search_media.rs:96-103 | Grouping introduces only commas. |
| Text.GroupDigitsLength | src/api/search_media.rs:96-103 | With k inserted commas, the number of digits is more than 3k and at most 3k+3. |
| Text.GroupDigitsUngroup | src/api/search_media.rs:96-103 | Removing the commas gives back the digits. |
| Text.GroupDigitsGrouped | src/api/search_media.rs:96-103 | The commas sit where the English locale puts them. Every comma is followed by exactly three digits and then the end or another comma. The text never starts with a comma and never holds four digits in a row. |
| Text.ThousandsRoundTrip | src/api/search_media.rs:96-103 | Removing the commas from a formatted count gives a decimal that parses back to the count. |
| Text.ThousandsExample | src/api/search_media.rs:96-99 | 12345 is formatted `12,345`. |
| Assembly.StatusText | src/api/search_media.rs:80 | The media status as its JSON text with every double quote deleted. |
| Assembly.StatusOfString | src/api/search_media.rs:80 | A string status with nothing to escape comes out as the string itself. |
| Assembly.StatusShown | src/api/search_media.rs:156-165 | A plain string status without the letter `n` keeps the status line, and that line shows the status itself. |
| Assembly.FactLine | src/api/search_media.rs:155-161 | One candidate line: a backtick, the padded name, a colon and a backtick, a space, then the value in bold followed by the tail. |
| Assembly.FactValues | src/api/search_media.rs:155-161 | The seven printed values in source order: the episodes' JSON text, the status text, the average and mean scores' JSON text, the grouped popularity and favourites, and the genres joined with `, `. |
| Assembly.Facts | src/api/search_media.rs:154-162 | There are always exactly seven candidate lines, in source order. Each is a backtick, the name padded to 13 characters, a colon and a backtick, a space, the value between `**` marks, and the tail: `%` before the closing marks for the two scores, a newline after them for the genres. |
| Assembly.FactsTrimmed | src/api/search_media.rs:154-164 | No candidate line starts or ends with a quote, so trimming leaves it unchanged. A line is kept iff it does not contain `null`. |
| Assembly.Shown | src/api/search_media.rs:164-165 | A candidate line with its leading and trailing double quotes trimmed, or nothing when the trimmed text contains `null`. |
| Assembly.DescriptiveLines | src/api/search_media.rs:154-166 | The seven candidate lines, trimmed and filtered by `Shown`, in order. |
| Assembly.DescriptiveLinesFilter | src/api/search_media.rs:154-166 | At most seven lines are kept. Each candidate without `null` is kept, in order, at its rank. A line is kept iff it is a candidate and does not contain `null`. |
| Assembly.IntegerChars | src/api/search_media.rs:155-158 | An integer's text holds only digits and a minus sign. |
| Assembly.ThousandsChars | src/api/search_media.rs:96-103 | A formatted count holds only digits, commas and a minus sign. |
| Assembly.NullFreeLine | src/api/search_media.rs:165 | A line none of whose parts holds some letter of `null` does not contain `null`. |
| Assembly.FactShown | src/api/search_media.rs:154-166 | A candidate line without `null` appears in the results. |
| Assembly.FactHidden | src/api/search_media.rs:154-166 | A candidate line with `null` appears nowhere in the results. It is not mistaken for a status block, because blocks start differently. |
| Assembly.NumberFact | src/api/search_media.rs:154-166 | A candidate line built around a JSON number appears when the number is an integer and is absent when it is null. |
| Assembly.NullFact | src/api/search_media.rs:154-166 | A candidate line whose value is the text `null` is absent from the results. |
| Assembly.NullFilter | src/api/search_media.rs:163-166 | For lines that trimming leaves alone, the filter keeps exactly the lines without `null`, in order and at their ranks. |
| Assembly.EpisodesShown | src/api/search_media.rs:155 | The episodes line appears when episodes is an integer. It is absent when episodes is null. |
| Assembly.StatusHidden | src/api/search_media.rs:80 | A null media status drops the status line. |
| Assembly.AverageScoreShown | src/api/search_media.rs:157 | The average score line appears for an integer score. It is absent for a null score. |
| Assembly.MeanScoreShown | src/api/search_media.rs:158 | The mean score line appears for an integer score. It is absent for a null score. |
| Assembly.PopularityShown | src/api/search_media.rs:159 | The popularity line always appears. |
| Assembly.FavouritesShown | src/api/search_media.rs:160 | The favourites line always appears. |
| Assembly.Block | src/api/search_media.rs:181 | A category block: the label and four spaces between a backtick and a colon-backtick, then the bucket's lines joined so that each starts a quoted line, then a newline. |
| Assembly.CategoryBlocks | src/api/search_media.rs:168-184 | The blocks of the categories with a non-empty bucket, in display order. |
| Assembly.BlocksContents | src/api/search_media.rs:177-184 | A text is a block iff it is the block of some category whose bucket is non-empty. There are at most six blocks. |
| Assembly.BlockPresent | src/api/search_media.rs:177-184 | A category with a non-empty bucket always has its block among the blocks. |
| Assembly.BlocksFromBuckets | src/api/search_media.rs:177-184 | Every block is the block of some category whose bucket is non-empty. |
| Assembly.BlockInitialOf | src/api/search_media.rs:181 | The character after a block's opening backtick is a category initial (R, C, P or D). |
| Assembly.BlockInitial | src/api/search_media.rs:181 | The character after every emitted block's opening backtick is a category initial. |
| Assembly.BlocksInDisplayOrder | src/api/search_media.rs:168-184 | There are at most six blocks. Each non-empty bucket's block sits at its rank in display order. Ranks grow along the display order. No block exists without a non-empty bucket. |
| Assembly.Report | src/api/search_media.rs:154-196 | A result line is either a candidate line without `null` or the block of a category whose bucket is non-empty, and every such line is present. There are at most thirteen result lines and exactly four identity strings. |
| Assembly.Search | src/api/search_media.rs:108-196 | The search, with its member loop, returns what the reference definition `Report` describes. |
| Assembly.Identity | src/api/search_media.rs:186-194 | An identity field: its JSON text with every leading and trailing double quote trimmed. |
| Assembly.IdentityFields | src/api/search_media.rs:186-194 | The identity texts of the title, the page URL, the cover image and the banner image, in that order. |
| Assembly.IdentityOfString | src/api/search_media.rs:186-194 | A string field's identity text is its escaped body with any trailing quotes removed. The leading quote is always removed, and no escape starts with a quote. |
| Assembly.IdentityRoundTrip | src/api/search_media.rs:186-194 | For a string that does not end in a quote, the identity text reads back (unescaped) to the string itself. |
| Assembly.IdentityPlain | src/api/search_media.rs:186-194 | A plain string's identity text is the string itself. |
| Assembly.IdentityTrailingQuote | src/api/search_media.rs:186-194 | A plain string followed by a quote loses the quote but keeps a dangling backslash. A null field gives the text `null`. |
| Assembly.CompletedAndAbsent | src/api/search_media.rs:116-184 | Example: one member Completed with no repeats and one member with no entry give a single Completed block holding the first member's line. |
| Assembly.TwoMemberBuckets | src/api/search_media.rs:116-151 | A Completed member followed by a member with no entry fills the Completed bucket with one line and leaves the other buckets empty. |
| Assembly.OnlyCompletedBlock | src/api/search_media.rs:168-184 | When only the Completed bucket is non-empty, the blocks are exactly its block. |
| Assembly.SingleBlock | src/api/search_media.rs:177-184 | Buckets with only Completed non-empty produce exactly one block, the Completed block. |
| Assembly.CompletedBlockText | src/api/search_media.rs:181 | A one-line Completed block is the header, the quoted line, and a newline. |

## Left out

- HTTP requests, the GraphQL queries, the query loader and logging (src/api/search_media.rs:7-26, 51-75) are outside the model. The catalog's answers are parameters: a `Media` value, and one optional `ListEntry` per member.
- The panics are left out. These are the `unwrap` and `expect` calls on the transport, on the genre array, on popularity and favourites, and on the media id (src/api/search_media.rs:24, 73, 82-91, 96-103, 117). The model takes genres as already-extracted strings and popularity and favourites as integers.
- The media id and the upper-cased media type only feed the queries, so they are not modelled.
- JSON arrays and objects are left out: no field the search prints holds one.
- Floats are printed as `whole.fraction` only. The library's exponent forms for very large or very small floats are not modelled.
- The sequential `.await` of each member's lookup (src/api/search_media.rs:116-117) is left out. The lookups' answers are parameters, taken in member order as the loop takes them.
- Text.ThousandsRoundTrip: stated for non-negative counts only. Popularity and favourites are counts; a negative value gets a leading minus that the lemma does not cover.
- JSON integers are assumed to fit in 64 bits. The JSON library keeps only 64-bit integers as integers and reads and prints larger ones as floats; `Json.Int` is unbounded and that switch is not modelled.
- Assembly.FactHidden: requires the candidate line's second character not to be a category initial, which excludes the popularity line. That line never contains `null` (Assembly.PopularityShown).
