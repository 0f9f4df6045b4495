# Sitemap tools, modelled in Dafny

Sitemap tools is a browser application for working with XML sitemaps, plus
one serverless endpoint:

- The converter tab loads a sitemap from a file or a URL. A sitemap index is
  expanded by fetching its children. The tab pages through the entries and
  exports them as CSV, XML or an HTML-table `.xls`.
- A CSV file of URLs can be turned back into entries.
- The compare tab diffs two sitemaps by `loc` and renders a Markdown report.
- The merge tab combines several sitemaps. It can de-duplicate by `loc`,
  keeping the newest `lastmod`, and can sort by priority.
- The analytics panel counts field coverage, change frequencies, hosts and the
  date range.
- `api/fetch-sitemap.js` is the proxy that fetches a sitemap for the browser.
  It has an SSRF blocklist, a redirect budget, a 50 MiB size limit and body
  plausibility checks.

The model follows the program's own structure:

| Dafny module (file) | source | form |
|---|---|---|
| `Parser` (parser.dfy) | public/js/parser.js | the `inQuotes` scanner and the row loop as methods, proved against recursive functions |
| `Converter` (converter.dfy) | public/js/converter.js | the escapes as functions; `toCSV`, `toXML` and `toXLS` as accumulating methods |
| `Comparer` (comparer.dfy) | public/js/comparer.js | the map-filling, walking and report-building loops as methods |
| `Merger` (merger.dfy) | public/js/merger.js | the nested fill loop as methods over an insertion-ordered map |
| `Analytics` (analytics.dfy) | public/js/analytics.js | the counting loop as a method over a tally |
| `FetchProxy` (fetch_proxy.dfy) | api/fetch-sitemap.js | the decisions as functions; the handler as a method on a response object |
| `App` (app.dfy) | public/js/app.js | URL normalisation as functions; the loops as methods; the `state` object as the class `AppState` |

Supporting modules:

- `Sitemap` holds the entry record and the URL view.
- `Text` models JavaScript `trim`, `startsWith`, `includes`, `split`/`join`,
  ASCII `toLowerCase` and string `<`.
- `OrderedMap` models a JavaScript `Map`: an association list where `set` on
  an existing key keeps that key's position.
- `Sorting` is a stable sort into non-increasing key order, which is what
  `Array.prototype.sort` does with a `key(b) - key(a)` comparator.
- `Wrappers` holds `Option` and `Result`.

The environment enters as function parameters:

- WHATWG URL parsing (`UrlParser`);
- `SitemapParser.parse` (`XmlParser`);
- the browser's call to the proxy (`Fetcher`);
- relative URL resolution, the network and the hostname test in force (`FetchProxy.Env`; `AsWritten` is the proxy as it stands, `Corrected` the repaired test of the finding below);
- `parseFloat` of a priority (`Merger.PriorityRank`).

## Model

| member | source | states |
|---|---|---|
| Parser.ParseCsvLine | public/js/parser.js:108-126 | the character loop with `inQuotes`, `current` and `result` returns exactly `CsvFields(line)` |
| Parser.Fields | public/js/parser.js:108-126 | a line always yields at least one field |
| Parser.FieldCount | public/js/parser.js:113-124 | the field count is 1 plus the commas met outside quotes, and never more than 1 plus all commas |
| Parser.FieldsHaveNoQuote | public/js/parser.js:115-116 | no field ever contains `"` |
| Parser.FieldsJoin | public/js/parser.js:113-123 | joining the fields with `,` gives the line with every quote removed, so quoted commas are kept |
| Parser.Unquoted | public/js/parser.js:115-121 | the quote-free text is as long as the line minus its quotes, and has no quote |
| Parser.FieldsWithoutQuotes | public/js/parser.js:113-124 | without quotes the tokenizer is a plain split on `,` |
| Parser.DoubledQuoteVanishes | public/js/parser.js:115-116 | a doubled quote `""` toggles twice and contributes nothing |
| Parser.NonBlank | public/js/parser.js:73 | the kept lines are non-empty and trimmed, and no more than the raw lines |
| Parser.Column | public/js/parser.js:89-101 | a column value is trimmed; an absent or empty column is `''` |
| Parser.RowOutcome | public/js/parser.js:86-102 | a data line yields nothing iff column 0 is blank; an error `Row <i+1>: Invalid URL — <url>` iff that URL is rejected; otherwise an entry whose `loc` is that non-empty, accepted URL |
| Parser.ParseRow | public/js/parser.js:86-102 | one loop iteration computes `RowOutcome` |
| Parser.Rows | public/js/parser.js:85-103 | every collected entry has a non-empty `loc` that the URL check accepts |
| Parser.ParseCsv | public/js/parser.js:72-106 | the loop collects the entries and errors of `ParseCsvSpec`; it fails iff there are fewer than 2 non-blank trimmed lines |
| Parser.RowsBounded | public/js/parser.js:85-103 | entries plus errors never exceed the number of data lines |
| Parser.RowsEntriesTrimmed | public/js/parser.js:89-101 | all four fields of every entry are trimmed |
| Parser.ParseCsvBounded | public/js/parser.js:73-105 | entries plus errors never exceed the line count minus 1 when the first line is a header (it mentions `url` or `loc`, lower-cased) |
| Converter.Sanitize | public/js/converter.js:8-15 | empty gives empty; `'` is prefixed iff the value starts with `=`, `+`, `-`, `@`, TAB or CR; otherwise the value is unchanged; the result never starts with a formula character |
| Converter.CsvEscape | public/js/converter.js:29-35 | a value that needs quoting comes out framed by quotes; any other value is unchanged |
| Converter.DoubleQuotesShape | public/js/converter.js:32 | doubling adds one character per quote and no new characters |
| Converter.CsvEscapeShape | public/js/converter.js:29-35 | the value is quote-framed iff it contains `,`, `"` or a newline; then its length is the length plus the quotes plus 2; characters other than `"` are kept exactly |
| Converter.UndoubleDouble | public/js/converter.js:32 | undoubling inverts the doubling of quotes |
| Converter.CsvEscapeRoundTrip | public/js/converter.js:29-35 | unquoting an escaped value gives the value back |
| Converter.EscapeCells | public/js/converter.js:38 | `row.map(escape)` keeps the cell count, and every escaped cell unquotes to its cell |
| Converter.ToCsv | public/js/converter.js:20-40 | the `lines.push` loop and the final `join` produce `CsvDocument`: the header line, then one record of sanitised, escaped cells per entry, joined with newlines |
| Converter.CsvRecords | public/js/converter.js:38 | one record per entry |
| Converter.CsvHeaderLine | public/js/converter.js:21-37 | escaping leaves the four titles as they are, so the first line is `URL,Last Modified,Change Frequency,Priority` |
| Converter.CsvDocumentLines | public/js/converter.js:37-39 | when no field holds a newline, the CSV splits on newlines into exactly the header plus one line per entry |
| Converter.RecordSingleLine | public/js/converter.js:29-38 | a record of single-line cells is a single line |
| Converter.CsvRecordReparses | public/js/converter.js:29-38 | the app's own CSV tokenizer reads a record of quote-free cells back as those cells, commas included |
| Converter.QuoteNotRestored | public/js/converter.js:32 | a cell that contains a quote comes back from the tokenizer without it: the writer doubles quotes but the reader does not undouble them |
| Converter.XmlEscaped | public/js/converter.js:95-103 | the character-wise escape holds no `<`, `>`, `"` or `'`, and a newline only where the input has one |
| Converter.EscapeXmlCharwise | public/js/converter.js:95-103 | the chained `replace` calls equal the character-by-character escape, because `&` is replaced first |
| Converter.EscapeXml | public/js/converter.js:95-103 | the output holds no `<`, `>`, `"` or `'`; it holds a newline iff the input does |
| Converter.AmpersandsStartEntities | public/js/converter.js:98 | every `&` of the output starts one of the five entities |
| Converter.EscapeXmlRoundTrip | public/js/converter.js:95-103 | decoding the five entities gives the input back |
| Converter.HtmlEscaped | public/js/converter.js:105-111 | the output holds no `<` or `>`; it never gets shorter, and keeps its length iff the input has no `&`, `<` or `>` |
| Converter.EscapeHtml | public/js/converter.js:105-111 | the output holds no `<` or `>`; it holds a newline iff the input does; a string without `&`, `<` and `>` is returned unchanged |
| Converter.EscapeHtmlCharwise | public/js/converter.js:105-111 | the chained replacements equal the character-by-character escape |
| Converter.EscapeHtmlSafe | public/js/converter.js:105-111 | a string is left unchanged iff it has no `&`, `<` or `>`. The comparer's `_esc` (public/js/comparer.js:131-134) is the same function |
| Converter.EscapeHtmlRoundTrip | public/js/converter.js:105-111 | decoding the entities gives the input back |
| Converter.ToXml | public/js/converter.js:57-72 | the `xml +=` loop produces `XmlDocument`: the declaration, the `<urlset>` in the sitemap 0.9 namespace, one `<url>` block per entry in order, and the closing tag |
| Converter.AppendUrl | public/js/converter.js:61-68 | one loop iteration appends exactly that entry's block |
| Converter.XmlDocumentLines | public/js/converter.js:57-72 | when no field holds a newline, the document's lines are the declaration, the `<urlset>` line, each entry's block lines and `</urlset>` |
| Converter.XmlOneBlockPerEntry | public/js/converter.js:61-68 | exactly one `  <url>` line per entry |
| Converter.UrlBlockFields | public/js/converter.js:62-67 | a block always has `<loc>`, and has `<lastmod>`, `<changefreq>` or `<priority>` iff that field is non-empty |
| Converter.ElementNamesDiffer | public/js/converter.js:63-66 | an element line of one field never passes for another field's element |
| Converter.ToXls | public/js/converter.js:77-93 | the `html +=` loop produces `XlsDocument`: the head, the table, the header row, one row per entry, the closing tags |
| Converter.AppendRow | public/js/converter.js:83-88 | one loop iteration appends exactly that entry's row |
| Converter.CellRoundTrip | public/js/converter.js:84-87 | a cell's content decodes back to the field value |
| Converter.CellTags | public/js/converter.js:84 | a cell has exactly two tags, because the value's `<` is escaped |
| Converter.RowTags | public/js/converter.js:83-88 | a row has exactly ten tags: `<tr>`, four cells, `</tr>` |
| Converter.RowsTags | public/js/converter.js:82-89 | the rows hold exactly `10 * n` tags for `n` entries, so no field can inject markup |
| Comparer.FindChanges | public/js/comparer.js:46-59 | the field loop's `changes.push` produces `Changes(o, n)` |
| Comparer.ChangesExact | public/js/comparer.js:46-59 | at most 3 changes; none iff all three fields agree; each change names a differing field with `from`/`to` shown as `(empty)` when empty; every differing field is reported |
| Comparer.ChangesOrdered | public/js/comparer.js:48-49 | changes come in the order `lastmod`, `changefreq`, `priority` |
| Comparer.Index | public/js/comparer.js:13-14 | the filled map has distinct keys, each holding an entry with that `loc` |
| Comparer.BuildIndex | public/js/comparer.js:13-14 | the `forEach(set)` loop builds `Index(es)` |
| Comparer.IndexPrefix | public/js/comparer.js:13-14 | one loop iteration is one `Map.set` |
| Comparer.IndexKeys | public/js/comparer.js:13-14 | the map's keys are exactly the `loc`s of the side |
| Comparer.IndexKeyOrder | public/js/comparer.js:13-14 | the keys are in first-occurrence order of `loc` |
| Comparer.IndexKeepsLast | public/js/comparer.js:13-14 | the entry compared for a `loc` is its last occurrence |
| Comparer.WalkNew | public/js/comparer.js:22-34 | the walk of the new map pushes added, modified and unchanged entries in new-map order |
| Comparer.WalkOld | public/js/comparer.js:37-41 | the walk of the old map pushes the removed entries in old-map order |
| Comparer.Compare | public/js/comparer.js:9-44 | `compare` returns `DiffOf(old, new)` |
| Comparer.OnlyInKeys | public/js/comparer.js:23-39 | the entries only in one map are exactly its keys missing from the other, one per key |
| Comparer.CommonKeys | public/js/comparer.js:25-33 | the shared keys split into modified and unchanged, with no overlap |
| Comparer.NewSideCount | public/js/comparer.js:22-34 | every key of the new map lands in exactly one of added, modified and unchanged |
| Comparer.DiffPartition | public/js/comparer.js:22-41 | added = new `loc`s minus old ones; removed = old minus new; modified ∪ unchanged = the shared `loc`s, disjoint from each other and from added |
| Comparer.DiffCounts | public/js/comparer.js:13-41 | added + modified + unchanged = distinct new `loc`s; removed + modified + unchanged = distinct old `loc`s |
| Comparer.ModifiedOfPairs | public/js/comparer.js:25-31 | each pushed modified pair is a new-map pair with the old map's entry for its key and that pair's non-empty changes |
| Comparer.UnchangedOfEntries | public/js/comparer.js:25-33 | each pushed unchanged entry is a new-map entry whose key the old map holds with no differing field |
| Comparer.ModifiedPairs | public/js/comparer.js:25-31 | every modified pair holds the last old and last new entry for its URL, both with that `loc`, and their one to three changes |
| Comparer.ModifiedIffChanged | public/js/comparer.js:25-33 | a `loc` on both sides is modified iff its last old and last new entries differ in a compared field, and unchanged iff they do not |
| Comparer.CompareSelf | public/js/comparer.js:22-58 | comparing a sitemap with itself gives nothing added, removed or modified, and one unchanged entry per distinct `loc` |
| Comparer.EntrySection | public/js/comparer.js:149-159 | an Added or Removed section is empty iff its list is empty, and otherwise starts with its heading |
| Comparer.ModifiedSection | public/js/comparer.js:161-170 | the Modified section is empty iff the list is empty, and otherwise starts with its heading |
| Comparer.GenerateReport | public/js/comparer.js:139-173 | the `md +=` code produces `Report(d, generated)`: the title, the timestamp line, the four-row summary table of list lengths and the three sections; there is no Unchanged section |
| Comparer.AppendEntrySection | public/js/comparer.js:149-159 | appends exactly one Added or Removed section |
| Comparer.AppendModifiedSection | public/js/comparer.js:161-170 | appends exactly the Modified section |
| Comparer.AppendBullets | public/js/comparer.js:151-157 | the `forEach` appends one `- <loc>` line per entry |
| Comparer.AppendChangeLines | public/js/comparer.js:165-167 | appends one `- **field**: from → to` line per change |
| Comparer.AppendPairBlocks | public/js/comparer.js:163-169 | appends one `### <url>` block per modified pair |
| Comparer.BulletsListEvery | public/js/comparer.js:151-157 | every entry of a list has its bullet line |
| Comparer.ReportListsAddedAndRemoved | public/js/comparer.js:149-159 | the report lists every added and every removed `loc` |
| Comparer.ReportListsAdded | public/js/comparer.js:149-153 | the report lists every added `loc` |
| Comparer.ReportListsRemoved | public/js/comparer.js:155-159 | the report lists every removed `loc` |
| Comparer.ReportHeadsModified | public/js/comparer.js:161-170 | the report has a `### <url>` heading for every modified pair |
| Comparer.PairBlocksHeadEvery | public/js/comparer.js:163-164 | every modified pair's heading is in the blocks |
| Merger.Merge | public/js/merger.js:10-52 | `merge` returns `MergeSpec`; `totalInput` is the sum of the input lengths; `uniqueCount` is the output length; `duplicatesRemoved = totalInput - uniqueCount` |
| Merger.MergeAll | public/js/merger.js:13-34 | the nested loop counts every entry and fills the map as `Fill` over all (input name, entry) pairs |
| Merger.MergeOne | public/js/merger.js:16-33 | one input's entries extend the count and the map |
| Merger.MergeNext | public/js/merger.js:17-33 | one entry bumps `totalInput` and applies one map step |
| Merger.MergeEntry | public/js/merger.js:19-32 | the three branches (new key; dedup replace-if-newer; numbered key) are `Step` |
| Merger.FillShape | public/js/merger.js:14-34 | the map never has more entries than the input and its keys are distinct |
| Merger.MergeCounts | public/js/merger.js:18-51 | `uniqueCount ≤ totalInput`, and `duplicatesRemoved ≥ 0` is their difference |
| Merger.ReplacesIsLess | public/js/merger.js:25 | a later duplicate replaces the kept one iff JavaScript `kept.lastmod < entry.lastmod` (empty lowest) |
| Merger.DedupKeyedByLoc | public/js/merger.js:19-27 | with de-duplication every key is its entry's `loc` |
| Merger.DedupKeys | public/js/merger.js:19-27 | with de-duplication the keys are exactly the input `loc`s |
| Merger.DedupOrder | public/js/merger.js:22-36 | with de-duplication the output is in first-occurrence order of `loc`, a replacement keeping the position |
| Merger.DedupLocs | public/js/merger.js:19-36 | with de-duplication the output `loc`s are pairwise distinct and are exactly the input `loc`s |
| Merger.DedupKeepsNewest | public/js/merger.js:21-27 | the kept entry for a `loc` has the lexicographically greatest `lastmod` of that `loc`, earliest on ties (the first occurrence when none has one), tagged with its input's name; a `loc` is absent iff no input has it |
| Merger.KeptNewestStep | public/js/merger.js:19-27 | one map step preserves that invariant |
| Merger.KeptOtherLoc | public/js/merger.js:19-27 | an entry of another `loc` leaves the kept entry alone |
| Merger.KeptFirst | public/js/merger.js:21-22 | the first occurrence of a `loc` is kept |
| Merger.KeptCompared | public/js/merger.js:23-27 | a duplicate replaces the kept entry only when strictly newer |
| Merger.NewestExtend | public/js/merger.js:25 | an entry that is not newer leaves the newest one newest |
| Merger.NewestTakeOver | public/js/merger.js:25-26 | a strictly newer entry becomes the newest |
| Merger.FillTagged | public/js/merger.js:22-31 | every kept record is an input entry carrying the name of the input it was copied from |
| Merger.NumberedKeyHash | public/js/merger.js:30 | the numbered key is `loc`, `#`, then the decimal count |
| Merger.NumberedKeyInjective | public/js/merger.js:30 | for `loc`s without `#`, different (`loc`, count) pairs give different keys |
| Merger.NoCollapseWithoutHash | public/js/merger.js:28-32 | without de-duplication, and with no `#` in any `loc`, nothing is collapsed: the output has one entry per input entry |
| Merger.NoCollapseStep | public/js/merger.js:28-32 | one step without de-duplication adds one entry |
| Merger.CollapseOnStoredKey | public/js/merger.js:29-31 | a generated key equal to an already stored `loc` (`a#3`) overwrites it, so three inputs give two outputs |
| Merger.MergeSorted | public/js/merger.js:38-44 | with `sortByPriority` the output is a permutation of the map's values in non-increasing priority (empty counts as 0.5), equal priorities keeping their map order |
| Sorting.SortDescSorted | public/js/merger.js:39-43 | the sort leaves keys non-increasing |
| Sorting.SortDesc | public/js/merger.js:39-43 | the sort is a permutation |
| Sorting.SortDescStable | public/js/merger.js:39-43 | the sort is stable |
| OrderedMap.Set | public/js/merger.js:22-31 | `Map.set` on a present key replaces in place and keeps the key order; on a new key it appends |
| OrderedMap.GetAfterSet | public/js/comparer.js:13-14 | `set` of one key leaves every other key's value alone |
| OrderedMap.GetAt | public/js/analytics.js:26 | with distinct keys, `get` of a stored key returns the value stored with it |
| OrderedMap.SubMapDistinct | public/js/analytics.js:52-54 | any selection of a map's pairs, each taken at most once (as `slice` of a sorted copy takes them), has distinct keys |
| Text.LessTrichotomy | public/js/merger.js:25 | JavaScript string `<` is a strict total order |
| Analytics.Analyze | public/js/analytics.js:8-76 | `null` iff there are no entries; otherwise the counting loop yields `StatsOf(entries)` |
| Analytics.CountEntry | public/js/analytics.js:21-41 | one loop iteration updates the counters, the host map, the frequency map and the dates as `Count` says |
| Analytics.TallyOfPrefix | public/js/analytics.js:21-41 | the tally after `i + 1` entries is the tally after `i` updated by entry `i` |
| Analytics.Filled | public/js/analytics.js:31-40 | a coverage counter never exceeds the entry count |
| Analytics.Parsed | public/js/analytics.js:23-28 | the entries whose `loc` parses are no more than all entries |
| Analytics.HostCount | public/js/analytics.js:24-26 | the entries whose `loc` parses with hostname `h` are among those whose `loc` parses |
| Analytics.HttpsCount | public/js/analytics.js:24-27 | the entries with an `https:` URL are among those whose `loc` parses |
| Analytics.FreqCount | public/js/analytics.js:32-35 | the entries whose `changefreq` lower-cases to `f` are among those with a `changefreq` |
| Analytics.TallyAccounts | public/js/analytics.js:21-41 | after the loop the counters, `httpsCount`, the dates, and every key of the host map and the frequency map count exactly the entries they stand for |
| Analytics.TallyCounters | public/js/analytics.js:27-37 | the three coverage counters count the entries with that field non-empty; one date is recorded per `lastmod`; `httpsCount` is the number of entries whose `loc` parses with protocol `https:` |
| Analytics.TallyDates | public/js/analytics.js:31 | the dates are the non-empty `lastmod`s |
| Analytics.TallyDomains | public/js/analytics.js:23-26 | the host map has distinct keys, namely the hosts of the parsed `loc`s, and its counts sum to the number of parsed `loc`s |
| Analytics.TallyFreq | public/js/analytics.js:32-36 | the frequency map has distinct lower-case keys and its counts sum to `hasChangefreq` |
| Analytics.TallyDomainCounts | public/js/analytics.js:23-26 | for every host `h`, `domains.get(h)` is the number of entries whose `loc` parses with hostname `h`, and absent when there is none |
| Analytics.TallyFreqCounts | public/js/analytics.js:32-36 | for every key `f`, `freqDist[f]` is the number of entries whose `changefreq` lower-cases to `f`, and absent when there is none |
| Analytics.IncrementCounted | public/js/analytics.js:26-35 | incrementing `k` raises the count held for `f` by one exactly when `f` is `k`, a missing count being 0 |
| Analytics.GetIncrement | public/js/analytics.js:26-35 | after incrementing `k`, `k` holds its old count (or 0) plus one and every other key is unchanged |
| Analytics.SumIncrement | public/js/analytics.js:26-35 | incrementing a count, a missing one counting as 0, adds exactly one to the total |
| Analytics.IncrementKeySet | public/js/analytics.js:26-35 | incrementing adds the key and keeps keys distinct |
| Analytics.TopDomains | public/js/analytics.js:52-54 | at most 8 pairs, taken from the host map without repetition (a sub-multiset), in non-increasing count order, none outranked by a pair left out |
| Analytics.TopLookups | public/js/analytics.js:52-54 | no host is reported twice; every reported pair is the host map's own count for its host, and a host left out has a count no greater than any reported one |
| Analytics.TopHosts | public/js/analytics.js:21-54 | every reported host is a host of the entries, reported once, with its true number of entries, and a host left out has no more entries than any reported one |
| Analytics.EarliestIsLeast | public/js/analytics.js:57-58 | the oldest date is one of the dates and no date is lexicographically smaller |
| Analytics.LatestIsGreatest | public/js/analytics.js:57-59 | the newest date is one of the dates and no date is lexicographically greater |
| Analytics.StatsFacts | public/js/analytics.js:8-76 | `total` is the entry count; coverage counts non-empty fields; `httpsCount` is the number of `https:` URLs, so at most `total`; `domainCount` is the number of distinct hosts; every key of `freqDist` holds the number of entries with that lower-cased frequency, the counts summing to `hasChangefreq` under distinct lower-case keys; at most 8 top domains, sorted; `—` for both dates when no `lastmod` |
| Analytics.DateRange | public/js/analytics.js:57-59 | with some `lastmod`, `oldest` and `newest` are actual `lastmod`s, `oldest ≤ newest`, and every non-empty `lastmod` lies between them |
| FetchProxy.IsPrivateIP | api/fetch-sitemap.js:7-22 | `isPrivateIP(h)` holds iff one of the eleven patterns matches `h` |
| FetchProxy.AnyMatchesExists | api/fetch-sitemap.js:21 | `some` is true iff some pattern tests true |
| FetchProxy.Private172Octet | api/fetch-sitemap.js:12 | `172.<n>.…` is matched iff 16 ≤ n ≤ 31 |
| FetchProxy.Private172Examples | api/fetch-sitemap.js:12 | `172.20.0.1` is matched and `172.32.0.1` is not |
| FetchProxy.BlockedExamples | api/fetch-sitemap.js:12-15 | `169.254.169.254` and `172.20.0.1` are blocked |
| FetchProxy.BracketedNeverPrivate | api/fetch-sitemap.js:8-21 | no pattern matches a hostname starting with `[`, the form URL parsing gives IPv6 hosts |
| FetchProxy.LoopbackV6NotBlocked | api/fetch-sitemap.js:16 | as written, the IPv6 loopback host `[::1]` is not blocked |
| FetchProxy.BlockedHostExtends | api/fetch-sitemap.js:7-22 | the corrected check blocks everything the list blocks, and the bracketed form of each blocked address |
| FetchProxy.LoopbackV6Blocked | api/fetch-sitemap.js:16 | the corrected check blocks `[::1]` |
| FetchProxy.LeadingDigits | api/fetch-sitemap.js:79 | `parseInt` reads the longest run of leading digits |
| FetchProxy.ParseInt | api/fetch-sitemap.js:79 | after leading white space and an optional sign, `parseInt` is NaN iff no digit follows; otherwise it is the value of the leading digits, negated after `-` |
| FetchProxy.ParseIntOfNat | api/fetch-sitemap.js:79 | `parseInt` reads a decimal number back as its value |
| FetchProxy.ParseIntOfDigits | api/fetch-sitemap.js:79 | a string of digits parses to its value |
| FetchProxy.ParseIntNaN | api/fetch-sitemap.js:79 | text starting with a non-digit that is not a sign or white space is NaN |
| FetchProxy.DeclaredLimit | api/fetch-sitemap.js:79-82 | a declared length is rejected iff it exceeds 52428800 |
| FetchProxy.NoDeclaredLength | api/fetch-sitemap.js:79 | a missing `content-length` counts as `'0'` and is accepted |
| FetchProxy.TotalPrefix | api/fetch-sitemap.js:98-100 | the running total never exceeds the final total |
| FetchProxy.ReadBody | api/fetch-sitemap.js:95-105 | the chunk loop accepts iff the decompressed total stays within 52428800, and then reports that total |
| FetchProxy.SizeBoundary | api/fetch-sitemap.js:100 | exactly 52428800 bytes pass and one byte more fails |
| FetchProxy.ValidateBody | api/fetch-sitemap.js:107-131 | an accepted body is returned as it came, untrimmed |
| FetchProxy.XmlOpeningsStartWithLt | api/fetch-sitemap.js:119 | each XML opening starts with `<` |
| FetchProxy.ValidateBodyAccepts | api/fetch-sitemap.js:111-131 | a body is accepted iff, after leading white space, it is not an HTML opening and starts with `<` |
| FetchProxy.ValidateBodyEmpty | api/fetch-sitemap.js:121-123 | the empty-response error is reported iff the body is blank |
| FetchProxy.Admit | api/fetch-sitemap.js:30-43 | a URL is admitted iff it parses, is `http:`/`https:` and the test in force does not block its hostname as parsed (under `AsWritten`, `isPrivateIP(parsedURL.hostname)`); "Invalid URL" when it does not parse, the HTTP-only error when the scheme is wrong |
| FetchProxy.CorrectedAdmitsLess | api/fetch-sitemap.js:30-43 | the corrected test admits only URLs the proxy as written admits, and refuses with the same error every URL the proxy as written refuses |
| FetchProxy.Classify | api/fetch-sitemap.js:56-76 | follow iff 301/302/303/307/308 with a `location`, to that location; proceed iff 200; otherwise 404, 403 or `HTTP <code>` errors |
| FetchProxy.RedirectWithoutLocation | api/fetch-sitemap.js:56-75 | a redirect status without `location` is the error `HTTP <code>` |
| FetchProxy.Receive | api/fetch-sitemap.js:79-136 | a 200 response is accepted iff its declared length and its running total are within the limit, the stream ends without error and the body passes; the result is the body itself |
| FetchProxy.Fetch | api/fetch-sitemap.js:24-143 | at most budget + 1 URLs are requested; a success follows at least one request and its text passes the body checks |
| FetchProxy.FetchStops | api/fetch-sitemap.js:24-76 | without a redirect the fetch requests the URL once if admitted, reports the admission error otherwise, and a success is the received body |
| FetchProxy.FetchFollows | api/fetch-sitemap.js:56-63 | a redirect requests the URL, then fetches the resolved target with one less redirect |
| FetchProxy.FetchRequestsAdmitted | api/fetch-sitemap.js:30-63 | every URL requested, redirect targets included, passed the checks in force first; a URL that fails them is never requested |
| FetchProxy.LoopbackV6Requested | api/fetch-sitemap.js:30-47 | as the proxy stands, an http(s) URL whose hostname is `[::1]` passes the checks and is the first URL requested |
| FetchProxy.LoopbackV6Refused | api/fetch-sitemap.js:30-43 | with the corrected test the same URL is refused with the blocked-address error and nothing is requested |
| FetchProxy.FetchRequestBound | api/fetch-sitemap.js:24-63 | a negative budget fails with "Too many redirects" and requests nothing; at most budget + 1 requests are made |
| FetchProxy.RedirectLoopStops | api/fetch-sitemap.js:26-63 | endless redirects end in "Too many redirects" after exactly budget + 1 requests |
| FetchProxy.FetchOkIsPlausible | api/fetch-sitemap.js:107-131 | a successful fetch made at least one request and its text passes the body checks |
| FetchProxy.FetchOkIsSafe | api/fetch-sitemap.js:24-145 | a successful fetch's text passes the body checks and came after 1 to budget + 1 requests, each to a URL that parses, is http(s) and whose hostname the test in force does not block (under `AsWritten`, exactly line 41's `isPrivateIP(hostname)`) |
| FetchProxy.Route | api/fetch-sitemap.js:157-188 | the status is 200, 400, 405 or 500; only OPTIONS gets no body; a 500 always carries an error and a success always has status 200 |
| FetchProxy.RouteAnswers | api/fetch-sitemap.js:157-188 | OPTIONS gets 200 with no body; any other non-POST gets 405; a POST whose `url` is missing, empty, non-text, unparsable or not http(s) gets 400; every other POST gets 200 with the data of `fetchURL(url, 5)` when it succeeds and 500 with its error when it fails |
| FetchProxy.RouteSuccessIsSafe | api/fetch-sitemap.js:183-185 | a success reply carries text that passed the body checks, from 1 to 6 requests, each to a URL that parses, is http(s) and whose hostname the test in force does not block |
| FetchProxy.ServerResponse.constructor | api/fetch-sitemap.js:147 | a fresh response has no headers and has not ended |
| FetchProxy.ServerResponse.SetHeader | api/fetch-sitemap.js:149 | appends one header and changes nothing else |
| FetchProxy.ServerResponse.Send | api/fetch-sitemap.js:158-162 | sets the status and body and ends the response, headers untouched |
| FetchProxy.Handle | api/fetch-sitemap.js:147-189 | the five CORS and security headers are set, in order, before any branch; the reply is `Route`'s; the response is ended; with `Env.hosts` set to `AsWritten` this is the handler as deployed |
| App.WithSchemeAdds | public/js/app.js:58-63 | `https://` is prepended iff the text does not start with `http://` or `https://`, case-insensitively; the result always has a scheme; prepending is idempotent |
| App.Normalize | public/js/app.js:57-82 | the trimmed text, with `https://` put in front when it has no scheme, is a bare domain iff it parses with path `/` or empty; a bare domain gets a primary and two fallbacks, three distinct URLs on its origin; anything else is kept as the schemed text with no fallbacks |
| App.Locate | public/js/app.js:65-81 | on a URL that already has a scheme: bare domain iff it parses with path `/` or empty, then three distinct URLs on the origin; otherwise the URL itself with no fallbacks |
| App.NormalizeKept | public/js/app.js:57-81 | normalising a kept URL again gives the same result |
| App.SchemeTrimmed | public/js/app.js:58-62 | the normalised URL is still trimmed |
| App.PreCheck | public/js/app.js:166-178 | text passes iff, after leading white space, it starts with `<` and not with an HTML opening; blank text is reported as not XML |
| App.PreCheckPasses | public/js/app.js:166-178 | the browser passes exactly the bodies the proxy lets through (api/fetch-sitemap.js:111-131) |
| App.Aggregate | public/js/app.js:186-201 | the index loop yields `Collected` and `Failures` |
| App.CollectedSplit | public/js/app.js:189-201 | children contribute in index order: the result over `a + b` is the result over `a` followed by that over `b` |
| App.CollectedOne | public/js/app.js:190-200 | one child adds its entries when it parses as a sitemap, and counts a failure iff it throws |
| App.ChildrenAccounted | public/js/app.js:189-201 | every child either failed, loaded or was a nested index, so nested indexes add nothing and are not counted |
| App.TotalPagesCeil | public/js/app.js:248 | the page count is `ceil(n / pageSize)`, and 0 iff there are no entries |
| App.PageInside | public/js/app.js:245-246 | on a valid page, `0 ≤ start < end ≤ n` and the page holds at most `pageSize` rows, exactly `pageSize` before the last page |
| App.PageOfEntry | public/js/app.js:245-247 | every entry is on exactly one page, page `k / pageSize + 1` |
| App.PageRows | public/js/app.js:245-247 | the slice has at most `pageSize` rows, row `i` being entry `start + i` |
| App.PageRowsFull | public/js/app.js:245-247 | on a valid page the slice is exactly `entries[start..end]` and not empty |
| App.FirstOk | public/js/app.js:301-321 | the first candidate that fetches, if any: all earlier ones failed |
| App.FirstFetched | public/js/app.js:301-321 | the early-return loop stops at `FirstOk` |
| App.TryAllTries | public/js/app.js:301-333 | the primary is tried first, then the fallbacks in order (bare domain only), stopping at the first success; when all fail, the message is the not-found text for a bare domain and the primary's error otherwise |
| App.AttemptedTries | public/js/app.js:280-333 | blank input gives "Please enter a URL"; an unparsable primary gives "Please enter a valid URL"; otherwise the candidates are tried as above |
| App.Attempt | public/js/app.js:280-333 | the handler's fetching part computes `Attempted` |
| App.Read | public/js/app.js:165-210 | `processXML` up to storing the entries computes `Reading`: the pre-check error, the parse error, a sitemap's entries, or an index's aggregated entries with the failure count |
| App.AppState.constructor | public/js/app.js:8-16 | no entries, page 1, page size 25, no merge files |
| App.AppState.ProcessXml | public/js/app.js:163-242 | errors before storing leave the state alone; otherwise the entries are stored; an empty result is "No URLs found" and keeps the page; a non-empty one is reported with its count and failures and resets the page to 1; the page stays valid |
| App.AppState.FetchClick | public/js/app.js:280-335 | an input or fetch error leaves the state alone; the first fetched text is loaded as `ProcessXml` says |
| App.AppState.PrevPage | public/js/app.js:346-351 | the page goes down by one only when it is above 1 |
| App.AppState.NextPage | public/js/app.js:353-359 | the page goes up by one only when it is below the page count |
| App.AppState.AddMergeFile | public/js/app.js:486-498 | a `.xml` file that parses as a sitemap is appended with its name and entries; anything else is skipped |
| App.AppState.RemoveMergeFile | public/js/app.js:526 | `splice(idx, 1)` removes exactly index `idx`, keeping the rest in order; an index out of range changes nothing |
| App.AppState.MergeClick | public/js/app.js:532-545 | fewer than 2 files gives "Upload at least 2 sitemaps to merge" and no change; otherwise the merge result is returned and its entries stored |

## Left out

- XML parsing (`SitemapParser.parse`, `_parseUrlEntry`, public/js/parser.js:8-67) depends on `DOMParser` and CSS selector semantics. It is a parameter (`App.XmlParser`) that returns a URL set, an index or an error.
- WHATWG URL parsing (`new URL`, `origin`, `pathname`, `hostname`, relative resolution) is a parameter everywhere it occurs.
- In the proxy, sockets, timeouts, `req.destroy`, gzip/deflate/brotli decompression and UTF-8 decoding are left out. A response is given as its status, `location`, `content-length`, the sizes of the decompressed chunks, a stream error and the decoded text.
- In the browser, `fetchSitemapFromAPI` (public/js/app.js:87-109) is a parameter (`App.Fetcher`) that returns the text or an error.
- Floating point is left out:
  - the priority buckets, the average priority and the `toFixed` percentages of `analyze` (public/js/analytics.js:39-49, 64-70);
  - `toJSON` (public/js/converter.js:45-52).
- Merger.MergeSorted: `parseFloat` of a priority is an integer-valued parameter, and a priority that parses to NaN is not modelled.
- Analytics.StatsFacts: `freqDist` is a JavaScript object. Its key order for integer-like keys and inherited keys such as `constructor` are not modelled. Keys are kept in insertion order.
- Analytics.DateRange: `dates.sort()` is modelled by its first and last elements (the least and greatest date), not as a sorted array.
- `toLowerCase` is modelled on ASCII letters only (`Text.ToLower`). JavaScript `trim` is removal of a fixed white-space set (`Text.IsSpace`).
- Strings are sequences of characters. JavaScript's UTF-16 code units and `Buffer` decoding are not modelled.
- These are not modelled:
  - all DOM and UI code: `render`, `_renderSection`, `renderPreview`'s HTML, toasts, loading indicators, tabs, drop zones, `readFile`;
  - `Converter.download`;
  - the compare tab's file loading;
  - the CSV tab's handlers and the export buttons.
- Async code and `setTimeout` are left out. The index loop and the fallback loop are plain sequential loops.
- App.AppState.FetchClick: `processXML` catches its own errors and never rethrows, so a fetched text ends the fallback loop even when it fails to load. The model follows the code; it tries a fallback only when a fetch fails.
- App.AppState.ProcessXml: requires `Valid()`, the page invariant (page ≥ 1, and within the page count while there are entries). The constructor establishes it and every method preserves it.
- Parser.ParseCsv: the `cols.length === 0` test (public/js/parser.js:87) can never be true, because the tokenizer always returns a field. The model has no such branch.
- The timestamp line of `generateReport` (public/js/comparer.js:141) is a parameter.
- The drop handler's `.xml` test for the converter (public/js/app.js:269-272) only shows a toast and is not modelled. The merge tab's file list applies the same test (`App.AppState.AddMergeFile`).

## Findings

| source | as written | input that shows it | evidently intended | confidence | as-written member | corrected member |
|---|---|---|---|---|---|---|
| api/fetch-sitemap.js:16-18 | the IPv6 patterns `^::1$`, `^fc00:` and `^fe80:` are matched against `URL.hostname`, which keeps the brackets around an IPv6 literal | `http://[::1]/sitemap.xml`, hostname `[::1]`, passes the blocklist | the loopback and listed IPv6 prefixes are blocked whether or not the host is bracketed | not executed | FetchProxy.LoopbackV6Requested | FetchProxy.LoopbackV6Refused |

The proxy model takes the hostname test as part of its environment
(`FetchProxy.Env.hosts`). With `AsWritten`, `FetchProxy.Admit` tests
`isPrivateIP` on the hostname exactly as URL parsing gives it, as the proxy
does, and `FetchProxy.LoopbackV6Requested` shows `[::1]` being requested. With
`Corrected`, it tests `FetchProxy.IsBlockedHost`, the address with its brackets
removed, and `FetchProxy.LoopbackV6Refused` shows the same URL refused.
`FetchProxy.BlockedHostExtends` and `FetchProxy.CorrectedAdmitsLess` prove that
the corrected test blocks everything the original list blocks.
`FetchProxy.BracketedNeverPrivate` proves that the list as written never matches
any bracketed host. Every fetch and handler lemma holds under both tests.
