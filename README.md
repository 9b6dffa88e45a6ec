# pager, modelled in Dafny

pager builds a one-page static site. A build reads `pager.yaml` and
`content.html` and writes `index.html`, filled in from a template, plus a
markdown copy `index.md`. It warns about a missing or over-long title or
description, a missing domain, and referenced files that cannot be found.
It can inline local stylesheets and adds a content hash to the local ones it
links.

Before rendering, the content processor walks the parsed HTML fragment:
- headings get unique `id`s derived from their text (`slugify` and `uniqueID`);
- every other `id` is made unique;
- images get an `aspect-ratio` style;
- external links open in a new tab;
- local links are collected and checked;
- `<toc />` is replaced by a nested table of contents.

CSV files become escaped HTML tables. Code files become highlighted blocks,
with a plain escaped fallback. A development server serves the page with a
live-reload script and rebuilds on file changes. `main.go` is an earlier,
single-file variant with a flat table of contents and production file names
of the form `name.hash.ext`.

The model, one module per concern:

| module | what |
|---|---|
| `Strings`, `Decimal` | the Go string and number functions the code relies on (`HasPrefix`, `Index`, `ReplaceAll`, `Trim*`, `%d`) |
| `Slug`, `Registry` | `slugify` and the `uniqueID` suffix search |
| `Dom` | the parsed tree and `hasAttr`/`getAttr`/`setAttr` |
| `Augment`, `AugmentFacts`, `Walker` | `processNode`: a specification function per block, lemmas about each, and the imperative walk over a `ProcessState` class proved to compute it |
| `Links`, `Content` | the link check and `processContent` after parsing |
| `Toc`, `TocItems`, `TocNesting` | `buildTOC` as written, a corrected builder, the entries both list and how their HTML nests |
| `Include` | `csvToTable`, `html.EscapeString`, `filepath.Ext` and the fallback of `highlightCode` |
| `Build` | `build` over a `Disk` class holding the site directory, its warnings, cache busting and the domain |
| `Server` | `notifyClients`, `sseHandler`, the file server, the watch loop with its debounce timer, and the port-probing loop |
| `Legacy` | the parts of `main.go` that differ: the flat `buildTOC` and the production renaming loop |

The outside world is passed in as parameters:
- Unicode classification and case mapping (`Slug.Unicode`);
- file existence and image sizes (`Augment.Env`);
- the parser's result and the HTML renderer;
- the YAML parser, SHA-256, the template, the markdown converter and Go's `%q`
  quoting (`Build.Tools`);
- directory tests, build outcomes and free ports.

A file system is a map from path to contents, plus a set of paths on which a
write fails. Paths are relative to the site directory, and `filepath.Join`
with that directory is left to the oracles.

## Model

| member | source | states |
|---|---|---|
| Strings.TrimPrefix | include.go:63 | removes the prefix exactly when present, else returns the input |
| Strings.Index | process.go:32 | first occurrence of the pattern, or -1 when it occurs nowhere |
| Strings.ReplaceAllLength | process.go:32-34 | replacing "--" by "-" shortens the string whenever "--" occurs, so the rewrite loop ends |
| Strings.ReplaceAllAbsent | process.go:32-34 | `ReplaceAll` is the identity on a string without the pattern |
| Strings.TrimLeftFacts | process.go:35 | trimming removes a cut prefix and stops at the first kept character |
| Strings.TrimRightFacts | process.go:35 | the same at the right end |
| Strings.TrimShape | process.go:109 | `strings.TrimSpace`/`Trim` keep a contiguous slice not starting or ending with a cut character, empty iff every character is cut |
| Decimal.Itoa | process.go:90 | `%d` of a natural number writes at least one character, all decimal digits |
| Decimal.AtoiItoa | process.go:90 | reading back the decimal digits written by `%d` gives the number |
| Decimal.ItoaInjective | process.go:90 | different numbers print differently |
| Decimal.ItoaLong | process.go:90 | numbers at least 10^k print with more than k digits |
| Registry.SuffixedInjective | process.go:90 | `id-j` and `id-k` are equal only when j = k |
| Registry.SuffixBound | process.go:89-95 | a suffix taken in the id set is below 10^(longest id), so the search loop ends |
| Registry.FreeSuffix | process.go:89-95 | the counting loop returns the least k ≥ 1 with `id-k` not taken |
| Registry.Reserve | process.go:84-96 | `uniqueID` returns an id not taken before |
| Registry.ReserveLeast | process.go:84-96 | an untaken id is returned unchanged, otherwise `id-k` for the least free k ≥ 1; unchanged iff not taken |
| Registry.ReserveRepeated | process.go:84-96 | the n-th request for the same id, after `id`, `id-1`, ..., `id-(n-1)`, gets `id-n` |
| Registry.ReserveIntroThrice | process.go:84-96 | "intro" three times gives "intro", "intro-1", "intro-2" |
| Walker.ProcessState.UniqueID | process.go:84-96 | the method returns `Reserve` of the old id set and adds the result to the set |
| Slug.Slugify | process.go:21-36 | the lower/map/rewrite-loop/trim method returns `SlugSpec`, the loop's fixpoint being the collapse of hyphen runs |
| Slug.LowerAt | process.go:22 | lower-casing keeps the length and maps each character |
| Slug.MapRunesChars | process.go:23-31 | the mapped string holds only hyphens and kept characters of the input, and every kept character survives |
| Slug.SqueezeReplace | process.go:32-34 | one `ReplaceAll("--", "-")` round does not change the collapsed result |
| Slug.NoContainsNoDouble | process.go:32 | when the loop stops there is no "--" left |
| Slug.SqueezeFixed | process.go:32-34 | a string without "--" is its own collapse |
| Slug.SqueezeNoDouble | process.go:32-34 | the collapse holds no "--" |
| Slug.SqueezeChars | process.go:32-34 | collapsing only drops hyphens |
| Slug.SlugShape | process.go:21-36 | a slug has no "--", does not start or end with '-', and holds only hyphens and lower-cased letters or digits of the input |
| Slug.SlugEmptyIff | process.go:21-36 | the slug is empty exactly when no character lower-cases to a letter or digit |
| Dom.KeyIndex | process.go:58-66 | the position of the first pair with the key, or -1 when there is none |
| Dom.GetAttr | process.go:68-75 | the value of the first pair with the key, "" when absent |
| Dom.SetAttr | process.go:58-66 | the loop overwrites the first pair with the key, or appends one (`WithAttr`) |
| Dom.WithAttrSame | process.go:58-66 | after `setAttr` the key is present with the new value |
| Dom.WithAttrOther | process.go:58-66 | `setAttr` leaves every other key's presence and value alone |
| Dom.WithAttrShape | process.go:58-66 | with the key present: same length, one pair replaced in place, the rest unchanged; without it: one pair appended |
| Dom.AppendAttr | process.go:108 | appending a pair adds its key, with that value only if it was absent |
| Augment.HeadingTagIff | process.go:101-119 | the heading test and the generic-id test cover the same six tags, so each element's id goes through exactly one block |
| AugmentFacts.StyledIsWithAttr | process.go:138-148 | the style loop is `setAttr` of `old + "; " + style`, or of `style` alone |
| AugmentFacts.StyledEffect | process.go:138-148 | an existing `style` becomes `old + "; aspect-ratio..."` in place; otherwise exactly one `style` pair is appended; no other attribute changes |
| AugmentFacts.ExternalAttrsEffect | process.go:174-180 | `target="_blank"` and `rel="noopener"` are appended, each only when absent; existing attributes keep their values |
| AugmentFacts.AddIfAbsentEffect | process.go:175-180 | adding a pair only when the key is absent leaves every present key's value alone |
| AugmentFacts.HeadingFacts | process.go:101-116 | the heading block only touches `id`; a heading without `id` and with an empty slug is left alone; otherwise it gets a fresh id and one heading record (level, id, trimmed text) |
| AugmentFacts.HeadingSlugFacts | process.go:104-110 | without `id`: a non-empty slug becomes a fresh id |
| AugmentFacts.HeadingIdFacts | process.go:111-115 | with `id`: it is replaced by a fresh de-duplicated id |
| AugmentFacts.IdFacts | process.go:118-124 | for non-headings an `id` is kept present and made fresh; nothing else is collected |
| AugmentFacts.ImageFacts | process.go:126-153 | the image block changes only `style` and the warnings |
| AugmentFacts.AnchorFacts | process.go:170-191 | the anchor block collects a local non-empty `href` and touches only `target`/`rel` |
| AugmentFacts.AnchorLinkFacts | process.go:172-185 | the same for the `href` branch alone |
| AugmentFacts.LaterFacts | process.go:126-191 | the blocks after the id blocks keep `id` and `href` and collect nothing but links |
| AugmentFacts.ElementFacts | process.go:98-192 | one element adds its heading record, its fresh id and its local link |
| AugmentFacts.WalkShape | process.go:98-197 | the walk keeps the tree shape and all text, changing only attributes |
| AugmentFacts.WalkSeqShape | process.go:194-196 | the same for a list of siblings |
| AugmentFacts.WalkHeadings | process.go:98-197 | the collected headings are those of the resulting tree in document order |
| AugmentFacts.WalkSeqHeadings | process.go:194-196 | the same for siblings |
| AugmentFacts.WalkIds | process.go:98-197 | the ids of the resulting tree are pairwise distinct, new, and exactly what the id set gains |
| AugmentFacts.WalkSeqIds | process.go:194-196 | the same for siblings |
| AugmentFacts.WalkLinks | process.go:98-197 | the collected links are the local `href`s of the resulting tree in document order |
| AugmentFacts.WalkSeqLinks | process.go:194-196 | the same for siblings |
| Walker.AppendStyle | process.go:138-148 | the style loop computes `Styled` |
| Walker.ProcessState.constructor | process.go:326 | a fresh state collects nothing |
| Walker.ProcessState.HeadingBlock | process.go:101-116 | the heading block's updates equal `HeadingSpec` |
| Walker.ProcessState.IdBlock | process.go:118-124 | the generic id block equals `IdSpec` |
| Walker.ProcessState.ImageBlock | process.go:126-153 | the image block equals `ImageSpec` |
| Walker.ProcessState.MediaBlock | process.go:155-168 | the `src`/`poster` loop appends exactly `RefWarnings` |
| Walker.ProcessState.CheckRef | process.go:157-167 | one attribute warns when empty, or when local and missing |
| Walker.ProcessState.AnchorHref | process.go:172-185 | the `href` branch equals `AnchorLink` |
| Walker.ProcessState.AnchorBlock | process.go:170-191 | the anchor block equals `AnchorSpec` |
| Walker.ProcessState.ProcessNode | process.go:98-197 | the recursive walk returns the tree and state of `Walk` |
| Walker.ProcessState.ProcessChildren | process.go:194-196 | the child loop equals `WalkSeq` |
| Walker.ProcessState.ValidateLinks | process.go:331-344 | the link loop appends exactly `LinkWarnings` |
| Walker.ProcessState.CheckLink | process.go:333-343 | one link warns for a missing `#id` or a missing local file |
| Links.MissingIdIff | process.go:332-337 | a `#x` link warns exactly when it was collected and `x` is no id of the page |
| Links.MissingFileIff | process.go:338-343 | a link warns about a file exactly when it is local and not `mailto:`/`tel:`/`http` and the file is missing |
| Content.ProcessContent | process.go:317-356 | `processContent` after parsing equals `ContentSpec`, which puts the table `buildTOC` writes as written in place of `<toc>`; a parse failure returns the content unchanged |
| Content.ContentFacts | process.go:317-356 | headings, ids and links are those of the walked tree; ids are distinct; the log ends with the link warnings; the result is the rendering with the placeholder replaced by `buildTOC`'s table of those headings |
| Content.TableFacts | process.go:199-255 | the inserted table lists every heading once in order, the first at depth 1 and the others at their normalised level; it has as many `</ul>` as `<ul>`; it is well nested when the first heading has the smallest level and no level is skipped |
| Content.ContentMissingId | process.go:331-337 | a missing-id warning for a link is issued iff that link is in the page and its target id is not |
| Toc.MinLevel | process.go:205-210 | the minimum heading level: below or equal to all, attained by one |
| Toc.FindMinLevel | process.go:205-210 | the loop computes `MinLevel` |
| Toc.WriteOpens | process.go:221-224 | the opening loop raises the depth to the level and writes one `<ul>` per step |
| Toc.CloseRound | process.go:228-232 | one closing round writes `</ul>` then `</li>` at the right indents and lowers the depth by one |
| Toc.WriteCloses | process.go:227-233 | the closing loop lowers the depth to the level |
| Toc.WriteItem | process.go:236-243 | writes the item line, open if children follow |
| Toc.WritePre | process.go:216-234 | what precedes an item: the first `<ul>`, the opening loop or the closing loop |
| Toc.WriteHeading | process.go:214-244 | one heading round, with depth 1 after the first heading and its normalised level after each later one |
| Toc.WriteHeadings | process.go:214-244 | the heading loop |
| Toc.WriteEnd | process.go:245-253 | the final closing loop and `</ul>` |
| Toc.BuildToc | process.go:199-255 | `buildTOC` as written returns the rendering of `TocTokens` |
| Toc.BuildFixedToc | process.go:199-255 | the corrected builder returns the rendering of `FixedTokens` |
| Toc.WriteFixedHeadings | process.go:214-244 | the corrected heading loop |
| Toc.WriteFixedHeading | process.go:214-244 | one corrected heading round |
| Toc.WriteWrappedOpens | process.go:221-224 | the corrected opening loop, opening an `<li>` before each extra nested list |
| Toc.WriteFixedPre | process.go:216-234 | what precedes an item in the corrected builder |
| TocItems.Normalised | process.go:215 | each heading at its normalised level `level - min + 1` |
| TocItems.TocEntries | process.go:199-255 | one item per heading in input order, the first at depth 1 and each later at its normalised level |
| TocItems.EntriesFrom | process.go:214-244 | the same from any heading on |
| TocItems.FixedEntries | process.go:199-255 | the corrected table lists every heading in order at its normalised level |
| TocItems.FixedEntriesFrom | process.go:214-244 | the same from any heading on |
| TocItems.TocEmptyIff | process.go:200-202 | both tables are empty exactly when there are no headings |
| TocItems.OpensCount | process.go:221-224 | the opening loop writes one `<ul>` per level and no `</ul>` |
| TocItems.ClosesCount | process.go:227-233 | the closing loop writes one `</ul>` per level and no `<ul>` |
| TocItems.UlCountFrom | process.go:214-253 | from any heading on, the `</ul>`s written equal the `<ul>`s written plus the depth |
| TocItems.TocUlBalanced | process.go:199-255 | the table writes as many `<ul>` as `</ul>` |
| TocNesting.RunCloses | process.go:227-233 | the closing loop closes exactly the lists and items above the target depth |
| TocNesting.RunItem | process.go:236-243 | an item line leaves its `<li>` open exactly when children follow |
| TocNesting.FixedNestedFrom | process.go:214-253 | from any heading on, the corrected pieces close every list and item they open, starting from the open lists and items at that depth |
| TocNesting.FixedWellNested | process.go:199-255 | the corrected table is well nested for every heading list |
| TocNesting.SkippedLevelTokens | process.go:219-224 | levels 1, 3 write two nested `<ul>` with no `<li>` between them |
| TocNesting.SkippedLevelMisnested | process.go:219-233 | the table as written for levels 1, 3 is not well nested |
| TocNesting.DeepFirstTokens | process.go:214-233 | levels 2, 2, 1 write the second heading's list without an enclosing item |
| TocNesting.DeepFirstMisnested | process.go:214-233 | the table as written for levels 2, 2, 1 is not well nested |
| TocNesting.StepsAgree | process.go:214-244 | with no skipped level, the written and corrected pieces agree from any heading on |
| TocNesting.NoSkipAgree | process.go:199-255 | when the first heading has the minimum level and no level is skipped, the table as written is the corrected one and is well nested |
| TocNesting.NestedExample | process.go:199-255 | levels 2, 3, 3, 2 give one well-nested outer list of two items, the first holding a nested list of two |
| Include.EscapeCharSafe | include.go:31 | an escaped character holds no `<`, `>`, quote or carriage return |
| Include.EscapeSafe | include.go:31 | escaped text holds no special character but the `&` of an entity |
| Include.UnescapeEscape | include.go:31 | escaping loses nothing: unescaping gives the cell back |
| Include.EscapeIsSafe | include.go:31 | escaped text holds no `<`, so a cell cannot open a tag |
| Include.EscapeRow | include.go:29-41 | one escaped text per cell |
| Include.EscapeRecords | include.go:35-43 | one escaped row per record |
| Include.WriteCell | include.go:30-32 | writes open tag, escaped cell, close tag |
| Include.WriteCells | include.go:29-33 | the cell loop writes the cells of the escaped row |
| Include.WriteRow | include.go:36-42 | one body row |
| Include.WriteRows | include.go:35-43 | the row loop writes every record after the first |
| Include.WriteHead | include.go:28-34 | the header: the first record as `<th>` cells between the table head markup |
| Include.CsvToTable | include.go:17-46 | the table for parsed records, "" with a warning on a parse failure, "" for no records |
| Include.TableFrame | include.go:28-44 | the table opens with the table head and closes with `</tbody>`/`</table>` |
| Include.HeaderTags | include.go:29-33 | the header holds one `<th>` per header cell and no other counted tag |
| Include.BodyTags | include.go:35-43 | the body holds one `<tr>` per row and one `<td>` per cell |
| Include.RowShape | include.go:36-42 | a body row is one `<tr>...</tr>` holding one `<td>` per cell |
| Include.Ext | include.go:49 | `filepath.Ext` is a suffix of the path |
| Include.ExtShape | include.go:49 | a non-empty extension is a suffix starting with its only '.' and holding no '/' |
| Include.ExtEmptyIff | include.go:49 | the extension is empty iff every '.' of the path is followed by a '/' |
| Include.LangOfExt | include.go:63 | the language name is the extension without its dot |
| Include.FallbackCode | include.go:61-71 | on a highlighter failure the block is `<pre><code class="language-L">`, the escaped code, `</code></pre>` |
| Build.Utf8Len | build.go:53-57 | `len` counts UTF-8 bytes: between one and four per character |
| Build.CssWarningsIff | build.go:71-77 | a stylesheet warns iff it is listed, local and not found |
| Build.EssentialsIff | build.go:41-50 | an empty title, description or domain each warn, and nothing else does |
| Build.LengthsIff | build.go:52-58 | a title over 60 or a description over 160 bytes warns, with the length |
| Build.ReferencesIff | build.go:60-77 | a local favicon, card image or stylesheet that is not found warns |
| Build.ConfigWarningsIff | build.go:41-77 | a configuration warning is issued iff its cause holds |
| Build.RemoteOnlyConcat | build.go:101-107 | filtering distributes over concatenation |
| Build.RemoteOnlyIff | build.go:99-109 | when inlining, exactly the `http` references stay links, in order |
| Build.InlineCount | build.go:83-109 | every local stylesheet is inlined or warned about; remote ones stay links |
| Build.HashOf | build.go:18-29 | a hash exists iff the file can be read; it is the first 8 digits of the digest |
| Build.VersionedShape | build.go:111-127 | cache busting keeps length and order; remote or unreadable references are unchanged; others get `?v=` and the 8-digit hash |
| Build.NormalizeDomainFacts | build.go:139-143 | `https://` is prepended iff the domain is non-empty with neither scheme; normalising twice equals once |
| Build.PublishWrites | build.go:145-168 | template or `index.html` failures write nothing; otherwise `index.html` holds the filled template and no file but `index.md` changes |
| Build.PublishFacts | build.go:145-168 | publishing fails only in the template or a write; success means `index.html` was writable and the log only grew |
| Build.RenderFacts | build.go:78-168 | from `content.html` on, a missing `content.html` is its own error |
| Build.NoWriteOnError | build.go:31-171 | every error but the failed `index.md` write leaves the files unchanged, so a failed build has written `index.html` only when writing `index.md` failed; then, and on success, `index.html` holds the filled template and no other file but `index.md` changed |
| Build.FailureCauses | build.go:31-81 | the build fails on a missing `pager.yaml`, bad YAML, or a missing `content.html`, exactly when each happens first; a successful build only appends warnings |
| Build.Disk.Write | build.go:155-157 | a write fails on a locked path and then changes nothing |
| Build.Disk.WarnConfig | build.go:41-77 | the warning code appends `ConfigWarnings` |
| Build.Disk.InlineStyles | build.go:83-97 | the inlining loop returns the readable local stylesheets and warns for unreadable ones |
| Build.Disk.HashFile | build.go:18-29 | `hashFile` equals `HashOf` |
| Build.Disk.VersionRefs | build.go:111-127 | the cache-busting loop equals `VersionedAll` |
| Build.Disk.Build | build.go:31-171 | the whole build leaves the error, files and log of `BuildSpec`: configuration warnings, inlining warnings, the warnings of `processContent`, then a failed markdown conversion |
| Build.Disk.PageFor | build.go:83-137 | the page data is `Page`, and the log gains the inlining warnings and then those of `processContent` |
| Build.Disk.PublishPage | build.go:145-168 | executing the template and the two writes leave the error, files and log of `Publish` |
| Build.WarnEssentials | build.go:41-50 | the three emptiness checks in order |
| Build.WarnLengths | build.go:52-58 | the two length checks in order |
| Build.WarnReferences | build.go:60-77 | the favicon, card and stylesheet checks in order |
| Build.RemoteRefs | build.go:99-109 | the filtering loop keeps the remote references in order |
| Server.Filled | server.go:22-31 | notifying keeps the client set and leaves every slot full |
| Server.FilledIdempotent | server.go:22-31 | notifying twice is notifying once |
| Server.Hub.NotifyClients | server.go:22-31 | the non-blocking send loop fills every empty slot |
| Server.Reloads | server.go:56 | n events take n times the event's length |
| Server.FirstDone | server.go:53-61 | the cancellation is the first `false` round |
| Server.Hub.SseHandler | server.go:33-62 | the client is registered then removed; without a flusher nothing is written, else one reload event per signal before cancellation |
| Server.InjectFacts | server.go:75 | without `</body>` the page is served unchanged; otherwise only the first `</body>` gets the reload script before it |
| Server.ServeIff | server.go:65-82 | only `/` and `/index.html` with a readable page are answered with the injected page; all else goes to the file server |
| Server.LastElement | server.go:113 | the last path element holds no separator |
| Server.LastElementJoin | server.go:113 | the last element of `dir/name` is `name` |
| Server.BaseJoin | server.go:113 | `filepath.Base` of `dir/name` is `name` |
| Server.AcceptedFilter | server.go:113-115 | the filter drops ignored files only: all events kept when none is ignored, none when all are |
| Server.ClosedBound | server.go:126-134 | at most one timer fire per gap between accepted events |
| Server.BurstFacts | server.go:123-134 | events closer than the delay give one build; events all farther apart give one each; no events, no build |
| Server.Watcher.Fire | server.go:127-133 | the timer's callback builds once then notifies clients once |
| Server.Watcher.FireIfDue | server.go:126-134 | a timer whose deadline has passed fires before the next event |
| Server.Watcher.Arm | server.go:123-126 | stopping and re-arming counts a gap exactly when the previous timer had fired |
| Server.Watcher.Step | server.go:111-135 | one event: fire a due timer, skip ignored files, watch created directories, re-arm |
| Server.Watcher.Loop | server.go:110-142 | the event loop keeps earlier builds, numbers later ones, notifies once per build and adds created directories |
| Server.Watcher.Run | server.go:109-143 | the watch loop makes one build per burst of accepted events, each followed by a notification, and watches every created directory |
| Server.Listen | server.go:149-159 | at most 50 tries on consecutive ports; serves on the first free one, otherwise none of the 50 was free |
| Legacy.BuildFlatToc | main.go:254-265 | the flat `buildTOC` returns `FlatToc` |
| Legacy.FlatTocShape | main.go:254-265 | empty iff there are no headings; otherwise wrapped in `<ul>\n` and `</ul>` |
| Legacy.FlatItemsLines | main.go:260-262 | the items are exactly one `<li>` line per heading, in input order |
| Legacy.FlatIgnoresLevels | main.go:254-265 | no nesting: levels do not affect the output |
| Legacy.ExtSuffix | main.go:453 | the extension is the path's tail |
| Legacy.HashedNameParts | main.go:453-455 | `base.hash.ext` keeps stem and extension around `.hash`; removing `.hash` gives the original name, which it never equals |
| Legacy.RenameOneFacts | main.go:442-466 | remote references kept; local ones become `base.hash.ext` with the file copied there iff hashing, reading and writing all succeed; otherwise nothing is written |
| Legacy.RenameAllFacts | main.go:440-467 | one name per stylesheet in order: remote ones unchanged, each local one unchanged or an 8-digit hashed name of itself |
| Legacy.Rename | main.go:442-466 | one loop round equals `RenameOne` |
| Legacy.ProductionRefs | main.go:440-467 | the production loop's names and copied files equal `RenameAll` |

In `main.go`, `slugify` (75-90), `uniqueID` (139-151), `processNode`
(153-252), `notifyClients` (504-513), the page injection of `fileServer`
(552-558) and the base-URL normalisation (480-484) are the same algorithms
as the rows above. Its watch loop (606-639) is `Server.Watcher.Run` with
`Server.LegacyDelay` and `Server.LegacyIgnored`.

## Left out

- HTML parsing and rendering (`html.ParseFragment`, `html.Render`): the parsed fragment and the renderer are inputs.
- The regular-expression expansion of `<convert>` and `<syntax>` in `processContent`, with goldmark, the CSV reader and chroma: their results are inputs; whether `<toc>` occurred is a boolean input.
- `syntaxThemeCSS` and the chroma highlighter: the highlighted output of `highlightCode` is an input, and only its fallback path is modelled.
- `html.EscapeString` is not part of this repository. It is modelled on its six replaced characters. The table writers take the escaper as a parameter, and the properties that need it require only that its output holds no `<`.
- Unicode tables: `unicode.IsLetter`, `IsDigit`, `IsSpace` and `ToLower` are uninterpreted functions, so the slug results hold for any classification.
- SHA-256, YAML decoding, `html/template` execution, html-to-markdown conversion and Go's `%q` quoting are functions in `Build.Tools`.
- `filepath.Join` with the site directory: paths are taken relative to it.
- `os.WriteFile` is all or nothing. A failed write changes nothing; partial writes are not modelled.
- Concurrency and real time: goroutines, the mutex, channels and `time.AfterFunc` are replaced by a sequential schedule of time-stamped events. A timer fires between events, and a pending one fires after the last event.
- `filepath.Walk` over the initial directories, the hidden-directory skip, `fsnotify` itself, watch errors, `openBrowser`, `scaffold`, `main`'s dispatch and the build at the start of `run` are I/O or set-up without logic of interest.
- `Server.Watcher.Run` does not state which file events trigger which build. It counts builds per burst, and each build's outcome is an input.
- The rest of `build` in `main.go` is like `build` in build.go with `site.yaml` and `base_url`. It has no cache busting and no `index.md`. Only its production renaming and base-URL normalisation are modelled, and its `slugify`, `uniqueID`, `processNode`, `notifyClients` and `fileServer` are the same algorithms as the later files'. `main.go`'s `sseHandler` and `run` without port probing are covered by the server model.
- `image.DecodeConfig`: image sizes are an input (`Augment.Env.imageSize`).
- Warnings are data appended to a log rather than formatted text.
- Build.Disk.Build: the warnings `processContent` prints come from the `process` tool, each as an uninterpreted note. The build does not call `Content.ProcessContent`, so it does not state which notes a page gives.
- Legacy.ProductionRefs: the list it renames is a parameter. In `main.go` (441) that list is the configured `css` list, not the remote-only `cssRefs` kept when inlining (427-436). So a production build with `inline_css` links again every local stylesheet it has also inlined. The rest of that `build` is not modelled, so the model does not capture this interaction.

## Findings

| source | as written | input that shows it | evidently intended | confidence | as-written member | corrected member |
|---|---|---|---|---|---|---|
| process.go:219-233 | when a heading skips a level, the opening loop writes a nested `<ul>` directly inside a `<ul>`; the later closing loop then writes `</li>`s for items never opened | levels [1, 3] | a nested list always sits inside an open `<li>`, so the HTML is well nested | high, not executed | TocNesting.SkippedLevelMisnested | TocNesting.FixedWellNested |
| process.go:214-233 | when the first heading is deeper than a later one, it is written at depth 1, but later headings close lists down to their own normalised level, which may close the outer list | levels [2, 2, 1] | every heading sits at its normalised level inside the one outer list | high, not executed | TocNesting.DeepFirstMisnested | TocNesting.FixedWellNested |

The corrected builder (`Toc.BuildFixedToc`) places every item at its
normalised level and opens an `<li>` before each extra nested list.
`Content.ProcessContent` keeps the program's builder as written, so the page
holds the misnested table on these inputs; `Content.TableFacts` states when
that table is well nested. `TocNesting.NoSkipAgree` proves that the corrected builder
writes exactly what the original writes whenever the first heading has the
minimum level and no level is skipped.
