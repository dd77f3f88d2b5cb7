# Social media analysis tool — a Dafny model of its core logic

The system analyses the comments of a Facebook page. Its back-end is a FastAPI service with two jobs:

- it scrapes posts and comments through the Graph API, cleans the text, removes duplicate comments, runs a sentiment model and a topic model, and counts the results per sentiment and per category;
- it analyses a CSV file of comments in the same way.

Its React front-end does the rest:

- it validates an uploaded CSV file and builds the scrape request from a form;
- it keeps the latest result, the saved settings and a registry of exports in three small stores;
- it derives a printable report: a monthly timeline, the sentiment shares, the top topics, the date range and grids of per-category cards;
- it exports the comments and the category counts as CSV, and the report as a paginated PDF.

This project models that logic in Dafny and proves what each piece promises. Each source file becomes one module:

| module | models |
|---|---|
| `Csv` | `generateCsv.ts`: the CSV escaper, the two CSV builders and the two export actions |
| `ExportsStore` | `useExportsStore.ts` |
| `AnalysisStore` | `useAnalysisStore.ts` |
| `SettingsStore` | `useSettingsStore.ts` |
| `GenerateReport` | `generateReport.ts`: the page loop, the slicing loop, the registry entry and the cleanup |
| `ReportDocument` | `ReportDocument.tsx`: chunking, shares, the prevalent sentiment, top topics, the date range and the topics section |
| `ReportTimeline` | the month-bucket timeline of `ReportDocument.tsx` |
| `Dashboard` | `Dashboard.tsx`: CSV-upload validation, the settings prefill, the request payload and the issue list |
| `Utils` | `utils.py`: `chunk_list`, `merge_model_outputs`, `generate_analytics` |
| `FbScraper` | `fb_scraper.py` |
| `AppMain` | `main.py`: the two endpoints |
| `Schemas` | `schemas.py` |

Three modules hold shared definitions:

- `ApiTypes` holds the records of `useScrapeAnalyze.ts`;
- `Text` holds whitespace, trimming, lower-casing, decimal printing and parsing, split and join;
- `Base` holds `Option`, chunks, ceiling division, a stable sort and counting.

Imperative source stays imperative. Each of the three stores is a class with `modifies` clauses on its methods. The PDF document being built is a class whose page list grows page by page. Loops that push into arrays or bump counters are methods with loop invariants:

- the CSV builders;
- `chunk`;
- the timeline reduce;
- the row checks of the upload validator;
- `merge_model_outputs` and `generate_analytics`;
- the paging loops and the dedupe;
- the CSV reader loop.

Each such method is proved against a specification function, and the properties are proved about that function.

Everything the program gets from outside becomes a parameter:

- the clock, ids and locale formatting;
- the URL parser and the regex removals;
- the rows produced by the CSV parsers;
- the model inference;
- the pages Facebook returns;
- the rendered canvases.

## Model

| member | source | states |
|---|---|---|
| `Csv.Escape` | social-media-analysis-tool-front-end/src/components/report/generateCsv.ts:5-12 | A missing value gives the empty field. A value without quote, comma, LF or CR is unchanged. Otherwise the result is the value with its quotes doubled, between two quotes, so its length is the original length plus 2 plus the number of quotes. |
| `Csv.DoubleQuotes` | social-media-analysis-tool-front-end/src/components/report/generateCsv.ts:9 | Doubling the quotes lengthens the string by exactly its number of quotes. |
| `Csv.ParseQuotedDoubled` | social-media-analysis-tool-front-end/src/components/report/generateCsv.ts:9 | Reading a doubled-quote body up to the closing quote undoes the doubling (collapsing `""` gives back the value) and leaves the rest of the input untouched. |
| `Csv.ParseEscapedField` | social-media-analysis-tool-front-end/src/components/report/generateCsv.ts:5-12 | An RFC 4180 field reader applied to any escaped value, followed by a comma, a newline or the end of input, returns exactly that value and the rest. |
| `Csv.FieldRoundTrip` | social-media-analysis-tool-front-end/src/components/report/generateCsv.ts:5-12 | Decoding an escaped field gives back the original string, for every string. |
| `Csv.ParseEncodedRecord` | social-media-analysis-tool-front-end/src/components/report/generateCsv.ts:27-28 | A row of escaped fields joined by commas reads back as the same list of values. |
| `Csv.ParseEncodedRecords` | social-media-analysis-tool-front-end/src/components/report/generateCsv.ts:45 | Non-empty rows joined by `"\n"` read back as the same rows. |
| `Csv.DocumentRoundTrip` | social-media-analysis-tool-front-end/src/components/report/generateCsv.ts:45 | The document is the BOM followed by the joined rows, and it parses back to exactly the records it was built from. |
| `Csv.Records` | social-media-analysis-tool-front-end/src/components/report/generateCsv.ts:16-44 | The record list is the header followed by one row per item, in item order: one more record than items. |
| `Csv.CommentValues` | social-media-analysis-tool-front-end/src/components/report/generateCsv.ts:32-40 | Each comment row has as many fields as the seven-name header. The id, sentiment, category and text sit at their header positions. A missing `created_time` or a missing confidence is an empty field. |
| `Csv.CategoryValues` | social-media-analysis-tool-front-end/src/components/report/generateCsv.ts:64-70 | Each category row has as many fields as the header, starting with the category name. The neutral count is the fourth field and the negative count the fifth, as the header names them. |
| `Csv.CommentsRoundTrip` | social-media-analysis-tool-front-end/src/components/report/generateCsv.ts:14-46 | The comments export parses back to its header and one row per comment. |
| `Csv.CategoriesRoundTrip` | social-media-analysis-tool-front-end/src/components/report/generateCsv.ts:48-76 | The categories export parses back to its header and one row per category. Missing analytics gives the header alone. |
| `Csv.BuildCsv` | social-media-analysis-tool-front-end/src/components/report/generateCsv.ts:16-45 | The push loop produces exactly the encoding of the header and the item rows: the BOM, then 1 + n lines joined by `"\n"` with no trailing newline. |
| `Csv.BuildCommentsCsv` | social-media-analysis-tool-front-end/src/components/report/generateCsv.ts:14-46 | The comments CSV is the encoded document of the comment records. |
| `Csv.BuildCategoriesCsv` | social-media-analysis-tool-front-end/src/components/report/generateCsv.ts:48-76 | The categories CSV is the encoded document of the category records (header only when analytics is missing). |
| `Csv.FileStamp` | social-media-analysis-tool-front-end/src/components/report/generateCsv.ts:97 | The stamp has the timestamp's length, has `-` wherever the timestamp has `:` or `.`, so it contains neither, and keeps every other character in place. |
| `Csv.Utf8Length` | social-media-analysis-tool-front-end/src/components/report/generateCsv.ts:100-110 | The blob size in UTF-8 bytes lies between one and four bytes per character. |
| `Csv.GenerateCommentsCsv` | social-media-analysis-tool-front-end/src/components/report/generateCsv.ts:96-119 | The registry gains, in front, one `comments_csv` record. Its name is `comments-export-` + stamp + `.csv`, its mime is `text/csv` and its size is the UTF-8 size of the CSV. The record is registered before the download of that same file is triggered. |
| `Csv.GenerateCategoriesCsv` | social-media-analysis-tool-front-end/src/components/report/generateCsv.ts:121-144 | The same as the comments export, for the `categories_csv` record and the categories CSV. |
| `ExportsStore.WithoutId` | social-media-analysis-tool-front-end/src/store/useExportsStore.ts:29-30 | The filtered list holds exactly the records whose id differs, and its length plus the number of matching records is the old length. |
| `ExportsStore.WithoutIdConcat` | social-media-analysis-tool-front-end/src/store/useExportsStore.ts:29-30 | Filtering distributes over concatenation, so the kept records stay in their relative order. |
| `ExportsStore.WithoutAbsentId` | social-media-analysis-tool-front-end/src/store/useExportsStore.ts:29-30 | Removing an id no record has leaves the list unchanged. |
| `ExportsStore.WithoutIdIdempotent` | social-media-analysis-tool-front-end/src/store/useExportsStore.ts:29-30 | Removing twice is the same as removing once. |
| `ExportsStore.ExportsState.constructor` | social-media-analysis-tool-front-end/src/store/useExportsStore.ts:27 | The registry starts empty. |
| `ExportsStore.ExportsState.AddExport` | social-media-analysis-tool-front-end/src/store/useExportsStore.ts:28 | The new list is the record followed by the old list: one longer, with the old list as its tail. No id check is made. |
| `ExportsStore.ExportsState.RemoveExport` | social-media-analysis-tool-front-end/src/store/useExportsStore.ts:29-30 | The new list is the old one without the records of that id, and no record of that id remains. |
| `ExportsStore.ExportsState.ClearExports` | social-media-analysis-tool-front-end/src/store/useExportsStore.ts:31 | The list is empty, whatever it held. |
| `ExportsStore.ExportsState.Persisted` | social-media-analysis-tool-front-end/src/store/useExportsStore.ts:37 | The persisted part is the export list and nothing else. |
| `ExportsStore.AddTwiceThenRemove` | social-media-analysis-tool-front-end/src/store/useExportsStore.ts:28-30 | After adding A then B the list is B, A followed by the original list. Removing B's id then leaves A in front of the original list. |
| `AnalysisStore.AnalysisState.constructor` | social-media-analysis-tool-front-end/src/store/useAnalysisStore.ts:16-19 | The store starts with page id `""`, no analytics and no comments. |
| `AnalysisStore.AnalysisState.SetAnalysis` | social-media-analysis-tool-front-end/src/store/useAnalysisStore.ts:20-25 | All three fields are replaced by those of the response. |
| `AnalysisStore.AnalysisState.ResetAnalysis` | social-media-analysis-tool-front-end/src/store/useAnalysisStore.ts:26-31 | The store is back in its initial state, whatever came before. |
| `AnalysisStore.SetTwice` | social-media-analysis-tool-front-end/src/store/useAnalysisStore.ts:20-25 | Setting the same result a second time leaves the store in exactly the state the first set produced: the page id, analytics and comments of the response. |
| `AnalysisStore.SetThenReset` | social-media-analysis-tool-front-end/src/store/useAnalysisStore.ts:20-31 | Set followed by reset ends in the initial state, whatever was set. |
| `SettingsStore.SettingsState.constructor` | social-media-analysis-tool-front-end/src/store/useSettingsStore.ts:14-15 | Both settings start as `""`. |
| `SettingsStore.SettingsState.SetSettings` | social-media-analysis-tool-front-end/src/store/useSettingsStore.ts:16 | Both fields are overwritten by the given values, so the last write wins. |
| `SettingsStore.SettingsState.Reset` | social-media-analysis-tool-front-end/src/store/useSettingsStore.ts:17 | Both fields are back to `""`. |
| `SettingsStore.SettingsState.Persisted` | social-media-analysis-tool-front-end/src/store/useSettingsStore.ts:23-26 | The persisted part is exactly the key and the page. |
| `SettingsStore.SettingsState.Rehydrate` | social-media-analysis-tool-front-end/src/store/useSettingsStore.ts:20-26 | After rehydration the persisted view equals what was stored. |
| `SettingsStore.SaveAndRestore` | social-media-analysis-tool-front-end/src/store/useSettingsStore.ts:16-26 | Save, reset, then rehydrate brings back the saved settings. |
| `GenerateReport.BandsCount` | social-media-analysis-tool-front-end/src/lib/generateReport.ts:139-171 | Slicing a canvas of height H from `sy` gives ceil((H - sy) / sliceHeightPx) bands. |
| `GenerateReport.BandsLayout` | social-media-analysis-tool-front-end/src/lib/generateReport.ts:139-171 | Every band has a height in 1..sliceHeightPx and all but the last are full. Bands are contiguous: the first starts at `sy`, each starts where the previous ended, and the last ends at H. |
| `GenerateReport.BandsCover` | social-media-analysis-tool-front-end/src/lib/generateReport.ts:139-171 | The band heights sum to H - `sy`. |
| `GenerateReport.CanvasPlacementsCount` | social-media-analysis-tool-front-end/src/lib/generateReport.ts:121-172 | A canvas that fits is placed as one image. Otherwise it is placed as its band count of images. |
| `GenerateReport.CanvasPlacementsNonEmpty` | social-media-analysis-tool-front-end/src/lib/generateReport.ts:121-172 | Every logical page contributes at least one image, all of them from that page. |
| `GenerateReport.PlacementsCount` | social-media-analysis-tool-front-end/src/lib/generateReport.ts:90-173 | The total number of placed images is the sum over logical pages of 1 or their band count. |
| `GenerateReport.PdfDoc.constructor` | social-media-analysis-tool-front-end/src/lib/generateReport.ts:82-86 | A new PDF has one empty page. |
| `GenerateReport.PdfDoc.AddPage` | social-media-analysis-tool-front-end/src/lib/generateReport.ts:119 | A page is appended and the earlier pages are unchanged. |
| `GenerateReport.PdfDoc.AddImage` | social-media-analysis-tool-front-end/src/lib/generateReport.ts:123-132 | The image goes on the current (last) page only. |
| `GenerateReport.PlaceCanvas` | social-media-analysis-tool-front-end/src/lib/generateReport.ts:119-172 | Placing logical page i leaves one image per PDF page, in order. A page is added first except for the very first logical page. |
| `GenerateReport.PlaceSlices` | social-media-analysis-tool-front-end/src/lib/generateReport.ts:133-172 | The `while (sy < H)` loop places exactly the bands of the canvas, one per PDF page. A page is added before every band but the first. |
| `GenerateReport.PlaceBand` | social-media-analysis-tool-front-end/src/lib/generateReport.ts:156-170 | One band goes on a fresh page unless it is the first band of the canvas. |
| `GenerateReport.Canvases` | social-media-analysis-tool-front-end/src/lib/generateReport.ts:90-117 | Once every logical page has rendered, there is one canvas per page, in order. |
| `GenerateReport.CanvasesStep` | social-media-analysis-tool-front-end/src/lib/generateReport.ts:90-173 | Rendering one more page appends its canvas and extends the placement list by that canvas's placements. |
| `GenerateReport.PdfRecord` | social-media-analysis-tool-front-end/src/lib/generateReport.ts:176-190 | The record is a `pdf` with mime `application/pdf`, the size of the data URL, and the name `analysis-report-` + stamp + `.pdf`. |
| `GenerateReport.GenerateReport` | social-media-analysis-tool-front-end/src/lib/generateReport.ts:75-203 | With no logical pages it fails with "No report pages mounted". It succeeds exactly when there are pages and all of them render. On success the PDF holds one image per page, in placement order, and the record is registered before the save. A failure registers nothing. Every outcome ends with the unmount attempt and the container removal. |
| `GenerateReport.DocumentShape` | social-media-analysis-tool-front-end/src/lib/generateReport.ts:119-172 | The PDF page count equals the sum over logical pages of 1 or their band count, with exactly one image per PDF page. |
| `GenerateReport.TwoCanvasExample` | social-media-analysis-tool-front-end/src/lib/generateReport.ts:119-172 | A fitting page followed by a 2500-pixel page cut in 1000-pixel slices gives four images: bands of 1000, 1000 and 500 from offsets 0, 1000 and 2000. |
| `Base.ChunksFlatten` | social-media-analysis-tool-front-end/src/components/report/ReportDocument.tsx:358-362 | For a positive size, the chunks concatenate back to the input. |
| `Base.ChunksShape` | social-media-analysis-tool-front-end/src/components/report/ReportDocument.tsx:358-362 | There are ceil(n / size) chunks, each non-empty with at most `size` elements, and all but the last exactly `size`. |
| `Base.CeilDivUnique` | social-media-analysis-tool-api/app/fb_scraper.py:245 | The ceiling quotient is the only q with q·d ≥ n > (q − 1)·d. |
| `Base.SortBy` | social-media-analysis-tool-front-end/src/components/report/ReportDocument.tsx:126-128 | The result is a permutation of its input (the same multiset), sorted by the key in non-decreasing order. |
| `Base.SortByStable` | social-media-analysis-tool-front-end/src/components/report/ReportDocument.tsx:159-164 | The sort is stable, as `Array.prototype.sort` is: for every key value, the elements with that key appear in the result in their input order. So `topTopics` breaks ties in total by the order of `categories_stats`. |
| `Base.InsertByWithKey` | social-media-analysis-tool-front-end/src/components/report/ReportDocument.tsx:126-128 | Inserting an element into a list puts it in front of the elements that have its key and leaves the order of every key group unchanged. |
| `Base.InsertBySorted` | social-media-analysis-tool-front-end/src/components/report/ReportDocument.tsx:126-128 | Insertion into a sorted list keeps it sorted. |
| `Base.DistinctPermutation` | social-media-analysis-tool-front-end/src/components/report/ReportDocument.tsx:126-128 | A permutation of a list without repeats has no repeats. |
| `Base.CountIfPartition` | social-media-analysis-tool-api/app/utils.py:95-100 | When three predicates split a fourth, their counts add up to its count. |
| `ReportDocument.Chunk` | social-media-analysis-tool-front-end/src/components/report/ReportDocument.tsx:358-362 | The index loop produces exactly the chunks specified by `Chunks`, whose shape is proved by `Base.ChunksShape` and `Base.ChunksFlatten`. |
| `ReportDocument.ChunksAt` | social-media-analysis-tool-front-end/src/components/report/ReportDocument.tsx:359-361 | Chunking from index i takes the slice up to i + size, capped at the length, then chunks the rest. |
| `ReportDocument.Percent` | social-media-analysis-tool-front-end/src/components/report/ReportDocument.tsx:131-140 | The share is the exact rational rounding of 100·count/total: the integer nearest to it, halves rounding up. With total 0 it is not finite: NaN when count is 0, infinite otherwise. |
| `ReportDocument.PercentRange` | social-media-analysis-tool-front-end/src/components/report/ReportDocument.tsx:131-140 | With a positive total and count ≤ total the share lies in 0..100. |
| `ReportDocument.PercentsNearlySum` | social-media-analysis-tool-front-end/src/components/report/ReportDocument.tsx:131-140 | The three rounded shares of a positive total sum to 99, 100 or 101. |
| `ReportDocument.PrevalentIsFirstMaximum` | social-media-analysis-tool-front-end/src/components/report/ReportDocument.tsx:326-330 | For finite shares, the prevalent sentiment is the first maximum in the order positive, neutral, negative, so ties favour positive, then neutral. |
| `ReportDocument.SummaryShares` | social-media-analysis-tool-front-end/src/components/report/ReportDocument.tsx:131-140 | Missing analytics gives total 0 and three shares of 0. Otherwise the total is the analytics' total. |
| `ReportDocument.PrevalentOfEmpty` | social-media-analysis-tool-front-end/src/components/report/ReportDocument.tsx:131-140 | With no analytics the prevalent sentiment is Positive. With analytics of zero comments every share is NaN, every comparison is false, and it is Negative. |
| `ReportDocument.TopStatsOrdered` | social-media-analysis-tool-front-end/src/components/report/ReportDocument.tsx:159-164 | The top list has min(3, n) entries, drawn from the category stats, in non-increasing order of total. |
| `ReportDocument.TopStatsMaximal` | social-media-analysis-tool-front-end/src/components/report/ReportDocument.tsx:159-164 | No category left out of the top list has a larger total than one in it. |
| `ReportDocument.TopTopicsSpec` | social-media-analysis-tool-front-end/src/components/report/ReportDocument.tsx:159-164 | Missing analytics gives no topics. Otherwise the topics are the categories of the top entries, in order. |
| `ReportDocument.DateRangeSpec` | social-media-analysis-tool-front-end/src/components/report/ReportDocument.tsx:142-149 | The range exists exactly when some comment has a `created_time`. Its start and end are then the minimum and the maximum of those times, so start ≤ end. |
| `ReportDocument.RangeClausePresent` | social-media-analysis-tool-front-end/src/components/report/ReportDocument.tsx:150-157 | When no date formats as "N/A", the summary has a range clause exactly when some comment has a `created_time`. |
| `ReportDocument.TopicsBlocksEmpty` | social-media-analysis-tool-front-end/src/components/report/ReportDocument.tsx:378-474 | With no categories the section is a spacer, the single "No topics data available." block and a spacer, with no distribution page and no per-category blocks. |
| `ReportDocument.TopicsGridsSpec` | social-media-analysis-tool-front-end/src/components/report/ReportDocument.tsx:371-474 | Stat cards come in ceil(n/15) grids of at most 15 and charts in ceil(n/6) grids of at most 6, all full but the last. Only the first grid carries the page break, and only the first stat grid carries the intro. The grids together list every category in order. |
| `ReportDocument.TwentyCategories` | social-media-analysis-tool-front-end/src/components/report/ReportDocument.tsx:371-474 | Twenty categories give stat grids of 15 and 5 and four chart grids, the last holding 2. |
| `ReportTimeline.Accumulate` | social-media-analysis-tool-front-end/src/components/report/ReportDocument.tsx:106-122 | One reduce step keeps the accumulator invariant: each bucket holds the tally of its month so far, and the key list lists each month seen once. |
| `ReportTimeline.AccStep` | social-media-analysis-tool-front-end/src/components/report/ReportDocument.tsx:113-122 | Creating the bucket of a new month, or bumping an existing one, turns the tallies of the first i comments into those of the first i + 1. |
| `ReportTimeline.BucketStep` | social-media-analysis-tool-front-end/src/components/report/ReportDocument.tsx:113-122 | After a step every bucket equals the tally of its month over the longer prefix. |
| `ReportTimeline.TallyStep` | social-media-analysis-tool-front-end/src/components/report/ReportDocument.tsx:115-122 | A comment changes only its own month's tally, and bumps exactly its sentiment's counter (none for an unrecognised sentiment). |
| `ReportTimeline.GrandTotalStep` | social-media-analysis-tool-front-end/src/components/report/ReportDocument.tsx:113-122 | After a step the counts of all buckets sum to the number of comments so far with a recognised sentiment. |
| `ReportTimeline.TotalSort` | social-media-analysis-tool-front-end/src/components/report/ReportDocument.tsx:126-128 | Sorting the buckets does not change their grand total. |
| `ReportTimeline.ValuesFacts` | social-media-analysis-tool-front-end/src/components/report/ReportDocument.tsx:101-124 | `Object.values(acc)` holds exactly one bucket per month that occurs, each equal to that month's tally. |
| `ReportTimeline.SortedStrictly` | social-media-analysis-tool-front-end/src/components/report/ReportDocument.tsx:126-128 | Buckets of distinct months sorted by (year, month) are strictly increasing. |
| `ReportTimeline.TimelineFacts` | social-media-analysis-tool-front-end/src/components/report/ReportDocument.tsx:101-128 | The timeline is the month tallies: one per occurring month, strictly chronological, with total count equal to the number of recognised comments. |
| `ReportTimeline.Timeline` | social-media-analysis-tool-front-end/src/components/report/ReportDocument.tsx:101-128 | The reduce-then-sort loop returns exactly the timeline of `TimelineFacts`. |
| `Dashboard.ScanRows` | social-media-analysis-tool-front-end/src/pages/Dashboard.tsx:136-146 | The issue loop produces one "Row n: …" issue per blank row, numbered from the given offset, and counts the rows that are not blank. |
| `Dashboard.RowIssuesStep` | social-media-analysis-tool-front-end/src/pages/Dashboard.tsx:164-173 | Each row adds one issue and no count when blank, and no issue and one count otherwise. |
| `Dashboard.ValidateCsvFile` | social-media-analysis-tool-front-end/src/pages/Dashboard.tsx:109-183 | The validator returns exactly the specified validation result. For headerless rows: "CSV has no rows." when empty, one issue per blank first column numbered idx + 1, then "no valid" when none is valid. For header mode: one issue per blank comment, numbered idx + 2. Parse failures produce their own issue. |
| `Dashboard.RowIssuesSpec` | social-media-analysis-tool-front-end/src/pages/Dashboard.tsx:136-146 | There is one issue per blank row, every blank row is reported under its number, and every such issue starts with "Row ". |
| `Dashboard.ValidIff` | social-media-analysis-tool-front-end/src/pages/Dashboard.tsx:109-183 | The result is valid exactly when its issue list is empty. In header mode that means at least one row and no blank comment. In headerless mode it means at least one row and no blank first column. A parse failure is never valid. |
| `Dashboard.RowsScanClean` | social-media-analysis-tool-front-end/src/pages/Dashboard.tsx:136-149 | A scan reports no issue and a non-zero valid count exactly when there are rows and none of them is blank. |
| `Dashboard.BlankRowReported` | social-media-analysis-tool-front-end/src/pages/Dashboard.tsx:136-173 | A blank comment at index idx is reported as row idx + 2. A blank first column in headerless mode is reported as row idx + 1. |
| `Dashboard.MissingColumnUnreachable` | social-media-analysis-tool-front-end/src/pages/Dashboard.tsx:124-163 | The "Missing required 'comment' column." issue never appears, because header mode already implies the column exists. |
| `Dashboard.CapitalisedHeaderRejected` | social-media-analysis-tool-front-end/src/pages/Dashboard.tsx:119-170 | The header test normalises names but the row lookup uses the raw key `comment`. A file whose only column is `Comment` is therefore in header mode yet invalid. |
| `Dashboard.VisibleIssues` | social-media-analysis-tool-front-end/src/pages/Dashboard.tsx:374-380 | Up to 6 issues are listed as they are. With more, the first 6 are listed followed by one "…and more" item. |
| `Dashboard.Prefill` | social-media-analysis-tool-front-end/src/pages/Dashboard.tsx:55-62 | A non-empty form value is kept and an empty one takes the stored setting. The other fields are untouched. |
| `Dashboard.PrefillIdempotent` | social-media-analysis-tool-front-end/src/pages/Dashboard.tsx:55-62 | Prefilling twice equals prefilling once, and an empty form takes both stored settings. |
| `Dashboard.BuildPayload` | social-media-analysis-tool-front-end/src/pages/Dashboard.tsx:64-85 | The payload always carries the key and the page. Each optional field is present exactly when its form value is non-empty. |
| `Dashboard.PayloadNumbers` | social-media-analysis-tool-front-end/src/pages/Dashboard.tsx:74-79 | A decimal count typed in the form reaches the payload as that integer through `parseInt`. |
| `Schemas.ParseScrapeRequest` | social-media-analysis-tool-api/app/schemas.py:5-11 | A body is accepted exactly when key and page are present, the key has at least 10 characters, max_posts (default 10) is in 1..500 and max_comments (default 500) is in 1..50000. The accepted request carries those values. |
| `Schemas.ScrapeDefaultsAccepted` | social-media-analysis-tool-api/app/schemas.py:5-11 | A body with only a long enough key and a page is accepted, with 10 posts and 500 comments. |
| `Schemas.ParseAnalyzeCsvRequest` | social-media-analysis-tool-api/app/schemas.py:55-57 | A body is accepted exactly when the path is present and batch_size (default 32) is in 1..128. |
| `Schemas.BatchSizePositive` | social-media-analysis-tool-api/app/schemas.py:55-57 | An accepted batch size is a valid chunk size, and an absent one is 32. |
| `Schemas.ParseAnalyzeResponse` | social-media-analysis-tool-api/app/schemas.py:50-53 | The response validates exactly when page_id, comments_analyzed and analytics are all present. |
| `Utils.ChunkList` | social-media-analysis-tool-api/app/utils.py:9-11 | For a positive size the pieces concatenate to the items, there are ceil(n/size) of them, each non-empty with at most `size` items, and all but the last are full. A negative size yields nothing. |
| `Utils.Unwrap` | social-media-analysis-tool-api/app/utils.py:33-41 | A one-element list prediction is replaced by its element, and anything else is left as it is. |
| `Utils.MergeOne` | social-media-analysis-tool-api/app/utils.py:33-57 | The merged entry copies id, text and created_time from the meta, and takes label and score from the unwrapped predictions. |
| `Utils.PredictionShapes` | social-media-analysis-tool-api/app/utils.py:33-47 | A dict prediction gives its label and its score (0.0 when absent). A one-element list behaves like its element. A non-dict, or a list of any other length, gives no label and no score. |
| `Utils.MergeModelOutputs` | social-media-analysis-tool-api/app/utils.py:22-58 | The result has the length of the shortest input (as `zip` does), and entry i merges the i-th meta with the i-th predictions, in order. |
| `Utils.SentimentsPartition` | social-media-analysis-tool-api/app/utils.py:91-100 | Every comment is counted as exactly one of positive, negative or neutral. Anything but "positive" or "negative", in any case, counts as neutral. |
| `Utils.SentimentAnyCase` | social-media-analysis-tool-api/app/utils.py:90-99 | `POSITIVE`, `Positive` and `positive` all count as positive, and not as neutral. The same holds for the three spellings of negative. |
| `Utils.CategoryPartition` | social-media-analysis-tool-api/app/utils.py:103-111 | In every category tally, positive + negative + neutral equals the total. |
| `Utils.InitStats` | social-media-analysis-tool-api/app/utils.py:79-87 | One zeroed entry is created per distinct non-empty category, each listed once. |
| `Utils.CountComment` | social-media-analysis-tool-api/app/utils.py:90-111 | One loop body bumps exactly one global sentiment counter and, when the category is non-empty, that category's entry. |
| `Utils.CountStep` | social-media-analysis-tool-api/app/utils.py:90-111 | One comment turns the counts of the first i comments into the counts of the first i + 1. |
| `Utils.CountNext` | social-media-analysis-tool-api/app/utils.py:90-111 | The loop body preserves the counting invariant. |
| `Utils.GenerateAnalytics` | social-media-analysis-tool-api/app/utils.py:60-115 | It succeeds exactly when every comment has a sentiment (the source would fail on `None.lower()`). The total is the number of comments. The three sentiment counts are the counts of their labels. There is one entry per distinct non-empty category, equal to that category's tally, with unique names. The category totals sum to the number of categorised comments. |
| `Utils.CountEnd` | social-media-analysis-tool-api/app/utils.py:90-115 | An invariant holding over all comments yields analytics with every property listed for `GenerateAnalytics`. |
| `Utils.AnalyticsFacts` | social-media-analysis-tool-api/app/utils.py:79-114 | The listed stats hold exactly one entry per category, each equal to its tally, with no repeated name. |
| `Utils.AnalyticsConservation` | social-media-analysis-tool-api/app/utils.py:71-111 | The counts are conserved: positive + negative + neutral equals the total, each category's three counts sum to its total, and the categorised comments number at most the total. |
| `FbScraper.LastNonEmpty` | social-media-analysis-tool-api/app/fb_scraper.py:48-50 | It finds the last non-empty path segment, or reports that there is none. |
| `FbScraper.NormalizePage` | social-media-analysis-tool-api/app/fb_scraper.py:41-51 | Non-http input comes back stripped. An http URL with an `id` query parameter gives its first value. Otherwise the result is the last non-empty path segment, or the stripped URL when there is none. |
| `FbScraper.PathSegmentResult` | social-media-analysis-tool-api/app/fb_scraper.py:48-50 | A page taken from a URL path is non-empty and contains no `/`. |
| `FbScraper.ResolvePageId` | social-media-analysis-tool-api/app/fb_scraper.py:159-167 | An all-digit normalised page is its own id. Any other page is looked up. |
| `FbScraper.NumericPageNeedsNoLookup` | social-media-analysis-tool-api/app/fb_scraper.py:159-167 | A numeric page id is returned as it is (stripped) without a request. |
| `FbScraper.CollapseSpaces` | social-media-analysis-tool-api/app/fb_scraper.py:60 | `re.sub(r"\s+", " ")` is empty exactly for empty input. It starts with the input's first character, or with a space when that is whitespace. Every whitespace character left is a space, and no two are adjacent. |
| `FbScraper.WordsFacts` | social-media-analysis-tool-api/app/fb_scraper.py:60 | The words of a string (its maximal runs of non-whitespace) are non-empty and free of whitespace, and together they hold exactly its non-whitespace characters, in order. |
| `FbScraper.CollapseWords` | social-media-analysis-tool-api/app/fb_scraper.py:60 | For input that is empty or starts with a non-whitespace character, collapsing gives its words joined by single spaces, followed by one space when the input ends in whitespace. |
| `FbScraper.CollapseSpacesWords` | social-media-analysis-tool-api/app/fb_scraper.py:60 | For every input, each whitespace run becomes one space: the result is the words joined by single spaces, with one space in front when the input starts with whitespace and one behind when whitespace follows the last word. |
| `FbScraper.SanitizeWords` | social-media-analysis-tool-api/app/fb_scraper.py:60 | Collapsing then stripping gives exactly the words joined by single spaces. |
| `FbScraper.VisibleCollapse` | social-media-analysis-tool-api/app/fb_scraper.py:60 | Collapsing whitespace keeps every non-whitespace character, in order. |
| `FbScraper.VisibleStrip` | social-media-analysis-tool-api/app/fb_scraper.py:60 | Stripping keeps every non-whitespace character, in order. |
| `FbScraper.SanitizeText` | social-media-analysis-tool-api/app/fb_scraper.py:53-61 | None or `""` gives `""`. The result has no leading or trailing whitespace and no two adjacent whitespace characters, and it keeps exactly the non-whitespace characters left after the pattern removal. |
| `FbScraper.SanitizeTextWords` | social-media-analysis-tool-api/app/fb_scraper.py:53-61 | For a non-empty message, the sanitised text is exactly the words of the pattern-removed message joined by single spaces. |
| `FbScraper.SanitizeSeparatesWords` | social-media-analysis-tool-api/app/fb_scraper.py:53-61 | Two words separated by any non-empty whitespace run, which the pattern removal leaves alone, sanitise to the two words with one space between them. |
| `FbScraper.Retry` | social-media-analysis-tool-api/app/fb_scraper.py:103-115 | Each retry chain makes at least one request and sleeps once between consecutive requests. |
| `FbScraper.RetryOutcome` | social-media-analysis-tool-api/app/fb_scraper.py:103-115 | The reported outcome is the outcome of the last request. Every earlier request failed with a rate-limit or server error. Such a failure is reported only after every retry has been used. |
| `FbScraper.RetryBounds` | social-media-analysis-tool-api/app/fb_scraper.py:103-115 | At most retries + 1 requests are made, and the k-th sleep lasts 2^(4 − (retries − k)) seconds. |
| `FbScraper.FbGetOutcome` | social-media-analysis-tool-api/app/fb_scraper.py:63-156 | The outcome is what the last response means, and every earlier response was a rate-limit or server failure. It succeeds exactly when the last response is a 2xx JSON body, and it then returns that body's data. A network failure gives "Network error". An error payload is classified by the payload table with its own message. Any other non-2xx status is classified by the status table. |
| `FbScraper.ResponseOutcomeCases` | social-media-analysis-tool-api/app/fb_scraper.py:70-156 | The same case analysis for one response: success exactly for a 2xx JSON body, with its data; the network, error-payload and non-2xx cases as above. |
| `FbScraper.FbGetBounds` | social-media-analysis-tool-api/app/fb_scraper.py:63-156 | There is at least one request and at most retries + 1, with one sleep between consecutive requests. The k-th sleep lasts 2^(4 − (retries − k)) seconds. A rate-limit or server failure is final only after all retries + 1 requests. |
| `FbScraper.DefaultBackoff` | social-media-analysis-tool-api/app/fb_scraper.py:104-115 | With the default of 3 retries the sleeps are 2, 4 and 8 seconds. |
| `FbScraper.ClassifyPrecedence` | social-media-analysis-tool-api/app/fb_scraper.py:88-118 | Code 190 or status 401 always means an invalid token. The error is a server error exactly when the status is ≥ 500 and no earlier rule applies: not 401, 403, 404 or 429, no listed code, not an OAuthException, no "Unsupported get request". |
| `FbScraper.PayloadAgreesWithStatus` | social-media-analysis-tool-api/app/fb_scraper.py:88-153 | Without a code, a type or the unsupported-request text, the payload path classifies as the status table does. |
| `FbScraper.RequestLimit` | social-media-analysis-tool-api/app/fb_scraper.py:177-182 | The per-request limit is the limit when that is at most 100, and 100 when the limit is larger or absent. It is positive whenever the limit is. |
| `FbScraper.PagesRead` | social-media-analysis-tool-api/app/fb_scraper.py:188-198 | The loop reads pages up to the first where the cap is reached or no `next` follows, and no earlier page stops it. |
| `FbScraper.SliceTo` | social-media-analysis-tool-api/app/fb_scraper.py:199 | `items[:n]` is a prefix of length min(n, len), or len + n (at least 0) for a negative n. |
| `FbScraper.FetchPaged` | social-media-analysis-tool-api/app/fb_scraper.py:169-227 | The paging loop returns the specified capped items after exactly the specified number of requests. |
| `FbScraper.PagesReadFrom` | social-media-analysis-tool-api/app/fb_scraper.py:188-199 | Stopping at page i means i + 1 requests, with the items gathered so far, sliced to the limit. |
| `FbScraper.PagedSpec` | social-media-analysis-tool-api/app/fb_scraper.py:188-199 | The result is a prefix of the concatenated page data, never longer than the limit. Without a limit it is every page read. When fewer items than the limit arrive, the last page had no `next`. |
| `FbScraper.PerPost` | social-media-analysis-tool-api/app/fb_scraper.py:245 | per_post = max(1, ceil(max_comments / posts)). It is at least 1, and for a positive max_comments it is the least value whose product with the post count reaches max_comments. |
| `FbScraper.ToOut` | social-media-analysis-tool-api/app/fb_scraper.py:259-269 | A record copies the comment id and `created_time`. It carries the post id and the sanitised message as its text. The author id and name come from `from`, or are both absent without it. |
| `FbScraper.KeepComments` | social-media-analysis-tool-api/app/fb_scraper.py:258-269 | No more records than raw comments, each with non-empty text and the post id. |
| `FbScraper.KeepCommentsSplit` | social-media-analysis-tool-api/app/fb_scraper.py:258-269 | Each raw comment contributes in its own place: its record when the sanitised text is non-empty, nothing otherwise. So the kept records keep the input order. |
| `FbScraper.KeepCommentsMembers` | social-media-analysis-tool-api/app/fb_scraper.py:258-269 | Every comment with non-empty sanitised text has its record kept, and every kept record is the record of some raw comment. |
| `FbScraper.ForPost` | social-media-analysis-tool-api/app/fb_scraper.py:248-270 | A failed fetch gives no comments. Otherwise there are at most per_post comments, all with non-empty text. |
| `FbScraper.FetchForPost` | social-media-analysis-tool-api/app/fb_scraper.py:248-270 | The per-post fetch and filter return exactly the specified comments. |
| `FbScraper.Collected` | social-media-analysis-tool-api/app/fb_scraper.py:272-274 | The flattened results, in post order, number at most posts × per_post, all with non-empty text. |
| `FbScraper.FirstOccurrencesIds` | social-media-analysis-tool-api/app/fb_scraper.py:276-283 | The dedupe keeps every id of its input. |
| `FbScraper.FirstOccurrencesDistinct` | social-media-analysis-tool-api/app/fb_scraper.py:276-283 | The dedupe output has no repeated comment id. |
| `FbScraper.FirstOccurrencesKept` | social-media-analysis-tool-api/app/fb_scraper.py:276-283 | The first occurrence of every id is kept, and nothing else appears. |
| `FbScraper.Dedupe` | social-media-analysis-tool-api/app/fb_scraper.py:276-283 | The `seen` loop returns exactly the first occurrences, in input order. |
| `FbScraper.FetchAllComments` | social-media-analysis-tool-api/app/fb_scraper.py:230-290 | Posts come from capped paging. Zero posts gives empty comments with a total of zero. Otherwise the comments are the deduplicated, filtered comments of each post, capped at per_post, and total_fetched is their number. |
| `FbScraper.ScrapeResultFacts` | social-media-analysis-tool-api/app/fb_scraper.py:230-290 | At most max_posts posts are scanned, comment ids are unique and every text is non-empty. |
| `AppMain.LastComponent` | social-media-analysis-tool-api/app/main.py:85 | `Path.name` is the last component that is neither empty nor `.`: every later one is empty or `.`. It is empty exactly when every component is empty or `.`, and it is never `.`. |
| `AppMain.PathName` | social-media-analysis-tool-api/app/main.py:85 | A file name contains no `/`. |
| `AppMain.LastIndexOf` | social-media-analysis-tool-api/app/main.py:85 | It finds the last occurrence of the character, or reports that there is none. |
| `AppMain.Suffix` | social-media-analysis-tool-api/app/main.py:85 | `Path.suffix` is empty, or a final `.ext` with a non-empty extension free of dots that is shorter than the name. |
| `AppMain.SuffixOfName` | social-media-analysis-tool-api/app/main.py:85-86 | `stem.ext` has suffix `.ext`, and its lower-cased suffix is `.` + the lower-cased extension. |
| `AppMain.NoDotNoSuffix` | social-media-analysis-tool-api/app/main.py:85-86 | A name without a dot has no suffix, so it is rejected. |
| `AppMain.CsvExtensionAnyCase` | social-media-analysis-tool-api/app/main.py:82-86 | A file name without `/` whose extension lower-cases to `csv` passes the suffix check, whatever the case of its letters. |
| `AppMain.UpperCaseCsvAccepted` | social-media-analysis-tool-api/app/main.py:82-86 | `name.CSV` passes the check like `name.csv`. |
| `AppMain.CsvCommentsMeta` | social-media-analysis-tool-api/app/main.py:90-101 | The reader loop returns exactly the specified meta list. |
| `AppMain.KeptSound` | social-media-analysis-tool-api/app/main.py:93-97 | Every kept 1-based index points at a row that is non-empty and whose stripped first column is non-empty. |
| `AppMain.KeptComplete` | social-media-analysis-tool-api/app/main.py:93-97 | Every such row is kept. |
| `AppMain.KeptIncreasing` | social-media-analysis-tool-api/app/main.py:93 | Kept indices increase in row order, with gaps where rows were skipped. |
| `AppMain.CsvMetaKept` | social-media-analysis-tool-api/app/main.py:90-101 | There is one meta entry per kept row, with id `csv_` + its 1-based index, its stripped first column as text, and no created_time. |
| `AppMain.CsvMetaFacts` | social-media-analysis-tool-api/app/main.py:93-100 | The CSV comment ids are distinct, and every text is non-empty and stripped. |
| `AppMain.CsvMetaEmpty` | social-media-analysis-tool-api/app/main.py:94-104 | No meta is produced exactly when no row passes the two skips. |
| `AppMain.Results` | social-media-analysis-tool-api/app/main.py:72-77 | The comments validate exactly when every merged entry has an id and a text. They then map one to one, in order, onto `CommentResult`s. |
| `AppMain.AnalyzeCsv` | social-media-analysis-tool-api/app/main.py:79-121 | A missing file gives 400 "File not found", and a suffix other than `.csv` gives 400. Otherwise the reply is that of the read rows. |
| `AppMain.CsvReplyFacts` | social-media-analysis-tool-api/app/main.py:88-121 | Every error inside the outer `try`, including the inference 500, surfaces as a 500 starting "Error processing CSV". A merged entry that is not a valid `CommentResult` gives that prefix followed by the text of the validation error. No kept rows gives the early reply with page id `csv_input`. A success carries that page id, one result per merged entry and the inferred analytics. |
| `AppMain.ScrapeMeta` | social-media-analysis-tool-api/app/main.py:63 | There is one meta per scraped comment, in order, with its id, text and created_time. |
| `AppMain.ScrapeAnalyze` | social-media-analysis-tool-api/app/main.py:42-77 | A scraper failure gives a 500 scraper error, and no comments gives the early reply. An inference failure gives a 500 inference error, and invalid results give a 500 internal error. Otherwise the response carries the page id, the results and the analytics. |
| `AppMain.ScrapeResultsComplete` | social-media-analysis-tool-api/app/main.py:58-77 | When inference returns one entry per meta, the response holds every scraped comment, in order, with its id and text. |
| `Text.TrimFacts` | social-media-analysis-tool-api/app/main.py:96-97 | `strip()` and `trim()` remove exactly the leading and trailing whitespace and keep the middle. |
| `Text.LowerFacts` | social-media-analysis-tool-api/app/utils.py:90 | `lower()` turns each ASCII capital into its small letter, 32 code points up, and keeps every other character, so the result has no capital left. |
| `Text.LowerIdempotent` | social-media-analysis-tool-api/app/utils.py:90 | Lower-casing twice is the same as lower-casing once. |
| `Text.LowerCaseVariants` | social-media-analysis-tool-api/app/utils.py:90 | Two strings that differ only in the case of their letters lower to the same string. |
| `Text.NatToString` | social-media-analysis-tool-front-end/src/pages/Dashboard.tsx:142 | Decimal printing gives non-empty digits with no leading zero. |
| `Text.DigitsValueOfNatToString` | social-media-analysis-tool-front-end/src/pages/Dashboard.tsx:142 | The printed digits read back as the number. |
| `Text.ParseIntOfNatToString` | social-media-analysis-tool-front-end/src/pages/Dashboard.tsx:75-78 | `parseInt` of a printed number gives the number back. |
| `Text.Split` | social-media-analysis-tool-api/app/fb_scraper.py:48 | Splitting gives at least one part, and no part contains the separator. |
| `Text.JoinSplit` | social-media-analysis-tool-api/app/fb_scraper.py:48 | Joining the parts with the separator gives back the input. |

## Left out

- Floating point: the confidences are reals in the model, and their `toFixed(4)` text is a function parameter. jsPDF's point arithmetic (zoom 0.92, scale, margins, total height in points) is left out. Whether a canvas fits on one page is an input boolean.
- Rendering and the PDF library: html2canvas, jsPDF, mounting the report in a detached container, the CSS overrides and the two waits. A rendered page is its height, whether it fits and its slice height; a page that fails to render is a failed raster. The PDF output is a function of the placed pages.
- `GenerateReport.PlaceCanvas`: requires a `Placeable` canvas. First, a canvas that does not fit needs `sliceHeightPx >= 1`: the source computes it with a floor and would loop forever at 0. Second, a canvas of height 0 must fit, as it does at any positive width. A canvas that is 0 wide and 0 high is left out. For it the source gets an infinite scale, so the fit test is `NaN <= pageHeight` (false), `sliceHeightPx` is 0, the slicing loop never runs and the page gets no image (generateReport.ts:116-141).
- The page-break classes on the report grids are recorded but never read by `generateReport.ts`. The page loop runs over any number of logical pages, but in the report only the root carries `report-page`.
- Clock, ids and locale: `new Date()`, `toISOString`, `crypto.randomUUID`, `toLocaleString` and the month/year keys are parameters.
- Foreign parsers: the `str(e)` text of pydantic's `ValidationError` is the `invalid` parameter of `/analyze-csv`. Papa.parse, Python's `csv.reader`, `urlparse`/`parse_qs` and the regexes that remove URLs, handles and zero-width characters are parameters. The model takes already-parsed rows, URL parts and a pattern-removal function.
- Network and concurrency: httpx requests, the semaphore, `asyncio.gather` and the sleeps themselves. A response is a function of the attempt number. Pages are a given sequence ending in a page without `next`, which makes the chain finite. Post results are concatenated in post order, as `gather` keeps them.
- `FbScraper.FetchPaged`: an HTTP error in the middle of paging, and the resolution of a non-numeric page name through the API, are not modelled; the lookup is a function parameter.
- `FbScraper.FbGet`: the non-JSON success body is classified as the generic failure. Error message texts keep their kind but not the exact wording of `str(e)`.
- `ReportDocument.Percent`: uses exact rational rounding. `Math.round` of an IEEE double can land one lower at a true half: 23/40 shows 57 in the source and 58 in the model. `ReportDocument.PercentsNearlySum` holds for the model's rounding.
- `ReportTimeline.Timeline`: the month key stands for `toLocaleString("default", {month: "short"})` and the sort for `new Date(name).getTime()`. Chronological order holds only with English month names. In other locales `getTime()` is NaN and the comparator keeps insertion order. An unparseable `created_time` would give an "Invalid Date NaN" bucket and a NaN in `dateNums`; neither is modelled.
- `FbScraper.RequestLimit`: the page size asked of the API is not part of the page model. The pages are the input as they come back, so nothing ties their length to it.
- `FbScraper.PerPost`: `math.ceil` of a float division becomes an exact integer ceiling. They differ only beyond 2^53.
- `analyze_comments` (utils.py:117-154), the HuggingFace pipelines and models.py: inference is the `infer` parameter of the two endpoints.
- `Utils.ChunkList`: requires a non-zero size, because `range` with step 0 raises in the source.
- Python set iteration order: the order of the category entries is left open, and no contract depends on it.
- Lower-casing is ASCII only, and `isdigit` accepts ASCII digits only; Unicode case mapping and digit classes are not modelled. JS `trim` and Python `strip` use their own whitespace sets.
- `parseInt` is modelled for decimal input (`0x` prefixes are not read as hex).
- Platform plumbing: localStorage (the persisted parts are modelled, the storage is not), FileReader, Blob and object URLs, FastAPI routing, CORS and model loading. The existence check for the CSV file is an input boolean.
- Early replies: the replies with no comments omit `analytics`, which the response schema requires. The model returns them as their own kind of reply, and pydantic's validation of them is not modelled.
- The front-end uploads a multipart file while the CSV endpoint expects a JSON path. Only the endpoint side is modelled.
- UI without logic: the layout, charts, toasts, cards, the mock Reports and Settings pages, the Sentiment and Topics pages (which repeat the report's timeline and percentages), and the two fetch hooks (only their types are used).

Deliberate choices where the code differs from what a reader might expect:

- percentages with a zero total are NaN, not 0, so the prevalent sentiment of a zero-comment analysis is Negative (`ReportDocument.PrevalentOfEmpty`);
- CSV rows are joined with LF, not the CRLF of section 2 of RFC 4180;
- `addExport` does not check ids for uniqueness;
- the upload validator reads the raw `comment` key (`Dashboard.CapitalisedHeaderRejected`).
