# ragbot / pg-bot ingestion and formatting core, in Dafny

This project models the deterministic logic of two retrieval-augmented chat
bots, ragbot and pg-bot. That logic sits between their third-party services:
the PDF reader, the embedding and completion service, the vector database,
the Postgres store and the Streamlit front end. The project models:

- **Ingestion** (`ragbot/plumb.py`):
  - the greedy line packer `split_into_chunks`;
  - page-by-page text and table extraction over abstract pages;
  - building text and table records, with embeddings from an
    uninterpreted `embed` function;
  - concatenating the two frames, and `pdf_to_df`.

  Module `Chunking` holds the packer. Module `Plumb` holds the rest.
- **Record shaping for the vector database** (`ragbot/weav.py`, module `Weav`):
  - `_format_query_result` over the response's `Get` map;
  - `write_tenants` over the class's tenant list;
  - `add_pdf_data_objects`, which pushes one data object per row into a
    `Batch` object.
- **Utilities** (`ragbot/utils.py`, module `Utils`):
  - the first-match tenant lookup over an in-memory sheet;
  - the file-stem rule of `read_all_pickles`, with the loader passed in
    as a function;
  - `print_tree` over a tree of directory entries, as the list of lines
    it prints.
- **Front-end helpers** (both `st_utils.py` files):
  - the join-with-separator formatters, in modules `PgBotStUtils` and
    `RagbotStUtils`;
  - the in-place session-state edits `clear_messages` and `clear_history`,
    in module `Session`. The two files hold the same code, so one
    `SessionState` class models both.
- **Prompt templates** (both `oai_utils.py` files, modules `PgBotOaiUtils`
  and `RagbotOaiUtils`):
  - each template is its fixed text, written out character for character,
    with the arguments placed at the positions the f-string gives them.

`Strings` holds the Python builtins the model relies on: `str.split` on one
character, `str.join`, `str()` of an integer, `sorted` on strings, and
`sum(len(...))`. `Wrappers` holds `Option` and `Result`.

Exceptions become `Result` failures:
- text extraction propagates an error only when the file cannot be opened
  or a page raises something other than `IndexError`;
- table extraction swallows every error;
- `format_retrieved_chunks` reports `IndexError` for an empty row, or
  `TypeError` when a content field is not a string;
- the tenant lookup reports `KeyError`, or `IndexError` for `.iloc[0]` of
  no rows.

The packer's test counts the candidate line's own length
(`ragbot/plumb.py:43`). An empty text gives `['']` (`ragbot/plumb.py:38`,
`49-51`). The docstring calls `chunk_size` the maximum size of a chunk,
yet a chunk can exceed it (Chunking.ChunkLength, Chunking.LongLineAlone).

The pg-bot system message is a Dafny `function`, so equal inputs give
equal outputs by construction.

## Model

| member | source | states |
|---|---|---|
| Chunking.SplitIntoChunks | ragbot/plumb.py:28-55 | The chunks are exactly the runs of the greedy packing of `text.split('\n')`, each joined by one space, and there is always at least one chunk. |
| Chunking.RunsPartition | ragbot/plumb.py:38-53 | The runs laid end to end are exactly the input lines, in order: none dropped, none duplicated. A non-empty input gives at least one run. |
| Chunking.GrowPartition | ragbot/plumb.py:42-53 | Once a run is open, that run followed by the remaining lines is exactly what the runs flatten to. |
| Chunking.ChunksAppend | ragbot/plumb.py:47 | Joining runs distributes over concatenating lists of runs. |
| Chunking.RunsPacked | ragbot/plumb.py:43-48 | Every run is non-empty. No line after a run's first is empty. A run of two or more lines has a total length below the chunk size. |
| Chunking.GrowPacked | ragbot/plumb.py:43-48 | The packing property above is kept by every step once a run is open. |
| Chunking.ChunkLength | ragbot/plumb.py:43-47 | A chunk is as long as its lines plus one space between each two. For a run of two or more lines this is below `chunk_size` plus those spaces, so a chunk may exceed `chunk_size`. |
| Chunking.LongLineAlone | ragbot/plumb.py:43-51 | A line at least `chunk_size` long forms a run and a chunk on its own. |
| Chunking.GrowFront | ragbot/plumb.py:43-44 | The open run is the front of the run it grows into. |
| Chunking.GrowGreedy | ragbot/plumb.py:43-48 | Once a run is open, a run closes only when the next line does not fit into it. |
| Chunking.RunsGreedy | ragbot/plumb.py:42-53 | Greedy packing: each of the `LeadCount` leading lines that fit no empty run (at most all the lines) is its own run, the next line opens a run, and from then on a run closes only when the next line does not fit. |
| Chunking.LeadingEmptyLines | ragbot/plumb.py:38-51 | Each leading empty line is emitted as its own `''` chunk. |
| Chunking.LeadAtLeast | ragbot/plumb.py:43-51 | Leading empty lines are all counted among the lines that fit no empty run. |
| Chunking.SingleLine | ragbot/plumb.py:38-53 | A text without `'\n'` gives exactly one chunk, itself, whatever the chunk size. For `""` this is `['']`. |
| Plumb.ExtractTextFromPdf | ragbot/plumb.py:58-84 | The result is the reference `ExtractText`: for each page in order, its tagged chunks. An unopenable file, or a page raising something other than `IndexError`, ends extraction with that error. |
| Plumb.ExtractPagesAppend | ragbot/plumb.py:73-80 | Pages are processed in order. The result for `a + b` is the chunks of `a` followed by those of `b`, unless `a` already failed. |
| Plumb.SkippedPage | ragbot/plumb.py:74-82 | A page that raises `IndexError`, or has empty or absent text, contributes nothing, and the later pages are still processed. |
| Plumb.ExtractPagesFails | ragbot/plumb.py:72-83 | Extraction fails if and only if some page raises an error other than `IndexError`. |
| Plumb.ChunkProvenance | ragbot/plumb.py:76-80 | Every emitted chunk comes from a page with non-empty text. It carries that page's number, and its text is one of the chunks of that page's text. |
| Plumb.SingleLinePages | ragbot/plumb.py:76-80 | Pages whose texts are single non-empty lines give one chunk each, holding the whole text, tagged with the page number. |
| Plumb.Entries | ragbot/plumb.py:104-110 | One `{table, page_number}` entry per table, in order, all with the page's number. |
| Plumb.ExtractTablesFromPdf | ragbot/plumb.py:87-120 | The result is the reference `ExtractTables`: for each page in order, one entry per table. A page whose extraction raises contributes nothing. A file that cannot be opened gives `[]`. |
| Plumb.TablesOfAppend | ragbot/plumb.py:100-116 | Tables come out in page order: those of the first pages, then those of the later ones. |
| Plumb.TableProvenance | ragbot/plumb.py:102-110 | Every entry is one table of one page that did not raise, tagged with that page's number. |
| Plumb.GenerateTextDfWithEmbeddings | ragbot/plumb.py:123-144 | One record per chunk, in order. Each has the chunk's text and page number, type `'text'`, and the embedding of its text. |
| Plumb.GenerateTableDfWithEmbeddings | ragbot/plumb.py:147-174 | The result is the reference `TableRecords`: for each table and each row in order, a record with the row's text, type `'table'` and the table's page number. Rows equal to `['']` are dropped. |
| Plumb.RowRecordsAppend | ragbot/plumb.py:160-171 | Rows are taken in order. The records of `a + b` are those of `a` followed by those of `b`. |
| Plumb.RowTextLength | ragbot/plumb.py:161-162 | A row's text is its cells, with `None` as `""`, separated by single spaces. Its length is the cells' lengths plus one per gap. |
| Plumb.NearlyBlankRowsKept | ragbot/plumb.py:161-171 | `[None]` and `['', '']` are kept, with texts `""` and `" "`. |
| Plumb.RowRecordsCount | ragbot/plumb.py:163-173 | A table gives one record per row, less one for each row equal to `['']`. Exactly those rows are dropped. |
| Plumb.TableRecordProvenance | ragbot/plumb.py:159-171 | Every table record is a kept row of one of the tables, with that row's text, type `'table'` and the table's page number. |
| Plumb.RowRecordProvenance | ragbot/plumb.py:160-171 | Every record of one table is one of its kept rows, with that row's text and embedding. |
| Plumb.CombineTextAndTable | ragbot/plumb.py:176-181 | All text records come first, then all table records, each in their order. The records are relabelled by position. |
| Plumb.PdfToDf | ragbot/plumb.py:183-200 | The result is the reference `PdfToDfResult`. A text-extraction error escapes before the tables are read. Otherwise the frame is the text records followed by the table records. |
| Plumb.PdfToDfLayout | ragbot/plumb.py:196-200 | In a produced frame, the first records are the extracted text chunks in order, with type `'text'`. Every later record has type `'table'`. |
| Weav.LowerAll | ragbot/weav.py:117 | Every character is lower-cased and the length is kept. |
| Weav.Capitalize | ragbot/weav.py:117 | `str.capitalize`: the first character upper-cased, every other one lower-cased, and the length kept. |
| Weav.CapitalizeIdempotent | ragbot/weav.py:117 | Capitalizing twice is capitalizing once. |
| Weav.CapitalizeIgnoresCase | ragbot/weav.py:117 | Class names that differ only in letter case look up the same key. |
| Weav.FormatQueryResult | ragbot/weav.py:116-128 | Fails with `KeyError` on the capitalized name if and only if that key is missing. Otherwise gives one entry per item, in order, with score = certainty, text = content and the page number, and no filename. |
| Weav.WriteTenants | ragbot/weav.py:81-85 | The names of the tenants, sorted ascending and as a permutation (one and the same list, by `Strings.SortedUnique`). |
| Weav.Batch.constructor | ragbot/weav.py:91 | The batch starts empty. |
| Weav.Batch.AddDataObject | ragbot/weav.py:106-111 | The batch gains exactly the given object at its end. |
| Weav.DataObjectsLossless | ragbot/weav.py:97-111 | Each row is recovered from its data object, and every object carries the given class and tenant. |
| Weav.ProgressReports | ragbot/weav.py:94-95 | A counter value is reported if and only if it is below the number of rows and a multiple of 100. |
| Weav.ProgressReportsOrder | ragbot/weav.py:92-112 | Reports come in increasing order, one per started hundred rows. |
| Weav.AddPdfDataObjects | ragbot/weav.py:87-114 | The batch gains exactly one object per row, in row order. Each object has chunk number = row index, the row's fields, the class, the tenant and the embedding. The counter ends at the number of rows. The reports are exactly the counter values that are multiples of 100. |
| Utils.Matching | ragbot/utils.py:10 | The filtered rows are rows of the sheet whose tenant column equals the tenant. |
| Utils.FirstMatch | ragbot/utils.py:10 | The first matching row's position: no earlier row matches, and the row there matches, if any does. |
| Utils.MatchingHead | ragbot/utils.py:10-11 | The filtered rows are empty if and only if no row matches. Otherwise they start with the first matching row. |
| Utils.GetTenantInfoFromDf | ragbot/utils.py:8-14 | As written. Returns `col_name` of the first matching row. A missing column is a `KeyError`. No match is an `IndexError`, never the fallback text. |
| Utils.NoMatchRaises | ragbot/utils.py:10-14 | A sheet without the tenant raises `IndexError` rather than answering "No matching tenant found". |
| Utils.FallbackNeverProduced | ragbot/utils.py:11-14 | The fallback text is returned only when the tenant's first matching row holds that very text in the requested column. |
| Utils.GetTenantInfoIntended | ragbot/utils.py:11-14 | Corrected. Like the lookup as written, except that no match gives "No matching tenant found". |
| Utils.IntendedExtendsWritten | ragbot/utils.py:10-14 | The corrected lookup agrees with the written one wherever that one answers. It gives the fallback exactly where the written one raises `IndexError`. |
| Utils.FileStem | ragbot/utils.py:33 | The stem is a prefix of the file name without a `'.'`, ending where the name ends or at its first `'.'`. |
| Utils.FileStemIgnoresExtension | ragbot/utils.py:33 | Everything after the first dot is ignored. |
| Utils.ReadAllPickles | ragbot/utils.py:28-36 | The result is the reference `TaggedRows` numbered 0..n-1: every file's rows, file after file, each tagged with its stem. It fails exactly when `TaggedRows` does. |
| Utils.TaggedRowsFail | ragbot/utils.py:31-32 | Loading fails if and only if some listed file fails to load (`pkl_data` unbound). |
| Utils.TaggedRowsFromFiles | ragbot/utils.py:31-34 | Every loaded row's filename is the stem of one of the listed files. |
| Utils.NumberedLabels | ragbot/utils.py:34 | With `ignore_index`, the row labels are the positions and the filenames are kept. |
| Utils.VisibleMembers | ragbot/utils.py:68-70 | The filtered listing holds only entries of the listing whose names are not excluded, and every such entry. |
| Utils.VisibleAppend | ragbot/utils.py:68-70 | Filtering keeps the listing's order: the filtered `a + b` is the filtered `a` followed by the filtered `b`. |
| Utils.VisibleSingle | ragbot/utils.py:68-70 | A single entry is kept if and only if its name is in neither exclusion list. |
| Utils.Basename | ragbot/utils.py:66 | The basename is a suffix of the path without `'/'` that is either the whole path or starts right after a `'/'`: the text after the last `'/'`. |
| Utils.PrintTree | ragbot/utils.py:56-82 | The lines printed: `basename + '/'` only when the prefix is `''`, then the reference `ListLines` of the filtered listing (one connector line per entry, each directory's lines right after it). |
| Utils.LinesMatchNames | ragbot/utils.py:71-82 | Depth first in listing order, one line per shown name. Each line starts with its prefix and ends with a space and the name. |
| Utils.ExcludedNeverShown | ragbot/utils.py:68-70 | No excluded name is shown, at any depth. |
| Utils.ExcludedFoldersNotEntered | ragbot/utils.py:68-75 | Excluded folders are not entered: the printed lines are the same once the contents of every excluded directory, at every depth, are thrown away. |
| Utils.ExcludedContentsIgnored | ragbot/utils.py:68-75 | Replacing the children of an excluded directory by anything leaves the printed lines unchanged. |
| Utils.ConnectorOfEntry | ragbot/utils.py:71-76 | The lines of the k-th entry onward close the listing's output. The first of them is `prefix + connector`, a space and the k-th name, where the connector is `'└── '` if and only if k is the last position and `'├── '` otherwise. |
| Session.WithoutMessages | pg-bot/st_utils.py:3-5 | `messages` becomes the empty list and every other key is unchanged. |
| Session.WithoutHistory | pg-bot/st_utils.py:7-10 | `history` is removed if present, and nothing else changes. |
| Session.ClearHistoryIdempotent | pg-bot/st_utils.py:7-10 | Clearing the history twice is clearing it once. Without a history, clearing changes nothing. |
| Session.ClearsCommute | ragbot/st_utils.py:3-10 | The two clear operations touch different keys, so their order does not matter. |
| Session.SessionState.constructor | ragbot/st_utils.py:3-10 | The session starts with the given map. |
| Session.SessionState.ClearMessages | ragbot/st_utils.py:3-5 | The new state is exactly `WithoutMessages` of the old one. |
| Session.SessionState.ClearHistory | ragbot/st_utils.py:7-10 | The new state is exactly `WithoutHistory` of the old one. |
| PgBotStUtils.ContentTexts | pg-bot/st_utils.py:49 | The last fields of the rows, in order, one per row. |
| PgBotStUtils.FormatIndexError | pg-bot/st_utils.py:49 | Fails with `IndexError` if and only if some row is empty. |
| PgBotStUtils.FormatSucceeds | pg-bot/st_utils.py:38-50 | Succeeds if and only if every row's last field is a string. The result is then those fields, in order, joined by `"\n\n---\n\n"`. |
| PgBotStUtils.FormatTypeError | pg-bot/st_utils.py:49 | A `TypeError` names the first row whose last field is not a string, and no row is empty. |
| PgBotStUtils.LastFieldsSpec | pg-bot/st_utils.py:49 | The generator yields every row's last field, or fails if and only if some row is empty. |
| PgBotStUtils.TextsSpec | pg-bot/st_utils.py:49 | The fields are joinable if and only if all are strings. Otherwise the error is at the first non-string. |
| PgBotStUtils.FormatNoChunks | pg-bot/st_utils.py:49 | No rows give `""`. |
| PgBotStUtils.OnlyContentMatters | pg-bot/st_utils.py:49 | Rows that agree on their last fields give the same result. |
| PgBotStUtils.FormatLength | pg-bot/st_utils.py:49 | n contents are glued by exactly n - 1 separators. |
| PgBotStUtils.IndexErrorFirst | pg-bot/st_utils.py:49 | An empty row fails with `IndexError` even when an earlier content is not a string. |
| RagbotStUtils.FormatNoHits | ragbot/st_utils.py:25-28 | No hits give `""`. |
| RagbotStUtils.FormatAppend | ragbot/st_utils.py:24-29 | Hits come out in input order. One more hit adds one `"\n\n---\n"` and its rendering at the end. |
| RagbotStUtils.FormatLength | ragbot/st_utils.py:25 | n hits are glued by exactly n - 1 separators. |
| RagbotStUtils.IntToStringNoSpace | ragbot/st_utils.py:26 | A printed page number holds no space. |
| RagbotStUtils.RenderHitInjective | ragbot/st_utils.py:26 | A rendered hit, `"Page Number: " + page + " --- Text: " + text`, gives back its page number and text. |
| PgBotOaiUtils.MessageLayout | pg-bot/oai_utils.py:36-63 | The message is a fixed preamble, then the data, then a fixed closing. |
| PgBotOaiUtils.DataRecovered | pg-bot/oai_utils.py:36-63 | The data is read back from the message. |
| PgBotOaiUtils.MessageInjective | pg-bot/oai_utils.py:36-63 | Different data give different messages. |
| PgBotOaiUtils.HeaderPrecedesData | pg-bot/oai_utils.py:47-48 | The data follows the `#### Retrieved Labnetwork Data ####` header line directly. |
| PgBotOaiUtils.BaseOnDataPresent | pg-bot/oai_utils.py:45 | The instruction to base answers only on the retrieved data is at a fixed place, whatever the data. |
| PgBotOaiUtils.MissingInfoPresent | pg-bot/oai_utils.py:57-60 | The instruction to reply that the information is missing follows the data, at a fixed distance after it. |
| RagbotOaiUtils.DelimiterShape | ragbot/oai_utils.py:4 | The delimiter is four `'#'` characters. |
| RagbotOaiUtils.FixedPiecesNonEmpty | ragbot/oai_utils.py:30-53 | The fixed text between the interpolations is never empty. |
| RagbotOaiUtils.QueryDelimiters | ragbot/oai_utils.py:33-45 | The delimiter stands at line 33's place and again, after the texts and the description, at line 45's. |
| RagbotOaiUtils.TextsPlaced | ragbot/oai_utils.py:36 | The texts follow the first delimiter and a fixed text. |
| RagbotOaiUtils.ToolPlaced | ragbot/oai_utils.py:41 | The description follows the texts and a fixed text. |
| RagbotOaiUtils.FixedOpening | ragbot/oai_utils.py:30-36 | The text before the retrieved texts is the same for all inputs. |
| RagbotOaiUtils.FixedBetween | ragbot/oai_utils.py:36-41 | The text between the retrieved texts and the description is the same for all inputs. |
| RagbotOaiUtils.FixedAfterTool | ragbot/oai_utils.py:41-45 | The text between the description and the second delimiter is the same for all inputs. |
| RagbotOaiUtils.FixedClosing | ragbot/oai_utils.py:45-53 | Everything after the second delimiter is the same for all inputs. |
| RagbotOaiUtils.MissingInfoInstruction | ragbot/oai_utils.py:49-51 | The "reply that you do not have the necessary information" instruction is present, at a fixed place after the second delimiter. |
| Strings.Split | ragbot/plumb.py:38 | `str.split` on one character: never empty, and no piece contains the separator. |
| Strings.JoinSplit | ragbot/plumb.py:38 | Joining the pieces of a split with the separator gives back the text. |
| Strings.SplitJoin | ragbot/utils.py:33 | Splitting a join of separator-free parts gives back the parts. |
| Strings.SplitAtSeparator | ragbot/utils.py:33 | The split stops at the first separator. |
| Strings.JoinLength | pg-bot/st_utils.py:49 | `sep.join` of n parts has the parts' lengths plus n - 1 separators. |
| Strings.JoinAppend | ragbot/st_utils.py:25-28 | Joining one more part adds one separator and that part at the end. |
| Strings.NatToString | ragbot/st_utils.py:26 | `str(n)` of a natural number is a non-empty string of decimal digits. |
| Strings.NatToStringRoundTrip | ragbot/st_utils.py:26 | Reading `str(n)` back as digits gives `n`. |
| Strings.IntToStringSign | ragbot/st_utils.py:26 | `str(n)` starts with `'-'` if and only if `n` is negative. |
| Strings.IntToStringInjective | ragbot/st_utils.py:26 | Different integers print differently. |
| Strings.LeTotal | ragbot/weav.py:85 | String order is total. |
| Strings.LeTransitive | ragbot/weav.py:85 | String order is transitive. |
| Strings.LeAntisymmetric | ragbot/weav.py:85 | String order is antisymmetric. |
| Strings.SortSorted | ragbot/weav.py:85 | `sorted` returns an ascending list. |
| Strings.SortPermutes | ragbot/weav.py:85 | `sorted` keeps every element, as often as it occurs. |
| Strings.SortedUnique | ragbot/weav.py:85 | A multiset of strings has only one ascending arrangement. |

## Left out

- The PDF reader (`pdfp.open`, `extract_text`, `extract_tables`) is a foreign library. Documents are given as their pages' extraction outcomes, and failures are error variants.
- The embedding and completion calls (`vectorize_data_with_openai`, `get_completion_from_messages`) are network calls. The embedder is a function parameter whose vectors are opaque sequences of reals.
- pandas, pickle and parquet I/O are left out. So are `read_pickle`'s file handling, `save_object_to_pickle`, `write_parquet_file`, `read_parquet_file` and the `pd.read_csv` of the manuals URL. Frames are sequences of records, a sheet is a sequence of maps, and the pickle loader is a function parameter.
- Utils.GetTenantInfoFromDf: every sheet cell is a string. The model therefore does not capture that `pd.read_csv` can read `tenant_name` as a numeric column, or leave a cell NaN; such a cell never equals the tenant string, so that row would never match.
- `read_pickle`'s error path returns an unbound `pkl_data`. The loader giving `None` stands for that, and it makes `read_all_pickles` fail.
- The renaming of the `values` column to `embedding` in `read_all_pickles` is not modelled: records already carry an `embedding` field.
- `pg-bot/neondb.py` (SQL, pgvector, the retry path) is not part of this model. Neither are the weaviate schema, tenant and query calls, nor the client configuration.
- `display_retrieved_texts`, `pg-bot/pg-bot.py` and the configuration files are UI and environment handling, and are not part of this model.
- Printing is left out:
  - the error messages of the extractors;
  - `"Data Added!"`;
  - the text of the progress line.

  Only the counter values at which progress is printed are modelled, and `print_tree`'s output is modelled as the list of printed lines.
- Batch flushing (`batch_size=25`) is left out. The batch only records what was added to it.
- Weav.Capitalize and Weav.LowerAll: only ASCII letters change case, because Unicode case mapping is beyond the model. Weaviate class names are GraphQL names, which are ASCII letters, digits and `_`, so nothing is lost for valid class names.
- PgBotOaiUtils.GetSystemMessageForVectorRetrievals: the retrieved data is taken to be already rendered to text. `str()` of a list of dicts is not modelled.
- RagbotOaiUtils.GetSystemToolMessage: `retrieved_texts` is taken to be already rendered to text. The only call site, commented out at pg-bot/pg-bot.py:95-96, passes the list that `get_top_k_similar_docs` returns, which the f-string renders with `str()`; that rendering is not modelled.
- Utils.PrintTree: the directory listing is passed in as a tree already read, so `os.listdir` and `os.path.isdir` are replaced by the tree's shape. The top-level `directory` only contributes its basename.
- Scores, certainties and embeddings are floats. They are kept opaque as `real` values and never computed with.

## Findings

| source | as written | input that shows it | evidently intended | confidence | as-written member | corrected member |
|---|---|---|---|---|---|---|
| ragbot/utils.py:10-14 | `.iloc[0]` is taken before the emptiness test, so a tenant with no row raises `IndexError`; and the selected row always holds the `tenant_name` cell, so `matching_rows.empty` is never true and "No matching tenant found" is never returned | a sheet with columns `tenant_name` and `col` and no rows, tenant `"acme"` (`Utils.NoMatchRaises`) | return "No matching tenant found" when no row matches | not executed | Utils.GetTenantInfoFromDf, Utils.NoMatchRaises, Utils.FallbackNeverProduced | Utils.GetTenantInfoIntended, Utils.IntendedExtendsWritten |
