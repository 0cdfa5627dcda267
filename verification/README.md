# minall, the table-merge core, in Dafny

minall enriches a list of URLs with metadata from several sources (Buzzsumo,
CrowdTangle, YouTube, Twitter, a scraper) and merges what it finds into two
SQL tables:

- `links`, one row per URL;
- `shared_content`, one row per medium embedded in a post, keyed by the
  post's URL and the medium's URL.

This project models the part of minall that decides what ends up in those
tables. That part is deterministic once the network collectors and the URL
parsers of `ural` and `minet` are treated as inputs. It covers:

- **The SQLite store** (`store.dfy`, `store_laws.dfy`, `table_csv.dfy`;
  `sql_names.dfy` for how SQLite compares column names, ignoring ASCII case).
  - A table is a sequence of rows in insertion order. Each row is a map from
    column to optional text.
  - There are two write statements. `INSERT OR IGNORE` is used for seed loads.
    `INSERT ... ON CONFLICT (pk) DO UPDATE SET k = COALESCE(excluded.k, k)`
    is used for `update_from_csv`.
  - `update_from_csv` reads a CSV file, binds empty cells as NULL, and upserts
    the rows in file order.
  - `export` writes the table back out as a CSV file.
- **Table creation.** Three generations of it coexist in the code, and each is
  modelled as written:
  - the SQLite `LinksTable`/`SharedContentTable`, which widen the canonical
    column map with the input file's headers and seed the table
    (`sqlite_tables.dfy`);
  - `ColumnParser` together with `check_csv_headers`, `parse_rows`,
    `insert_infile` and `create_table` (`column_parser.dfy`);
  - the DuckDB tables, whose `insert` goes through a view
    (`duckdb_tables.dfy`).
  - The schema registry is `schema.dfy`.
- **Enrichment** (`domains.dfy`, `domain_query.dfy`, `enrichment.py`'s
  `Enrichment.__call__` in `enrichment.dfy`):
  - `get_domain`, `apply_domain` and the domain pass over every link;
  - the `FilteredLinks` subsets;
  - the fixed order of the collector steps and the guard on each step;
  - the coalescing of each step's output file into the tables.
- **The normalisers** of Buzzsumo, CrowdTangle, Twitter and YouTube
  (`buzzsumo.dfy`, `crowdtangle.dfy`, `twitter.dfy`, `youtube.dfy`,
  `records.dfy`). `records.dfy` holds what they share: a field table copied
  into a record, the media-type rule, and the `csv.DictWriter` that writes
  records.
- **Small pure helpers:**
  - `batched` (`batching.dfy`);
  - `parse_rate_limit` and `adhoc_post_id_parser` (`crowdtangle.dfy`);
  - the `APIKeys` configuration and `parse_env_vars` (`config.dfy`).
- **Python behaviour the code relies on:**
  - `str.split`/`join`, `int()`/`str()` and truthiness (`py_text.dfy`);
  - insertion-ordered `dict` and `|` (`py_dict.dfy`);
  - `csv.DictReader` (`csv_rows.dfy`).

The foreign functions are parameters of the model:

- `ural.get_domain_name`, `is_youtube_url`, `is_facebook_url` and
  `parse_youtube_url`;
- `minet`'s `post_id_from_url` and `parse_facebook_url`;
- the parsed JSON/YAML document;
- the environment;
- what each collector returned.

## How values merge

Seed loads use `INSERT OR IGNORE`, so the first record carrying a key wins.
Every later update goes through `COALESCE(excluded.k, k)`. That expression
prefers the incoming value: a non-NULL incoming value overwrites the stored
one, and only a NULL keeps it. The last non-NULL writer of a value wins
(`StoreLaws.UpsertAllColumn`).

## Model

| member | source | states |
|---|---|---|
| Store.KeyOf | minall/tables/base.py:81-86 | A row has a key exactly when every primary-key column holds a value; the key lists those values in key order. |
| Store.NewRow | minall/tables/base.py:81-83 | An inserted row has exactly the table's columns; the named ones take the given values and the rest are NULL. |
| Store.Coalesce | minall/tables/base.py:116-118 | The conflict branch keeps the row's columns and its key: key columns are never in the SET list. |
| Store.Upsert | minall/tables/base.py:81-86 | One upsert keeps the primary-key constraint. A stored key is updated in place. A new key appends one row. No row with another key changes. |
| Store.InsertOrIgnore | minall/tables/links.py:127-133 | A seed insert of a stored key changes nothing; otherwise it appends the new row. |
| Store.UpsertAll | minall/tables/base.py:70-93 | Upserting a file's rows in order keeps the table well formed and never loses a row. |
| Store.SeedAll | minall/tables/links.py:122-133 | A seed load keeps every stored row in place and only appends. |
| Store.IndexOfUnique | minall/tables/base.py:84-85 | Under the primary-key constraint, the lookup finds the one row holding a key. |
| StoreLaws.UpsertLookup | minall/tables/base.py:81-86 | After one upsert, the row under `k` is the merge of the stored row and the incoming one when the incoming row has key `k`, and is unchanged otherwise. |
| StoreLaws.InsertOrIgnoreLookup | minall/tables/links.py:127-133 | After `INSERT OR IGNORE`, a key takes the incoming values only if it was not stored before. |
| StoreLaws.UpsertAllLookup | minall/tables/base.py:70-93 | After an update file, the row under each key is the fold, in file order, of the rows carrying that key over what was stored. |
| StoreLaws.MergeAllShape | minall/tables/base.py:81-86 | The fold yields a row exactly when one was stored or some row carries the key. That row has the table's columns and that key. |
| StoreLaws.MergeAllColumn | minall/tables/base.py:116-118 | Per non-key column, the fold holds the last non-NULL value the rows gave it, else the stored value, else NULL. |
| StoreLaws.UpsertAllColumn | minall/tables/base.py:70-93 | After an update file, a key is present exactly when it was stored or some row carried it. Each non-key column holds the last non-NULL value for that key, else its stored value. |
| StoreLaws.UpsertAllUntouched | minall/tables/base.py:72-80 | A column no row of the file sets keeps its stored value, or is NULL in a newly inserted row. |
| StoreLaws.NonNullPersists | minall/tables/base.py:116-118 | An update never turns a stored value back into NULL. |
| StoreLaws.MergeAllAbsorbs | minall/tables/base.py:116-118 | Folding the same rows a second time over their own result changes nothing. |
| StoreLaws.UpsertAllInPlace | minall/tables/base.py:81-86 | Upserting rows whose keys are all stored adds no row and moves no key. |
| StoreLaws.UpsertAllIdempotent | minall/tables/base.py:70-93 | Applying the same keyed rows twice gives the table that applying them once gives. |
| StoreLaws.CoalesceOne | minall/tables/base.py:116-118 | An incoming row whose only non-NULL non-key value is in column `c` changes column `c` and nothing else. |
| StoreLaws.StoredLookup | minall/tables/base.py:81-86 | A lookup returns a row with the table's columns and the key it was asked for. |
| StoreLaws.FirstRow | minall/tables/links.py:127-133 | The first row carrying a key is absent exactly when no row carries it. |
| StoreLaws.LastNonNullUnique | minall/links/links_table.py:53-58 | When no two rows share a key, the last non-NULL value of a column for a key is the cell of the one row carrying it. |
| StoreLaws.SeedAllLookup | minall/tables/links.py:122-133 | After a seed load, the row under each key is the one already stored, else the first row of the load with that key. |
| StoreLaws.LastNonNullAbsent | minall/tables/base.py:116-118 | A column every row leaves NULL has no last non-NULL value. |
| StoreLaws.LastNonNullConstant | minall/tables/base.py:116-118 | A column every row sets to `v` ends at `v` for every key some row carries. |
| TableCsv.NullEmpty | minall/tables/base.py:73-79 | Empty cells are bound as NULL and every other cell is bound as it is. |
| TableCsv.UpdateFromCsv | minall/tables/base.py:62-93 | A successful update keeps the table well formed, with the same columns and key. |
| TableCsv.RowErrorSchema | minall/tables/base.py:80-93 | Whether a row raises depends only on the table's columns and key, not on its rows. |
| TableCsv.ApplyRows | minall/tables/base.py:70-93 | Applying a file's rows keeps the table well formed, with the same columns and key. |
| TableCsv.SuccessNoRowError | minall/tables/base.py:70-93 | A successful update met no row in error. |
| TableCsv.ApplyRowsUpsertAll | minall/tables/base.py:70-93 | When no row is in error, the update is the in-order upsert of the bound rows. |
| TableCsv.UpdateFromCsvUpserts | minall/tables/base.py:62-93 | `update_from_csv` succeeds exactly when no row of the file is in error. It is then the in-order upsert of the file's rows with empty cells bound as NULL. |
| TableCsv.Export | minall/tables/base.py:40-60 | The export writes the header in table column order, then one line per stored row in stored order. NULL is written as the empty cell. |
| TableCsv.ReadBack | minall/tables/base.py:40-79 | An exported line read back and bound gives back the row, except that empty text becomes NULL. |
| TableCsv.ReadBackAbsorbed | minall/tables/base.py:116-118 | Re-upserting an exported row keeps its key and rewrites nothing. |
| TableCsv.UpsertAllAbsorbed | minall/tables/base.py:70-93 | Upserting rows that the stored rows absorb leaves the table as it was. |
| TableCsv.ExportRoundTrip | minall/tables/base.py:40-93 | Re-applying an export to its own table is a no-op, provided no key value is empty and the table has a non-key column. |
| TableCsv.UnkeyedLineAppends | minall/tables/base.py:73-79 | An accepted line that binds no key conflicts with nothing, so the update appends one row. |
| TableCsv.EmptyKeyRoundTrip | minall/tables/base.py:73-79 | Without that proviso the round trip fails: a row keyed by `""` reads back with a NULL key, and the re-import appends a second row. |
| TableCsv.ExportReadRows | minall/tables/base.py:40-70 | For a table with at least one column, reading its export gives one row per stored row, in order. |
| TableCsv.ReadBackNoError | minall/tables/base.py:80-93 | When the table has a non-key column, an exported line does not raise when it is read back into its own table. |
| CsvRows.ZipFields | minall/tables/base.py:68-72 | A row read by the CSV reader has exactly the header's names as keys. |
| CsvRows.ZipFieldsAt | minall/tables/base.py:68-72 | With distinct header names, each field holds the cell in its own position, or `None` past the end of a short record. |
| CsvRows.ReadRows | minall/tables/base.py:68-70 | Without a header the reader yields nothing. It yields at most one row per record, each keyed by the header. |
| CsvRows.ReadRowsNoBlank | minall/tables/base.py:68-70 | A file with no blank record yields one row per record, in order. |
| Schema.LinksConstants | minall/tables/links/constants.py:22-65 | `links` is keyed by `url` alone, which is its first declared column. Column names are distinct and every type is TEXT or INTEGER. `primary_key` is the comma-join of `pk_list`. |
| Schema.SharedContentConstants | minall/tables/shared_content/constants.py:25-35 | `shared_content` is keyed by (`post_url`, `content_url`), and its column names are distinct. `post_url` refers to `links(url)`, and `height` and `width` are INTEGER. `primary_key` is the comma-join of `pk_list`. |
| Schema.LinksTypes | minall/tables/links/constants.py:25-64 | Every `links` column is TEXT or INTEGER. |
| Schema.LinksNamesDistinct | minall/tables/links/constants.py:25-64 | The `links` column names are distinct. |
| Schema.LinksNamesLower | minall/tables/links/constants.py:25-64 | No `links` column name holds an ASCII capital. |
| Schema.LinksCaseDistinct | minall/tables/links/constants.py:25-64 | The `links` column names are distinct up to ASCII case, so SQLite accepts them as one table. |
| Schema.SharedContentTypes | minall/tables/shared_content/constants.py:28-34 | `post_url` is TEXT referring to `links(url)`, and `height` and `width` are INTEGER. |
| Schema.SharedContentCaseDistinct | minall/tables/shared_content/constants.py:28-34 | The `shared_content` column names are distinct up to ASCII case. |
| SqliteTables.CreateTable | minall/tables/base.py:36-38 | Creating a table drops any previous one. SQLite refuses the new table exactly when two column names are equal up to ASCII case, and names a later one of the pair. Otherwise the table is empty, with the given columns and key. |
| SqlNames.FirstClash | minall/tables/base.py:140-145 | The column `CREATE TABLE` reports: none exactly when the names are distinct up to ASCII case; otherwise the first name, in declaration order, equal up to case to an earlier one. |
| SqlNames.FoldFixed | minall/tables/base.py:140-145 | A name is its own case fold exactly when it holds no ASCII capital. |
| SqlNames.CollidesIff | minall/tables/base.py:140-145 | Distinct names made of headers and case-distinct canonical columns are case-distinct exactly when no header equals, up to ASCII case, a different header or canonical column. |
| SqlNames.LowerDistinct | minall/tables/base.py:140-145 | Distinct names without ASCII capitals are distinct up to case. |
| SqliteTables.InfileColumns | minall/tables/links.py:161-162 | The widened column map has distinct names. |
| SqliteTables.InfileColumnsFacts | minall/tables/links.py:161-162 | The widened map lists the headers first, then the canonical columns that are not headers. It holds exactly those two sets of names. |
| SqliteTables.InfileColumnsType | minall/tables/links.py:161-162 | A canonical column keeps its canonical type, and any other header is TEXT. |
| SqliteTables.InfileColumnsClash | minall/tables/links.py:161-162 | The widened column list is case-distinct exactly when no header equals, up to ASCII case, a different header or canonical column. |
| SqliteTables.LinksSeedRow | minall/tables/links.py:122-126 | A links seed row copies the declared URL column into `url` and keeps the original column. Without a URL column it is the read row verbatim. |
| SqliteTables.Generate | minall/tables/links.py:110-133 | Once the column map is accepted, the load fails exactly when two columns are equal up to ASCII case (DuplicateColumn) or, failing that, when a record is longer than the header (MalformedRecord). On success the table is well formed, with the map's columns and the given key. |
| SqliteTables.GenerateFirstWins | minall/tables/links.py:122-133 | A successful load holds, for each key, the first record carrying it; a later record with the same key adds nothing. |
| SqliteTables.LinksAccepted | minall/tables/links.py:135-162 | A column map the parser accepts holds every canonical column and every header, and the table it declares, keyed by `url`, is well formed. |
| SqliteTables.GeneratedColumns | minall/tables/links.py:161-162 | A table generated from the widened map has the widened columns. |
| SqliteTables.LinksInitErrors | minall/tables/links.py:110-162 | NoCSVHeaders is raised exactly without headers. KeyError is raised exactly when no URL column is declared and no header is `url`. NoURLColumn is raised exactly when the declared URL column is not a header. The seed-time header check never fires. |
| SqliteTables.LinksLoadErrors | minall/tables/links.py:110-133 | Past the header checks, the load fails with SQLite's "duplicate column name" exactly when a header equals a different header or canonical column up to ASCII case (`URL` beside `url`). Otherwise it fails exactly on a record longer than the header. |
| SqliteTables.CaseTwinRefused | minall/tables/links.py:110-133 | A header that differs from `url` only in case, such as `URL`, makes the load fail with "duplicate column name". |
| SqliteTables.UpperCaseUrlRefused | minall/tables/links.py:110-133 | A file whose URL column is headed `URL`, declared as the URL column, is refused whatever it holds. |
| SqliteTables.LinksInitColumns | minall/tables/links.py:135-162 | A links table holds the file's headers (first occurrences, in order), then the canonical columns the file lacks, and is keyed by `url`. |
| SqliteTables.LinksSeedFirstWins | minall/tables/links.py:122-133 | A links load stores, for each URL, the first record carrying it, with the URL column copied into `url`. |
| SqliteTables.SharedContentColumns | minall/tables/shared_content.py:120-124 | A missing-key error names a key column that is really missing from the headers. |
| SqliteTables.SharedContentAccepted | minall/tables/shared_content.py:102-126 | A column map that passes the checks holds every header and both key columns, and the table it declares is well formed. |
| SqliteTables.SharedContentInit | minall/tables/shared_content.py:65-68 | Without an input file the table has exactly the canonical columns and no row. |
| SqliteTables.SharedContentInitErrors | minall/tables/shared_content.py:79-124 | NoCSVHeaders is raised exactly without headers. With headers, NoPrimaryKeyColumns is raised exactly when a key column is missing, and it names a missing one. The seed-time header check never fires. |
| SqliteTables.SharedContentLoadErrors | minall/tables/shared_content.py:79-100 | Past the header checks, the load fails with "duplicate column name" exactly when a header equals a different header or canonical column up to ASCII case. Otherwise it fails exactly on a record longer than the header. |
| SqliteTables.SharedContentInitColumns | minall/tables/shared_content.py:102-126 | The table holds the file's headers, then the canonical columns it lacks, and is keyed by (`post_url`, `content_url`). |
| SqliteTables.SharedContentSeedFirstWins | minall/tables/shared_content.py:79-100 | A load keeps, for each (`post_url`, `content_url`) pair, the first record carrying it, verbatim. |
| ColumnParser.CheckCsvHeaders | minall/exceptions.py:22-55 | NoCSVHeaders exactly when the reader found no header. A `links` file must contain the declared URL column (`None` is never found). A `shared_content` file must contain both key columns, `post_url` checked first. Other tables pass. On success the header is returned unchanged. |
| ColumnParser.MissingFacts | minall/tables/utils.py:82-94 | The appended columns are exactly the canonical ones the original lacks, without repeats. |
| ColumnParser.Standardize | minall/tables/utils.py:82-94 | The standardized list is the original columns followed by the missing canonical columns. |
| ColumnParser.TypeFor | minall/tables/utils.py:96-108 | A column with no canonical type is TEXT. |
| ColumnParser.SetDtypes | minall/tables/utils.py:96-108 | The type map has one entry per distinct standardized column, in first-occurrence order. Each entry has its canonical type, else TEXT. |
| ColumnParser.NewParser | minall/tables/utils.py:36-80 | Without an input file the original columns are the canonical ones. With one, the parser fails exactly as `check_csv_headers` does, and otherwise the original columns are the header. The standardized list extends it with the canonical columns. |
| ColumnParser.StandardizeCanonical | minall/tables/utils.py:72-94 | Without an input file the standardized columns are the canonical ones, in order. |
| ColumnParser.StandardizeAgrees | minall/tables/links.py:161-162 | With distinct headers, this generation's column list equals the other generation's widened column list. |
| ColumnParser.ParserTable | minall/tables/utils.py:171-184 | `create_table` fails with "duplicate column name" exactly when an original column equals a different original or canonical column up to ASCII case. Otherwise the table is empty, well formed, keyed by the table's key, and declares exactly the standardized columns. |
| ColumnParser.ParseRow | minall/tables/utils.py:147-168 | There is one value per standardized column, in order. `url` takes the declared URL column's value. Any other column takes its value when it is non-empty text, else NULL. A missing URL column raises. |
| ColumnParser.Assign | minall/tables/utils.py:139-144 | The row an insert writes has exactly the listed columns. |
| ColumnParser.AssignAt | minall/tables/utils.py:139-144 | With distinct columns, each column takes the value in its own position. |
| ColumnParser.ShapeRow | minall/tables/utils.py:134-143 | Parsing one row raises exactly when the URL column is missing; otherwise the insert writes a row over exactly the standardized columns, as `InsertedRow` describes. |
| ColumnParser.InsertInfile | minall/tables/utils.py:111-144 | With no input file the table is unchanged. Otherwise, a file with at least one row fails exactly when the URL column is missing from its header or the table lacks a standardized column, and reports which. On success the result is the in-order `INSERT OR IGNORE` of the parsed rows, and the table stays well formed. |
| ColumnParser.InsertInfileFirstWins | minall/tables/utils.py:127-144 | A load keeps the row already stored under each key, else the first row of the file carrying it. |
| ColumnParser.GenerateTable | minall/tables/utils.py:111-184 | Running the parser, `create_table` and `insert_infile` in sequence never names an undeclared column, and a `links` load never misses its URL column. With a file, the run fails with DuplicateColumn exactly when the header passes the checks and a header equals a different header or canonical column up to ASCII case. Without a file the table has the canonical columns and no row. On success with a file, the table is well formed and holds exactly the header and the canonical columns. |
| DuckTables.CreateIfAbsent | minall/links/links_table.py:13-21 | An existing table is kept with its rows; otherwise the table starts empty. |
| DuckTables.LinksInsert | minall/links/links_table.py:23-59 | The insert fails with NoHeaders exactly when the file has no header, and with UnknownColumn exactly when a header is not a table column. Past those checks it fails with RaggedRecord exactly when a non-blank record is not the header's width. Then it fails with NullKey exactly when a row lacks a full key. Then, for any file but a key-only one (`DO UPDATE`), it fails with DuplicateKey exactly when two rows share a key. A file without `url` or `link_id` loads only when it has no rows. Success keeps the table well formed. |
| DuckTables.LinksInsertKeyOnly | minall/links/links_table.py:38-44 | A key-only file keeps the stored row under each key, else the first row carrying it. |
| DuckTables.LinksInsertCoalesces | minall/links/links_table.py:45-59 | A successful `DO UPDATE` load holds at most one row per key. Each non-key column takes that row's value unless it is NULL, and otherwise keeps the stored value. |
| DuckTables.KeyOnlyAgree | minall/links/links_table.py:38-58 | On key-only rows `DO NOTHING` and the COALESCE update give the same table. |
| DuckTables.UpsertKeyOnly | minall/links/links_table.py:38-58 | One key-only row upserted is the same as inserted or ignored. |
| DuckTables.SharedInsert | minall/shared_content/shared_content_table.py:25-50 | The insert fails with ColumnCountMismatch exactly when the header is missing or of the wrong width, and with UnknownColumn exactly when a field name is not a column. Past those checks it fails with RaggedRecord exactly on a non-blank record of another width, then with NullKey exactly when a row lacks a full key, then with DuplicateKey exactly when two rows share a key. Success keeps the table well formed. |
| DuckTables.ViewCell | minall/shared_content/shared_content_table.py:29-33 | Each view field takes the full-width record's cell in the same position, NULL when it is empty. |
| DuckTables.SharedInsertPositional | minall/shared_content/shared_content_table.py:29-50 | The header's names are never read: two files with the same width and records load identically. A successful load holds at most one row per key. Each non-key column takes that row's value unless it is NULL, and otherwise keeps the stored value. |
| Domains.GetDomain | minall/enrichment/utils.py:23-40 | The result is `youtube.com` exactly when `ural` names `youtube.com` or a YouTube alias. Any other domain passes through unchanged. The result is none exactly when `ural` finds no domain. |
| Domains.ApplyDomain | minall/enrichment/utils.py:43-61 | An update is built exactly when the domain is truthy. It targets that URL and never writes an empty domain. |
| Domains.SetDomain | minall/enrichment/utils.py:57-61 | The intended update sets the domain of exactly the rows with that URL, and changes nothing else. |
| Domains.Urls | minall/enrichment/utils.py:67-79 | The link list holds exactly the non-NULL URLs of the table. |
| Domains.Filter | minall/enrichment/utils.py:81-139 | A comprehension with a condition keeps exactly the elements that pass. |
| Domains.FilterAppend | minall/enrichment/utils.py:81-139 | Filtering keeps order: it distributes over concatenation. |
| Domains.FilterSplit | minall/enrichment/utils.py:99-139 | A condition and its negation split a list, occurrence by occurrence. |
| Domains.SubsetsKeepOrder | minall/enrichment/utils.py:81-139 | Each of the four subsets preserves the table's order. |
| Domains.SocialPartition | minall/enrichment/utils.py:99-139 | `other_social` and `to_scrape` partition the links: each occurrence is in exactly one, decided by its domain. |
| Domains.PlatformsNotScraped | minall/enrichment/utils.py:99-139 | Facebook links and links on any YouTube domain are never scraped. A link without a domain is scraped. |
| Domains.DomainStep | minall/enrichment/enrichment.py:107-111 | With the intended update (values escaped), one link sets the domain of exactly the rows with that URL, when its domain is truthy. No other cell changes, and the table stays well formed with the same columns and row count. |
| Domains.DomainPass | minall/enrichment/enrichment.py:107-111 | With the intended updates, the loop over all links keeps the table well formed, with the same columns and the same number of rows. The per-row effect is DomainPassRows. |
| Domains.DomainPassRows | minall/enrichment/enrichment.py:107-111 | With the intended updates, a row's domain after the pass is its URL's domain when the URL is among the links and that domain is truthy, else unchanged. No other column changes. |
| Domains.DomainPassSetsDomains | minall/enrichment/enrichment.py:104-111 | With the intended updates, after the pass over every URL of the table, each row whose URL has a truthy domain carries that domain. Every other row keeps its domain, and no other column changes. |
| DomainQuery.Escape | minall/enrichment/utils.py:57-61 | Escaping only lengthens a literal, and leaves quote-free text as it is. |
| DomainQuery.ReadEscaped | minall/enrichment/utils.py:57-61 | An escaped literal reads back as its value. |
| DomainQuery.EscapedRoundTrip | minall/enrichment/utils.py:57-61 | The statement with escaped literals reads back as the update it was built from. |
| DomainQuery.QuoteFreeStatement | minall/enrichment/utils.py:57-61 | Without quotes in either value, the statement as written is the escaped one and runs the intended update. |
| DomainQuery.StatementMisreads | minall/enrichment/utils.py:57-61 | A URL containing a quote makes the statement as written fail to parse as the intended update. |
| DomainQuery.ApostropheUrl | minall/enrichment/utils.py:57-61 | A concrete instance: the statement as written for a French article URL with an apostrophe is not the intended update. |
| DomainQuery.DomainPassAsWritten | minall/enrichment/enrichment.py:107-111 | The pass as written, statement text and all, keeps the table well formed whenever every statement reads as an update of the expected shape. |
| DomainQuery.QuoteFreePass | minall/enrichment/enrichment.py:107-111 | On links and domains without quotes, the pass as written is exactly the modelled pass. |
| DomainQuery.ApostrophePass | minall/enrichment/enrichment.py:107-111 | One link with an apostrophe is enough for the pass as written to leave the intended updates, whatever the table. |
| Enrichment.Plan | minall/enrichment/enrichment.py:113-122 | Steps run in the order YouTube, Facebook, other social, scraper, Buzzsumo. A step runs exactly when its credential is present and, except for Buzzsumo, its subset is non-empty and `buzzsumo_only` is off. With `buzzsumo_only`, no step but Buzzsumo runs. |
| Enrichment.Steps | minall/enrichment/enrichment.py:113-122 | Running the planned steps keeps both tables well formed with their columns and keys. |
| Enrichment.Step | minall/enrichment/enrichment.py:46-102 | A step keeps both tables well formed with their columns and keys. Every step except Facebook leaves `shared_content` unchanged. |
| Enrichment.Run | minall/enrichment/enrichment.py:104-122 | A run, with the intended domain updates, keeps both tables well formed with their columns and keys. |
| Enrichment.UpdateKeeps | minall/tables/base.py:116-118 | `update_from_csv` never erases a value. |
| Enrichment.StepKeeps | minall/enrichment/enrichment.py:46-102 | One step never erases a value in either table. |
| Enrichment.StepsKeepValues | minall/enrichment/enrichment.py:113-122 | A value stored in either table before the steps is still non-NULL after them. |
| Enrichment.SharedOnlyFromFacebook | minall/enrichment/enrichment.py:76-90 | A plan without the Facebook step leaves `shared_content` as it was. |
| Enrichment.DomainPassKeepsValues | minall/enrichment/enrichment.py:107-111 | The domain pass never erases a value. |
| Enrichment.RunKeepsValues | minall/enrichment/enrichment.py:104-122 | A whole run never erases a value in either table. |
| Enrichment.RunKeepsSharedContent | minall/enrichment/enrichment.py:76-90 | `shared_content` changes only when the Facebook step runs. It stays the same with `buzzsumo_only`, without a CrowdTangle token, or without a Facebook URL. |
| Enrichment.SocialRow | minall/enrichment/other_social_media/add_data.py:23-29 | Read back, each line of the social file binds the URL, the work type `SocialMediaPosting`, and NULL elsewhere. |
| Enrichment.SocialRowCells | minall/enrichment/other_social_media/add_data.py:23-29 | The social file has one line per URL. Each line binds its URL (NULL when empty) and the work type `SocialMediaPosting`. |
| Enrichment.SocialRowsElsewhereNull | minall/enrichment/other_social_media/add_data.py:23-29 | Every column of the social file other than `url` and `work_type` reads back as NULL. |
| Enrichment.SocialRowsWorkType | minall/enrichment/other_social_media/add_data.py:23-29 | Every line of the social file sets `work_type` to `SocialMediaPosting`. |
| Enrichment.SocialKey | minall/enrichment/other_social_media/add_data.py:23-29 | A non-empty URL of the list is the key of its line. |
| Enrichment.OtherSocialMarks | minall/enrichment/enrichment.py:67-74 | The other-social step stores every non-empty URL of its list as a social-media posting. |
| Enrichment.OtherSocialKeeps | minall/enrichment/enrichment.py:67-74 | That step leaves every other column of the URL's row as stored (NULL for a new URL). |
| Records.MediaType | minall/enrichment/crowdtangle/normalizer.py:68-83 | `photo` is ImageObject, `video` is VideoObject, anything else (none included) is MediaObject. |
| Records.Project | minall/enrichment/buzzsumo/normalizer.py:114-134 | A record copied by a field table has exactly the table's columns. |
| Records.ProjectAt | minall/enrichment/buzzsumo/normalizer.py:119-133 | Each copied column holds its attribute, NULL when the payload lacks it. |
| Records.Fill | minall/enrichment/buzzsumo/normalizer.py:114-134 | A record has the copied columns plus the constant ones, and the constants hold their values. |
| Records.FillAt | minall/enrichment/buzzsumo/normalizer.py:119-133 | A copied column that is not a constant holds its attribute. |
| Records.WriteRow | minall/enrichment/crowdtangle/contexts.py:41-50 | The CSV writer refuses a record naming a field outside its field names, and reports exactly those fields. Otherwise it writes one cell per field name. |
| Records.WrittenRowReadsBack | minall/tables/base.py:68-79 | A written record, read back under the same header and bound as `update_from_csv` binds it, is the record itself, except that empty text becomes NULL. |
| Buzzsumo.AnySet | minall/enrichment/buzzsumo/normalizer.py:90-96 | The scan finds a set flag exactly when some listed flag is set. |
| Buzzsumo.BuzzsumoType | minall/enrichment/buzzsumo/normalizer.py:66-97 | The type is VideoObject exactly when the article is flagged a video, and Article exactly when it is not a video but has an article flag. Otherwise, or without data, it is WebPage. |
| Buzzsumo.BuzzRecord | minall/enrichment/buzzsumo/normalizer.py:99-155 | With or without an article the record has the same eighteen fields, including the URL and the Buzzsumo type as work type. The domain is `get_domain(url)` only with an article. |
| Buzzsumo.BuzzRecordFields | minall/enrichment/buzzsumo/normalizer.py:114-155 | Each copied column holds the article's attribute, and is NULL without an article. |
| Buzzsumo.BuzzRecordWritable | minall/enrichment/buzzsumo/contexts.py:39-41 | Every record names only `links` columns, so the writer accepts it. |
| Buzzsumo.UnknownUrlNulls | minall/enrichment/buzzsumo/normalizer.py:135-155 | Without an article, every column except the URL and the work type is NULL. |
| Buzzsumo.UnknownUrlSetsWebPage | minall/enrichment/buzzsumo/normalizer.py:135-155 | Upserting the record of an unknown URL over a stored row changes only its work type, to `WebPage`. |
| CrowdTangle.ParseRateLimit | minall/enrichment/crowdtangle/client.py:15-28 | A falsy limit becomes 10. A string goes through `int()` and fails when `int()` does. Anything else is returned as it is. The result is never a string. |
| CrowdTangle.RateLimitSettles | minall/enrichment/crowdtangle/client.py:24-28 | Re-parsing a parsed non-zero limit gives it back. |
| CrowdTangle.RateLimitZero | minall/enrichment/crowdtangle/client.py:24-27 | The string `"0"` stays 0, but the integer 0 becomes the default. |
| CrowdTangle.RateLimitAgreesWithEnv | minall/enrichment/crowdtangle/client.py:24-28 | The rate-limit text from `.env`, parsed here, equals what `parse_env_vars` reads (0 kept, absent means the default). |
| CrowdTangle.Parent | minall/enrichment/crowdtangle/client.py:50-55 | The parent is the handle when that attribute exists, else the id. It is none when neither attribute exists. |
| CrowdTangle.AdhocPostIdParser | minall/enrichment/crowdtangle/client.py:31-65 | `minet`'s post id is used when it is truthy. Otherwise the result is the parsed URL's post id and parent joined by `_`, exactly when both exist, are non-empty and pass `int()`. |
| CrowdTangle.FallbackIdSplits | minall/enrichment/crowdtangle/client.py:56-65 | A fallback id splits back on `_` into its two numeric parts, when neither part uses `_` as a digit separator. |
| CrowdTangle.HandleBeforeId | minall/enrichment/crowdtangle/client.py:50-53 | A parent handle is preferred over a parent id. |
| CrowdTangle.PostWorkType | minall/enrichment/crowdtangle/normalizer.py:170-175 | A post's work type is ImageObject for `photo` and VideoObject for `video`. Any other type, or none, is SocialMediaPosting. |
| CrowdTangle.PostAndMediaTypes | minall/enrichment/crowdtangle/normalizer.py:170-175 | A post's work type equals its medium's type, except that MediaObject becomes SocialMediaPosting. |
| CrowdTangle.PostRecord | minall/enrichment/crowdtangle/normalizer.py:33-47 | Without a post the record is exactly the URL, `facebook.com` and SocialMediaPosting. With one it has the copied fields, its work type, and the defaults `facebook.com` and `defacto:SocialMediaAccount`. |
| CrowdTangle.PostRecordFields | minall/enrichment/crowdtangle/normalizer.py:177-195 | Each copied column holds the post's attribute. |
| CrowdTangle.MediaRecord | minall/enrichment/crowdtangle/normalizer.py:85-106 | A medium's record holds the post URL, the medium's URL, its media type, height and width. |
| CrowdTangle.SharedRecords | minall/enrichment/crowdtangle/normalizer.py:13-30 | There is one record per medium, in order, when there is a post whose `media` is a list, and none otherwise. |
| CrowdTangle.PostRecordWritable | minall/enrichment/crowdtangle/contexts.py:41-43 | The links writer accepts every post record. |
| CrowdTangle.MediaRecordKey | minall/enrichment/crowdtangle/contexts.py:48-50 | Every medium is written to `shared_content` under (post URL, medium URL). A medium without a URL has no key. |
| Twitter.FirstMissing | minall/enrichment/twitter/normalizer.py:52-66 | The first key the tweet lacks, in reading order; none exactly when it has them all. |
| Twitter.TweetRecord | minall/enrichment/twitter/normalizer.py:50-68 | With a tweet, the record fails with KeyError for the first missing key, and otherwise copies every field. Without one (none, or an empty dict), it is the URL and the defaults. Both records have the same fourteen fields. |
| Twitter.NoneMediaTweet | minall/enrichment/twitter/normalizer.py:50-54 | A dict holding only `media_types: None` is non-empty, so it counts as a tweet: the record fails with KeyError on `id`, and no medium is yielded. |
| Twitter.TweetRecordFields | minall/enrichment/twitter/normalizer.py:52-68 | Each column holds the tweet's value, and is NULL without a tweet. |
| Twitter.TweetRecordRefused | minall/enrichment/twitter/normalizer.py:34-47 | Every tweet record carries `twitter_like`, which `links` lacks, so the links writer refuses it. |
| Twitter.TweetLinksApart | minall/enrichment/twitter/normalizer.py:34-47 | Every field of a tweet record except `twitter_like` is a `links` column. |
| Twitter.NoLikeColumn | minall/tables/links/constants.py:25-65 | `links` declares no `twitter_like` column. |
| Twitter.LinksTweetRecord | minall/enrichment/twitter/normalizer.py:34-68 | The corrected record is the tweet record without `twitter_like`, and fails exactly when the tweet record does. |
| Twitter.LinksTweetRecordWritten | minall/enrichment/twitter/normalizer.py:34-68 | The writer accepts the corrected record, which agrees with the tweet record on every `links` column. |
| Twitter.SharedLink | minall/enrichment/twitter/normalizer.py:71-87 | A medium's record is the post URL, the medium URL and its media type, with no height or width. |
| Twitter.SharedContent | minall/enrichment/twitter/normalizer.py:90-123 | Records are yielded only for a tweet whose three media lists are present, non-empty and of one length: one record per medium, in order. |
| Twitter.SharedContentKey | minall/enrichment/twitter/normalizer.py:121-123 | Every medium is written to `shared_content` under (tweet URL, medium URL). |
| Twitter.Accepted | minall/enrichment/twitter/get_data.py:37-38 | With the corrected record, the writer takes a URL's record exactly when the tweet is complete. |
| Twitter.AcceptedCorrected | minall/enrichment/twitter/get_data.py:37-38 | For a complete tweet, what the writer takes is the corrected record. |
| Twitter.AcceptedAsWritten | minall/enrichment/twitter/get_data.py:37-38 | As written, every URL stops the run, either on a missing key or on the refused `twitter_like`. |
| Twitter.CollectStops | minall/enrichment/twitter/get_data.py:36-45 | The run stops at the first URL whose record is not taken, with that URL's error. |
| Twitter.Collect | minall/enrichment/twitter/get_data.py:36-45 | A finished run writes one `links` record per URL. |
| Twitter.OutcomeCorrected | minall/enrichment/twitter/get_data.py:37-38 | In the corrected run, the record taken for a URL is its corrected tweet record. |
| Twitter.CollectRuns | minall/enrichment/twitter/get_data.py:36-45 | The run finishes exactly when every URL's record is taken. |
| Twitter.CollectWrites | minall/enrichment/twitter/get_data.py:36-45 | A finished run wrote every record and every medium, in order. |
| Twitter.MediaInOrder | minall/enrichment/twitter/get_data.py:41-45 | The media are written in URL order. |
| Twitter.TwitterDataStops | minall/enrichment/twitter/get_data.py:33-47 | As written, `get_twitter_data` never gets past its first URL. |
| Twitter.CorrectedTwitterDataRuns | minall/enrichment/twitter/get_data.py:33-47 | With the corrected record, the run finishes exactly when every tweet is complete. |
| Twitter.CorrectedTwitterDataMedia | minall/enrichment/twitter/get_data.py:41-45 | A corrected run writes every tweet's media, in URL order. |
| Twitter.CorrectedTwitterDataWrites | minall/enrichment/twitter/get_data.py:36-38 | A corrected run writes every URL's corrected record, in URL order. |
| YouTube.NewParsedLink | minall/enrichment/youtube/normalizer.py:21-48 | A video URL gets its video id and a channel id of `None`. A channel URL gets the reverse. Any other URL has neither attribute. No result is stored yet. |
| YouTube.VideoRecord | minall/enrichment/youtube/normalizer.py:125-166 | A video's record has the nineteen fields, with domain `youtube.com`, work type VideoObject and creator type WebPage. |
| YouTube.VideoRecordFromVideo | minall/enrichment/youtube/normalizer.py:150-161 | Each video-derived column holds the video's attribute. |
| YouTube.VideoRecordFromChannel | minall/enrichment/youtube/normalizer.py:142-165 | Each channel-derived column holds the channel's value, and is NULL without a channel. |
| YouTube.ChannelRecord | minall/enrichment/youtube/normalizer.py:199-226 | A channel's record has the eleven fields, with domain `youtube.com` and work type WebPage. |
| YouTube.ChannelRecordFields | minall/enrichment/youtube/normalizer.py:214-226 | Each copied column holds the channel's attribute. |
| YouTube.Normalize | minall/enrichment/youtube/normalizer.py:51-75 | A video result wins. Otherwise a channel result gives a channel record. Otherwise the record is exactly `{"url": url}`. |
| YouTube.NormalizeWritable | minall/enrichment/youtube/context.py:66-68 | The links writer accepts every normalised record. |
| YouTube.VideoRecordWritable | minall/enrichment/youtube/normalizer.py:125-166 | A video's record names only `links` columns. |
| YouTube.ChannelRecordWritable | minall/enrichment/youtube/normalizer.py:199-226 | A channel's record names only `links` columns. |
| YouTube.NormalizeKey | minall/enrichment/youtube/normalizer.py:51-75 | Every normalised record is keyed by the link's own URL. |
| YouTube.NothingCollectedKeepsRows | minall/enrichment/youtube/normalizer.py:74-75 | A link with nothing collected leaves every stored row as it was. |
| Batching.Batched | minall/enrichment/twitter/get_data.py:50-60 | `n < 1` is refused. Otherwise the batches concatenate back to the input. Every batch is non-empty with at most `n` items, all but the last have exactly `n`, and there are as few batches as can hold the input. |
| Config.Suffix | minall/utils/parse_config.py:107 | A non-empty suffix starts with a dot, has no other dot and no slash, and ends the path after a non-slash. |
| Config.SuffixOf | minall/utils/parse_config.py:107 | A non-empty stem, a dot and a non-empty extension with no dot or slash have that extension as their suffix. |
| Config.LoadConfigFile | minall/utils/parse_config.py:93-113 | `.json` is parsed as JSON, `.yml`/`.yaml` as YAML, and any other suffix raises OSError. |
| Config.LoadConfigFileByExtension | minall/utils/parse_config.py:106-113 | The extension alone decides the parser. |
| Config.Subscript | minall/utils/parse_config.py:55-58 | Subscripting succeeds exactly on a mapping holding the key. A mapping without it raises KeyError; anything else raises TypeError. |
| Config.YoutubeKeys | minall/utils/parse_config.py:58-62 | A list is kept as it is. A string is split on commas, and the pieces join back to it. Anything else has no `split`. |
| Config.FromConfig | minall/utils/parse_config.py:55-62 | Reading succeeds exactly when every section and field is present and the YouTube key is a list or a string. Each key is then the value found under its field. |
| Config.FromEnvironment | minall/utils/parse_config.py:64-71 | Tokens come from the environment. YOUTUBE_KEY unset or empty gives `[]`; otherwise it is split on commas. |
| Config.NewApiKeys | minall/utils/parse_config.py:50-71 | A truthy path or dict is parsed; otherwise the environment is read. |
| Config.EnvStringLines | minall/utils/parse_config.py:73-91 | When no value holds a line break, `env_string` splits into exactly four `NAME=value` lines in fixed order, followed by a final newline. |
| Config.ParseEnvVars | minall/utils.py:97-128 | `bz_only` is true exactly for `"True"`. Tokens are copied. A truthy rate limit must pass `int()` (else TypeError), and an absent one stays none. Truthy YOUTUBE_KEYS is split on commas; otherwise `[]`. |
| Config.EnvVarsRoundTrip | minall/utils.py:113-120 | A `.env` holding `str(n)` and comma-joined keys reads back as `n` and those keys. |
| PyText.Split | minall/utils.py:113-114 | A split has at least one piece and no piece contains the separator. |
| PyText.JoinSplit | minall/utils.py:113-114 | Joining the pieces of a split gives the text back. |
| PyText.SplitJoin | minall/utils.py:113-114 | Splitting a join of separator-free pieces gives the pieces back. |
| PyText.ParseFormat | minall/utils.py:116-120 | `int(str(n)) == n`. |
| PyDict.Put | minall/tables/links.py:161-162 | Assignment keeps an existing key's position and appends a new key. |
| PyDict.PutAllKeys | minall/tables/links.py:161-162 | Assigning pairs in order keeps the dict's keys first, then new keys in first-occurrence order. |
| PyDict.PutAllGet | minall/tables/links.py:161-162 | Each key ends with its last assigned value, else the value it had. |
| PyDict.UnionGet | minall/tables/links.py:161-162 | `a \| b` takes `b`'s value on `b`'s keys and `a`'s elsewhere. |
| PyDict.FromKeysGet | minall/tables/links.py:161 | Every key of `{k: v for k in ks}` maps to `v`, and no other key is present. |

## Left out

- Network collection is outside the model: the `minet` clients, CrowdTangle's `CTClient.__call__`, `get_youtube_data`, `get_buzzsumo_data`, `get_facebook_post_data`, the article scraper and the tweet scraper. Their results are inputs: a Buzzsumo article, a CrowdTangle post, a tweet, the YouTube results stored in a `ParsedLink`, and each step's output file in `Enrichment.Outputs`.
- `ural` and `minet` URL parsing (`get_domain_name`, `is_youtube_url`, `is_facebook_url`, `parse_youtube_url`, `post_id_from_url`, `parse_facebook_url`) are uninterpreted functions passed as parameters.
- Thread pools are not modelled. `executor.map` yields results in input order, so the model walks the URLs in order.
- Progress bars, logging, file opening and the context managers are not modelled.
- CSV quoting and delimiters are not modelled. A CSV file is a header and records already split into cells.
- SQLite type affinity and INTEGER coercion are not modelled: every cell is text or NULL. The foreign-key cascade of `post_url`, `read_csv_auto` type inference, and the SQL text other than the domain update are not modelled either.
- The DuckDB and SQLite `export` statements of `links_table.py` and `shared_content_table.py` (`COPY`) are file output. Only `BaseTable.export` is modelled.
- DuckTables.LinksInsert: the bare `KeyError` that `LinksTable.insert` raises for a file without a header is modelled as the NoHeaders error. Only the branch taken is distinguished; the exception type is not.
- TableCsv.UpdateFromCsvUpserts: header names are matched to table columns exactly. SQLite matches them ignoring ASCII case, so an update file with a header `Domain` is reported here as NoSuchColumns where SQLite updates `domain`.
- DuckTables.LinksInsert: header names are matched to table columns exactly, and a name repeated in the header is read last-wins. DuckDB resolves identifiers ignoring case and refuses a repeated insert column; neither is modelled.
- DuckTables.LinksInsert: the errors that arise while the statement runs (a ragged record, a NULL key, a repeated key) are reported in that fixed order. DuckDB reports whichever it meets first while reading the file.
- DuckTables.SharedInsert: the same fixed order of the run-time errors as for `LinksInsert`.
- DuckTables.LinksInsertKeyOnly: a key-only file that repeats a key loads here keeping the first row carrying it. Whether `ON CONFLICT DO NOTHING` accepts a key repeated within one statement depends on the DuckDB version, and the model does not decide it.
- Domains.Urls: a NULL `url` is dropped from the list here. `all_links` keeps it as `None`, and the domain pass then calls `ural` on `None`, which is outside this model.
- Domains.DomainPass: the pass runs the intended update, with both values escaped. The source pastes them unescaped: a link with a quote makes SQLite raise `OperationalError` or run a different statement. `DomainQuery.DomainPassAsWritten` models the statement text, and `DomainQuery.QuoteFreePass` proves the two passes agree on links without quotes.
- Domains.DomainStep: one link's update is the intended, escaped one. The statement as written can fail to parse or update other rows (`DomainQuery.StatementMisreads`).
- Domains.DomainPassRows: "no other row changes" is promised for the intended updates only. Under the statement as written, a crafted link such as `x' OR url = 'y` could also set row `y`'s domain.
- Domains.DomainPassSetsDomains: promised for the intended updates only, as for `DomainPassRows`.
- Enrichment.Run: a run uses `Domains.DomainPass`, the intended update, so it does not stop or misupdate on a link with a quote as the source does.
- `BaseTable.execute` and `select_from` are not modelled; they only wrap a statement in error logging.
- Clock- and date-dependent values are not modelled. `datetime.fromtimestamp` in `NormalizedTweet.from_payload` is a copied value here, and Buzzsumo's date window is absent.
- The `hashtags` list of a tweet is a single cell. How `csv` renders a Python list is not modelled.
- Config.Repr: Python's `repr` escapes quotes and backslashes in strings; here a string is put between single quotes as it is. Floats in a parsed configuration are not modelled.
- SqliteTables.SharedContentColumns: Python reports `list(diff)[0]` of a set, whose order is unspecified. The model reports `post_url` when both key columns are missing, and the contract only promises a missing key column.
- CrowdTangle.ParseRateLimit: `int()` is modelled for ASCII text (whitespace, a sign, digits with single underscores). Unicode digits are not modelled.
- The CLI and database setup (`parse_cli_args`, argparse, `.env` writing, connection opening) are not modelled.
- The older `buzzsumo/constants.py` and the other duplicate constants modules that nothing imports are not modelled.

## Findings

| source | as written | input that shows it | evidently intended | confidence | as-written member | corrected member |
|---|---|---|---|---|---|---|
| minall/enrichment/utils.py:57-61 | The domain and the URL are pasted between single quotes without escaping. | The link `https://example.fr/l'article`: the URL's literal ends at the apostrophe, and the statement is not the intended update. | Quotes doubled (or the values bound as parameters), so the row with that URL gets its domain. | not executed | DomainQuery.StatementMisreads | DomainQuery.EscapedRoundTrip |
| minall/enrichment/twitter/normalizer.py:43 | `NormalizedTweet` has a `twitter_like` field. The links writer `get_twitter_data` uses has only `LinksConstants.col_names` as field names, and `links` has no such column, so `writerow` raises `ValueError`. | Any first URL, even one whose tweet was not found: the default record still carries `twitter_like`. | The record is written without a field `links` does not declare (or `links` declares it). | not executed | Twitter.TwitterDataStops | Twitter.CorrectedTwitterDataWrites |
