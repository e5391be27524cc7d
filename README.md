# SEC Form-4 miner: a verified model of the ingestion pipeline

This project models the ingestion pipeline of a miner for SEC Form-4 filings, which report
insider transactions. It covers five parts.

- **Crawl cursor** (module `Miner`). A `Miner` holds `mine_date`. One `Run` does one of the following:
  - waits when `mine_date` is after today;
  - reuses the day's JSON checkpoint when one exists and can be read;
  - otherwise fetches the EDGAR daily index in sub-batches of `batch` entries.

  It then saves the filings to the checkpoint file and to the database, and advances
  `mine_date` by one calendar day.
- **Fetch helpers** (module `SecGov`):
  - the index and document URLs;
  - the `Content-Encoding` dispatch of the body decoder;
  - the skip/take window that `process_entries` walks;
  - the dead-letter line written for an entry that failed.
- **Ownership-XML extractor** (modules `FilingDoc` and `AtomFilings`):
  - `extract_xml` cuts out the window from the XML declaration to the last
    `</ownershipDocument>` and rewrites the bare root tag;
  - path traversal over the element tree;
  - the relationship flags;
  - the accession number and the web URL;
  - one record per `nonDerivativeTransaction`.
- **Row mapping** (modules `InsertModels` and `QueryModels`):
  - the owner's name split into last and first name;
  - the field-copying mappers;
  - the relationship list, stored as comma-joined codes and parsed back.
- **Cache-assisted upsert** (module `Database`):
  - `SqlHelper` keeps three key→id caches in front of an abstract `Store` of rows;
  - `CreateIssuer`, `CreateIndividual` and `CreateForm` return a cached id, or cache and return a stored id, or insert a row and report `Err`;
  - `InsertNonDeriv` returns an existing row or inserts one and queries it back.

Supporting modules:
- `Wrappers`: `Option` and `Outcome`. In `Outcome`, `Err` is an error returned to the caller and `Panic` is a Rust panic.
- `Strings`: `trim`, ASCII upper-casing, `split`/`join` and `replace`.
- `Numbers`: decimal display, `i32` parsing and the float-literal grammar.
- `Calendar`: proleptic Gregorian dates, the successor day, `%Y-%m-%d` and `%Y%m%d`.
- `Models`: the records.
- `Seqs`: sequence regrouping lemmas.

The network, the XML text parser, the gzip/deflate decoders, the quarter function and the
index-entry extractor are inputs: functions in an `Env` value or plain parameters.
Concurrent work is modelled as sequential.

## Model

| member | source | states |
|---|---|---|
| AtomFilings.NewNode | src/secgov/parser/atomfilings.rs:14-21 | A node's text is trimmed and upper-cased. It comes from the `value` child when there is one, otherwise from the element itself. |
| AtomFilings.ValueChildWins | src/secgov/parser/atomfilings.rs:16-18 | When a `value` child exists, the element's own text has no influence on the node. |
| AtomFilings.NormalizeIsNormalized | src/secgov/parser/atomfilings.rs:15 | Trim-then-upper-case yields a normalised text. It leaves an already normalised text alone and is idempotent. |
| AtomFilings.ParseNum | src/secgov/parser/atomfilings.rs:23-25 | Text that is not a float literal, and the empty text, read as 0. A run of digits reads as its decimal value. |
| AtomFilings.NodeDate | src/secgov/parser/atomfilings.rs:27-29 | The date parses exactly when the text is a valid `%Y-%m-%d` date of a year chrono's `NaiveDate` holds (-262144 to 262143), and otherwise panics. It never returns an error value. |
| AtomFilings.NodeDateOfIsoText | src/secgov/parser/atomfilings.rs:27-29 | A valid date written as `%Y-%m-%d` parses back to itself iff its year is in chrono's range. A year outside it panics. |
| Calendar.ParseDate | src/secgov/parser/atomfilings.rs:28 | A parsed date is a valid calendar date whose year is in chrono's range -262144 to 262143. |
| Calendar.ParseIsoText | src/secgov/parser/atomfilings.rs:28 | For every valid date, parsing its `%Y-%m-%d` text, negative and five-digit years included, returns the date iff its year is within chrono's range, and `None` otherwise. |
| AtomFilings.Traverse | src/secgov/parser/atomfilings.rs:78-99 | The loop's result is the path lookup: the first child with each name in turn, the last node wrapped as an `XmlNode`. The empty path gives `None`. |
| AtomFilings.LookupNone | src/secgov/parser/atomfilings.rs:78-99 | A lookup fails exactly when the path is empty or some step finds no child with that name. |
| AtomFilings.FirstMissing | src/secgov/parser/atomfilings.rs:84-95 | A failed descent yields the index of the step at which the name was missing. |
| AtomFilings.Relationships | src/secgov/parser/atomfilings.rs:56-76 | A flag is in the list iff its node exists with text "1". The list follows DIRECTOR, OFFICER, TENPERC, OTHER order, has no duplicates and at most 4 items. |
| AtomFilings.GetRelationship | src/secgov/parser/atomfilings.rs:56-76 | The pushing method produces exactly `Relationships`. |
| AtomFilings.FlagsFromKeeps | src/secgov/parser/atomfilings.rs:58-74 | Filtering a rank-ordered flag list keeps exactly the set flags, in order. |
| AtomFilings.AccessNum | src/secgov/parser/atomfilings.rs:47-54 | The result is the leftmost 20-character `DDDDDDDDDD-DD-DDDDDD` substring of the URL. It panics iff there is none. |
| AtomFilings.DashesRemoved | src/secgov/parser/atomfilings.rs:43 | Removing the dashes from an accession number leaves its 18 digits. |
| AtomFilings.BareDigitsRoundTrip | src/secgov/parser/atomfilings.rs:43 | Putting the dashes back at positions 10 and 12 restores the accession number. |
| AtomFilings.WebUrl | src/secgov/parser/atomfilings.rs:42-45 | The index page is `https://www.sec.gov/Archives/edgar/data/{owner_cik}/{digits}/{access_no}-index.html`. It panics exactly when the accession number does. |
| AtomFilings.ReadHeader | src/secgov/parser/atomfilings.rs:103-114 | The document-level fields: the accession number, the web URL, the relationships and a valid form date. It panics when the URL has no accession number. |
| AtomFilings.ReadRecord | src/secgov/parser/atomfilings.rs:126-146 | A record read from a transaction node carries every header field, its URL and `amount = shares_traded * avg_price`. |
| AtomFilings.ExtractTransactions | src/secgov/parser/atomfilings.rs:101-156 | The looping method returns exactly the specification `Extraction`. |
| AtomFilings.ExtractionErr | src/secgov/parser/atomfilings.rs:116-154 | Extraction returns `Err` iff the document parses, its header reads, and `nonDerivativeTable/nonDerivativeTransaction` is absent. |
| AtomFilings.ExtractionRecords | src/secgov/parser/atomfilings.rs:121-151 | On success there is one record per `nonDerivativeTransaction` child of the first table, in document order. Each carries the URL, the accession number, the relationships, the web URL and the amount product. |
| AtomFilings.ReadRecordsOnePerChild | src/secgov/parser/atomfilings.rs:121-150 | The loop succeeds iff every transaction child reads. Record k is then the reading of child k, and other children are skipped. |
| AtomFilings.ReadRecordsShareHeader | src/secgov/parser/atomfilings.rs:126-146 | Every record emitted carries the same header. |
| FilingDoc.ExtractXmlPanics | src/secgov/parser/mod.rs:26-37 | `extract_xml` panics iff the input has no `<?xml version="1.0"?>` followed later by `</ownershipDocument>`. |
| FilingDoc.ExtractXmlWindow | src/secgov/parser/mod.rs:26-40 | The window starts at the leftmost declaration and ends at the last closing tag after it. The output is that window with the root tag rewritten. |
| FilingDoc.ExtractXmlNoBareTag | src/secgov/parser/mod.rs:39-40 | The output contains no bare `<ownershipDocument>`. |
| FilingDoc.ExtractXmlShape | src/secgov/parser/mod.rs:26-40 | The output is the declaration, a rewritten middle and the closing tag. |
| FilingDoc.ExtractXmlIdempotent | src/secgov/parser/mod.rs:16-20 | Applying `extract_xml` to its own output returns that output unchanged. |
| FilingDoc.NewFilingDoc | src/secgov/parser/mod.rs:14-23 | A document without the window panics with the regex's `expect` message. |
| FilingDoc.NewFilingDocExtractsOnce | src/secgov/parser/mod.rs:14-23 | `FilingDoc::new` returns exactly the extraction from one rewritten window, despite applying the rewrite twice. |
| Strings.Split | src/database/insert_models.rs:30 | Splitting on one character yields count+1 pieces, none containing it, that join back to the input. |
| Strings.SplitJoin | src/database/query_models.rs:97 | Splitting a join of comma-free pieces on the comma recovers the pieces. |
| Strings.ReplaceLeavesNoPattern | src/secgov/parser/mod.rs:39-40 | When pattern and replacement each hold a marker character only at their head, and the replacement does not begin with the pattern, `replace` leaves no occurrence of the pattern. |
| Strings.Trim | src/database/query_models.rs:98 | Trimming yields a trimmed text and leaves a trimmed one alone. The result is the contiguous slice of the input between a whitespace-only prefix and a whitespace-only suffix. |
| Strings.ToUpper | src/secgov/parser/atomfilings.rs:15 | Upper-casing keeps the length. Each lower-case ASCII letter becomes its capital 32 code points lower, and every other character stays as it is. |
| InsertModels.MapIssuer | src/database/insert_models.rs:12-18 | The issuer row takes the filing's company name, ticker symbol and company CIK. |
| InsertModels.MapForm | src/database/insert_models.rs:65-74 | The form row takes the given issuer id, the form date as date reported, and the filing's form type, text URL, web URL and accession number. |
| InsertModels.MapIndividual | src/database/insert_models.rs:29-52 | The name has split parts iff it contains `' '`; the last name has no space, and last + " " + first is the full name. Otherwise both are `None`. The full name and CIK are copied. |
| InsertModels.MapTransaction | src/database/insert_models.rs:93-112 | The relationships map to codes, keeping length and order. The form, issuer and individual ids are the ones passed in. Trans date becomes date reported, shares owned the balance, and the three codes are wrapped in `Some`. Shares traded, average price and amount are copied, so the amount product carries over. |
| InsertModels.OneFilingOneIssuerOneForm | src/database/insert_models.rs:12-74 | All transactions of one filing map to the same issuer, individual and form rows, and the form row gets the filing's URL and accession number. |
| InsertModels.TransactionRowAmount | src/database/insert_models.rs:93-112 | Every row built from an extracted transaction has `amount = shares_traded * avg_price`. |
| QueryModels.FromRow | src/database/query_models.rs:89-116 | Each column is read into its field, the three codes are wrapped in `Some`, and the relationship text is parsed into codes. |
| QueryModels.ParseCodes | src/database/query_models.rs:94-99 | The parsed list has at most `commas + 1` codes. |
| QueryModels.ParseCodesText | src/database/query_models.rs:94-99 | Parsing the comma-join of the decimal displays of any `i32` list returns that list. The join is the writer's, at src/database/mod.rs:153. |
| QueryModels.ParseEmpty | src/database/query_models.rs:96-99 | The empty column parses to the empty list. |
| QueryModels.ParseSpaced | src/database/query_models.rs:98 | Spaces around the codes are tolerated: `" d1, d2"` parses to the two digits. |
| QueryModels.KeepCodesAppend | src/database/query_models.rs:97-99 | Pieces are read independently and in order, and rejected pieces are dropped. |
| QueryModels.ParseOnePiece | src/database/query_models.rs:97-98 | Comma-free text is one trimmed piece. |
| Numbers.ParseI32OfDisplay | src/database/query_models.rs:98 | `parse::<i32>` inverts `to_string` on every `i32`. |
| Database.SqlHelper.CreateIssuer | src/database/mod.rs:56-81 | A cached CIK returns its id, leaving cache and store unchanged. A stored CIK caches and returns its id. Otherwise one row is appended, the cache is unchanged, the result is `Err`, and the store then finds the new id. Caches only grow, and the other tables stay unchanged. |
| Database.SqlHelper.CreateIndividual | src/database/mod.rs:83-108 | As for the issuer, keyed by the owner's CIK. A missing name part is stored as the empty string. |
| Database.SqlHelper.CreateForm | src/database/mod.rs:110-135 | As for the issuer, keyed by the accession number. The row carries the given issuer id and the filing's URLs and date. |
| Database.SqlHelper.InsertNonDeriv | src/database/mod.rs:137-170 | A row with the same (form id, date, shares balance) is returned without inserting; when several share that key, the first is returned. Otherwise one row is appended and read back with the written codes. The key is then present, so a repeated call inserts nothing, and no cache is touched. The new tables are `WithTransaction` of the old. |
| Database.ReadBackRow | src/database/mod.rs:153-165 | Reading back a row written from a new transaction returns every column as written, including the relationship codes in order. |
| Database.WithIssuer | src/database/mod.rs:56-81 | After `create_issuer` the issuer's CIK is stored. The tables only grow, and the other three are unchanged. `CreateIssuer` ends in exactly these tables. |
| Database.WithIndividual | src/database/mod.rs:83-108 | As for the issuer, for the owner's CIK. |
| Database.WithForm | src/database/mod.rs:110-135 | As for the issuer, for the accession number. |
| Database.WithTransaction | src/database/mod.rs:137-170 | Afterwards the transaction's key is stored; only the transaction table grows. |
| Database.StoredExtends | src/database/mod.rs:56-170 | Since rows are only ever appended, an id or row found for a key stays the same as the tables grow. |
| SecGov.GetForm | src/secgov/mod.rs:22-37 | A failed fetch of the document URL is returned as the same `Err`, which is what later gets the entry a dead letter. A panic passes through unchanged. Otherwise the result is `FilingDoc::new` on the URL and the body. |
| SecGov.FormUrlPath | src/secgov/mod.rs:19-23 | A document URL is the archive base followed by the entry's file path. Distinct paths give distinct URLs. |
| SecGov.IndexUrl | src/secgov/mod.rs:86-91 | The index URL is the daily-index base, then the year, `/` and the quarter, then the literal file name `/master.20250213.idx`. |
| SecGov.IndexUrlIgnoresDay | src/secgov/mod.rs:86-91 | Two days of the same year and quarter share one index URL. |
| SecGov.BodyDecoder | src/secgov/mod.rs:113-133 | "gzip" and "deflate" dispatch to their decoders, whose errors propagate. Any other encoding, or none, returns the body unchanged. |
| SecGov.DailyEntries | src/secgov/mod.rs:85-111 | A failed request panics. Otherwise the body is decoded by its encoding: a decoder error is returned as `Err`, a decoder panic propagates, and a decoded body gives exactly the extracted index entries. |
| SecGov.WindowEntries | src/secgov/mod.rs:62-66 | The window is `entries[skip .. min(skip + take, len)]`, in order. |
| SecGov.WindowsTile | src/secgov/mod.rs:62-66 | Adjacent windows concatenate into one window. |
| SecGov.DeadLettersName | src/secgov/mod.rs:39-60 | There is one dead-letter line `Failed to proccess entry: <path>` per failing entry, in order. |
| SecGov.FetchedAppend | src/secgov/mod.rs:62-83 | Fetched filings and dead letters of two runs of entries concatenate. |
| SecGov.ProcessEntries | src/secgov/mod.rs:62-83 | Always returns `Ok`. It appends the filings of exactly the window's entries and one dead letter per failing entry, and writes no checkpoint. |
| Miner.FilePathTail | src/miner/mod.rs:36-45 | For years 0 to 9999, a checkpoint path ends with the day's eight-character `%Y%m%d` followed by the literal `-filing.json`. |
| Miner.FilePathsDistinct | src/miner/mod.rs:36-45 | For years 0 to 9999, two days share a checkpoint path iff they are equal. The path starts with the day's `filings/{year}/{MM}/` directory. |
| Miner.ResolveParties | src/miner/mod.rs:77-78 | Both issuer and individual are resolved, whether or not the issuer failed. Each succeeds iff that party was already stored, and returns its stored id. Both rows are created when missing. |
| Miner.SaveOne | src/miner/mod.rs:77-104 | One transaction's effect on the store. Both parties are stored afterwards and the tables only grow. When a party was missing, no form or transaction is written. When both were stored, the form is stored afterwards. When the form was also stored, the transaction is inserted under its key. |
| Miner.SaveAll | src/miner/mod.rs:57-114 | Saving a sequence of filings, one after another, only grows the tables. |
| Miner.SaveTransaction | src/miner/mod.rs:77-104 | The store ends as `SaveOne` says. The answer is true iff both parties were stored beforehand. The caches only grow. |
| Miner.SaveFilingsDb | src/miner/mod.rs:57-114 | The store ends as `SaveAll` of the filings. Every old row is kept, and both parties of every filing are stored afterwards. The counter ends at `filings.len()`. Line k is "insert k+1/total" iff both parties of transaction k were stored when its turn came, and "failed insert k+1/total" otherwise. |
| Miner.SaveNext | src/miner/mod.rs:74-111 | One turn of the loop saves one more filing and prints its progress line. |
| Miner.SaveAllStoresParties | src/miner/mod.rs:77-78 | After saving, both parties of every saved transaction are stored. |
| Miner.SaveAllStoresForms | src/miner/mod.rs:80-91 | When every party is already stored, saving stores the form of every transaction. |
| Miner.SaveAllStoresTransactions | src/miner/mod.rs:89-100 | When every party and form is already stored, saving inserts every transaction under its form's id. |
| Miner.ThreePassesStoreAll | src/miner/mod.rs:57-114 | Saving the same filings three times behaves as follows: <br>• the first pass stores every party; <br>• the second pass prints "insert" for every transaction and stores every form; <br>• the third pass stores every transaction. |
| Miner.BatchedPrefix | src/miner/mod.rs:161-171 | The fetched entries are the first `len - len % batch` of the index. The last `len % batch` are never fetched. |
| Miner.FetchBatches | src/miner/mod.rs:161-171 | The `len / batch` sub-batches with `skip = i * batch` fetch exactly that prefix, in order, with its dead letters. |
| Miner.Miner.IncrementDay | src/miner/mod.rs:32-34 | The cursor moves to the next calendar day. |
| Calendar.SuccIsNext | src/miner/mod.rs:32-34 | No valid day lies strictly between a day and its successor. |
| Miner.Miner.SaveFilingsJson | src/miner/mod.rs:47-55 | The day's checkpoint path now holds exactly the filings, and nothing else changes. |
| Miner.Miner.MineIndex | src/miner/mod.rs:159-179 | A non-empty index is fetched in sub-batches and saved under the day's path, dead letters are appended, the store ends as `SaveAll` of the fetched filings, and the cursor advances one day. |
| Miner.Miner.ReuseCheckpoint | src/miner/mod.rs:140-147 | A readable checkpoint's filings are saved again, leaving the store as `SaveAll` of them, and the cursor advances one day. |
| Miner.Miner.MineDay | src/miner/mod.rs:151-179 | Without a checkpoint, the day's index decides: <br>• a failed fetch panics; <br>• an empty index advances the day and writes nothing; <br>• batch 0 divides by zero; <br>• otherwise the batched prefix is fetched, checkpointed and saved. <br>Only the last path writes to the store. The panic paths leave the checkpoints and the dead-letter file as they were. |
| Miner.Miner.Run | src/miner/mod.rs:116-180 | The possible outcomes are: <br>• batch > 10 panics; <br>• it waits, with state unchanged, iff mine_date is after today; <br>• a readable checkpoint is reused without fetching; <br>• an unreadable or missing one leads to the index: a failed fetch panics, an empty index saves nothing, batch 0 divides by zero, otherwise the batched prefix is saved. <br>Every completed path other than waiting advances the cursor by exactly one day. The store ends as `SaveAll` of the reused or mined filings, and is unchanged on every other path. No panic path touches the checkpoints or the dead-letter file. |

## Left out

- Network I/O. `get_form`, the request in `get_daily_entries` and the decoders are functions of an `Env` parameter. `get_connection`, its credentials and its error are not part of this model: the store is a `Store` object that is always reachable.
- SQL text and quoting, and the `tiberius` row decoding other than the relationship parser. The store is sequences of rows, and ids are unbounded integers numbered from 1, with no identity overflow. The relationship column holds the comma-joined text the writer produces.
- Concurrency. In the source, `tokio::spawn` in `process_entries` is fire-and-forget, so a spawned task can still be appending after `run` reads the buffer, and a task that panics leaves no line. Here every task completes first. `for_each_concurrent` in `save_filings_db` runs in order.
- The task's own panic (an entry whose fetch or parse panics) is modelled as skipping the entry with no dead letter. An entry that fails with `Err` gets one.
- Floating point. Numbers are exact `real`s, so `f32` rounding, infinities, NaN and `BigDecimal::from_f32` are left out. `parse_num` follows the Rust float-literal grammar without `inf`/`nan`.
- Unicode case mapping. `to_uppercase` is modelled on ASCII letters only. `trim` uses the full Unicode `White_Space` set, as Rust does.
- minidom's text-to-tree parser is a parameter (`parse`), and namespaces are ignored because every lookup uses `NSChoice::Any`. serde_json checkpoint encoding is left out: a checkpoint file is `Some(filings)` or `None` for one that does not deserialise.
- `get_quarter` and `extract_index_entries` are parameters, since `src/secgov/parser/index.rs` is not part of this model. The `Relationship` discriminants are a parameter `codes`, since `src/secgov/models.rs` is not part of this model.
- The clock, the timezone and the sleeps. "Today" is a parameter of `Run`. `yesterday` subtracts zero days, so its value is today, and that is what `Run` compares with.
- `src/main.rs`, the command-line loop around `run`.
- Every filesystem operation is taken to succeed, and so is every `Url::parse` `expect`. This covers creating the directory and writing the checkpoint. It also covers `save_failed` opening and appending to `filings/failed.txt` (src/secgov/mod.rs:42-51), whose error is only printed. And it covers `File::open(&path).unwrap()` on an existing checkpoint in `run` (src/miner/mod.rs:136).
- Console output other than the progress lines of `save_filings_db`.
- Miner.Miner.IncrementDay: does not model chrono's panic past its largest date, because `Succ` is defined for every year.
- Miner.FilePathsDistinct: stated for years 0 to 9999 only. Outside that range `%Y` is not four digits and `%Y%m%d` can be ambiguous.
- Where the code and its description differ, the model follows the code:
  - on a miss, `create_issuer`, `create_individual` and `create_form` insert a row and then return `Err` rather than the new id;
  - the fetch loop runs `len / batch` times, so 25 entries with batch 10 fetch two sub-batches;
  - the index file name is the literal `master.20250213.idx`.
