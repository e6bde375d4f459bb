# kindle-anki-converter core, in Dafny

The converter reads the vocabulary database of an e-reader, cuts it into chunks,
looks each word up in the Oxford Dictionaries lexical service and writes Anki
decks. `main.py` is mostly input/output glue. This project models the
deterministic pieces inside it and proves what they guarantee.

- **Vocab** (`vocab.dfy`) holds the vocabulary record: three parallel columns,
  `stems`, `usages` and `langs`. `ReadVocab` is the row loop of `read_vocab`.
  It transposes the query's rows into the three columns. `RowsOf` reads a
  record back as rows and is its inverse.
- **Partition** (`partition.dfy`) is `split_vocab`. It checks that the columns
  are aligned, then emits `ceil(n / split)` contiguous chunks. Chunk `i` holds
  the entries `[i*split, min(n, (i+1)*split))` of every column. The model proves:
  - the number of chunks;
  - that every chunk is non-empty and no longer than `split`;
  - the size of the last chunk;
  - that concatenating the chunks in order gives back the record.

  The chunk count is computed on naturals, by the recursive `CeilDiv`. `Part`
  is built on the recursive `Start`. `StartIsProduct` and `PartStart` show that
  it slices from `i*split`, as `Emit` does.
- **Json** (`json.dfy`) is the decoded service response. `Member` models
  Python's `value[name]` and `Head` models `value[0]`. Both are partial and
  return `None` wherever Python raises.
- **Fetch** (`fetch.dfy`) covers `lang_code` and, from `fetch_definition`, the
  request it builds and the definition it extracts.
  - The service is a function parameter, `Service`, from request to response.
  - The operator who types a definition at the fallback prompt is a function
    parameter, `Operator`.
  - A language tag outside the code map fails with `UnsupportedLanguage`. This
    is the `KeyError` of `lang_code`, raised before any request and outside the
    `try`.
  - A missing or empty step of the definition path falls back to whatever the
    operator types.
- **Enrich** (`enrich.dfy`) is `populate_def`. The loaded chunk is a class
  `Entry` whose `definitions` field the method sets. `FetchAll` is the zipped
  fetch loop. Its ghost output `sent` records the requests, in order, and shows
  that none is sent after an unsupported tag. The credentials are a parameter,
  not read from the global configuration.
- **Config** (`config.dfy`) is `get_config`, with the stored configuration
  given as a value (`None` on a first run).
  - `Arguments` is `vars(parser.parse_args())`.
  - `MergeOverrides` is the loop that writes every non-`None` argument over the
    stored map.

One might expect only flags given explicitly to replace stored values, but the
parser never leaves `--clear`, `--skip` or `--lang` as `None`:
- the two switches are `store_true`, so an absent switch is `False`;
- `--lang` defaults to `"en-us"`.

So the merge at `main.py:49-51` always replaces these three. `GetConfig` states
exactly that. Only `app_id`, `app_key` and `vocab` keep their stored values when
absent.

## Model

| member | source | states |
|---|---|---|
| Vocab.ReadVocab | main.py:85-90 | the three columns are as long as the row list, entry `j` of each column is field 0, 1 or 2 of row `j` in row order, and reading the record back with `RowsOf` gives the rows again |
| Vocab.RowsOf | main.py:85-90 | an aligned record read back as rows has one row per entry |
| Vocab.RowsOfInjective | main.py:85-90 | two aligned records with the same rows are equal, so the transposition loses nothing |
| Partition.SplitVocab | main.py:117-131 | fails with the usages error exactly when the usages length differs from stems, and with the langs error exactly when usages match but langs do not. It succeeds exactly on aligned records. On success it yields `ceil(n/split)` chunks, chunk `i` is `Part(v, split, i)`, and the chunks concatenated in order are the record |
| Partition.Emit | main.py:124-128 | the loop body's slices `[i*split, min(n, (i+1)*split))` of the three columns are chunk `i` as `Part` defines it |
| Partition.Part | main.py:124-128 | chunk `i` is aligned, non-empty and at most `split` entries long |
| Partition.PartStart | main.py:125-127 | chunk `i` starts inside the record and is the slice `[i*split, min(n, (i+1)*split))` of every column |
| Partition.CeilDiv | main.py:121 | `math.ceil(n / split)` on naturals. By `CeilDivIsCeiling` it is the least `q` with `q*split >= n` |
| Partition.CeilDivIsCeiling | main.py:121 | the chunk count `q` is the ceiling of `n/split`: `q*split >= n`, and `(q-1)*split < n` when `q > 0`. It is zero exactly when the record is empty |
| Partition.StartIsProduct | main.py:125 | the start of chunk `i` is `i*split` |
| Partition.PartBounds | main.py:123-125 | every chunk index below the chunk count starts before `n`, and the next chunk starts `split` entries later |
| Partition.LastChunkLength | main.py:121-125 | the last of the `ceil(n/split)` chunks starts `n mod split` entries before the end, or `split` entries when `split` divides `n` |
| Partition.LastPartSize | main.py:121-128 | the last chunk has `n mod split` entries, or `split` when that is zero |
| Partition.SinglePart | main.py:121-128 | a non-empty record of at most `split` entries yields one chunk, equal to the record |
| Partition.Slice | main.py:125-127 | slicing every column of an aligned record keeps it aligned, with `hi - lo` entries |
| Partition.ConcatExtend | main.py:123-128 | appending chunk `i` after chunks `0..i-1` extends the covered prefix to where chunk `i` ends |
| Partition.FirstPartsAt | main.py:123-128 | after `i` iterations there are `i` chunks, and chunk `j` for each `j < i` is `Part(v, split, j)` |
| Partition.SliceEmpty | main.py:123 | before the loop nothing is covered |
| Partition.SliceWhole | main.py:123-128 | the prefix that ends at `n` is the whole record |
| Json.Member | main.py:110 | `j[name]` is defined exactly on objects that hold `name`, and gives that member |
| Json.Head | main.py:110 | `j[0]` is defined exactly on a non-empty list (giving its first item) or a non-empty string (giving its first character) |
| Json.FollowAppend | main.py:110 | following a chain of subscripts `p + q` is following `p`, then `q` from where `p` led |
| Fetch.LangCode | main.py:13-18 | `"en"` maps to `"en-us"` and `"de"` to `"de"`. Every other tag is undefined |
| Fetch.Lower | main.py:101 | lower-casing keeps the length and leaves no ASCII or Latin-1 capital. Every other character is kept, and each capital becomes the letter 32 code points above it |
| Fetch.LowerIdempotent | main.py:101 | lower-casing twice is lower-casing once |
| Fetch.Headers | main.py:138-141 | the `cred` dictionary: the two keys `app_id` and `app_key`, holding the credentials. `RequestUsesServiceCode` states that every request carries it |
| Fetch.RequestFor | main.py:100-102 | building the request fails exactly on a tag without a service code, with that tag as the error |
| Fetch.RequestUsesServiceCode | main.py:100-102 | the URL is the service base, the service code, `/` and the lower-cased word, and the headers are the credentials. `"en"` is requested as `en-us` |
| Fetch.RequestIgnoresCase | main.py:101 | words that differ only in letter case produce the same request |
| Fetch.FollowDig | main.py:110 | one key-then-index-0 step is a `Member`, then a `Head` |
| Fetch.ExtractDefinition | main.py:110 | the ten subscripts of the `try`. It is `None` exactly where one of them raises, and by `ExtractFollowsPath` it equals following `DefinitionPath` |
| Fetch.ExtractFollowsPath | main.py:110 | the extraction is the five key-then-index-0 steps `results`, `lexicalEntries`, `entries`, `senses`, `definitions`, in order |
| Fetch.ExtractFromWellFormed | main.py:110 | any response that holds the path, whatever other members and items it carries, yields the definition at its end |
| Fetch.ExtractFromMinimalResponse | main.py:110 | a response made only of one-member objects and one-item lists along the path yields its definition |
| Fetch.ExtractFromEmptyResults | main.py:110-111 | an empty `results` list yields no definition |
| Fetch.ExtractIgnoresLaterResults | main.py:110 | only the first result is consulted |
| Fetch.FetchDefinition | main.py:95-114 | the fetch fails exactly on a tag without a service code. Otherwise it returns the definition the extraction finds in the service's answer to the request, or the operator's text when the extraction fails. `ExtractFollowsPath` and `FetchReturnsServiceDefinition` restate this through `DefinitionPath` |
| Fetch.FetchReturnsServiceDefinition | main.py:102-110 | with any answer that holds the path, the fetch returns the definition at its end, whatever the operator would type |
| Fetch.FetchFallsBackToOperator | main.py:110-114 | with an answer that lacks the path, the fetch returns exactly what the operator types for that word and usage |
| Fetch.UnsupportedLanguageIgnoresService | main.py:100-101 | an unsupported tag fails the same way whatever the service and the operator would answer |
| Enrich.Entry.constructor | main.py:171 | a chunk loaded for `populate_def` holds the three columns it was read with and no definitions yet |
| Enrich.ZipLength | main.py:137 | zipping the columns yields as many triples as the shortest column holds |
| Enrich.AlignedZipLength | main.py:137 | on an aligned chunk the zip covers every entry |
| Enrich.FetchAll | main.py:136-142 | it succeeds exactly when every zipped tag has a service code. Then definition `j` is the fetch for entry `j`, one per triple. On failure the error names the first unsupported tag, and only the requests for the entries before it were built, in entry order |
| Enrich.PopulateDef | main.py:134-145 | the columns never change. On success the same chunk comes back, with its definitions stored, aligned with the zipped entries and equal to the fetch for each. On failure its definitions stay as they were and the error names the first unsupported tag |
| Config.Arguments | main.py:30-42 | the parsed arguments hold the six keys. The switches are their booleans, `lang` is the given tag or `"en-us"`, a given `app_id`, `app_key` or `vocab` holds its value, and only an absent one is `None` |
| Config.MergeOverrides | main.py:48-53 | the merged keys are the stored keys plus every non-`None` argument key. Every non-`None` argument holds its value, and every stored key whose argument is absent or `None` keeps its stored value |
| Config.GetConfig | main.py:21-58 | it fails exactly on a first run that lacks `app_id`, `app_key` or `vocab`. `clear`, `skip` and `lang` always come from the command line. `app_id`, `app_key` and `vocab` come from it when given, and stored values are kept otherwise |

## Left out

- The SQLite query (`main.py:67-82`) depends on a database engine. `ReadVocab` starts from its result rows. The optional row limit `n` is part of the query and is not modelled with it.
- The HTTP request and `.json()` decoding (`main.py:102`) are network input/output. They are the `Service` parameter. A transport or decoding error there is raised outside the `try` and would abort the fetch. The model has no such error: every service call yields a `Json` value.
- `input()` and `print` at the fallback prompt (`main.py:112-113`) are interactive input/output. They are the `Operator` parameter, which is given the word and its usage count.
- The YAML load and dump and the first-run file probe (`main.py:22-28`, `45-46`, `55-56`) are file input/output. `GetConfig` is given the stored map, or `None` on a first run. A stored file that cannot be parsed, or that does not hold a mapping, is not modelled.
- `argparse` itself (`main.py:30-42`) is a library. `CommandLine` is what it parsed, and the only parse failure modelled is a required argument missing on a first run.
- The `json.dump` of each chunk to `data/part{i}.json` (`main.py:130-131`) is file output. The model emits chunk `i` as element `i` of the result instead.
- `merge_csv` and the pandas CSV export (`main.py:148-153`, `175-176`) are file input/output. Their `os.listdir` order is platform-dependent.
- The `__main__` driver (`main.py:156-178`) only orchestrates the modelled pieces.
- Python `assert` statements (`main.py:119-120`) are modelled as failures. Running under `python -O` disables them, and that is not modelled.
- Partition.CeilDivIsCeiling: `math.ceil(n / split)` goes through a floating-point division. The model uses exact integer ceiling and does not model rounding for very large `n`.
- Partition.SplitVocab: requires `split > 0` (its default is 30, as in the source). With `split == 0` the source raises `ZeroDivisionError`, and a negative `split` is not modelled.
- Fetch.Lower: lower-cases ASCII and Latin-1 capitals only. Python's `str.lower` also maps capitals beyond Latin-1 (such as those of Latin Extended, Greek and Cyrillic) and can lengthen a string.
- Json.Json: JSON numbers are integers. Floating-point numbers in a response are not modelled.
- Enrich.PopulateDef: the chunk holds only its three columns and its definitions. Any other key of the loaded JSON object is not modelled.
- Concurrency: there is none in the source.
