# csv2db core, modelled in Dafny

csv2db reads CSV records from standard input and prints one MySQL
`insert` statement per record for a target table `db.tb`. It aligns the
fields of each record by position with the table's column list, which it
gets from a `desc` query. This project models the pure core of
`src/lib.rs`:

- **the column list** (`App::parse_statement`). Each `desc` row's
  rendered type is cut at its first `(` and stripped of `'` at both
  ends. Each rendered name has its `'` replaced by backticks. Modules:
  `Text`, `Schema`.
- **the type classifier** (`is_str`). Every type except exactly `int`
  and `double` is quoted. Module: `Classifier`.
- **the per-record formatter** (the inner closure of
  `App::import_from_stdin`). Names and values are accumulated with `,`
  between them, and values whose column type is quoted are wrapped in `'`.
  The result is `insert into db.tb (names) values(values);`. Module:
  `Formatter`.
- **the stream driver** (`App::import_from_stdin`). It optionally skips
  the first item of the reader's stream, then prints one line per stream item: the statement
  for a record, or the text of a reader error. A record with more fields
  than there are columns makes the process panic. That panic is modelled
  as `Run.panicked`, and the lines printed before it are kept. Module:
  `Driver`.
- **the configuration merge** (`cli`, with `Args::new`). The file's
  settings, or empty defaults when the file cannot be loaded, are
  overridden field by field by command-line options. The `skip-headers`
  flag switches header skipping on only when it occurs exactly once.
  Module: `Config`.

Supporting modules:

- `Results` holds `Option` and `Result`.
- `Scenarios` holds worked examples over a two-column `users` table.

The model follows the code as written, including where a reader might
expect otherwise:

- The statement keywords are lower-case (`insert into`, `values`).
- No space is written between `values` and `(`.
- Field text is inserted verbatim, with no escaping.
- The `(` branch of type normalisation slices from index 1, so it drops
  the first character of the rendered type. That character is the
  opening quote of an `as_sql` literal.
- A record shorter than the column list is accepted and names only the
  first columns. Only a longer record panics.
- The `desc` query names a fixed table rather than `db.tb`. The model
  takes the query's rows as input, so this does not affect it.

Text is modelled as sequences of characters. The source's `find` and
slicing work on UTF-8 byte offsets; on the `(` branch they give the same
substring as the model's character positions whenever the first character
is a single byte (see "## Left out").

## Model

| member | source | states |
|---|---|---|
| Text.Find | src/lib.rs:69-70 | `None` exactly when the character is absent; otherwise the index of its first occurrence |
| Text.FindFirst | src/lib.rs:70 | the position of a character with no earlier occurrence is what `find` returns |
| Text.TrimMatches | src/lib.rs:73 | the result is the input with its maximal leading and trailing runs of the character removed: a contiguous slice, bordered only by that character, and not starting or ending with it |
| Text.TrimKeepsAbsent | src/lib.rs:73 | trimming introduces no character that the input lacked |
| Text.TrimEmptyIffAll | src/lib.rs:73 | the trim is empty exactly when every character of the input is the trimmed one |
| Text.TrimUnique | src/lib.rs:73 | any slice meeting the trim characterisation equals the trim, so the characterisation determines it |
| Text.TrimFixpoint | src/lib.rs:73 | text that neither starts nor ends with the character is unchanged by trimming |
| Text.TrimIdempotent | src/lib.rs:73 | trimming twice equals trimming once |
| Text.Replace | src/lib.rs:74 | same length; each position holds the replacement where the input had the replaced character and the input's character elsewhere |
| Text.JoinSnoc | src/lib.rs:99-102 | joining one more piece appends the separator and that piece |
| Text.JoinStep | src/lib.rs:99-102 | an accumulator holding the joined prefix plus a trailing separator becomes the join of one more piece when the piece is appended |
| Text.JoinPrefixStep | src/lib.rs:89-103 | one iteration of the accumulate-then-comma-unless-last loop keeps the accumulator equal to the join of the pieces seen so far, with a separator after it except after the last piece |
| Text.Split | src/lib.rs:99-102 | splitting at the separator yields at least one piece, none containing the separator, which join back to the input |
| Text.SplitJoin | src/lib.rs:99-102 | separator-free pieces, joined, split back into exactly those pieces |
| Schema.TypePrefix | src/lib.rs:68-72 | the part kept before trimming never contains `(` |
| Schema.NormalizeType | src/lib.rs:67-73 | a normalised type contains no `(` and neither starts nor ends with `'` |
| Schema.NormalizeTypeWithParen | src/lib.rs:69-73 | with the first `(` at index `p`, the type is the trim of the characters from index 1 up to `p` |
| Schema.NormalizeTypeWithoutParen | src/lib.rs:69-73 | without `(`, the type is the whole rendered text trimmed of `'` |
| Schema.NormalizeTypeIdempotent | src/lib.rs:67-73 | normalising a normalised type is allowed and changes nothing |
| Schema.NormalizeTypeUnquotes | src/lib.rs:67-73 | normalisation inverts `as_sql` quoting: both `'base'` and `'base(args)'` give back `base` |
| Schema.UnquotePlain | src/lib.rs:67-73 | `'base'` normalises to `base` |
| Schema.UnquoteSized | src/lib.rs:67-73 | `'base(args)'` normalises to `base` |
| Schema.NormalizeName | src/lib.rs:74 | same length and no `'` left; each `'` became a backtick and every other character is kept |
| Schema.NormalizeNameUnquotes | src/lib.rs:66-74 | a quoted name comes out between backticks, otherwise unchanged |
| Schema.NormalizeColumnUnquotes | src/lib.rs:65-76 | a `desc` row rendered with quotes normalises to the backticked name and the base type |
| Schema.NormalizeColumn | src/lib.rs:65-76 | the closure on one `desc` row: the name keeps its length and has no `'` left; the type has no `(` and neither starts nor ends with `'` |
| Schema.MapCollect | src/lib.rs:65-76 | the collected list has one element per input, each the closure applied to the input at the same position |
| Schema.ParseStatement | src/lib.rs:61-78 | one column per `desc` row, in row order, each the row's normalised name and type |
| Classifier.IsStr | src/lib.rs:114-120 | a type is left unquoted exactly when it is `int` or `double` |
| Classifier.IsStrOtherNames | src/lib.rs:114-120 | the match is exact and case-sensitive: the empty type, `INT`, `Double`, `varchar` and `bigint` are quoted |
| Formatter.NamesOf | src/lib.rs:90-91 | the names in column order, one per column |
| Formatter.LiteralsOf | src/lib.rs:92-98 | one literal per field: the field between `'` when its column's type is quoted, the field verbatim otherwise |
| Formatter.StatementLayout | src/lib.rs:105 | the statement text `Formatter.Statement` builds opens with `insert into db.tb (`, carries the names part right after it, ends with `);`, and is 26 characters longer than its four parts together |
| Formatter.RecordStatement | src/lib.rs:87-105 | an empty record yields `insert into db.tb () values();` |
| Formatter.FormatRecord | src/lib.rs:87-105 | the loop's output is the statement whose names part joins the first `\|rec\|` column names with `,` and whose values part joins the literals with `,` |
| Formatter.PartsSplitBack | src/lib.rs:87-105 | when no name or field contains `,`, each part of the statement splits back at `,` into the names and the literals it was built from |
| Driver.Skip | src/lib.rs:83-84 | skipping `n` items leaves the items from position `n` on, or nothing when there are fewer |
| Driver.Emit | src/lib.rs:84-110 | a run prints at most one line per item; a panicked run stops at an item that does not fit; a run that does not panic prints one line per item |
| Driver.EmitLines | src/lib.rs:84-110 | each printed line is the line of the item at the same position, and that item fits |
| Driver.EmitSnoc | src/lib.rs:84-110 | after a prefix that did not panic, one more item that fits appends exactly its line, and one that does not fit ends the run, panicked, with the prefix's lines |
| Driver.EmitStops | src/lib.rs:84-110 | the run ends, panicked, at the first item that does not fit, with the lines of the items before it |
| Driver.EmitAt | src/lib.rs:84-110 | from any position, an item that does not fit prints nothing and panics; one that fits prints its line and then the rest |
| Driver.EmitCons | src/lib.rs:84-110 | a first item that fits prints its line ahead of the rest of the stream |
| Driver.EmitAppend | src/lib.rs:84-110 | a stream that is a concatenation prints its parts in turn when the first part does not panic |
| Driver.ErrorDoesNotStop | src/lib.rs:108 | a reader error prints its text, and the items after it are handled as if it were absent |
| Driver.Output | src/lib.rs:83-110 | the first item is dropped exactly when header skipping is on; each later item yields one line in order, a statement or the error text; the run panics exactly when some later record is longer than the column list; without a panic the line count is the number of items after the skip; with a panic the lines are those of every item before the over-long record, which is the next item |
| Driver.HeaderSkipLaw | src/lib.rs:83-84 | with skipping on, the output equals the output with skipping off on the stream without its first item |
| Driver.LineOfItem | src/lib.rs:85-108 | the line `Driver.Line` gives an item: a reader error prints exactly its own text; a record prints a statement that opens with `insert into db.tb (` and ends with `);` |
| Driver.HandleItem | src/lib.rs:85-108 | an item is handled exactly when it fits, and then yields its line |
| Driver.ImportFromStdin | src/lib.rs:80-111 | the skip-and-loop driver prints exactly the lines of `Output` and panics exactly when `Output` does |
| Config.Base | src/lib.rs:136-139 | a failed load starts from the empty defaults of `Args::new` (src/lib.rs:27-37), a successful one from the loaded settings |
| Config.Cli | src/lib.rs:136-164 | each string setting is the command-line value when one is given, otherwise the loaded or default one; header skipping is on exactly when it was loaded on or the flag occurred exactly once |
| Config.CliWithoutOverrides | src/lib.rs:136-164 | with no options the result is the loaded settings, or the empty defaults when loading failed |
| Config.CliOverridesWin | src/lib.rs:141-162 | with every option given and the flag given once, the configuration file has no influence |
| Config.CliSkipHeaders | src/lib.rs:160-162 | the merge never turns header skipping off, and the flag given other than once leaves it as loaded |
| Config.CliIdempotent | src/lib.rs:141-162 | applying the same command line to an already merged configuration changes nothing |
| Scenarios.UsersLiterals | src/lib.rs:92-98 | for columns `id int, name varchar`, the id is verbatim and the name is quoted |
| Scenarios.UsersNames | src/lib.rs:90-102 | the names part for a two-field record is `id,name` |
| Scenarios.UsersStatement | src/lib.rs:87-105 | the record `[id, name]` gives `insert into test.users (id,name) values(id,'name');` |
| Scenarios.UsersShortRecord | src/lib.rs:87-105 | a one-field record names only the first column |
| Scenarios.UsersBody | src/lib.rs:84-110 | record, error, record: two statements with the error text between them, no panic |
| Scenarios.UsersOverlong | src/lib.rs:84-110 | a three-field record after a good one stops the run: the first statement is printed, then the panic, and nothing after it |
| Scenarios.UsersRun | src/lib.rs:83-110 | with header skipping on, the first item of the stream (here Alice's record, the first data record) is dropped, and the later records and the error print in order |

## Left out

- Database connection and pool (`App::from_args`, src/lib.rs:46-59): I/O. The URL it formats is not used by the modelled core.
- The `desc` query and `as_sql` rendering of its cells (src/lib.rs:62-66): foreign calls. The model starts from the rendered name and type text (`Schema.DescRow`).
- CSV tokenisation, and the reader's own default treatment of the first line as a header: `csv::Reader` is a foreign library. The model starts from the stream of record-or-error items the reader yields. An error item is modelled by the text it displays as. Because `csv::Reader::from_reader` (src/lib.rs:82) keeps the crate's default of reading the first line as a header, that line never appears in the stream. So with `skip_headers` on, `.skip(1)` (src/lib.rs:84) drops the first data record, not the header. `Scenarios.UsersRun` shows this on a concrete stream.
- Loading `config.toml` and parsing the command line with clap (src/lib.rs:122-134): I/O and foreign calls. Their results are the parameters of `Config.Cli`: `Result<Args>` for the load and `Overrides` for the options.
- `println!` (src/lib.rs:106, 108): the printed lines are returned as a sequence.
- `src/main.rs`: the entry point that wires these together is not part of this model.
- Schema.NormalizeType: positions are character positions, not UTF-8 byte offsets. `find` returns the byte offset where the first `(` starts, which is always a character boundary, so `s[1..end]` panics only when the first character of the rendered type takes more than one byte. In every other case the byte slice is the model's character slice. The model does not represent that panic. Text rendered by `as_sql` always starts with `'`, so it cannot arise from the rendered `desc` rows.
- Schema.TypePrefix: its `requires` excludes a rendered type whose first `(` is at index 0. There `s[1..0]` panics in the source.
- Driver.HandleItem: the panic on an over-long record is detected before the record is formatted. The source panics while formatting, at the first field without a column. Nothing is printed for that record in either case, so the printed output is the same.
