# apollo_script_master: SQL minification, checksum dispatch, connection URL and lock-table seeding

apollo_script_master deploys SQL scripts to a PostgreSQL database through SQLAlchemy. This
project models `SQL.minify`, the `minify_sql` and `hash_file_collection` functions,
`url_manager`, and `ASMImpl._populate_lock_table` and `ASMImpl.run`, and proves what they
guarantee:

- **`SQL.minify`** (`_asm/sql.py`): one regular-expression substitution (`REGEX_MAP`) followed by
  `strip()`. Module `Sql` writes the substitution as a left-to-right scanner. At each position it
  skips horizontal whitespace and then matches one of three things:
  - a `--` comment, which runs to the end of the whole input;
  - a closed `/* … */` comment, with the horizontal whitespace after it;
  - a lone `/` up to the next newline.

  Every match becomes one space.
- **`minify_sql` of `_asm/files.py`**: delegates to `SQL.minify` (module `Files`).
- **`minify_sql` of `_asm/file_management.py`**: the older normaliser. Module `FileManagement`
  models its loop as a `method` over the statement chunks, with four passes per chunk, then a join
  and a strip. The loop is proved against a specification function `Minified`.
- **`hash_file_collection`**: the same text in both files. Module `Checksum` models it as an exact,
  case-sensitive dispatch on the algorithm name. For a supported name it yields the lowercase hex
  digest of the UTF-8 bytes (module `Utf8`); otherwise it raises `ValueError`.
- **`url_manager`** (`_asm/orm.py`): formats the connection URL, with defaults, for the one
  supported driver.
- **`ASMImpl._populate_lock_table` and `ASMImpl.run`**: `class Orm.Session` holds the session's
  committed rows, pending rows, closed flag and call log. `class Orm.Deployment` drives it. Each
  method is proved against a pure transition function (`PopulateSpec`, `RunSpec`), and the lemmas
  about the seeding rule are proved on those functions.

Python's `\s` and `str.strip()` use the same whitespace class. `Text.IsSpace` is that class
(CPython's `Py_UNICODE_ISSPACE`).

`run` rolls back only on a `SQLAlchemyError`; any other exception propagates without a
rollback. `hash_file_collection` defaults to `"md5"`.

## Model

| member | source | states |
|---|---|---|
| Sql.HorizontalRun | apollo_script_master/_asm/sql.py:12 | `[^\S\n]*` stops at the first character that is not horizontal whitespace, and never runs past the text |
| Sql.HorizontalRunIsBlank | apollo_script_master/_asm/sql.py:12 | every character the `[^\S\n]*` run covers is horizontal whitespace; with the contract of `HorizontalRun` this makes it the longest such run |
| Sql.CommentLength | apollo_script_master/_asm/sql.py:12 | after the blanks, a match exists if and only if the text starts with `/` or with `--`, and it is never empty |
| Sql.MatchLength | apollo_script_master/_asm/sql.py:12-13 | a match of `REGEX_MAP` at a position is never empty and stays within the text, so the scan always advances |
| Sql.SubstituteShape | apollo_script_master/_asm/sql.py:11-14 | after substitution no `/` and no `--` remain. The output's first character is either the replacement space or, where no match starts, the input's own first character |
| Sql.Minify | apollo_script_master/_asm/sql.py:24-31 | the result has no leading or trailing whitespace, no `/` character and no `--` substring |
| Sql.LineCommentRemovesRest | apollo_script_master/_asm/sql.py:12-13 | a `--` met outside any comment removes itself, the horizontal whitespace before it and everything after it: `Minify(p + w + "--" + t) == Strip(p)` for any prefix `p` with no `/` and no `--` that does not end in `-` or horizontal whitespace |
| Sql.LineCommentBecomesSpace | apollo_script_master/_asm/sql.py:12-13 | the same for the substitution alone, so it follows the block-comment and slash steps: the prefix is kept and the comment, its blanks and the rest become one space |
| Sql.MinusThenLineCommentExample | apollo_script_master/_asm/sql.py:12-31 | `"SELECT a - b -- c"` minifies to `"SELECT a - b"`: a single `-` is kept |
| Sql.BlockThenLineExample | apollo_script_master/_asm/sql.py:12-31 | `"SELECT /* a */ 1 -- b"` minifies to `"SELECT 1"`: a block comment and then a line comment are both removed |
| Sql.LineCommentExample | apollo_script_master/_asm/sql.py:12-13 | `"SELECT 1; -- n\nSELECT 2;"` minifies to `"SELECT 1;"` |
| Sql.BlockCommentBecomesSpace | apollo_script_master/_asm/sql.py:12 | a closed block comment becomes one space, together with the horizontal whitespace on both sides; the text after it is scanned on |
| Sql.BlockCommentExample | apollo_script_master/_asm/sql.py:12-31 | `"SELECT /* c */ 1"` minifies to `"SELECT 1"` |
| Sql.LoneSlashStopsAtNewline | apollo_script_master/_asm/sql.py:12 | a lone `/`, or an unclosed `/*`, removes text only up to the next newline; the newline and the following lines are kept |
| Sql.SubstituteIdentity | apollo_script_master/_asm/sql.py:12 | a text with no `/` and no `--` is left unchanged by the substitution |
| Sql.MinifyWithoutComments | apollo_script_master/_asm/sql.py:24-31 | such a text comes back only stripped; interior newlines and whitespace runs are kept |
| Sql.SubstitutePlainPrefix | apollo_script_master/_asm/sql.py:12 | a prefix with no `/`, no `--`, and a last character that is neither `-` nor horizontal whitespace, is copied verbatim ahead of the substituted rest, whatever follows it |
| Sql.MatchAfterBlanks | apollo_script_master/_asm/sql.py:12 | a match may begin with horizontal whitespace, which it consumes |
| Files.MinifySql | apollo_script_master/_asm/files.py:12-24 | `minify_sql(s)` is `SQL(s).minify()` for every `s`, so it inherits the shape of `Sql.Minify` |
| Text.Strip | apollo_script_master/_asm/sql.py:31 | `str.strip()`: the result is the slice between the leading and trailing whitespace runs, and has no outer whitespace |
| Text.StripPadded | apollo_script_master/_asm/sql.py:31 | whitespace added on either side of a stripped text is stripped away again |
| FileManagement.LineCommentLength | apollo_script_master/_asm/file_management.py:24 | `--.*?\n` matches at a position if and only if a `--` starts there and a newline comes later in the text; the match ends with a newline and is at least three characters long |
| FileManagement.LineCommentWithNewlineReplaced | apollo_script_master/_asm/file_management.py:24 | a `--` comment followed by a newline becomes one space, and the rest of the chunk is processed on. The text before it is copied whenever it holds no `--` and does not end in `-`, so single minus signs may precede it |
| FileManagement.DropLineCommentsCopiesPrefix | apollo_script_master/_asm/file_management.py:24 | pass 1 copies any prefix that holds no `--` and does not end in `-`, whatever follows it |
| FileManagement.MinusBeforeLineComment | apollo_script_master/_asm/file_management.py:24 | pass 1 turns `"a-1 -- c\nb"` into `"a-1  b"`: the minus sign stays and the comment with its newline becomes one space |
| FileManagement.LineCommentWithoutNewlineKept | apollo_script_master/_asm/file_management.py:24 | in a chunk with no newline, pass 1 changes nothing, so a `--` comment without a newline is kept |
| FileManagement.DropLineCommentsKeepsTail | apollo_script_master/_asm/file_management.py:24 | text after the last newline is kept verbatim by pass 1, `--` included, whatever comes before it: `DropLineComments(p + u) == DropLineComments(p) + u` when `u` has no newline |
| FileManagement.LineCommentLengthOfPrefix | apollo_script_master/_asm/file_management.py:24 | appending text without a newline never creates, removes or lengthens a `--.*?\n` match |
| FileManagement.DropLineCommentsIdentity | apollo_script_master/_asm/file_management.py:24 | a chunk with no `--` is unchanged by pass 1 |
| FileManagement.NewlinesToSpacesShape | apollo_script_master/_asm/file_management.py:25 | pass 2 puts a space where each newline was and copies every other character in place, so no newline remains |
| FileManagement.CollapseSpaceSingleSpaced | apollo_script_master/_asm/file_management.py:26 | pass 3 leaves only plain spaces as whitespace, never two in a row |
| FileManagement.CollapseSpaceIdentity | apollo_script_master/_asm/file_management.py:26 | a text whose only whitespace is single plain spaces is unchanged by pass 3 |
| FileManagement.CollapseSpaceIdempotent | apollo_script_master/_asm/file_management.py:26 | applying pass 3 twice is the same as applying it once |
| FileManagement.NewlinesThenCollapse | apollo_script_master/_asm/file_management.py:25-26 | pass 2 followed by pass 3 equals pass 3 alone, since a newline is already whitespace for `\s+` |
| FileManagement.CollapseSpaceNoOpen | apollo_script_master/_asm/file_management.py:26-27 | pass 3 applied to a text that opens no block comment gives a text that opens none either |
| FileManagement.BlockCommentLength | apollo_script_master/_asm/file_management.py:27 | a match of `/\*.*?\*/` opens with `/*`, ends with `*/` and is at least four characters long |
| FileManagement.BlockCommentReplaced | apollo_script_master/_asm/file_management.py:27 | a block comment with no newline in it becomes one space, and the rest is processed on. The text before it is copied whenever it opens no block comment and does not end in `/`, so divisions may precede it |
| FileManagement.DropBlockCommentsCopiesPrefix | apollo_script_master/_asm/file_management.py:27 | pass 4 copies any prefix that opens no block comment and does not end in `/`, whatever follows it |
| FileManagement.DivisionBeforeBlockComment | apollo_script_master/_asm/file_management.py:27 | pass 4 turns `"a / b /* c */ d"` into `"a / b   d"`: the division stays and the comment becomes one space |
| FileManagement.DropBlockCommentsIdentity | apollo_script_master/_asm/file_management.py:27 | a chunk with no `/*` is unchanged by pass 4 |
| FileManagement.DropBlockCommentsPlain | apollo_script_master/_asm/file_management.py:27 | pass 4 keeps a text whose only whitespace is plain spaces in that form |
| FileManagement.NormaliseChunk | apollo_script_master/_asm/file_management.py:24-27 | one chunk after the four passes: its only whitespace is plain spaces |
| FileManagement.JoinPlain | apollo_script_master/_asm/file_management.py:30 | joining chunks whose only whitespace is plain spaces gives such a text |
| FileManagement.Minified | apollo_script_master/_asm/file_management.py:22-30 | the result has no outer whitespace and no newline, and every whitespace character in it is a plain space |
| FileManagement.MinifySql | apollo_script_master/_asm/file_management.py:8-30 | the loop over the chunks computes `Minified(chunks)`: the stripped concatenation of the per-chunk results, in chunk order. It also has the three shape properties |
| FileManagement.PlainChunk | apollo_script_master/_asm/file_management.py:25-30 | a single chunk with no `--` and no `/*` comes out with every whitespace run collapsed to one space, then stripped |
| FileManagement.UnterminatedLineCommentKept | apollo_script_master/_asm/file_management.py:24 | `["SELECT 1 -- x"]` comes out unchanged, comment included |
| FileManagement.BlockCommentLeavesSpaces | apollo_script_master/_asm/file_management.py:26-27 | `["a /* x */ b"]` comes out as `"a   b"`, because comments are removed after whitespace is collapsed |
| FileManagement.SpacedBlockComment | apollo_script_master/_asm/file_management.py:26-27 | for any single-spaced, newline-free chunk around a newline-free comment, the comment leaves three spaces. The text before the comment opens no block comment and does not end in `/` |
| FileManagement.NotIdempotent | apollo_script_master/_asm/file_management.py:26-27 | the normaliser is not idempotent: minifying `"a   b"` again changes it |
| Checksum.SelectIsNameInverse | apollo_script_master/_asm/files.py:54-59 | the dispatch accepts a name for an algorithm if and only if it is exactly that algorithm's name |
| Checksum.DefaultAndCase | apollo_script_master/_asm/files.py:43 | the default `"md5"` selects MD5; `"SHA256"`, `"MD5"` and `"SHA512"` are rejected |
| Checksum.HashFileCollection | apollo_script_master/_asm/files.py:43-61 | the algorithm defaults to `"md5"`; it yields exactly one value if and only if the name is supported; otherwise it fails with `ValueError("Algorithm <name> is not supported.")` |
| Checksum.DefaultIsMd5 | apollo_script_master/_asm/files.py:43-55 | called without an algorithm, the generator yields the MD5 digest of the contents' UTF-8 bytes |
| Checksum.HashYieldsDigest | apollo_script_master/_asm/file_management.py:60-65 | the value yielded for a supported name is the hex form of that algorithm's digest of the UTF-8 bytes of the contents, with two digits per digest byte |
| Checksum.AlgorithmsDistinct | apollo_script_master/_asm/files.py:54-59 | the three names select distinct digest functions, whose results never coincide |
| Checksum.ContentsReachHasherIntact | apollo_script_master/_asm/file_management.py:60-65 | different contents reach the hash function as different bytes, and the value depends only on those bytes |
| Checksum.HexDigest | apollo_script_master/_asm/files.py:55 | `hexdigest()` writes two characters per byte |
| Checksum.ParseHexDigest | apollo_script_master/_asm/files.py:55 | the hex digest parses back to the raw digest, so it loses nothing |
| Utf8.EncodeChar | apollo_script_master/_asm/files.py:55 | one character encodes as 1 to 4 bytes, and as a single byte exactly when it is ASCII |
| Utf8.DecodeEncode | apollo_script_master/_asm/file_management.py:61 | decoding `contents.encode("utf8")` gives `contents` back |
| Utf8.EncodeInjective | apollo_script_master/_asm/file_management.py:61 | different texts encode to different bytes |
| Utf8.EncodeAscii | apollo_script_master/_asm/files.py:55 | ASCII text encodes to one byte of the same value per character |
| Orm.UrlManager | apollo_script_master/_asm/orm.py:18-37 | a URL is returned if and only if `drivername` is exactly `"postgresql"`; otherwise `KeyError` with the message that names the driver and dialect, raised again unchanged |
| Orm.UrlManagerReadsBack | apollo_script_master/_asm/orm.py:30-31 | the URL is `postgresql+<dialect>://<username>:<password>@<host>:<port>/<database>`: it parses back into exactly those fields, with the defaults dialect `psycopg2`, port `5432` and database `postgres` |
| Orm.ParseFormat | apollo_script_master/_asm/orm.py:31 | the URL format can be read back whenever no field holds the delimiter that ends it |
| Orm.NaturalStringDigits | apollo_script_master/_asm/orm.py:31 | an integer port renders as decimal digits |
| Orm.NaturalStringValue | apollo_script_master/_asm/orm.py:31 | the decimal text of a natural number reads back as that number, and starts with `0` only for zero, so it has no leading zero |
| Orm.CredentialsCollide | apollo_script_master/_asm/orm.py:31 | credentials go in verbatim: two different username/password pairs give the same URL |
| Orm.UnquoteQuotePlus | apollo_script_master/_asm/orm.py:2 | `unquote_plus(quote_plus(s)) == s` |
| Orm.QuotePlusDelimited | apollo_script_master/_asm/orm.py:2 | quoted text holds no `:`, `@` or `/` |
| Orm.SafeUrlManager | apollo_script_master/_asm/orm.py:18-37 | the URL-safe builder fails exactly where `url_manager` fails, with the same error |
| Orm.SafeUrlReadsBack | apollo_script_master/_asm/orm.py:21-31 | with quoted credentials the URL reads back whatever they hold, and unquotes to them |
| Orm.SafeUrlCredentialsDistinct | apollo_script_master/_asm/orm.py:21-31 | two argument sets that give the same URL-safe URL carry the same credentials |
| Orm.PopulateSeedsOnlyEmpty | apollo_script_master/_asm/orm.py:73-79 | seeding adds exactly one row `(locked=False, lockedby="root")` when the table has no rows, and none otherwise |
| Orm.RunHealthy | apollo_script_master/_asm/orm.py:84-95 | after a run with no error the committed lock table is non-empty: the seed row if it was empty, unchanged otherwise. The session is closed |
| Orm.RunIdempotent | apollo_script_master/_asm/orm.py:73-88 | a second run adds no further row |
| Orm.RunStoreError | apollo_script_master/_asm/orm.py:89-92 | on a `SQLAlchemyError` nothing is committed, pending rows are rolled back, the error is raised again, and the last calls are rollback then close |
| Orm.RunOtherError | apollo_script_master/_asm/orm.py:84-95 | any other exception propagates without a rollback and nothing is committed; the session is still closed |
| Orm.RunAlwaysCloses | apollo_script_master/_asm/orm.py:93-95 | on every path the session ends closed, with `close()` as its last call |
| Orm.Session.constructor | apollo_script_master/_asm/orm.py:67-68 | a fresh session holds the table's rows, with nothing pending and no calls made |
| Orm.Session.CountRows | apollo_script_master/_asm/orm.py:73 | `count()` counts committed and pending rows (autoflush), or raises the session's fault |
| Orm.Session.AddRow | apollo_script_master/_asm/orm.py:79 | `add()` appends the row to the pending rows |
| Orm.Session.CommitRows | apollo_script_master/_asm/orm.py:88 | `commit()` moves the pending rows into the table, unless it raises |
| Orm.Session.RollbackRows | apollo_script_master/_asm/orm.py:91 | `rollback()` drops the pending rows |
| Orm.Session.CloseSession | apollo_script_master/_asm/orm.py:95 | `close()` drops the pending rows and closes the session |
| Orm.Deployment.PopulateLockTable | apollo_script_master/_asm/orm.py:70-82 | the new session state and the error are those of `PopulateSpec`, the seeding rule above |
| Orm.Deployment.Run | apollo_script_master/_asm/orm.py:84-95 | the new session state and the error are those of `RunSpec`; the `Run…` lemmas above state its properties |

## Left out

- `collect_files` (both files): a filesystem glob and file reads, pure I/O.
- The MD5, SHA-256 and SHA-512 algorithms are `hashlib` code. They are parameters (`Checksum.Hashers`), assumed only to return digests of the right length.
- `hash_file_collection` is a generator, so the `ValueError` appears only when it is first advanced. The model describes the generator once advanced: its values or its error.
- `sqlparse.parse` is a foreign library. The statement chunks are an input of `FileManagement.MinifySql`, and `str(statement)` is taken to be the chunk's text.
- `ASMImpl.__init__`, `_set_session`, `create_engine`, `create_all` and the table classes `ASMDeploy` and `ASMDeployLock` are SQLAlchemy plumbing and import-time configuration lookups. A lock row is modelled by the two columns the seeding sets. The session is an abstract store of committed and pending rows, whose count or commit may raise as an input (`Orm.Fault`) says.
- `Orm.Deployment.Run`: a rollback or close that itself raises is not modelled.
- All `logging` calls. `url_manager` logs and then raises the same `KeyError`, so the model returns that error.
- `apollo_script_master/config.py`, `apollo_script_master/__init__.py` and `setup.py` are not part of this model: configuration loading, the command line and packaging.
- Lock acquisition and retry, checksum diffing, DROP synthesis and script execution: `ASMImpl.run` only seeds the lock table and commits, and no function in `_asm/` carries these out, so there is nothing of them to model.
- Python strings may hold lone surrogates, and encoding those to UTF-8 raises. A Dafny `char` is always a Unicode scalar value, so that error is not modelled.
- `url_manager` keyword values are strings, integers, booleans or `None` (`Orm.Param`). Floats and other objects, and their `str()` forms, are not modelled.
- `Orm.UnquotePlus` is the decoder that shows quoting loses nothing. It reports malformed UTF-8 as `None` where Python would insert replacement characters.

## Findings

| source | as written | input that shows it | evidently intended | confidence | as-written member | corrected member |
|---|---|---|---|---|---|---|
| apollo_script_master/_asm/orm.py:31 | username and password are put into the URL verbatim, although the docstring (line 21) says the URL is URL-safe and `quote_plus` is imported (line 2) but never used | `{drivername: "postgresql", username: "a:b", password: "c"}` and `{…, username: "a", password: "b:c"}` give the same URL `postgresql+psycopg2://a:b:c@None:5432/postgres` | credentials passed through `quote_plus`, so that every pair of credentials gives its own URL and reads back from it | medium, not executed | Orm.CredentialsCollide | Orm.SafeUrlCredentialsDistinct |
