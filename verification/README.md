# ldap-csv-exporter, modelled in Dafny

`ldap_csv_exporter` exports user records from an LDAP / Active Directory
server to a CSV file. Its `main` resolves a bind password (a literal
`--bindpasswd`, or the first line of `--secretfile`), exits when that
password is empty, opens a bound connection through a first-active server
pool, runs one paged subtree search for users that are not computers, keeps
the `attributes` dictionary of every returned entry that has one
(`get_ldap_info`), and writes a `username,name,company,department` header
followed by one row per entry.

The script is Python 2 code (the `python` shebang, `u'...'` literals,
`unicodecsv`), and the model follows Python 2, the runtime the shebang
selects. Its packaging also lists Python 3. The places where a Python 3
run behaves differently are named under "## Left out".

This project models that pipeline as pure functions over immutable data:

- `Wrappers` — `Option`.
- `Directory` — attribute values (`Str` or `Multi`), raw search entries, the
  connect and search requests the exporter issues, the outcomes the
  directory library can report, and the fixed constants (page size 10,
  per-server connect timeout 3, pool `active=3`, `exhaust=60`, the user
  filter, the four requested attributes).
- `Password` — `readline`, the newline removal and the password resolution
  order.
- `Search` — `get_ldap_info`: the falsy-connection shortcut, exception
  propagation, and the filtering loop (`CollectAttributes`), with a
  reference definition (`AttributeMaps`) and an index characterisation
  (`AttributeIndices`).
- `CsvExport` — the row mapping, the header and the row loop, including the
  partial file left behind when an entry lacks one of the four attributes.
- `Exporter` — the configuration record with its command-line defaults
  (port 389, timeouts 10, `result.csv`) and `Run`, which ties the stages
  together. The directory library is passed to `Run` as two functions,
  `connect: ConnectRequest -> ConnOutcome` and
  `search: SearchRequest -> SearchOutcome`. The secret file's state and
  whether the CSV path opens are also inputs. So "no connection is
  attempted" is stated as: the outcome does not depend on `connect`.

Where the code does something other than its flag help or its error
messages suggest, the model follows the code:

- The help of `--timeout` calls it the "connect timeout"
  (src/ldap_csv_exporter.py:74-75), but it is passed as the connection's
  receive timeout. Each server's connect timeout is a fixed 3
  (src/ldap_csv_exporter.py:13, 20).
- A missing `sAMAccountName`, `cn`, `company` or `department` raises
  `KeyError` inside the open CSV file. The error is caught at the top
  level, and the file keeps the header and the rows before the failing
  entry. This is `Outcome.Partial`.
- `get_ldap_connection` reports its own failure by returning `False`. The
  next line's `conn.bound` then raises, and that error is caught at the top
  level. This is `Failed(ConnectStage)`. A connection object whose `bound`
  flag is false does nothing and reports nothing. This is `NotBound`.

## Model

| member | source | states |
|---|---|---|
| Password.ReadLine | src/ldap_csv_exporter.py:100 | `readline` returns a prefix of the text with no newline before its last character, and it stops at the end of the text or just after the first newline |
| Password.DropNewlines | src/ldap_csv_exporter.py:100 | `replace('\n', '')` leaves no newline, never lengthens the string, and leaves a newline-free string unchanged |
| Password.DropNewlinesAppend | src/ldap_csv_exporter.py:100 | newline removal cleans the pieces of a string independently and concatenates the results |
| Password.DropNewlinesChar | src/ldap_csv_exporter.py:100 | a single character is dropped exactly when it is a newline; with the previous row, every other character is kept, in order |
| Password.FirstLine | src/ldap_csv_exporter.py:100 | the password read from the file contains no newline |
| Password.Resolve | src/ldap_csv_exporter.py:94-109 | a non-empty literal wins. Otherwise a non-empty secret path gives the file's first line, or "" when the file is missing or unreadable. With neither source the password is "". Apart from the literal case, the password never contains a newline |
| Password.FirstLineIsLeadingSegment | src/ldap_csv_exporter.py:96-100 | the file's password is a newline-free prefix of its text that ends at the end of the text or right before a newline |
| Password.FirstLineUnique | src/ldap_csv_exporter.py:99-100 | any newline-free prefix that ends at the end of the text or before a newline is that password, so the first line is determined uniquely |
| Password.LiteralIgnoresSecretFile | src/ldap_csv_exporter.py:94-95 | a non-empty literal is used unchanged, whatever the secret path or file holds |
| Password.EmptyPasswordCases | src/ldap_csv_exporter.py:96-109 | without a literal, the password is empty exactly when there is no secret path, the file is missing or unreadable, or its first line is empty |
| Search.AttributeMaps | src/ldap_csv_exporter.py:49-57 | filtering never lengthens the list. If every entry has attributes, nothing is dropped; if none has, the result is empty |
| Search.AttributeIndices | src/ldap_csv_exporter.py:49-54 | every kept position is a valid index into the entry list |
| Search.AttributeIndicesExact | src/ldap_csv_exporter.py:49-54 | the kept positions are strictly increasing and are exactly the entries that have an `attributes` key |
| Search.AttributeMapsSelectsInOrder | src/ldap_csv_exporter.py:49-55 | the k-th kept dictionary is the `attributes` of the k-th entry that has one, so the result is exactly those dictionaries in input order |
| Search.AttributeMapsAppend | src/ldap_csv_exporter.py:36-55 | filtering distributes over concatenation, so filtering the collected pages equals filtering each page in turn |
| Search.CollectAttributes | src/ldap_csv_exporter.py:48-57 | the append loop that skips `KeyError` entries computes exactly `AttributeMaps` |
| Search.GetLdapInfo | src/ldap_csv_exporter.py:30-57 | a falsy connection gives the empty list. With a live connection, the result is absent exactly when the search raises, and it is never longer than the entry list |
| Search.FalsyConnectionSkipsSearch | src/ldap_csv_exporter.py:32-33 | with a falsy connection the result is the empty list, whatever the search would answer |
| Search.LiveSearchKeepsAttributes | src/ldap_csv_exporter.py:35-57 | a returned search yields one dictionary per attribute-carrying entry, and no others. The kept positions are strictly increasing, so the dictionaries are in input order |
| CsvExport.MapRow | src/ldap_csv_exporter.py:147-150 | a row exists exactly when all four attributes are present, and it has four fields. A single-string username, name, company or department is copied as-is; a list-valued company or department becomes "" |
| CsvExport.RowRoundTrip | src/ldap_csv_exporter.py:136-150 | when the four attributes are single strings, reading the row back under the header's names returns exactly those four attributes |
| CsvExport.DataRows | src/ldap_csv_exporter.py:145-150 | each written row is the mapping of the result at the same position. A completed loop wrote one row per result; an aborted one stopped at the first result that lacks an attribute |
| CsvExport.WriteCsv | src/ldap_csv_exporter.py:136-150 | the file starts with the header, and line i+1 is the row of result i. It is complete exactly when every result has the four attributes, and then it has one line per result plus the header |
| CsvExport.NoResultsHeaderOnly | src/ldap_csv_exporter.py:144-145 | zero results give the header alone |
| CsvExport.SingleUserExample | src/ldap_csv_exporter.py:137-150 | one fully populated entry (`jdoe`, `John Doe`, `Acme`, `Eng`) gives exactly the header and that entry's four fields, in header order |
| Exporter.SearchRequestFor | src/ldap_csv_exporter.py:121-128 | the search asks for exactly the attributes a CSV row reads (`RowKeys`), under the configured base DN and time limit, in pages of 10 |
| Exporter.Run | src/ldap_csv_exporter.py:94-154 | the run exits without connecting exactly when the password is empty. A written CSV goes to the configured path and starts with the header |
| Exporter.DefaultsExitWithoutConnecting | src/ldap_csv_exporter.py:107-109 | with only the required flags (no `-w`, no `-W`) the run exits, whatever the directory or the file system would do |
| Exporter.EmptyPasswordAttemptsNothing | src/ldap_csv_exporter.py:111-154 | an empty password exits, and the outcome does not depend on the directory or the CSV target |
| Exporter.ConnectSeesResolvedPassword | src/ldap_csv_exporter.py:111-119 | the run depends on the directory's connection answer only for the one request carrying the resolved password |
| Exporter.ConnectionFailureWritesNothing | src/ldap_csv_exporter.py:119-152 | a failed or unbound connection writes no CSV and does not depend on the search |
| Exporter.SearchFailureWritesNothing | src/ldap_csv_exporter.py:120-134 | a search that raises ends the run as a search failure, with no CSV |
| Exporter.CsvOnlyAfterSuccessfulSearch | src/ldap_csv_exporter.py:111-136 | a CSV is written only after a non-empty password, a bound connection, a returned search and a path that opened |
| Exporter.SuccessfulRunWritesEveryResult | src/ldap_csv_exporter.py:119-150 | when every kept entry has the four attributes, the file is the header plus one row per kept entry, in order |
| Exporter.MissingAttributeLeavesPartialFile | src/ldap_csv_exporter.py:136-152 | when some kept entry lacks one of the four attributes, the run is `Partial`: the configured file holds the header and the rows of the entries before the first such entry, and that entry has no row |
| Exporter.NoResultsWritesHeaderOnly | src/ldap_csv_exporter.py:136-145 | a search with no attribute-carrying entries writes the header alone |

## Left out

- CsvExport.MapRow: attribute names are compared exactly, so the model assumes the library reports each attribute under the name it was requested with (`sAMAccountName`, `cn`, `company`, `department`). ldap3's `attributes` dictionary ignores case, and LDAP attribute names are case-insensitive. So an entry whose names arrive in another casing is written by the program, but the model treats its attributes as missing.
- Server pool construction, the bind and `paged_search` of ldap3 (src/ldap_csv_exporter.py:13-22, 36-43) are foreign network calls. Only their outcomes are modelled, as the `connect` and `search` inputs. The pool's failover across servers happens inside the library.
- The close and re-bind after a search failure (src/ldap_csv_exporter.py:131-133) is left out. Its result is never checked and it does not affect what is written. An exception raised by that recovery is not modelled either.
- Command-line parsing and the help-and-exit-1 path for an empty command line (src/ldap_csv_exporter.py:60-91) are argparse plumbing. Only the parsed values and their defaults are modelled, as `Config` and `Defaults`.
- CSV quoting, the line terminator, the encoding, and the actual file open and write belong to unicodecsv and the operating system. Rows are modelled as lists of field texts. A write error after the file has opened (a full disk, say) is not modelled; an open failure is `Failed(WriteStage)`.
- The diagnostic `print` and `flush` calls are output only. They are not modelled.
- The secret file's text is taken as `readline` sees it. Under Python 2 on POSIX that is the raw text. Under Python 3, `\r` and `\r\n` would also be translated to newlines; that is not modelled.
- ListText: a list value written in the username or name column is rendered as a list repr with single-quoted items. Python 2 would also put a `u` prefix on each item, and Python's quote choice and escaping inside the repr are not modelled either. No property relies on this rendering.
- Under Python 3, unicodecsv's writer produces bytes, but the CSV file is opened in text mode (src/ldap_csv_exporter.py:136). Writing the header would then raise `TypeError`. The top-level handler catches it and leaves an empty file, so no Python 3 run would reach `Wrote` or `Partial`. This follows from the library's Python 3 writer and is not modelled; the model follows Python 2.
- setup.py is packaging metadata and is not part of this model.
