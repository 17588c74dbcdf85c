# Crawl record store: connection URI, port derivation and insert-if-absent

This project models the logic in `node/db/dba.js`, the persistence layer
of a web crawler. It covers three parts:

- **Connection URI.** The URI is built from the `db` options (`driver`,
  `database`, `username`, `password`, `host`, `port`).
  - `sqlite` gives `sqlite:database`.
  - `mysql`, `postgres`, `mariadb` and `mssql` give
    `driver://[user[:pass]@]host[:port]/database`. An optional part is
    written only when its option is truthy in JavaScript's sense.
  - Any other driver leaves the URI undefined, modelled as `None`.
- **Port derivation.** A new record's port is derived from its host and
  scheme.
  - A host that ends in `:` and digits (the pattern `/\:([0-9]*)$/`)
    gives those digits as text. The digit text may be empty.
  - Otherwise `http` gives 80, `https` gives 443, and any other scheme
    keeps the initial 80.
  - The pattern is modelled as a scan back over the host's trailing
    digits.
- **Crawl-URL table.** The table holds one record per
  (scheme, host, path, request method) key.
  - `get_url_info` returns the first record with the key, or `false`
    (modelled as `None`).
  - `insert_new_url` returns the id of the record that has the key. When
    there is none, it first appends a new record with the derived port
    and no status or result.
  - Ids come from a counter that stands for the database's
    auto-increment column.

Files:

- `wrappers.dfy`: `Option`.
- `js_values.dfy`: the option values (`undefined`, `null`, strings,
  non-negative numbers), JavaScript truthiness, and the text `+` makes of
  each value.
- `connection_uri.dfy` (module `DbConnection`): two definitions of the
  URI.
  - `ConnectionUri` is a declarative function.
  - `BuildConnectionUri` is a method that appends piece by piece, as the
    source's `switch` does. It is proved equal to the function.
- `port_derivation.dfy`: the pattern match as a function (`PortSuffix`)
  and as a backwards scan (`ScanPortSuffix`), and the scheme defaults
  (`DerivePort`).
- `crawl_table.dfy`: the records, a pure first-match lookup and a pure
  insert-if-absent, the lemmas about them, and the class
  `CrawlUrlStore`. That class holds the record sequence and the id
  counter. Its `InsertNewUrl` method mutates them and is proved against
  the pure insert.

Two behaviours of `dba.js` are kept as the code has them:

- The `switch` raises nothing for an unknown driver. It leaves the URI
  undefined (`None`). What `new Sequelize` (line 33) then does with it
  is not modelled.
- After a match, the derived port is the captured digit *text*
  (`RegExp.$1`), which can be empty. Only the scheme defaults are
  numbers. `PortValue` keeps the two cases apart.

The table the store opens is persistent and shared. Rows from earlier
runs and from other users or projects stay in it, and the lookup does
not filter on the owner. So the store is opened on any well-formed
table, and an insert can return the id of a row someone else stored.

## Model

| member | source | states |
|---|---|---|
| `JsValues.Display` | node/db/dba.js:15-26 | The text appended for a value is empty only for the empty string, so every truthy option adds at least one character |
| `DbConnection.ConnectionUri` | node/db/dba.js:6-28 | A URI is produced if and only if the driver is one of the five recognised names (`sqlite`, `mysql`, `postgres`, `mariadb`, `mssql`) |
| `DbConnection.BuildConnectionUri` | node/db/dba.js:6-28 | Appending the pieces one at a time, under the source's conditions, yields exactly the declarative URI |
| `DbConnection.SqliteUriIgnoresServerOptions` | node/db/dba.js:7-9 | For `sqlite` the URI is `sqlite:` followed by the database, and it does not depend on username, password, host or port |
| `DbConnection.ServerUriShape` | node/db/dba.js:10-26 | For a server driver the URI starts with `driver://`, ends with `/database`, and has the host right after the credentials |
| `DbConnection.CredentialsIffUsername` | node/db/dba.js:15-21 | With a truthy username, `user[:pass]@` is inserted right after `driver://`. Otherwise no credentials are written, and the password has no effect whatever its value |
| `DbConnection.PasswordNeedsUsername` | node/db/dba.js:15-21 | The password changes the URI if and only if both username and password are truthy |
| `DbConnection.PortIffTruthy` | node/db/dba.js:22-26 | `:port` is inserted between the host and `/database` if and only if the port is truthy |
| `DbConnection.UnknownDriverLeavesUriUnset` | node/db/dba.js:6-28 | Any driver outside the five names leaves the URI unset |
| `PortDerivation.TrailingDigitCount` | node/db/dba.js:191 | Counts the longest run of digits at the end of the host: all counted characters are digits and the one before them is not |
| `PortDerivation.TrailingDigitCountExact` | node/db/dba.js:191 | A digit run that reaches the end of the host and is not preceded by a digit is the counted run |
| `PortDerivation.ColonDigitsMatchIsUnique` | node/db/dba.js:191 | The pattern `:` + digits + end of input can match at one position only, so the leftmost match is the only one |
| `PortDerivation.PortSuffix` | node/db/dba.js:191-192 | Gives a capture if and only if some `:` in the host is followed by nothing but digits. The capture is exactly the digits after that `:`, and the host is its prefix, `:`, and the capture |
| `PortDerivation.NoColonBeforeTrailingDigits` | node/db/dba.js:191 | If the longest trailing digit run is not preceded by `:`, the pattern matches nowhere |
| `PortDerivation.ScanPortSuffix` | node/db/dba.js:191-192 | The backwards scan over the trailing digits returns the same capture as the pattern |
| `PortDerivation.PortNumberOf` | node/db/dba.js:190-197 | A port has no integer value exactly when it is the empty capture |
| `PortDerivation.ExplicitPortWins` | node/db/dba.js:191-192 | Whatever the scheme, a host ending in `:` and digits gets those digits as its port |
| `PortDerivation.SchemeDefaultPort` | node/db/dba.js:193-197 | With no trailing `:digits`, the port is 443 for `https` and 80 for every other scheme, `http` included |
| `PortDerivation.DerivePort` | node/db/dba.js:190-197 | The reference definition of the port chain. Its contract: every derived port is either the host's own trailing digits after `:`, or 80 or 443 for a host without them, and 443 only for `https`. `ExplicitPortWins` and `SchemeDefaultPort` state the precedence |
| `PortDerivation.ExplicitPortNumber` | node/db/dba.js:190-192 | A host ending in `:` and the decimal text of n gets the port number n |
| `PortDerivation.ExplicitPortExample` | node/db/dba.js:190-192 | For scheme `http`, host `example.com:3000` gets port 3000 |
| `PortDerivation.EmptyCaptureExample` | node/db/dba.js:191-192 | Host `example.com:` captures the empty digit text, which stands for no integer |
| `PortDerivation.SchemeDefaultExamples` | node/db/dba.js:190-197 | `example.com` gets 443 under `https` and 80 under `http` or `ftp`. For `user:passwd@example.com` the `:` in the credentials is not a port |
| `CrawlTable.FindFirst` | node/db/dba.js:166-177 | Gives the least index whose record has the key, or `None` exactly when no record has it |
| `CrawlTable.LookUp` | node/db/dba.js:165-179 | The reference definition of `get_url_info`: the record at `FindFirst`'s least matching index. Its contract: `None` exactly when no record has the key, otherwise a stored record with the key |
| `CrawlTable.NewRecord` | node/db/dba.js:199-209 | The reference definition of the values `create` stores. Its contract: the record carries the request's key and the given id, with `status` and `result` unset; `InsertGrowsIffAbsent` states the remaining fields |
| `CrawlTable.InsertIfAbsent` | node/db/dba.js:184-212 | The reference definition of `insert_new_url`. Its contract: the old rows stay as a prefix, at most one row is added, and the counter moves by at most one. `InsertGrowsIffAbsent`, `InsertIsIdempotent` and `InsertLeavesOtherKeys` state the rest |
| `CrawlTable.FindFirstIsLeast` | node/db/dba.js:175-176 | The first matching index is the one no earlier record matches |
| `CrawlTable.FirstMatchSurvivesAppend` | node/db/dba.js:199-209 | Appending a record keeps an existing first match. A key that had no match gets the new record as its first match if and only if the record carries that key |
| `CrawlTable.InsertPreservesWellFormed` | node/db/dba.js:184-212 | An insert keeps ids strictly increasing and below the counter, and keeps keys unique |
| `CrawlTable.InsertGrowsIffAbsent` | node/db/dba.js:185-211 | The table changes if and only if the key was absent. It then grows by exactly one record after the old ones, carrying the next id, the key, the derived port, the headers and body, the owner, and no status or result |
| `CrawlTable.InsertThenLookUp` | node/db/dba.js:184-212 | After an insert, looking the key up finds a record with the returned id |
| `CrawlTable.InsertIsIdempotent` | node/db/dba.js:185-188 | A second insert with the same key returns the first insert's id and changes neither the table nor the counter |
| `CrawlTable.InsertLeavesOtherKeys` | node/db/dba.js:199-211 | An insert does not change the lookup result for any other key |
| `CrawlTable.InsertTargets` | node/db/dba.js:184-211 | The keys after an insert are the old keys plus the inserted one |
| `CrawlTable.RequestedTargetsOfLonger` | node/db/dba.js:184 | One more request adds exactly its key to the requested keys |
| `CrawlTable.InsertAllKeepsOneRecordPerKey` | node/db/dba.js:165-212 | After any sequence of inserts into an empty table, there is exactly one record per requested key. A key never inserted is not found |
| `CrawlTable.CrawlUrlStore.constructor` | node/db/dba.js:156-159 | The store is opened on the existing table: it keeps whatever well-formed rows and auto-increment counter the database holds, and records the owner (`user_id`, `project_id`) it writes into new rows |
| `CrawlTable.InsertFindsOtherOwnersRow` | node/db/dba.js:165-188 | A row with the key is found whoever owns it; its id is returned and nothing is inserted |
| `CrawlTable.CrawlUrlStore.GetUrlInfo` | node/db/dba.js:165-179 | Returns `None` exactly when no record has the key. Otherwise it returns the first record with the key, which is the only one while keys are unique |
| `CrawlTable.CrawlUrlStore.InsertNewUrl` | node/db/dba.js:184-212 | Keeps the table invariant. An existing key returns its record's id and changes nothing. A new key appends one record with the next id, the derived port and no status or result, bumps the counter and returns the new id |

## Left out

- The connection to the database (`new Sequelize(...)`, lines 33-37) and
  the log line (line 32) are foreign calls with no visible semantics.
- The column declarations and schema migration (`CrawlingUrl.init`,
  `sync({alter: true})`, lines 43-158) are library calls. The record
  type keeps only the columns this file writes (owner, key, port,
  request headers and body) and `status` and `result`, which it leaves
  unset.
- The response columns, `error_message` and `request_datetime` are not
  modelled. Nothing in this file computes them.
- `async`/`await` are modelled as sequential calls. The check-then-insert
  race between concurrent callers, which can store duplicate keys, is not
  modelled. Key uniqueness (`WellFormed`) holds only for sequential use.
  The store is never opened on a table that already holds duplicate
  keys, such as an earlier race may have left.
- Storage failures are not modelled. Every lookup and insert succeeds.
- `JSON.stringify(req_headers)` is not modelled. The headers are taken as
  an already serialised, opaque string.
- The row order of `findAll` without `ORDER BY` is up to the database.
  The model takes insertion order, so "first" means first inserted.
- Key comparison is exact string equality. A database collation that
  ignores case (MySQL's default, for one) is not modelled.
- `user_id`, `project_id`, the request method and the body are plain
  strings. An `undefined` value stored as SQL NULL is not modelled, and
  neither is the database library's refusal of `undefined` in a `where`
  clause.
- Option values are `undefined`, `null`, strings and non-negative
  integers below 2^53. Negative, fractional or larger numbers are not
  modelled, so neither is the exponent form `String` gives from 10^21
  up. Booleans and objects are not modelled either.
- The captured port text is kept as text. What the INTEGER column makes
  of it, above all of the empty capture, depends on the database engine.
  `PortNumberOf` gives the integer that non-empty digits denote.
