# Ombudsman case lifecycle, modelled in Dafny

The backend of the ombudsman ("ouvidoria") MVP keeps citizen cases
("manifestações") in two SQLite tables: `manifestacoes`, one row per case
under an AUTOINCREMENT `id` with a UNIQUE `protocolo`, and `historico`, the
audit trail, one row per event keyed by `manifestacao_id`. Its Express
handlers create a case (generating its protocol number from the clock), edit
it through a partial patch, delete it together with its history, list cases
with a status filter and a free-text search, fetch one case, and list one
case's history newest first.

This project models those handlers and the statements they send to SQLite,
and proves what each one does to the two tables.

- `protocol.dfy` (module `Protocols`) models the protocol expression: the
  year, the zero-padded month and day, and the last five characters of the
  millisecond clock. Its proofs cover the format, the exact condition under
  which two clock readings collide, and a round trip: the source has no decoder, so `Decode`, which
  splits a 13-digit string into year, month, day and clock suffix, exists
  only as the inverse that `DecodeProtocol` is stated against.
  `digits.dfy` (module `Digits`) holds the JavaScript number and
  string operations the expression uses (`toString`, `padStart`,
  `slice(-5)`) and the arithmetic facts behind them.
- `schema.dfy` (module `Schema`) holds the rows of both tables and the
  request bodies. A column some handler can leave NULL is an `Option`, and a
  field the client leaves out binds as NULL. `status`, `dataAbertura`,
  `created_at` and `updated_at` are nullable in the DDL but are plain
  fields, because no handler ever writes NULL into them: create sets all
  four, and an edit only ever writes a truthy status and the clock.
- `lifecycle.dfy` (module `Lifecycle`) gives the reference meaning of each
  handler, stated directly on rows:
  - `FirstMissing`: which NOT NULL column an incomplete create reports.
  - `NewRow`: the row a successful create inserts.
  - `Patched`: the row after an edit.
  - `UpdateEvents`: the audit entries an edit appends.
  - `Matches`: which rows the list returns.
- `sql.dfy` (module `Sql`) models the two statements assembled at run time:
  - The edit handler's UPDATE, built by `BuildUpdate`. `Exec` says what
    SQLite does with its SET list and positional parameters.
  - The list handler's SELECT, built by `BuildListQuery`. `Where` and
    `Like` say how SQLite evaluates its WHERE clause.

  Both are proved against the `Lifecycle` reference (`ExecSetClauses`,
  `WhereMatches`).
- `ordering.dfy` (module `Ordering`) specifies `ORDER BY … DESC` as a
  descending permutation of the selected rows.
- `store.dfy` (module `Database`) is the database itself: class `Store`
  holds the row map, the history sequence and the two AUTOINCREMENT
  counters, with one method per handler and one per statement the handlers
  issue.
  - `Valid` states what every handler preserves: ids below the counter,
    unique protocols, and fresh history ids.
  - History entries may name ids that have no row, because the foreign key
    of `historico` is not enforced.

Modelling choices that follow SQLite and node-sqlite3:
- Constraint order: NOT NULL columns are checked in table order before the
  UNIQUE index, so a create missing a field and also holding a used
  protocol reports the missing field.
- Ids: an AUTOINCREMENT id is never reused.
- Timestamps: CURRENT_TIMESTAMP text sorts like the instant it names, so a
  timestamp is an integer. Each handler reads one clock value (`now`), and
  the protocol's four clock readings are a separate `Clock` input.
- Route ids: the `:id` route parameter is an integer, as SQLite's INTEGER
  affinity makes it for numeric text.

The code does less than a full case lifecycle would, and the model follows
the code:
- The status is written unvalidated. There is no transition table, and an
  answer stamps `dataResposta` again on every edit that carries one.
- `diasRestantes` is copied from `prazoLegal` at creation and never
  recomputed.
- An edit of an id with no row still appends its audit entries
  (`Store.Update`). Ids are never reused, but a missing id at or above the
  counter can still be the id of a later create, and that case then starts
  with those orphan entries in its history.
- `prioridade` and `prazoLegal` are listed explicitly in the INSERT. When
  the client leaves them out they are NULL, not the DDL defaults 'Média'
  and 20.
- Protocols are unique only up to the clock's last five digits. Two creates
  on the same calendar day whose millisecond clocks agree modulo 100000
  produce the same protocol (`ProtocolCollision`). The second create then
  fails on the UNIQUE index, and nothing changes (`Store.Create`).

## Model

| member | source | states |
|---|---|---|
| Protocols.Protocol | ouvidoria-mvp-final/ouvidoria-backend/server.js:205 | the generated protocol consists of decimal digits only |
| Protocols.ProtocolParts | ouvidoria-mvp-final/ouvidoria-backend/server.js:205 | for a four-digit year, a Date month index, a day of month and a clock of at least five digits, the protocol is the 4-digit year, the 2-digit month+1, the 2-digit day and the clock's last 5 digits |
| Protocols.ProtocolLength | ouvidoria-mvp-final/ouvidoria-backend/server.js:205 | such a protocol is exactly 13 characters long |
| Protocols.DecodeProtocol | ouvidoria-mvp-final/ouvidoria-backend/server.js:205 | decoding a generated protocol gives back year, month+1, day and the clock modulo 100000 (round trip) |
| Protocols.ProtocolCollision | ouvidoria-mvp-final/ouvidoria-backend/server.js:205 | two clock readings give the same protocol if and only if they share year, month and day and their millisecond clocks agree modulo 100000 |
| Digits.PadDecimal | ouvidoria-mvp-final/ouvidoria-backend/server.js:205 | `String(n).padStart(k, '0')` of a number below 10^k is its k-digit rendering |
| Digits.LastOfDecimal | ouvidoria-mvp-final/ouvidoria-backend/server.js:205 | `n.toString().slice(-k)` of a number with at least k digits is its last k digits |
| Digits.FixedEqual | ouvidoria-mvp-final/ouvidoria-backend/server.js:205 | two k-digit renderings are equal exactly when the numbers agree modulo 10^k |
| Digits.ParseFixed | ouvidoria-mvp-final/ouvidoria-backend/server.js:205 | reading a k-digit rendering back gives the number modulo 10^k |
| Digits.ParseDecimal | ouvidoria-mvp-final/ouvidoria-backend/server.js:205 | reading `n.toString()` back gives n |
| Digits.DecimalLength | ouvidoria-mvp-final/ouvidoria-backend/server.js:205 | `n.toString()` has at most k characters exactly when n < 10^k |
| Lifecycle.FirstMissing | ouvidoria-mvp-final/ouvidoria-backend/server.js:30-38 | there is no NOT NULL failure exactly when tipo, categoria, assunto, descricao, cidadao and canal are all supplied; otherwise the column reported is the first NULL one in table order: `tipo` exactly when tipo is NULL, `categoria` exactly when tipo is present and categoria NULL, and so on down to `canal` |
| Lifecycle.UpdateEvents | ouvidoria-mvp-final/ouvidoria-backend/server.js:274-285 | an edit logs one entry per truthy status and one per truthy responsavel (at most two), all by 'Admin' with consecutive ids at the statement clock; the status entry comes first and the reassignment entry last; resposta and prioridade log nothing |
| Lifecycle.ContainsAt | ouvidoria-mvp-final/ouvidoria-backend/server.js:167-170 | the substring test holds exactly when the term occurs at some position of the text |
| Sql.SetClauses | ouvidoria-mvp-final/ouvidoria-backend/server.js:243-264 | the SET list is never empty and always ends with `updated_at = CURRENT_TIMESTAMP` |
| Sql.SetParams | ouvidoria-mvp-final/ouvidoria-backend/server.js:244-265 | the last parameter is the id of `WHERE id = ?` |
| Sql.SetClausesOrder | ouvidoria-mvp-final/ouvidoria-backend/server.js:246-264 | SET items appear in the fixed order status, resposta, dataResposta, responsavel, prioridade, updated_at |
| Sql.SetClausesPresent | ouvidoria-mvp-final/ouvidoria-backend/server.js:246-264 | a SET item is present exactly when its patch field is truthy; `dataResposta` exactly when resposta is; `updated_at` always |
| Sql.SetArity | ouvidoria-mvp-final/ouvidoria-backend/server.js:243-265 | the parameter list has one value per `?` of the SET list plus the id |
| Sql.UpdateSqlPlaceholders | ouvidoria-mvp-final/ouvidoria-backend/server.js:267 | the UPDATE text holds one `?` per parameterised SET item plus the one of `WHERE id = ?` |
| Sql.UpdateArity | ouvidoria-mvp-final/ouvidoria-backend/server.js:243-267 | the number of `?` in the UPDATE text equals `params.length` |
| Sql.ExecSetClauses | ouvidoria-mvp-final/ouvidoria-backend/server.js:246-269 | running the built SET list with the built parameters changes a row exactly as `Patched`: truthy fields replace their columns, an answer stamps `dataResposta`, `updated_at` is stamped, every other column is kept |
| Sql.BuildUpdate | ouvidoria-mvp-final/ouvidoria-backend/server.js:242-267 | the builder's pushes produce exactly the specified SET list and parameter list, the UPDATE text over them, and as many `?` as parameters |
| Sql.SelectSqlPlaceholders | ouvidoria-mvp-final/ouvidoria-backend/server.js:159-173 | the SELECT text holds one `?` per parameter its conditions consume |
| Sql.ListArity | ouvidoria-mvp-final/ouvidoria-backend/server.js:159-171 | the list handler binds exactly one parameter per `?` of its conditions |
| Sql.LikeSearchPattern | ouvidoria-mvp-final/ouvidoria-backend/server.js:168-169 | for a term without LIKE wildcards, `value LIKE '%term%'` holds exactly when the value contains the term |
| Sql.WhereMatches | ouvidoria-mvp-final/ouvidoria-backend/server.js:159-173 | for a wildcard-free search term the query's WHERE clause accepts a row exactly when `Matches` does: status filter only for a present, non-empty status other than 'Todas'; search on assunto, protocolo or cidadao only for a non-empty term |
| Sql.BuildListQuery | ouvidoria-mvp-final/ouvidoria-backend/server.js:157-173 | the builder produces exactly the specified conditions and parameters, the SELECT text over them, and as many `?` as parameters |
| Ordering.SortDesc | ouvidoria-mvp-final/ouvidoria-backend/server.js:173 | the result is sorted by the key in descending order and is a permutation of the input |
| Ordering.InsertSorted | ouvidoria-mvp-final/ouvidoria-backend/server.js:173 | inserting into a descending sequence keeps it descending |
| Database.EntriesOf | ouvidoria-mvp-final/ouvidoria-backend/server.js:377 | `WHERE manifestacao_id = ?` keeps exactly the log entries of that id |
| Database.Without | ouvidoria-mvp-final/ouvidoria-backend/server.js:308 | the history DELETE keeps exactly the log entries of other ids |
| Database.HistoryPartition | ouvidoria-mvp-final/ouvidoria-backend/server.js:308 | the deleted entries and the kept entries together are the old log, as a multiset |
| Database.WithoutKeepsOthers | ouvidoria-mvp-final/ouvidoria-backend/server.js:308 | deleting one case's history leaves every other case's history exactly as it was, in order |
| Database.Selected | ouvidoria-mvp-final/ouvidoria-backend/server.js:159-175 | the table scan returns exactly the stored rows the WHERE clause accepts |
| Database.SelectedMatches | ouvidoria-mvp-final/ouvidoria-backend/server.js:159-175 | for a wildcard-free term the scan returns exactly the stored rows that `Matches` accepts |
| Database.ExecKeepsKey | ouvidoria-mvp-final/ouvidoria-backend/server.js:246-267 | an UPDATE's SET list never changes a row's id or protocol |
| Database.Store.constructor | ouvidoria-mvp-final/ouvidoria-backend/server.js:27-68 | a new database has empty tables and both counters at 1 |
| Database.Store.Record | ouvidoria-mvp-final/ouvidoria-backend/server.js:229-232 | a history insert appends one entry under a never-used id and changes nothing else |
| Database.Store.Get | ouvidoria-mvp-final/ouvidoria-backend/server.js:185-195 | a row comes back exactly when one is stored under the id (otherwise the 404), and it carries that id |
| Database.Store.Insert | ouvidoria-mvp-final/ouvidoria-backend/server.js:207-221 | the INSERT fails with the first missing NOT NULL column, else with the UNIQUE protocol index, leaving the table unchanged; otherwise it stores `NewRow` under the next never-used id and returns that id |
| Database.Store.Create | ouvidoria-mvp-final/ouvidoria-backend/server.js:198-238 | a failed create changes neither table; a successful one adds exactly one row under a fresh id with status 'Nova' and `diasRestantes = prazoLegal`, and exactly one 'Manifestação registrada' entry by 'Sistema' for that id |
| Database.Store.RunUpdate | ouvidoria-mvp-final/ouvidoria-backend/server.js:267-269 | for a statement with exactly one parameter per `?`, the UPDATE applies its SET list to the row named by the `WHERE id = ?` parameter, if there is one, and to no other row |
| Database.Store.RecordUpdate | ouvidoria-mvp-final/ouvidoria-backend/server.js:273-285 | the edit handler's inserts append exactly `UpdateEvents` to the history |
| Database.Store.Update | ouvidoria-mvp-final/ouvidoria-backend/server.js:241-297 | the row under the id becomes `Patched` and no other row changes; the history grows by exactly `UpdateEvents` even when no row has the id; the answer is the patched row, or none when there is no row |
| Database.Store.Delete | ouvidoria-mvp-final/ouvidoria-backend/server.js:300-312 | not-found exactly when no row has the id, and then nothing changes; otherwise that row and every history entry of that id go, and everything else stays |
| Database.Store.List | ouvidoria-mvp-final/ouvidoria-backend/server.js:156-182 | the result is ordered by `dataAbertura` descending and is a permutation of the rows the query selects; for a wildcard-free term those are exactly the stored rows that `Matches` accepts |
| Database.Store.History | ouvidoria-mvp-final/ouvidoria-backend/server.js:375-387 | the result is ordered by `data` descending and holds exactly that id's entries, each as often as it is logged |

## Left out

- HTTP transport is not modelled: Express routing, CORS, body parsing, static files, status codes and JSON responses, logging, and the SQLite connection and shutdown. Each handler is a method, and its HTTP outcome is its result value.
- Storage failures other than the constraint errors (the 500 paths) are left out, because they come from the environment.
- Asynchrony is left out. Each handler runs as one sequential step, so history writes the source fires and forgets cannot interleave with other requests or fail on their own.
- Clocks are inputs. One `now` per handler stands for every CURRENT_TIMESTAMP that handler evaluates, and the four readings of the protocol expression are one `Clock` value.
- The statistics endpoint and the seed-data fixture are not part of this model. They hold no handler logic of their own.
- The DDL is represented by the row datatypes; the CREATE TABLE statements themselves are left out.
- Sql.Like: LIKE is case-sensitive here, whereas SQLite folds the case of ASCII letters. So `Store.List` and `WhereMatches` are exact only for case-sensitive matches. Wildcard characters in the term are kept as LIKE wildcards, but the property linking the query to `Matches` is stated only for wildcard-free terms.
- Database.Store.Create: body fields are strings or absent, and `prazoLegal` is an integer or absent. A JSON number or boolean for a text column, or a `prazoLegal` given as text or as a fraction (stored by SQLite as 20 or as REAL), is not modelled.
- Database.Store.Update: patch fields are strings or absent. JSON numbers, booleans or arrays as field values are not modelled.
- Database.Store.List: query-string values are strings or absent. Repeated query keys, which Express turns into arrays, are not modelled.
- Database.Store.Get: route ids are integers. A non-numeric `:id` is not modelled; SQLite would compare it as text, and an edit would log history under that text.
- Database.Store.List: results with equal `dataAbertura`, and history entries with equal `data`, may come back in any order; SQLite does not fix their relative order.
- Protocols.ProtocolParts: dates before year 1000 or after 9999, and clocks below 10000 ms, are excluded from the stated format, because then the protocol is not 13 characters. The `Protocol` function itself covers every input.
