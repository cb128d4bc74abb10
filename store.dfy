/**
 * The SQLite database behind the handlers: the `manifestacoes` table keyed
 * by its AUTOINCREMENT id, the `historico` table in insertion order, and
 * the two AUTOINCREMENT counters. Each handler is one method that runs the
 * statements it issues against this state.
 */
module Database {
  import opened Wrappers
  import opened Schema
  import opened Protocols
  import opened Lifecycle
  import opened Sql
  import opened Ordering

  /** The constraint SQLite reports when an INSERT is refused. */
  datatype ConstraintError = NotNull(column: string) | Unique(column: string)

  /** What `this.changes` of the DELETE tells the handler. */
  datatype Deletion = Deleted | NotFound

  function OpenedAt(m: Manifestation): int { m.dataAbertura }

  function LoggedAt(e: HistoryEntry): int { e.data }

  /** Some row already holds protocol `p` (the UNIQUE index on `protocolo`). */
  predicate Taken(rows: map<int, Manifestation>, p: string)
  {
    exists id :: id in rows && rows[id].protocolo == p
  }

  /** `WHERE manifestacao_id = ?`: the entries of one manifestation, in log order. */
  function EntriesOf(s: seq<HistoryEntry>, id: int): (r: seq<HistoryEntry>)
    ensures forall e :: e in r <==> e in s && e.manifestacaoId == id
  {
    if s == [] then []
    else (if s[0].manifestacaoId == id then [s[0]] else []) + EntriesOf(s[1..], id)
  }

  /** The log after `DELETE FROM historico WHERE manifestacao_id = ?`. */
  function Without(s: seq<HistoryEntry>, id: int): (r: seq<HistoryEntry>)
    ensures forall e :: e in r <==> e in s && e.manifestacaoId != id
  {
    if s == [] then []
    else (if s[0].manifestacaoId == id then [] else [s[0]]) + Without(s[1..], id)
  }

  /** Deleting one manifestation's entries splits the log in two: nothing is lost or duplicated. */
  lemma {:induction false} HistoryPartition(s: seq<HistoryEntry>, id: int)
    ensures multiset(EntriesOf(s, id)) + multiset(Without(s, id)) == multiset(s)
  {
    if s != [] {
      HistoryPartition(s[1..], id);
      assert s == [s[0]] + s[1..];
    }
  }

  /** Deleting one manifestation's entries leaves every other manifestation's history as it was. */
  lemma {:induction false} WithoutKeepsOthers(s: seq<HistoryEntry>, id: int, other: int)
    requires other != id
    ensures EntriesOf(Without(s, id), other) == EntriesOf(s, other)
  {
    if s != [] {
      WithoutKeepsOthers(s[1..], id, other);
      var head := if s[0].manifestacaoId == id then [] else [s[0]];
      assert Without(s, id) == head + Without(s[1..], id);
      if s[0].manifestacaoId == id {
        assert head + Without(s[1..], id) == Without(s[1..], id);
      } else {
        assert (head + Without(s[1..], id))[0] == s[0];
        assert (head + Without(s[1..], id))[1..] == Without(s[1..], id);
      }
    }
  }

  /** A full scan of `manifestacoes` in id order, keeping the rows the WHERE clause accepts. */
  function Selected(rows: map<int, Manifestation>, n: int, cs: seq<Condition>, ps: seq<SqlValue>): (r: seq<Manifestation>)
    requires Arities(cs) <= |ps|
    ensures forall m :: m in r <==> exists id :: 1 <= id < n && id in rows && rows[id] == m && Where(m, cs, ps)
    decreases n
  {
    if n <= 1 then []
    else
      Selected(rows, n - 1, cs, ps)
      + (if n - 1 in rows && Where(rows[n - 1], cs, ps) then [rows[n - 1]] else [])
  }

  /**
   * With every row stored under its own id below `n`, the scan keeps
   * exactly the stored rows `Matches` accepts, when the search term holds
   * no LIKE wildcard.
   */
  lemma SelectedMatches(rows: map<int, Manifestation>, n: int, status: Option<string>, search: Option<string>)
    requires forall id :: id in rows ==> 1 <= id < n && rows[id].id == id
    requires Truthy(search) ==> Plain(search.value)
    ensures Arities(ListConditions(status, search)) <= |ListParams(status, search)|
    ensures forall m :: (m in Selected(rows, n, ListConditions(status, search), ListParams(status, search))
      <==> m.id in rows && rows[m.id] == m && Matches(m, status, search))
  {
    var cs, ps := ListConditions(status, search), ListParams(status, search);
    ListArity(status, search);
    forall m
      ensures m in Selected(rows, n, cs, ps) <==> m.id in rows && rows[m.id] == m && Matches(m, status, search)
    {
      WhereMatches(m, status, search);
    }
  }

  /** An UPDATE's SET list never touches the key or the protocol. */
  lemma {:induction false} ExecKeepsKey(m: Manifestation, cs: seq<SetClause>, ps: seq<SqlValue>, now: Timestamp)
    requires Placeholders(cs) <= |ps|
    ensures Exec(m, cs, ps, now).id == m.id && Exec(m, cs, ps, now).protocolo == m.protocolo
    decreases |cs|
  {
    if cs != [] {
      match cs[0]
      case SetParam(col) => ExecKeepsKey(AssignText(m, col, AsText(ps[0])), cs[1..], ps[1..], now);
      case SetNow(col) => ExecKeepsKey(AssignNow(m, col, now), cs[1..], ps, now);
    }
  }

  class Store {
    var rows: map<int, Manifestation>
    var log: seq<HistoryEntry>
    /** The next AUTOINCREMENT id of `manifestacoes`; ids are never reused. */
    var nextRowId: int
    /** The next AUTOINCREMENT id of `historico`. */
    var nextLogId: int

    /**
     * Every row sits under its own id, below the counter; protocols are
     * unique; every log id is below its counter. History entries may name
     * ids that have no row (the schema's foreign key is not enforced).
     */
    ghost predicate Valid()
      reads this
    {
      1 <= nextRowId && 1 <= nextLogId
      && (forall id :: id in rows ==> 1 <= id < nextRowId && rows[id].id == id)
      && (forall a, b :: a in rows && b in rows && rows[a].protocolo == rows[b].protocolo ==> a == b)
      && (forall e :: e in log ==> 1 <= e.id < nextLogId)
    }

    /** A fresh, empty database. */
    constructor ()
      ensures Valid()
      ensures rows == map[] && log == [] && nextRowId == 1 && nextLogId == 1
    {
      rows, log, nextRowId, nextLogId := map[], [], 1, 1;
    }

    /** `INSERT INTO historico (manifestacao_id, evento, usuario) VALUES (?, ?, ?)`. */
    method Record(manifestacaoId: int, evento: string, usuario: string, now: Timestamp)
      requires Valid()
      modifies this
      ensures Valid()
      ensures log == old(log) + [HistoryEntry(old(nextLogId), manifestacaoId, evento, usuario, now)]
      ensures forall e :: e in old(log) ==> e.id < old(nextLogId)
      ensures nextLogId == old(nextLogId) + 1
      ensures rows == old(rows) && nextRowId == old(nextRowId)
    {
      log := log + [HistoryEntry(nextLogId, manifestacaoId, evento, usuario, now)];
      nextLogId := nextLogId + 1;
    }

    /** `SELECT * FROM manifestacoes WHERE id = ?`; `None` is the handler's 404. */
    method Get(id: int) returns (row: Option<Manifestation>)
      requires Valid()
      ensures row.Some? <==> id in rows
      ensures row.Some? ==> row.value == rows[id] && row.value.id == id
    {
      if id in rows {
        row := Some(rows[id]);
      } else {
        row := None;
      }
    }

    /**
     * The create handler. A missing required field fails with the first
     * NOT NULL column in table order; otherwise a protocol already in use
     * fails the UNIQUE index; either failure leaves the database as it
     * was. Otherwise the row is inserted under a never-used id with status
     * 'Nova' and the legal window copied to the remaining days, and one
     * 'Manifestação registrada' entry by 'Sistema' is logged.
     */
    method Create(intake: Intake, clock: Clock, now: Timestamp)
      returns (result: Result<Manifestation, ConstraintError>)
      requires Valid()
      modifies this
      ensures Valid()
      ensures FirstMissing(intake).Some? ==> result == Failure(NotNull(FirstMissing(intake).value))
      ensures FirstMissing(intake).None? && Taken(old(rows), Protocol(clock))
        ==> result == Failure(Unique("protocolo"))
      ensures result.Success? <==> FirstMissing(intake).None? && !Taken(old(rows), Protocol(clock))
      ensures result.Failure? ==>
        rows == old(rows) && log == old(log) && nextRowId == old(nextRowId) && nextLogId == old(nextLogId)
      ensures result.Success? ==>
        && old(nextRowId) !in old(rows)
        && result.value == NewRow(old(nextRowId), Protocol(clock), intake, now)
        && result.value.status == NewStatus
        && result.value.diasRestantes == intake.prazoLegal
        && rows == old(rows)[old(nextRowId) := result.value]
        && log == old(log) + [HistoryEntry(old(nextLogId), old(nextRowId), RegisteredEvent, SystemUser, now)]
        && nextRowId == old(nextRowId) + 1 && nextLogId == old(nextLogId) + 1
    {
      var inserted := Insert(Protocol(clock), intake, now);
      if inserted.Failure? {
        return Failure(inserted.error);
      }
      var row := Get(inserted.value);
      Record(inserted.value, RegisteredEvent, SystemUser, now);
      result := Success(row.value);
    }

    /**
     * `INSERT INTO manifestacoes (...) VALUES (...)` with the create
     * handler's columns: SQLite checks the NOT NULL columns in table order,
     * then the UNIQUE index, and on success stores the row under the next
     * AUTOINCREMENT id, which it returns (`this.lastID`).
     */
    method Insert(protocolo: string, intake: Intake, now: Timestamp)
      returns (result: Result<int, ConstraintError>)
      requires Valid()
      modifies this
      ensures Valid()
      ensures FirstMissing(intake).Some? ==> result == Failure(NotNull(FirstMissing(intake).value))
      ensures FirstMissing(intake).None? && Taken(old(rows), protocolo) ==> result == Failure(Unique("protocolo"))
      ensures result.Success? <==> FirstMissing(intake).None? && !Taken(old(rows), protocolo)
      ensures result.Failure? ==> rows == old(rows) && nextRowId == old(nextRowId)
      ensures result.Success? ==>
        && result.value == old(nextRowId) && result.value !in old(rows)
        && rows == old(rows)[result.value := NewRow(result.value, protocolo, intake, now)]
        && nextRowId == old(nextRowId) + 1
      ensures log == old(log) && nextLogId == old(nextLogId)
    {
      var missing := FirstMissing(intake);
      if missing.Some? {
        return Failure(NotNull(missing.value));
      }
      if exists id | id in rows :: rows[id].protocolo == protocolo {
        return Failure(Unique("protocolo"));
      }
      var lastId := nextRowId;
      rows := rows[lastId := NewRow(lastId, protocolo, intake, now)];
      nextRowId := nextRowId + 1;
      result := Success(lastId);
    }

    /**
     * `db.run` of an UPDATE with one parameter per `?`, the last being the id
     * of `WHERE id = ?`: the row under that id, if any, takes the SET list.
     */
    method RunUpdate(updates: seq<SetClause>, params: seq<SqlValue>, now: Timestamp)
      requires Valid()
      requires Placeholders(updates) + 1 == |params| && params[|params| - 1].Integer?
      modifies this
      ensures Valid()
      ensures var key := params[|params| - 1].n;
        rows == if key in old(rows) then old(rows)[key := Exec(old(rows)[key], updates, params, now)] else old(rows)
      ensures log == old(log) && nextRowId == old(nextRowId) && nextLogId == old(nextLogId)
    {
      var key := params[|params| - 1].n;
      if key in rows {
        ExecKeepsKey(rows[key], updates, params, now);
        rows := rows[key := Exec(rows[key], updates, params, now)];
      }
    }

    /**
     * The edit handler: the built UPDATE runs against the row named by its
     * last parameter, if there is one; then one 'Admin' entry per status
     * change and per reassignment is logged under the requested id whether
     * or not a row was changed; the re-read row is returned.
     */
    method Update(id: int, patch: Patch, now: Timestamp) returns (row: Option<Manifestation>)
      requires Valid()
      modifies this
      ensures Valid()
      ensures rows == if id in old(rows) then old(rows)[id := Patched(old(rows)[id], patch, now)] else old(rows)
      ensures row == if id in old(rows) then Some(Patched(old(rows)[id], patch, now)) else None
      ensures log == old(log) + UpdateEvents(old(nextLogId), id, patch, now)
      ensures nextLogId == old(nextLogId) + |UpdateEvents(old(nextLogId), id, patch, now)|
      ensures nextRowId == old(nextRowId)
    {
      var updates, params, sql := BuildUpdate(patch, id);
      SetArity(patch, id);
      if id in rows {
        ExecSetClauses(rows[id], patch, id, now);
      }
      RunUpdate(updates, params, now);
      RecordUpdate(id, patch, now);
      row := Get(id);
    }

    /** The edit handler's history inserts, made after its UPDATE succeeds. */
    method RecordUpdate(id: int, patch: Patch, now: Timestamp)
      requires Valid()
      modifies this
      ensures Valid()
      ensures log == old(log) + UpdateEvents(old(nextLogId), id, patch, now)
      ensures nextLogId == old(nextLogId) + |UpdateEvents(old(nextLogId), id, patch, now)|
      ensures rows == old(rows) && nextRowId == old(nextRowId)
    {
      ghost var first := nextLogId;
      ghost var s := if Truthy(patch.status)
        then [HistoryEntry(first, id, StatusChangedEvent(patch.status.value), AdminUser, now)]
        else [];
      if Truthy(patch.status) {
        Record(id, StatusChangedEvent(patch.status.value), AdminUser, now);
      }
      assert log == old(log) + s && nextLogId == first + |s|;
      ghost var a := if Truthy(patch.responsavel)
        then [HistoryEntry(first + |s|, id, ForwardedEvent(patch.responsavel.value), AdminUser, now)]
        else [];
      if Truthy(patch.responsavel) {
        Record(id, ForwardedEvent(patch.responsavel.value), AdminUser, now);
      }
      assert log == old(log) + s + a;
      assert UpdateEvents(first, id, patch, now) == s + a;
    }

    /**
     * The delete handler: no row under `id` is the 404 and changes
     * nothing; otherwise the row goes and, in a second statement, every
     * history entry of that id with it. Counters are not rewound.
     */
    method Delete(id: int) returns (outcome: Deletion)
      requires Valid()
      modifies this
      ensures Valid()
      ensures outcome == NotFound <==> id !in old(rows)
      ensures rows == old(rows) - {id}
      ensures log == if id in old(rows) then Without(old(log), id) else old(log)
      ensures nextRowId == old(nextRowId) && nextLogId == old(nextLogId)
    {
      var changes := if id in rows then 1 else 0;
      rows := rows - {id};
      if changes == 0 {
        return NotFound;
      }
      log := Without(log, id);
      return Deleted;
    }

    /**
     * The list handler: the rows its query selects, newest opening date
     * first. For a search term without LIKE wildcards these are exactly
     * the rows of the status asked for (none, empty or 'Todas' meaning any)
     * whose subject, protocol or citizen contains the term.
     */
    method List(status: Option<string>, search: Option<string>) returns (result: seq<Manifestation>)
      requires Valid()
      ensures Arities(ListConditions(status, search)) <= |ListParams(status, search)|
      ensures SortedDesc(result, OpenedAt)
      ensures multiset(result)
        == multiset(Selected(rows, nextRowId, ListConditions(status, search), ListParams(status, search)))
      ensures (Truthy(search) ==> Plain(search.value)) ==>
        forall m :: m in result <==> m.id in rows && rows[m.id] == m && Matches(m, status, search)
    {
      var conds, params, sql := BuildListQuery(status, search);
      SelectSqlPlaceholders(conds);
      result := SortDesc(Selected(rows, nextRowId, conds, params), OpenedAt);
      if Truthy(search) ==> Plain(search.value) {
        SelectedMatches(rows, nextRowId, status, search);
        forall m
          ensures m in result <==> m in Selected(rows, nextRowId, conds, params)
        {
          assert m in multiset(result) <==> m in multiset(Selected(rows, nextRowId, conds, params));
        }
      }
    }

    /** The history handler: the manifestation's entries, latest first. */
    method History(id: int) returns (entries: seq<HistoryEntry>)
      requires Valid()
      ensures SortedDesc(entries, LoggedAt)
      ensures multiset(entries) == multiset(EntriesOf(log, id))
      ensures forall e :: e in entries <==> e in log && e.manifestacaoId == id
    {
      entries := SortDesc(EntriesOf(log, id), LoggedAt);
      forall e
        ensures e in entries <==> e in log && e.manifestacaoId == id
      {
        assert e in entries <==> e in multiset(entries);
        assert e in EntriesOf(log, id) <==> e in multiset(EntriesOf(log, id));
      }
    }
  }
}
