/**
 * The two statements the handlers assemble at run time, the UPDATE of the
 * edit handler and the SELECT of the list handler, as clause lists with
 * positional parameters; their SQL text; and what SQLite does when it runs
 * them, so that the builders can be proved to mean what the handlers intend.
 */
module Sql {
  import opened Wrappers
  import opened Digits
  import opened Schema
  import opened Lifecycle

  /** A value bound to a `?` placeholder. */
  datatype SqlValue = Text(text: string) | Integer(n: int)

  /** What a TEXT column holds after a bound value is stored in it (TEXT affinity). */
  function AsText(v: SqlValue): string
  {
    match v
    case Text(s) => s
    case Integer(n) => if n >= 0 then Decimal(n) else "-" + Decimal(-n)
  }

  const Placeholder := "?"

  /** The number of `?` characters in a statement's text. */
  function CountPlaceholders(s: string): nat
  {
    if s == [] then 0
    else CountPlaceholders(s[..|s| - 1]) + (if s[|s| - 1] == '?' then 1 else 0)
  }

  lemma {:induction false} CountAppend(a: string, b: string)
    ensures CountPlaceholders(a + b) == CountPlaceholders(a) + CountPlaceholders(b)
  {
    if b != [] {
      assert (a + b)[..|a + b| - 1] == a + b[..|b| - 1];
      CountAppend(a, b[..|b| - 1]);
    } else {
      assert a + b == a;
    }
  }

  lemma {:induction false} CountNone(s: string)
    requires '?' !in s
    ensures CountPlaceholders(s) == 0
  {
    if s != [] {
      assert s[|s| - 1] in s;
      assert forall c :: c in s[..|s| - 1] ==> c in s;
      CountNone(s[..|s| - 1]);
    }
  }

  // ----- UPDATE manifestacoes SET ... WHERE id = ? -----

  /** The columns an update assigns from a bound parameter. */
  datatype TextColumn = Status | Resposta | Responsavel | Prioridade

  /** The columns an update sets to CURRENT_TIMESTAMP. */
  datatype TimeColumn = DataResposta | UpdatedAt

  /** One `column = value` item of the SET list. */
  datatype SetClause = SetParam(column: TextColumn) | SetNow(timeColumn: TimeColumn)

  function TextColumnName(c: TextColumn): string
  {
    match c
    case Status => "status"
    case Resposta => "resposta"
    case Responsavel => "responsavel"
    case Prioridade => "prioridade"
  }

  function TimeColumnName(c: TimeColumn): string
  {
    match c
    case DataResposta => "dataResposta"
    case UpdatedAt => "updated_at"
  }

  function ClauseSql(c: SetClause): string
  {
    match c
    case SetParam(col) => TextColumnName(col) + " = " + Placeholder
    case SetNow(col) => TimeColumnName(col) + " = CURRENT_TIMESTAMP"
  }

  /** `updates.join(', ')`. */
  function JoinClauses(cs: seq<SetClause>): string
  {
    if cs == [] then ""
    else if |cs| == 1 then ClauseSql(cs[0])
    else JoinClauses(cs[..|cs| - 1]) + ", " + ClauseSql(cs[|cs| - 1])
  }

  const UpdateHead := "UPDATE manifestacoes SET "
  const UpdateWhere := " WHERE id = "

  function UpdateSql(cs: seq<SetClause>): string
  {
    UpdateHead + JoinClauses(cs) + UpdateWhere + Placeholder
  }

  lemma UpdateLiterals()
    ensures CountPlaceholders(UpdateHead) == 0 && CountPlaceholders(UpdateWhere) == 0
  {
    CountNone(UpdateHead);
    CountNone(UpdateWhere);
  }

  /** The number of parameters a SET list consumes. */
  function Placeholders(cs: seq<SetClause>): nat
  {
    if cs == [] then 0 else (if cs[0].SetParam? then 1 else 0) + Placeholders(cs[1..])
  }

  lemma {:induction false} PlaceholdersAppend(a: seq<SetClause>, b: seq<SetClause>)
    ensures Placeholders(a + b) == Placeholders(a) + Placeholders(b)
  {
    if a != [] {
      assert (a + b)[1..] == a[1..] + b;
      PlaceholdersAppend(a[1..], b);
    } else {
      assert a + b == b;
    }
  }

  lemma ClausePlaceholders(c: SetClause)
    ensures CountPlaceholders(ClauseSql(c)) == Placeholders([c])
  {
    assert Placeholders([c]) == if c.SetParam? then 1 else 0;
    match c
    case SetParam(col) =>
      CountNone(TextColumnName(col) + " = ");
      CountAppend(TextColumnName(col) + " = ", Placeholder);
    case SetNow(col) =>
      CountNone(ClauseSql(c));
  }

  lemma {:induction false} JoinPlaceholders(cs: seq<SetClause>)
    ensures CountPlaceholders(JoinClauses(cs)) == Placeholders(cs)
  {
    if |cs| == 1 {
      ClausePlaceholders(cs[0]);
    } else if |cs| > 1 {
      var init, last := cs[..|cs| - 1], cs[|cs| - 1];
      assert cs == init + [last];
      JoinPlaceholders(init);
      ClausePlaceholders(last);
      CountAppend(JoinClauses(init) + ", ", ClauseSql(last));
      CountAppend(JoinClauses(init), ", ");
      CountNone(", ");
      PlaceholdersAppend(init, [last]);
    }
  }

  /** The UPDATE text has one `?` per SET parameter plus the one of `WHERE id = ?`. */
  lemma UpdateSqlPlaceholders(cs: seq<SetClause>)
    ensures CountPlaceholders(UpdateSql(cs)) == Placeholders(cs) + 1
  {
    JoinPlaceholders(cs);
    UpdateLiterals();
    CountAppend(UpdateHead, JoinClauses(cs));
    CountAppend(UpdateHead + JoinClauses(cs), UpdateWhere);
    CountAppend(UpdateHead + JoinClauses(cs) + UpdateWhere, Placeholder);
  }


  /** The position of a clause in the handler's fixed order. */
  function Rank(c: SetClause): nat
  {
    match c
    case SetParam(Status) => 0
    case SetParam(Resposta) => 1
    case SetNow(DataResposta) => 2
    case SetParam(Responsavel) => 3
    case SetParam(Prioridade) => 4
    case SetNow(UpdatedAt) => 5
  }

  /** `[x]` when `b`, else `[]`: one conditional `push`. */
  function Opt<T>(b: bool, x: T): seq<T>
  {
    if b then [x] else []
  }

  /**
   * The SET list the edit handler builds: status, answer (with its
   * timestamp), assignee and priority when truthy, in that order, and
   * always `updated_at` last.
   */
  function SetClauses(p: Patch): (cs: seq<SetClause>)
    ensures |cs| >= 1 && cs[|cs| - 1] == SetNow(UpdatedAt)
  {
    Opt(Truthy(p.status), SetParam(Status))
    + (Opt(Truthy(p.resposta), SetParam(Resposta))
    + (Opt(Truthy(p.resposta), SetNow(DataResposta))
    + (Opt(Truthy(p.responsavel), SetParam(Responsavel))
    + (Opt(Truthy(p.prioridade), SetParam(Prioridade))
    + [SetNow(UpdatedAt)]))))
  }

  /** The value a truthy field binds; `""` stands in for one that is not pushed. */
  function Bound(v: Option<string>): SqlValue
  {
    Text(if v.Some? then v.value else "")
  }

  /** The parameter list that goes with `SetClauses(p)`: the truthy values in the same order, then the id. */
  function SetParams(p: Patch, id: int): (ps: seq<SqlValue>)
    ensures |ps| >= 1 && ps[|ps| - 1] == Integer(id)
  {
    Opt(Truthy(p.status), Bound(p.status))
    + (Opt(Truthy(p.resposta), Bound(p.resposta))
    + (Opt(Truthy(p.responsavel), Bound(p.responsavel))
    + (Opt(Truthy(p.prioridade), Bound(p.prioridade))
    + [Integer(id)])))
  }

  predicate Ascending(cs: seq<SetClause>)
  {
    forall i, j :: 0 <= i < j < |cs| ==> Rank(cs[i]) < Rank(cs[j])
  }

  /** Every rank in `cs` lies in `[lo, hi)`. */
  predicate RanksIn(cs: seq<SetClause>, lo: nat, hi: nat)
  {
    forall i :: 0 <= i < |cs| ==> lo <= Rank(cs[i]) < hi
  }

  lemma AscendingAppend(a: seq<SetClause>, b: seq<SetClause>, lo: nat, mid: nat, hi: nat)
    requires lo <= mid <= hi
    requires Ascending(a) && RanksIn(a, lo, mid)
    requires Ascending(b) && RanksIn(b, mid, hi)
    ensures Ascending(a + b) && RanksIn(a + b, lo, hi)
  {
    forall i | 0 <= i < |a + b|
      ensures lo <= Rank((a + b)[i]) < hi
    {
      if i >= |a| {
        assert (a + b)[i] == b[i - |a|];
      }
    }
    forall i, j | 0 <= i < j < |a + b|
      ensures Rank((a + b)[i]) < Rank((a + b)[j])
    {
      if j < |a| {
      } else if i >= |a| {
        assert (a + b)[i] == b[i - |a|] && (a + b)[j] == b[j - |a|];
      } else {
        assert (a + b)[i] == a[i] && (a + b)[j] == b[j - |a|];
      }
    }
  }

  /** The SET list keeps the handler's fixed order. */
  lemma SetClausesOrder(p: Patch)
    ensures Ascending(SetClauses(p))
  {
    var s := Opt(Truthy(p.status), SetParam(Status));
    var r := Opt(Truthy(p.resposta), SetParam(Resposta));
    var d := Opt(Truthy(p.resposta), SetNow(DataResposta));
    var a := Opt(Truthy(p.responsavel), SetParam(Responsavel));
    var q := Opt(Truthy(p.prioridade), SetParam(Prioridade));
    var u := [SetNow(UpdatedAt)];
    AscendingAppend(q, u, 4, 5, 6);
    AscendingAppend(a, q + u, 3, 4, 6);
    AscendingAppend(d, a + (q + u), 2, 3, 6);
    AscendingAppend(r, d + (a + (q + u)), 1, 2, 6);
    AscendingAppend(s, r + (d + (a + (q + u))), 0, 1, 6);
  }

  /** Whether the handler asks for a SET item: its field is truthy; `updated_at` always. */
  predicate Wanted(p: Patch, c: SetClause)
  {
    match c
    case SetParam(Status) => Truthy(p.status)
    case SetParam(Resposta) => Truthy(p.resposta)
    case SetNow(DataResposta) => Truthy(p.resposta)
    case SetParam(Responsavel) => Truthy(p.responsavel)
    case SetParam(Prioridade) => Truthy(p.prioridade)
    case SetNow(UpdatedAt) => true
  }

  /** A SET item is in the list exactly when the handler asks for it. */
  lemma SetClausesPresent(p: Patch, c: SetClause)
    ensures c in SetClauses(p) <==> Wanted(p, c)
  {
    var s := Opt(Truthy(p.status), SetParam(Status));
    var r := Opt(Truthy(p.resposta), SetParam(Resposta));
    var d := Opt(Truthy(p.resposta), SetNow(DataResposta));
    var a := Opt(Truthy(p.responsavel), SetParam(Responsavel));
    var q := Opt(Truthy(p.prioridade), SetParam(Prioridade));
    var u := [SetNow(UpdatedAt)];
    assert SetClauses(p) == s + (r + (d + (a + (q + u))));
    assert c in SetClauses(p) <==> c in s || c in r || c in d || c in a || c in q || c in u;
    match c
    case SetParam(Status) => assert c !in r + d + a + q + u;
    case SetParam(Resposta) => assert c !in s + d + a + q + u;
    case SetNow(DataResposta) => assert c !in s + r + a + q + u;
    case SetParam(Responsavel) => assert c !in s + r + d + q + u;
    case SetParam(Prioridade) => assert c !in s + r + d + a + u;
    case SetNow(UpdatedAt) => assert c in u;
  }

  /** The effect of one SET item on a row. */
  function AssignText(m: Manifestation, c: TextColumn, v: string): Manifestation
  {
    match c
    case Status => m.(status := v)
    case Resposta => m.(resposta := Some(v))
    case Responsavel => m.(responsavel := Some(v))
    case Prioridade => m.(prioridade := Some(v))
  }

  function AssignNow(m: Manifestation, c: TimeColumn, now: Timestamp): Manifestation
  {
    match c
    case DataResposta => m.(dataResposta := Some(now))
    case UpdatedAt => m.(updatedAt := now)
  }

  /**
   * SQLite running a SET list on a matched row: items left to right, each
   * `?` taking the next parameter, CURRENT_TIMESTAMP the statement's clock.
   */
  function Exec(m: Manifestation, cs: seq<SetClause>, ps: seq<SqlValue>, now: Timestamp): Manifestation
    requires Placeholders(cs) <= |ps|
    decreases |cs|
  {
    if cs == [] then m
    else match cs[0]
      case SetParam(col) => Exec(AssignText(m, col, AsText(ps[0])), cs[1..], ps[1..], now)
      case SetNow(col) => Exec(AssignNow(m, col, now), cs[1..], ps, now)
  }

  /** `AssignText` when `b`; otherwise the column keeps its value. */
  function PutText(m: Manifestation, c: TextColumn, b: bool, v: string): Manifestation
  {
    match c
    case Status => m.(status := if b then v else m.status)
    case Resposta => m.(resposta := if b then Some(v) else m.resposta)
    case Responsavel => m.(responsavel := if b then Some(v) else m.responsavel)
    case Prioridade => m.(prioridade := if b then Some(v) else m.prioridade)
  }

  /** `AssignNow` when `b`; otherwise the column keeps its value. */
  function PutNow(m: Manifestation, c: TimeColumn, b: bool, now: Timestamp): Manifestation
  {
    match c
    case DataResposta => m.(dataResposta := if b then Some(now) else m.dataResposta)
    case UpdatedAt => m.(updatedAt := if b then now else m.updatedAt)
  }

  /** A conditional SET item bound to a conditional parameter. */
  lemma ExecParamOpt(m: Manifestation, b: bool, col: TextColumn, v: SqlValue,
                     rest: seq<SetClause>, ps: seq<SqlValue>, now: Timestamp)
    requires Placeholders(rest) <= |ps|
    ensures Placeholders(Opt(b, SetParam(col)) + rest) == (if b then 1 else 0) + Placeholders(rest)
    ensures Exec(m, Opt(b, SetParam(col)) + rest, Opt(b, v) + ps, now)
         == Exec(PutText(m, col, b, AsText(v)), rest, ps, now)
  {
    if b {
      var cs, vs := [SetParam(col)] + rest, [v] + ps;
      assert cs[0] == SetParam(col) && cs[1..] == rest;
      assert vs[0] == v && vs[1..] == ps;
      assert PutText(m, col, b, AsText(v)) == AssignText(m, col, AsText(v));
    } else {
      assert Opt(b, SetParam(col)) + rest == rest;
      assert Opt(b, v) + ps == ps;
      assert PutText(m, col, b, AsText(v)) == m;
    }
  }

  /** A conditional CURRENT_TIMESTAMP item. */
  lemma ExecNowOpt(m: Manifestation, b: bool, col: TimeColumn,
                   rest: seq<SetClause>, ps: seq<SqlValue>, now: Timestamp)
    requires Placeholders(rest) <= |ps|
    ensures Placeholders(Opt(b, SetNow(col)) + rest) == Placeholders(rest)
    ensures Exec(m, Opt(b, SetNow(col)) + rest, ps, now) == Exec(PutNow(m, col, b, now), rest, ps, now)
  {
    if b {
      var cs := [SetNow(col)] + rest;
      assert cs[0] == SetNow(col) && cs[1..] == rest;
      assert PutNow(m, col, b, now) == AssignNow(m, col, now);
    } else {
      assert Opt(b, SetNow(col)) + rest == rest;
      assert PutNow(m, col, b, now) == m;
    }
  }

  /** A conditional SET item consumes a parameter exactly when it is present and bound. */
  lemma PlaceholdersOpt(b: bool, c: SetClause, rest: seq<SetClause>)
    ensures Placeholders(Opt(b, c) + rest) == (if b && c.SetParam? then 1 else 0) + Placeholders(rest)
  {
    if b {
      assert ([c] + rest)[1..] == rest;
    } else {
      assert Opt(b, c) + rest == rest;
    }
  }

  /** One parameter per `?` of the SET list, and one more for the id. */
  lemma SetArity(p: Patch, id: int)
    ensures Placeholders(SetClauses(p)) + 1 == |SetParams(p, id)|
  {
    var st, rs, rv, pr := Truthy(p.status), Truthy(p.resposta), Truthy(p.responsavel), Truthy(p.prioridade);
    var u := [SetNow(UpdatedAt)];
    var q := Opt(pr, SetParam(Prioridade)) + u;
    var a := Opt(rv, SetParam(Responsavel)) + q;
    var d := Opt(rs, SetNow(DataResposta)) + a;
    var r := Opt(rs, SetParam(Resposta)) + d;
    assert u[1..] == [];
    PlaceholdersOpt(pr, SetParam(Prioridade), u);
    PlaceholdersOpt(rv, SetParam(Responsavel), q);
    PlaceholdersOpt(rs, SetNow(DataResposta), a);
    PlaceholdersOpt(rs, SetParam(Resposta), d);
    PlaceholdersOpt(st, SetParam(Status), r);
  }

  /** The SET items' effects, one column after another, add up to `Patched`. */
  lemma PutsPatched(m: Manifestation, p: Patch, now: Timestamp)
    ensures PutText(PutText(PutNow(PutText(PutText(m,
              Status, Truthy(p.status), AsText(Bound(p.status))),
              Resposta, Truthy(p.resposta), AsText(Bound(p.resposta))),
              DataResposta, Truthy(p.resposta), now),
              Responsavel, Truthy(p.responsavel), AsText(Bound(p.responsavel))),
              Prioridade, Truthy(p.prioridade), AsText(Bound(p.prioridade))).(updatedAt := now)
         == Patched(m, p, now)
  {
  }

  /**
   * Running the handler's SET list with its parameter list changes a row
   * exactly as `Patched` says: every value lands in its own column.
   */
  lemma ExecSetClauses(m: Manifestation, p: Patch, id: int, now: Timestamp)
    ensures Placeholders(SetClauses(p)) + 1 == |SetParams(p, id)|
    ensures Exec(m, SetClauses(p), SetParams(p, id), now) == Patched(m, p, now)
  {
    SetArity(p, id);
    var st, rs, rv, pr := Truthy(p.status), Truthy(p.resposta), Truthy(p.responsavel), Truthy(p.prioridade);
    var u := [SetNow(UpdatedAt)];
    var q := Opt(pr, SetParam(Prioridade)) + u;
    var a := Opt(rv, SetParam(Responsavel)) + q;
    var d := Opt(rs, SetNow(DataResposta)) + a;
    var r := Opt(rs, SetParam(Resposta)) + d;
    var last := [Integer(id)];
    var qp := Opt(pr, Bound(p.prioridade)) + last;
    var ap := Opt(rv, Bound(p.responsavel)) + qp;
    var rp := Opt(rs, Bound(p.resposta)) + ap;
    assert u[0] == SetNow(UpdatedAt) && u[1..] == [];
    assert Placeholders(u) == 0;
    var m1 := PutText(m, Status, st, AsText(Bound(p.status)));
    var m2 := PutText(m1, Resposta, rs, AsText(Bound(p.resposta)));
    var m3 := PutNow(m2, DataResposta, rs, now);
    var m4 := PutText(m3, Responsavel, rv, AsText(Bound(p.responsavel)));
    var m5 := PutText(m4, Prioridade, pr, AsText(Bound(p.prioridade)));
    ExecParamOpt(m4, pr, Prioridade, Bound(p.prioridade), u, last, now);
    ExecParamOpt(m3, rv, Responsavel, Bound(p.responsavel), q, qp, now);
    ExecNowOpt(m2, rs, DataResposta, a, ap, now);
    ExecParamOpt(m1, rs, Resposta, Bound(p.resposta), d, ap, now);
    ExecParamOpt(m, st, Status, Bound(p.status), r, rp, now);
    assert Exec(m5, u, last, now) == m5.(updatedAt := now);
    PutsPatched(m, p, now);
  }

  /** The edit handler's statement has exactly as many `?`s as parameters. */
  lemma UpdateArity(p: Patch, id: int)
    ensures CountPlaceholders(UpdateSql(SetClauses(p))) == |SetParams(p, id)|
  {
    UpdateSqlPlaceholders(SetClauses(p));
    SetArity(p, id);
  }

  /** Associativity steps for the builder proofs. */
  lemma Regroup<T>(s: seq<T>, r: seq<T>, d: seq<T>, a: seq<T>, q: seq<T>, u: seq<T>)
    ensures s + r + d + a + q + u == s + (r + (d + (a + (q + u))))
  {
  }

  lemma Regroup5<T>(s: seq<T>, r: seq<T>, a: seq<T>, q: seq<T>, u: seq<T>)
    ensures s + r + a + q + u == s + (r + (a + (q + u)))
  {
  }

  /** One `if (field) { updates.push(...); ... }` block: `ys` appended when `b`. */
  function Step<T>(xs: seq<T>, b: bool, ys: seq<T>): seq<T>
  {
    if b then xs + ys else xs
  }

  /** The handler's pushes, block by block, spell out the SET list. */
  lemma {:induction false} SetClausesSteps(p: Patch)
    ensures SetClauses(p)
      == Step(Step(Step(Step([], Truthy(p.status), [SetParam(Status)]),
           Truthy(p.resposta), [SetParam(Resposta), SetNow(DataResposta)]),
           Truthy(p.responsavel), [SetParam(Responsavel)]),
           Truthy(p.prioridade), [SetParam(Prioridade)])
         + [SetNow(UpdatedAt)]
  {
    var s := Opt(Truthy(p.status), SetParam(Status));
    var r := Opt(Truthy(p.resposta), SetParam(Resposta));
    var d := Opt(Truthy(p.resposta), SetNow(DataResposta));
    var a := Opt(Truthy(p.responsavel), SetParam(Responsavel));
    var q := Opt(Truthy(p.prioridade), SetParam(Prioridade));
    var u := [SetNow(UpdatedAt)];
    Regroup(s, r, d, a, q, u);
    assert Step([], Truthy(p.status), [SetParam(Status)]) == s;
    assert Step(s, Truthy(p.resposta), [SetParam(Resposta), SetNow(DataResposta)]) == s + r + d;
    assert Step(s + r + d, Truthy(p.responsavel), [SetParam(Responsavel)]) == s + r + d + a;
    assert Step(s + r + d + a, Truthy(p.prioridade), [SetParam(Prioridade)]) == s + r + d + a + q;
  }

  /** The handler's pushes, block by block, spell out the parameter list. */
  lemma {:induction false} SetParamsSteps(p: Patch, id: int)
    ensures SetParams(p, id)
      == Step(Step(Step(Step([], Truthy(p.status), [Bound(p.status)]),
           Truthy(p.resposta), [Bound(p.resposta)]),
           Truthy(p.responsavel), [Bound(p.responsavel)]),
           Truthy(p.prioridade), [Bound(p.prioridade)])
         + [Integer(id)]
  {
    var s := Opt(Truthy(p.status), Bound(p.status));
    var r := Opt(Truthy(p.resposta), Bound(p.resposta));
    var a := Opt(Truthy(p.responsavel), Bound(p.responsavel));
    var q := Opt(Truthy(p.prioridade), Bound(p.prioridade));
    var u := [Integer(id)];
    Regroup5(s, r, a, q, u);
    assert Step([], Truthy(p.status), [Bound(p.status)]) == s;
    assert Step(s, Truthy(p.resposta), [Bound(p.resposta)]) == s + r;
    assert Step(s + r, Truthy(p.responsavel), [Bound(p.responsavel)]) == s + r + a;
    assert Step(s + r + a, Truthy(p.prioridade), [Bound(p.prioridade)]) == s + r + a + q;
  }

  /**
   * The edit handler's statement builder: it pushes one SET item and one
   * parameter per truthy field, then `updated_at` and the id.
   */
  method BuildUpdate(p: Patch, id: int) returns (updates: seq<SetClause>, params: seq<SqlValue>, sql: string)
    ensures updates == SetClauses(p) && params == SetParams(p, id)
    ensures sql == UpdateSql(updates)
    ensures CountPlaceholders(sql) == |params|
  {
    updates, params := [], [];
    ghost var u0, p0 := updates, params;
    if Truthy(p.status) {
      updates := updates + [SetParam(Status)];
      params := params + [Text(p.status.value)];
    }
    assert updates == Step(u0, Truthy(p.status), [SetParam(Status)]);
    assert params == Step(p0, Truthy(p.status), [Bound(p.status)]);
    ghost var u1, p1 := updates, params;
    if Truthy(p.resposta) {
      updates := updates + [SetParam(Resposta)];
      params := params + [Text(p.resposta.value)];
      updates := updates + [SetNow(DataResposta)];
    }
    assert updates == Step(u1, Truthy(p.resposta), [SetParam(Resposta), SetNow(DataResposta)]);
    assert params == Step(p1, Truthy(p.resposta), [Bound(p.resposta)]);
    ghost var u2, p2 := updates, params;
    if Truthy(p.responsavel) {
      updates := updates + [SetParam(Responsavel)];
      params := params + [Text(p.responsavel.value)];
    }
    assert updates == Step(u2, Truthy(p.responsavel), [SetParam(Responsavel)]);
    assert params == Step(p2, Truthy(p.responsavel), [Bound(p.responsavel)]);
    ghost var u3, p3 := updates, params;
    if Truthy(p.prioridade) {
      updates := updates + [SetParam(Prioridade)];
      params := params + [Text(p.prioridade.value)];
    }
    assert updates == Step(u3, Truthy(p.prioridade), [SetParam(Prioridade)]);
    assert params == Step(p3, Truthy(p.prioridade), [Bound(p.prioridade)]);
    updates := updates + [SetNow(UpdatedAt)];
    params := params + [Integer(id)];
    SetClausesSteps(p);
    SetParamsSteps(p, id);
    sql := UpdateSql(updates);
    UpdateArity(p, id);
  }

  // ----- SELECT * FROM manifestacoes WHERE 1=1 ... ORDER BY dataAbertura DESC -----

  /** One optional condition of the list query. */
  datatype Condition = StatusEquals | SearchAnyField

  function ConditionSql(c: Condition): string
  {
    match c
    case StatusEquals => " AND status = " + Placeholder
    case SearchAnyField =>
      " AND (assunto LIKE " + Placeholder + " OR protocolo LIKE " + Placeholder
      + " OR cidadao LIKE " + Placeholder + ")"
  }

  /** The number of parameters a condition consumes. */
  function Arity(c: Condition): nat
  {
    match c
    case StatusEquals => 1
    case SearchAnyField => 3
  }

  function Arities(cs: seq<Condition>): nat
  {
    if cs == [] then 0 else Arity(cs[0]) + Arities(cs[1..])
  }

  function Conditions(cs: seq<Condition>): string
  {
    if cs == [] then "" else ConditionSql(cs[0]) + Conditions(cs[1..])
  }

  const SelectHead := "SELECT * FROM manifestacoes WHERE 1=1"
  const SelectTail := " ORDER BY dataAbertura DESC"

  function SelectSql(cs: seq<Condition>): string
  {
    SelectHead + Conditions(cs) + SelectTail
  }

  lemma SelectHeadPlaceholders()
    ensures CountPlaceholders(SelectHead) == 0
  {
    CountNone(SelectHead);
  }

  lemma SelectTailPlaceholders()
    ensures CountPlaceholders(SelectTail) == 0
  {
    CountNone(SelectTail);
  }

  lemma SearchPlaceholders()
    ensures CountPlaceholders(ConditionSql(SearchAnyField)) == 3
  {
    var a, b, d, e := " AND (assunto LIKE ", " OR protocolo LIKE ", " OR cidadao LIKE ", ")";
    CountNone(a);
    CountNone(b);
    CountNone(d);
    CountNone(e);
    var x := a + Placeholder;
    CountAppend(a, Placeholder);
    var y := x + b + Placeholder;
    CountAppend(x, b);
    CountAppend(x + b, Placeholder);
    var z := y + d + Placeholder;
    CountAppend(y, d);
    CountAppend(y + d, Placeholder);
    CountAppend(z, e);
    assert ConditionSql(SearchAnyField) == z + e;
  }

  lemma ConditionPlaceholders(c: Condition)
    ensures CountPlaceholders(ConditionSql(c)) == Arity(c)
  {
    match c
    case StatusEquals =>
      CountNone(" AND status = ");
      CountAppend(" AND status = ", Placeholder);
    case SearchAnyField =>
      SearchPlaceholders();
  }

  lemma {:induction false} ConditionsPlaceholders(cs: seq<Condition>)
    ensures CountPlaceholders(Conditions(cs)) == Arities(cs)
  {
    if cs != [] {
      ConditionPlaceholders(cs[0]);
      ConditionsPlaceholders(cs[1..]);
      CountAppend(ConditionSql(cs[0]), Conditions(cs[1..]));
    }
  }

  /** The list query has one `?` per parameter its conditions consume. */
  lemma SelectSqlPlaceholders(cs: seq<Condition>)
    ensures CountPlaceholders(SelectSql(cs)) == Arities(cs)
  {
    ConditionsPlaceholders(cs);
    SelectHeadPlaceholders();
    SelectTailPlaceholders();
    CountAppend(SelectHead, Conditions(cs));
    CountAppend(SelectHead + Conditions(cs), SelectTail);
  }

  /**
   * SQLite's LIKE with `%` matching any run of characters and `_` any one
   * character; other characters match themselves.
   */
  predicate Like(v: string, pat: string)
    decreases |v| + |pat|
  {
    if pat == [] then v == []
    else if pat[0] == '%' then Like(v, pat[1..]) || (|v| > 0 && Like(v[1..], pat))
    else |v| > 0 && (pat[0] == '_' || v[0] == pat[0]) && Like(v[1..], pat[1..])
  }

  /** A search term without LIKE wildcards. */
  predicate Plain(t: string)
  {
    '%' !in t && '_' !in t
  }

  /** The pattern the list handler binds for a search term. */
  function SearchPattern(term: string): string
  {
    "%" + term + "%"
  }

  lemma {:induction false} LikeAnything(v: string)
    ensures Like(v, "%")
  {
    assert "%"[1..] == [];
    if v != [] {
      LikeAnything(v[1..]);
    }
  }

  lemma {:induction false} LikePrefix(v: string, t: string)
    requires Plain(t)
    ensures Like(v, t + "%") <==> t <= v
  {
    if t == [] {
      assert t + "%" == "%";
      LikeAnything(v);
    } else {
      var pat := t + "%";
      assert pat[0] == t[0] && pat[1..] == t[1..] + "%";
      assert t[0] in t;
      assert forall c :: c in t[1..] ==> c in t;
      if |v| > 0 {
        LikePrefix(v[1..], t[1..]);
        if t[0] == v[0] && t[1..] <= v[1..] {
          assert t == [t[0]] + t[1..] && v == [v[0]] + v[1..];
        }
      }
    }
  }

  /** On a wildcard-free term, the handler's pattern is a substring test. */
  lemma {:induction false} LikeSearchPattern(v: string, t: string)
    requires Plain(t)
    ensures Like(v, SearchPattern(t)) <==> Contains(v, t)
  {
    var pat := SearchPattern(t);
    assert pat[0] == '%' && pat[1..] == t + "%";
    LikePrefix(v, t);
    if v != [] {
      LikeSearchPattern(v[1..], t);
    }
  }

  /** SQLite evaluating a WHERE conjunction on a row, `?`s bound left to right. */
  predicate Where(m: Manifestation, cs: seq<Condition>, ps: seq<SqlValue>)
    requires Arities(cs) <= |ps|
    decreases |cs|
  {
    if cs == [] then true
    else match cs[0]
      case StatusEquals => m.status == AsText(ps[0]) && Where(m, cs[1..], ps[1..])
      case SearchAnyField =>
        (Like(m.assunto, AsText(ps[0])) || Like(m.protocolo, AsText(ps[1]))
         || Like(m.cidadao, AsText(ps[2])))
        && Where(m, cs[1..], ps[3..])
  }

  /** The conditions the list handler appends for its query string. */
  function ListConditions(status: Option<string>, search: Option<string>): seq<Condition>
  {
    Opt(StatusFilterApplies(status), StatusEquals) + Opt(Truthy(search), SearchAnyField)
  }

  /** The parameters it binds: the status, then the search pattern three times. */
  function ListParams(status: Option<string>, search: Option<string>): seq<SqlValue>
  {
    Opt(StatusFilterApplies(status), Text(if status.Some? then status.value else ""))
    + (if Truthy(search) then
         var pat := Text(SearchPattern(search.value)); [pat, pat, pat]
       else [])
  }

  /** The list query's parameters match its placeholders one for one. */
  lemma ListArity(status: Option<string>, search: Option<string>)
    ensures Arities(ListConditions(status, search)) == |ListParams(status, search)|
  {
    var tail := Opt(Truthy(search), SearchAnyField);
    assert Arities(tail) == if Truthy(search) then 3 else 0 by {
      if Truthy(search) {
        assert tail[1..] == [];
      }
    }
    var cs := ListConditions(status, search);
    if StatusFilterApplies(status) {
      assert cs == [StatusEquals] + tail;
      assert cs[0] == StatusEquals && cs[1..] == tail;
    } else {
      assert cs == tail;
    }
  }

  /**
   * The list query keeps exactly the rows `Matches` describes, as long as
   * the search term holds no LIKE wildcard; each parameter reaches its own
   * placeholder.
   */
  lemma WhereMatches(m: Manifestation, status: Option<string>, search: Option<string>)
    requires Truthy(search) ==> Plain(search.value)
    ensures Arities(ListConditions(status, search)) == |ListParams(status, search)|
    ensures Where(m, ListConditions(status, search), ListParams(status, search))
        <==> Matches(m, status, search)
  {
    var sf, sr := StatusFilterApplies(status), Truthy(search);
    var cs, ps := ListConditions(status, search), ListParams(status, search);
    var tail := Opt(sr, SearchAnyField);
    var tailPs := if sr then var pat := Text(SearchPattern(search.value)); [pat, pat, pat] else [];
    assert Arities(tail) == |tailPs| by {
      if sr {
        assert tail[1..] == [];
      }
    }
    assert Where(m, tail, tailPs) <==> (sr ==>
      Contains(m.assunto, search.value) || Contains(m.protocolo, search.value)
      || Contains(m.cidadao, search.value)) by {
      if sr {
        assert tail[0] == SearchAnyField && tail[1..] == [] && tailPs[3..] == [];
        LikeSearchPattern(m.assunto, search.value);
        LikeSearchPattern(m.protocolo, search.value);
        LikeSearchPattern(m.cidadao, search.value);
      }
    }
    if sf {
      assert cs == [StatusEquals] + tail && ps == [Text(status.value)] + tailPs;
      assert cs[0] == StatusEquals && cs[1..] == tail && ps[1..] == tailPs;
    } else {
      assert cs == tail && ps == tailPs;
    }
  }

  lemma Append3(a: string, b: string, c: string)
    ensures a + b + c == a + (b + c)
  {
  }

  /** Appending a condition appends its text and its parameters. */
  lemma {:induction false} ConditionsSnoc(cs: seq<Condition>, c: Condition)
    ensures Conditions(cs + [c]) == Conditions(cs) + ConditionSql(c)
    ensures Arities(cs + [c]) == Arities(cs) + Arity(c)
  {
    var t := cs + [c];
    if cs == [] {
      assert t == [c] && t[1..] == [];
    } else {
      assert t[0] == cs[0] && t[1..] == cs[1..] + [c];
      ConditionsSnoc(cs[1..], c);
      assert Conditions(t) == ConditionSql(cs[0]) + Conditions(cs[1..] + [c]);
      Append3(ConditionSql(cs[0]), Conditions(cs[1..]), ConditionSql(c));
    }
  }

  /**
   * The list handler's query builder: `WHERE 1=1`, then the status and
   * search conditions with their parameters, then the ordering.
   */
  method BuildListQuery(status: Option<string>, search: Option<string>)
    returns (conds: seq<Condition>, params: seq<SqlValue>, sql: string)
    ensures conds == ListConditions(status, search) && params == ListParams(status, search)
    ensures sql == SelectSql(conds)
    ensures CountPlaceholders(sql) == |params|
  {
    var sf, sr := StatusFilterApplies(status), Truthy(search);
    var query := SelectHead;
    conds, params := [], [];
    assert SelectHead + Conditions(conds) == SelectHead;
    if sf {
      ConditionsSnoc(conds, StatusEquals);
      query := query + ConditionSql(StatusEquals);
      conds := conds + [StatusEquals];
      params := params + [Text(status.value)];
    }
    assert query == SelectHead + Conditions(conds) && Arities(conds) == |params|;
    if sr {
      ghost var q0, c0, n0 := query, conds, |params|;
      ConditionsSnoc(conds, SearchAnyField);
      query := query + ConditionSql(SearchAnyField);
      conds := conds + [SearchAnyField];
      var searchTerm := SearchPattern(search.value);
      params := params + [Text(searchTerm), Text(searchTerm), Text(searchTerm)];
      Append3(SelectHead, Conditions(c0), ConditionSql(SearchAnyField));
      assert |params| == n0 + Arity(SearchAnyField);
    }
    sql := query + SelectTail;
    SelectSqlPlaceholders(conds);
  }
}
