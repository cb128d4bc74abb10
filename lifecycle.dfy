/**
 * What the handlers do to a record and to the audit trail, stated
 * directly on the records: the reference the SQL statements and the store
 * are proved against.
 */
module Lifecycle {
  import opened Wrappers
  import opened Schema

  const NewStatus := "Nova"
  /** The status value the list filter treats as "no filter". */
  const AllStatuses := "Todas"
  const RegisteredEvent := "Manifestação registrada"
  const SystemUser := "Sistema"
  const AdminUser := "Admin"

  function StatusChangedEvent(status: string): string { "Status alterado para: " + status }

  function ForwardedEvent(responsavel: string): string { "Encaminhado para: " + responsavel }

  /** The NOT NULL columns a create request supplies, in table order. */
  predicate Complete(i: Intake)
  {
    i.tipo.Some? && i.categoria.Some? && i.assunto.Some?
    && i.descricao.Some? && i.cidadao.Some? && i.canal.Some?
  }

  /**
   * The NOT NULL column SQLite reports when an insert leaves some of them
   * NULL: the first in table order.
   */
  function FirstMissing(i: Intake): (r: Option<string>)
    ensures r.None? <==> Complete(i)
    ensures r.Some? ==> r.value in ["tipo", "categoria", "assunto", "descricao", "cidadao", "canal"]
    ensures r == Some("tipo") <==> i.tipo.None?
    ensures r == Some("categoria") <==> i.tipo.Some? && i.categoria.None?
    ensures r == Some("assunto") <==> i.tipo.Some? && i.categoria.Some? && i.assunto.None?
    ensures r == Some("descricao") <==>
      i.tipo.Some? && i.categoria.Some? && i.assunto.Some? && i.descricao.None?
    ensures r == Some("cidadao") <==>
      i.tipo.Some? && i.categoria.Some? && i.assunto.Some? && i.descricao.Some? && i.cidadao.None?
    ensures r == Some("canal") <==>
      i.tipo.Some? && i.categoria.Some? && i.assunto.Some? && i.descricao.Some? && i.cidadao.Some?
      && i.canal.None?
  {
    if i.tipo.None? then Some("tipo")
    else if i.categoria.None? then Some("categoria")
    else if i.assunto.None? then Some("assunto")
    else if i.descricao.None? then Some("descricao")
    else if i.cidadao.None? then Some("cidadao")
    else if i.canal.None? then Some("canal")
    else None
  }

  /**
   * The row a successful create inserts: columns from the request, status
   * 'Nova', the remaining days copied from the legal window, the three
   * timestamps from the statement's clock, and nothing assigned or answered.
   */
  function NewRow(id: int, protocolo: string, i: Intake, now: Timestamp): (m: Manifestation)
    requires Complete(i)
  {
    Manifestation(
      id, protocolo, i.tipo.value, i.categoria.value, i.assunto.value, i.descricao.value,
      i.cidadao.value, i.email, i.telefone, i.canal.value,
      NewStatus, i.prioridade, now, i.prazoLegal, i.prazoLegal,
      None, None, None, now, now)
  }

  /**
   * The row after an update: each truthy patch field replaces its column,
   * an answer also stamps `dataResposta`, `updated_at` is always stamped,
   * and every other column keeps its value.
   */
  function Patched(m: Manifestation, p: Patch, now: Timestamp): Manifestation
  {
    m.(
      status := if Truthy(p.status) then p.status.value else m.status,
      resposta := if Truthy(p.resposta) then p.resposta else m.resposta,
      dataResposta := if Truthy(p.resposta) then Some(now) else m.dataResposta,
      responsavel := if Truthy(p.responsavel) then p.responsavel else m.responsavel,
      prioridade := if Truthy(p.prioridade) then p.prioridade else m.prioridade,
      updatedAt := now)
  }

  /**
   * The audit entries an update appends, numbered from `firstId`: one for a
   * status change, then one for a reassignment, both by 'Admin'. An answer
   * or a priority change leaves no entry.
   */
  function UpdateEvents(firstId: int, id: int, p: Patch, now: Timestamp): (r: seq<HistoryEntry>)
    ensures |r| == (if Truthy(p.status) then 1 else 0) + (if Truthy(p.responsavel) then 1 else 0)
    ensures forall k :: 0 <= k < |r| ==>
      r[k] == HistoryEntry(firstId + k, id, r[k].evento, AdminUser, now)
    ensures Truthy(p.status) ==> r[0].evento == StatusChangedEvent(p.status.value)
    ensures Truthy(p.responsavel) ==> r[|r| - 1].evento == ForwardedEvent(p.responsavel.value)
  {
    var s := if Truthy(p.status)
      then [HistoryEntry(firstId, id, StatusChangedEvent(p.status.value), AdminUser, now)]
      else [];
    var a := if Truthy(p.responsavel)
      then [HistoryEntry(firstId + |s|, id, ForwardedEvent(p.responsavel.value), AdminUser, now)]
      else [];
    s + a
  }

  /** `t` occurs in `s` as a contiguous piece. */
  predicate Contains(s: string, t: string)
    decreases |s|
  {
    t <= s || (|s| > 0 && Contains(s[1..], t))
  }

  lemma {:induction false} ContainsAt(s: string, t: string)
    ensures Contains(s, t) <==> exists i :: 0 <= i <= |s| && t <= s[i..]
  {
    assert s[0..] == s;
    if |s| > 0 {
      ContainsAt(s[1..], t);
      if Contains(s[1..], t) {
        var i :| 0 <= i <= |s| - 1 && t <= s[1..][i..];
        assert s[1..][i..] == s[i + 1..];
      }
      if !(t <= s) && exists i :: 0 <= i <= |s| && t <= s[i..] {
        var i :| 0 <= i <= |s| && t <= s[i..];
        assert i > 0;
        assert s[i..] == s[1..][i - 1..];
        assert Contains(s[1..], t);
      }
    }
  }

  predicate StatusFilterApplies(status: Option<string>)
  {
    Truthy(status) && status.value != AllStatuses
  }

  /**
   * The rows the list returns: those of the requested status, unless that
   * is absent, empty or 'Todas'; and, when a search term is given, those
   * whose subject, protocol or citizen name contains it.
   */
  predicate Matches(m: Manifestation, status: Option<string>, search: Option<string>)
  {
    (StatusFilterApplies(status) ==> m.status == status.value)
    && (Truthy(search) ==>
          Contains(m.assunto, search.value) || Contains(m.protocolo, search.value)
          || Contains(m.cidadao, search.value))
  }
}
