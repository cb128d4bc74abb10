/**
 * The two tables the ombudsman backend keeps, `manifestacoes` and
 * `historico`, as records, and the request bodies its handlers read.
 */
module Schema {
  import opened Wrappers

  /**
   * A CURRENT_TIMESTAMP reading. SQLite renders it as
   * "YYYY-MM-DD HH:MM:SS", whose text order is the order of the instants,
   * so an integer clock reading stands for it.
   */
  type Timestamp = int

  /** A row of `manifestacoes`; nullable columns are `Option`s. */
  datatype Manifestation = Manifestation(
    id: int,
    protocolo: string,
    tipo: string,
    categoria: string,
    assunto: string,
    descricao: string,
    cidadao: string,
    email: Option<string>,
    telefone: Option<string>,
    canal: string,
    status: string,
    prioridade: Option<string>,
    dataAbertura: Timestamp,
    prazoLegal: Option<int>,
    diasRestantes: Option<int>,
    responsavel: Option<string>,
    resposta: Option<string>,
    dataResposta: Option<Timestamp>,
    createdAt: Timestamp,
    updatedAt: Timestamp)

  /** A row of `historico`: one audit event of one manifestation. */
  datatype HistoryEntry = HistoryEntry(
    id: int,
    manifestacaoId: int,
    evento: string,
    usuario: string,
    data: Timestamp)

  /** The body of a create request; a field the client leaves out binds as NULL. */
  datatype Intake = Intake(
    tipo: Option<string>,
    categoria: Option<string>,
    assunto: Option<string>,
    descricao: Option<string>,
    cidadao: Option<string>,
    email: Option<string>,
    telefone: Option<string>,
    canal: Option<string>,
    prioridade: Option<string>,
    prazoLegal: Option<int>)

  /** The body of an update request: the four fields the handler reads. */
  datatype Patch = Patch(
    status: Option<string>,
    resposta: Option<string>,
    responsavel: Option<string>,
    prioridade: Option<string>)

  /** JavaScript truthiness of a string field: present and not empty. */
  predicate Truthy(v: Option<string>)
  {
    v.Some? && v.value != ""
  }
}
