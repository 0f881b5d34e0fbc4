/**
 * The test dashboard over `remocoes`: a page listing up to 100 transfer
 * requests with their counts per status, and the `atualizarStatus` action
 * that sets the status of one request.
 */
module DashboardTeste {
  import opened Util
  import opened Forms
  import opened Store

  // ---------------------------------------------------------------------------
  // load
  // ---------------------------------------------------------------------------

  const LimiteRegistros: nat := 100

  /** `registros.filter(r => r.status === status)`. */
  function Filtrar(rows: seq<RemocaoRow>, status: string): (r: seq<RemocaoRow>)
    ensures |r| <= |rows|
    ensures forall x :: x in r <==> x in rows && x.status == status
  {
    if rows == [] then []
    else
      assert forall x :: x in rows <==> x == rows[0] || x in rows[1..];
      (if rows[0].status == status then [rows[0]] else []) + Filtrar(rows[1..], status)
  }

  /** Two different statuses never count more records than there are. */
  lemma {:induction false} FiltrosDisjuntos(rows: seq<RemocaoRow>, a: string, b: string)
    requires a != b
    ensures |Filtrar(rows, a)| + |Filtrar(rows, b)| <= |rows|
  {
    if rows != [] {
      FiltrosDisjuntos(rows[1..], a, b);
    }
  }

  datatype Estatisticas = Estatisticas(total: nat, pendentes: nat, concluidas: nat)

  datatype Pagina = Pagina(registros: seq<RemocaoRow>, estatisticas: Estatisticas, envDetectado: bool)

  /**
   * `load`. `tabela` is None when the `remocoespcce` binding is missing; then
   * the page shows no records. A failing query is not caught, so the page
   * fails (None).
   */
  function Carregar(tabela: Option<seq<RemocaoRow>>, queryFails: bool): (r: Option<Pagina>)
    ensures r.None? <==> tabela.Some? && queryFails
    ensures r.Some? ==>
      && r.value.envDetectado == tabela.Some?
      && r.value.estatisticas.total == |r.value.registros|
      && r.value.estatisticas.pendentes + r.value.estatisticas.concluidas <= r.value.estatisticas.total
      && (forall x :: x in r.value.registros ==> x in GetOrEmpty(tabela))
      && |r.value.registros| == Min(|GetOrEmpty(tabela)|, LimiteRegistros)
      && r.value.registros == GetOrEmpty(tabela)[..Min(|GetOrEmpty(tabela)|, LimiteRegistros)]
      && r.value.estatisticas.pendentes == |Filtrar(r.value.registros, "pendente")|
      && r.value.estatisticas.concluidas == |Filtrar(r.value.registros, "concluida")|
  {
    if tabela.Some? && queryFails then None
    else
      var rows := GetOrEmpty(tabela);
      var registros := rows[..Min(|rows|, LimiteRegistros)];
      FiltrosDisjuntos(registros, "pendente", "concluida");
      assert forall x :: x in registros ==> x in rows;
      Some(Pagina(
        registros,
        Estatisticas(|registros|, |Filtrar(registros, "pendente")|, |Filtrar(registros, "concluida")|),
        tabela.Some?))
  }

  function GetOrEmpty(tabela: Option<seq<RemocaoRow>>): seq<RemocaoRow> {
    tabela.GetOr([])
  }

  function Min(a: nat, b: nat): nat {
    if a < b then a else b
  }

  // ---------------------------------------------------------------------------
  // atualizarStatus
  // ---------------------------------------------------------------------------

  const ErroDados := "Dados inválidos"

  datatype Atualizacao =
    | AtualizacaoFail(status: int, message: string)
    | Atualizado(statusAlterado: string)
    /** A TypeError or a store error that the action does not catch. */
    | ErroNaoTratado

  /** `!id || !novoStatus`: a missing or empty field. */
  predicate DadosValidos(form: FormData) {
    Get(form, "id").Some? && Get(form, "id").value != ""
    && Get(form, "status").Some? && Get(form, "status").value != ""
  }

  /**
   * The action on the table. Without a platform the optional chain skips the
   * update and the action still reports success; with a platform but no
   * binding the call on `undefined` throws.
   */
  function Atualizar(rows: seq<RemocaoRow>, form: FormData, temPlataforma: bool, temBanco: bool, updateFails: bool)
    : (out: (seq<RemocaoRow>, Atualizacao))
    ensures out.1 == AtualizacaoFail(400, ErroDados) <==> !DadosValidos(form)
    ensures !DadosValidos(form) || !temPlataforma || !temBanco || updateFails ==> out.0 == rows
    ensures out.1.Atualizado? <==> DadosValidos(form) && (!temPlataforma || (temBanco && !updateFails))
    ensures out.1.Atualizado? ==> out.1.statusAlterado == Get(form, "status").value
    ensures |out.0| == |rows|
    ensures DadosValidos(form) && temPlataforma && temBanco && !updateFails ==>
      forall k :: 0 <= k < |rows| && SqlIntegerText(Get(form, "id").value) == Some(rows[k].id) ==>
        out.0[k] == rows[k].(status := Get(form, "status").value)
    ensures forall k :: 0 <= k < |rows| && out.0[k] != rows[k] ==>
      SqlIntegerText(Get(form, "id").value) == Some(rows[k].id)
      && out.0[k] == rows[k].(status := Get(form, "status").value)
  {
    if !DadosValidos(form) then (rows, AtualizacaoFail(400, ErroDados))
    else
      var id, novoStatus := Get(form, "id").value, Get(form, "status").value;
      if !temPlataforma then (rows, Atualizado(novoStatus))
      else if !temBanco || updateFails then (rows, ErroNaoTratado)
      else (UpdateRemocaoStatus(rows, id, novoStatus), Atualizado(novoStatus))
  }

  /** Submitting the same status twice leaves the table as submitting it once. */
  lemma AtualizarIdempotente(rows: seq<RemocaoRow>, form: FormData, temPlataforma: bool, temBanco: bool)
    ensures var once := Atualizar(rows, form, temPlataforma, temBanco, false).0;
      Atualizar(once, form, temPlataforma, temBanco, false).0 == once
  {
    var once := Atualizar(rows, form, temPlataforma, temBanco, false).0;
    var twice := Atualizar(once, form, temPlataforma, temBanco, false).0;
    assert |twice| == |once|;
    forall k | 0 <= k < |once| ensures twice[k] == once[k] {
      assert once[k] == rows[k] || once[k].status == Get(form, "status").value;
    }
  }

  /** `atualizarStatus`: writes `remocoes` as `Atualizar` says, and nothing else. */
  method AtualizarStatus(db: Database?, form: FormData, temPlataforma: bool, updateFails: bool)
    returns (r: Atualizacao)
    modifies db
    ensures db == null ==> r == Atualizar([], form, temPlataforma, false, updateFails).1
    ensures db != null ==> (db.remocoes, r) == Atualizar(old(db.remocoes), form, temPlataforma, true, updateFails)
    ensures db != null ==>
      (db.servidores == old(db.servidores) && db.tokens == old(db.tokens) && db.sessoes == old(db.sessoes)
       && db.plantoes == old(db.plantoes) && db.equipe == old(db.equipe) && db.procedimentos == old(db.procedimentos)
       && db.rascunhos == old(db.rascunhos))
  {
    var id := Get(form, "id");
    var novoStatus := Get(form, "status");
    if id.None? || id.value == "" || novoStatus.None? || novoStatus.value == "" {
      return AtualizacaoFail(400, ErroDados);
    }
    if !temPlataforma {
      return Atualizado(novoStatus.value);
    }
    if db == null || updateFails {
      return ErroNaoTratado;
    }
    db.UpdateRemocao(id.value, novoStatus.value);
    return Atualizado(novoStatus.value);
  }
}
