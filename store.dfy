/**
 * The D1 (SQLite) database as in-memory tables: one sequence of rows per table,
 * in rowid order, held in a `Database` object whose methods are the SQL
 * statements the server issues. Timestamps are integers (milliseconds), and
 * comparing them stands for comparing their ISO-8601 strings.
 */
module Store {
  import opened Util
  import opened JsText

  // ---------------------------------------------------------------------------
  // Rows
  // ---------------------------------------------------------------------------

  /** A row of `servidores` (reference data, never written here). */
  datatype Servidor = Servidor(
    matricula: string, nome: string, email: string,
    cargo: Option<string>, classe: Option<string>, lotacao: Option<string>,
    ativo: int)

  datatype TokenStatus = Pendente | Usado | Expirado

  /** A row of `tokens_acesso`. */
  datatype TokenRow = TokenRow(id: nat, email: string, token: string, expiracao: int, status: TokenStatus)

  /** A row of `sessoes`. */
  datatype SessaoRow = SessaoRow(
    sessionId: string, matricula: string, nome: string, email: string,
    lotacao: Option<string>, cargo: Option<string>,
    criadoEm: int, expiraEm: int)

  /** The six quantitative counters of a report. */
  datatype Quantitativos = Quantitativos(bo: int, guias: int, apreensoes: int, presos: int, medidas: int, outros: int)

  /** A row of `plantoes`. */
  datatype PlantaoRow = PlantaoRow(
    id: nat, protocolo: Option<string>,
    matriculaResponsavel: string, nomeResponsavel: string,
    delegacia: string, dataEntrada: string, horaEntrada: string,
    dataSaida: Option<string>, horaSaida: Option<string>,
    status: string, observacoes: Option<string>, q: Quantitativos,
    criadoEm: int, atualizadoEm: int)

  /** A row of `plantoes_equipe`. */
  datatype EquipeRow = EquipeRow(
    plantaoId: nat, nomeServidor: string,
    matricula: Option<string>, cargo: Option<string>, classe: Option<string>, escala: string,
    dataEntrada: string, horaEntrada: string, dataSaida: Option<string>, horaSaida: Option<string>)

  /** A row of `plantoes_procedimentos`; the victim and suspect lists are the JSON arrays' contents. */
  datatype ProcedimentoRow = ProcedimentoRow(
    plantaoId: nat, tipo: string, numero: Option<string>, natureza: string,
    envolvidos: Option<string>, resumo: Option<string>,
    vitimas: seq<string>, suspeitos: seq<string>)

  /** A row of `rascunhos`; the saved form is an opaque JSON text. */
  datatype RascunhoRow = RascunhoRow(
    codigo: string, matricula: string, dadosJson: string,
    criadoEm: int, expiraEm: int, status: string)

  /** A row of `remocoes`. */
  datatype RemocaoRow = RemocaoRow(
    id: int, nomeIndiciado: string, origem: string, destino: string,
    dataSolicitacao: string, status: string)

  /** `value || null`: an empty string is stored as NULL. */
  function NullIfEmpty(s: string): (r: Option<string>)
    ensures r.None? <==> s == ""
    ensures r.Some? ==> r.value == s
  {
    if s == "" then None else Some(s)
  }

  // ---------------------------------------------------------------------------
  // Row identifiers
  // ---------------------------------------------------------------------------

  /**
   * The rowid SQLite gives a row inserted without one: one more than the largest
   * rowid in the table, or 1 in an empty table. It is above every existing id.
   */
  function NextRowId(ids: seq<nat>): (r: nat)
    ensures r >= 1
    ensures forall k :: 0 <= k < |ids| ==> ids[k] < r
    ensures r == 1 || r - 1 in ids
  {
    if ids == [] then 1
    else
      var m := NextRowId(ids[..|ids| - 1]);
      if ids[|ids| - 1] >= m then ids[|ids| - 1] + 1 else m
  }

  predicate DistinctIds(ids: seq<nat>) {
    forall i, j :: 0 <= i < j < |ids| ==> ids[i] != ids[j]
  }

  function TokenIds(t: seq<TokenRow>): (ids: seq<nat>)
    ensures |ids| == |t| && forall k :: 0 <= k < |t| ==> ids[k] == t[k].id
  {
    seq(|t|, k requires 0 <= k < |t| => t[k].id)
  }

  function PlantaoIds(rows: seq<PlantaoRow>): (ids: seq<nat>)
    ensures |ids| == |rows| && forall k :: 0 <= k < |rows| ==> ids[k] == rows[k].id
  {
    seq(|rows|, k requires 0 <= k < |rows| => rows[k].id)
  }

  // ---------------------------------------------------------------------------
  // tokens_acesso
  // ---------------------------------------------------------------------------

  predicate IsPendingFor(row: TokenRow, email: string) {
    row.email == email && row.status == Pendente
  }

  /**
   * The invariant the login flow keeps on `tokens_acesso`: ids are distinct, and
   * no two rows of one e-mail address are pending at once.
   */
  predicate TokensValid(t: seq<TokenRow>) {
    && DistinctIds(TokenIds(t))
    && forall i, j :: 0 <= i < j < |t| && t[i].status == Pendente && t[j].status == Pendente
         ==> t[i].email != t[j].email
  }

  /**
   * `UPDATE tokens_acesso SET status = 'expirado' WHERE email = ? AND status = 'pendente'`:
   * afterwards no row of that address is pending; a row changes only if it was
   * pending for that address, and then only its status, to expirado.
   */
  function ExpirePending(t: seq<TokenRow>, email: string): (r: seq<TokenRow>)
    ensures |r| == |t|
    ensures forall k :: 0 <= k < |r| ==> !IsPendingFor(r[k], email)
    ensures forall k :: 0 <= k < |r| ==>
      r[k] == t[k] || (IsPendingFor(t[k], email) && r[k] == t[k].(status := Expirado))
  {
    seq(|t|, k requires 0 <= k < |t| => if IsPendingFor(t[k], email) then t[k].(status := Expirado) else t[k])
  }

  /**
   * `UPDATE tokens_acesso SET status = 'usado' WHERE id = ?`: the rows with that
   * id become used; every other row is unchanged.
   */
  function MarkUsed(t: seq<TokenRow>, id: nat): (r: seq<TokenRow>)
    ensures |r| == |t|
    ensures forall k :: 0 <= k < |r| && t[k].id == id ==> r[k] == t[k].(status := Usado)
    ensures forall k :: 0 <= k < |r| && t[k].id != id ==> r[k] == t[k]
  {
    seq(|t|, k requires 0 <= k < |t| => if t[k].id == id then t[k].(status := Usado) else t[k])
  }

  /** The row a token lookup matches: same address and code, pending, and not yet expired. */
  predicate TokenMatches(row: TokenRow, email: string, token: string, now: int) {
    row.email == email && row.token == token && row.status == Pendente && row.expiracao > now
  }

  /**
   * `SELECT * FROM tokens_acesso WHERE email = ? AND token = ? AND status = 'pendente'
   * AND expiracao > ? LIMIT 1`: a matching row if there is one (the first in table order).
   */
  function FindToken(t: seq<TokenRow>, email: string, token: string, now: int): (r: Option<TokenRow>)
    ensures r.Some? ==> r.value in t && TokenMatches(r.value, email, token, now)
    ensures r.None? <==> forall k :: 0 <= k < |t| ==> !TokenMatches(t[k], email, token, now)
  {
    if t == [] then None
    else if TokenMatches(t[0], email, token, now) then Some(t[0])
    else
      var r := FindToken(t[1..], email, token, now);
      assert forall k :: 1 <= k < |t| ==> t[k] == t[1..][k - 1];
      r
  }

  /** The rows of one e-mail address, in table order. */
  function TokensOf(t: seq<TokenRow>, email: string): (r: seq<TokenRow>)
    ensures forall x :: x in r <==> x in t && x.email == email
  {
    if t == [] then []
    else (if t[0].email == email then [t[0]] else []) + TokensOf(t[1..], email)
  }

  /** How many rows of that address are pending. */
  function CountPending(t: seq<TokenRow>, email: string): nat {
    if t == [] then 0 else (if IsPendingFor(t[0], email) then 1 else 0) + CountPending(t[1..], email)
  }

  /** Token issuance: expire the address's pending codes, then insert the new one as pending. */
  function IssueToken(t: seq<TokenRow>, email: string, token: string, expiracao: int): seq<TokenRow> {
    var expired := ExpirePending(t, email);
    expired + [TokenRow(NextRowId(TokenIds(expired)), email, token, expiracao, Pendente)]
  }

  /** No pending row for the address, no pending count. */
  lemma {:induction false} CountPendingNone(t: seq<TokenRow>, email: string)
    requires forall k :: 0 <= k < |t| ==> !IsPendingFor(t[k], email)
    ensures CountPending(t, email) == 0
  {
    if t != [] {
      CountPendingNone(t[1..], email);
    }
  }

  lemma {:induction false} CountPendingAppend(a: seq<TokenRow>, b: seq<TokenRow>, email: string)
    ensures CountPending(a + b, email) == CountPending(a, email) + CountPending(b, email)
  {
    if a == [] {
      assert a + b == b;
    } else {
      assert (a + b)[1..] == a[1..] + b;
      CountPendingAppend(a[1..], b, email);
    }
  }

  /** Expiring one address's codes leaves every other address's rows as they were. */
  lemma {:induction false} ExpireKeepsOthers(t: seq<TokenRow>, email: string, other: string)
    requires other != email
    ensures TokensOf(ExpirePending(t, email), other) == TokensOf(t, other)
  {
    if t != [] {
      var r := ExpirePending(t, email);
      assert r[1..] == ExpirePending(t[1..], email);
      ExpireKeepsOthers(t[1..], email, other);
      assert r[0].email == other ==> r[0] == t[0];
    }
  }

  /**
   * After issuing a code for an address, exactly one of its codes is pending,
   * the new one; the rows of every other address are unchanged.
   */
  lemma IssueLeavesOnePending(t: seq<TokenRow>, email: string, token: string, expiracao: int)
    ensures CountPending(IssueToken(t, email, token, expiracao), email) == 1
    ensures var r := IssueToken(t, email, token, expiracao);
      r[|r| - 1].token == token && IsPendingFor(r[|r| - 1], email)
    ensures forall other :: other != email ==>
      TokensOf(IssueToken(t, email, token, expiracao), other) == TokensOf(t, other)
  {
    var expired := ExpirePending(t, email);
    var row := TokenRow(NextRowId(TokenIds(expired)), email, token, expiracao, Pendente);
    CountPendingNone(expired, email);
    CountPendingAppend(expired, [row], email);
    assert CountPending([row], email) == 1 by {
      assert [row][1..] == [];
    }
    forall other | other != email
      ensures TokensOf(IssueToken(t, email, token, expiracao), other) == TokensOf(t, other)
    {
      ExpireKeepsOthers(t, email, other);
      TokensOfAppend(expired, [row], other);
      assert TokensOf([row], other) == [] by { assert [row][1..] == []; }
    }
  }

  lemma {:induction false} TokensOfAppend(a: seq<TokenRow>, b: seq<TokenRow>, email: string)
    ensures TokensOf(a + b, email) == TokensOf(a, email) + TokensOf(b, email)
  {
    if a == [] {
      assert a + b == b;
    } else {
      assert (a + b)[1..] == a[1..] + b;
      TokensOfAppend(a[1..], b, email);
    }
  }

  /** Issuing a code keeps the token invariant. */
  lemma IssuePreservesValid(t: seq<TokenRow>, email: string, token: string, expiracao: int)
    requires TokensValid(t)
    ensures TokensValid(IssueToken(t, email, token, expiracao))
  {
    var expired := ExpirePending(t, email);
    var id := NextRowId(TokenIds(expired));
    var r := IssueToken(t, email, token, expiracao);
    assert TokenIds(expired) == TokenIds(t);
    forall i, j | 0 <= i < j < |r| ensures r[i].id != r[j].id {
      if j == |r| - 1 {
        assert TokenIds(expired)[i] == r[i].id;
      } else {
        assert r[i].id == t[i].id && r[j].id == t[j].id;
        assert TokenIds(t)[i] == t[i].id && TokenIds(t)[j] == t[j].id;
      }
    }
    assert DistinctIds(TokenIds(r)) by {
      forall i, j | 0 <= i < j < |r| ensures TokenIds(r)[i] != TokenIds(r)[j] {
        assert TokenIds(r)[i] == r[i].id && TokenIds(r)[j] == r[j].id;
      }
    }
    forall i, j | 0 <= i < j < |r| && r[i].status == Pendente && r[j].status == Pendente
      ensures r[i].email != r[j].email
    {
      if j == |r| - 1 {
        assert !IsPendingFor(expired[i], email);
      } else {
        assert r[i] == t[i] && r[j] == t[j];
      }
    }
  }

  /** Consuming a code keeps the token invariant. */
  lemma MarkUsedPreservesValid(t: seq<TokenRow>, id: nat)
    requires TokensValid(t)
    ensures TokensValid(MarkUsed(t, id))
  {
    var r := MarkUsed(t, id);
    assert TokenIds(r) == TokenIds(t);
    forall i, j | 0 <= i < j < |r| && r[i].status == Pendente && r[j].status == Pendente
      ensures r[i].email != r[j].email
    {
      assert r[i] == t[i] && r[j] == t[j];
    }
  }

  /** Expiring an address's pending codes keeps the token invariant. */
  lemma ExpirePreservesValid(t: seq<TokenRow>, email: string)
    requires TokensValid(t)
    ensures TokensValid(ExpirePending(t, email))
  {
    var r := ExpirePending(t, email);
    assert TokenIds(r) == TokenIds(t);
    forall i, j | 0 <= i < j < |r| && r[i].status == Pendente && r[j].status == Pendente
      ensures r[i].email != r[j].email
    {
      assert r[i] == t[i] && r[j] == t[j];
    }
  }

  /**
   * A code that has been consumed cannot be consumed again: once the matched row
   * is marked used, no lookup of that address and code matches, at any time.
   */
  lemma ConsumedTokenRejected(t: seq<TokenRow>, email: string, token: string, now: int, later: int)
    requires TokensValid(t)
    requires FindToken(t, email, token, now).Some?
    ensures FindToken(MarkUsed(t, FindToken(t, email, token, now).value.id), email, token, later).None?
  {
    var row := FindToken(t, email, token, now).value;
    var r := MarkUsed(t, row.id);
    var i :| 0 <= i < |t| && t[i] == row;
    forall k | 0 <= k < |r| ensures !TokenMatches(r[k], email, token, later) {
      if t[k].id != row.id && r[k].status == Pendente {
        assert r[k] == t[k];
        assert k != i;
        if k < i {
          assert t[k].email != t[i].email;
        } else {
          assert t[i].email != t[k].email;
        }
      }
    }
  }

  // ---------------------------------------------------------------------------
  // sessoes
  // ---------------------------------------------------------------------------

  /** The row a session lookup matches: same identifier and not yet expired. */
  predicate SessionMatches(row: SessaoRow, id: string, now: int) {
    row.sessionId == id && row.expiraEm > now
  }

  /**
   * `SELECT * FROM sessoes WHERE session_id = ? AND expira_em > ? LIMIT 1`: a
   * matching row if there is one (the first in table order); expired rows never match.
   */
  function FindSession(s: seq<SessaoRow>, id: string, now: int): (r: Option<SessaoRow>)
    ensures r.Some? ==> r.value in s && SessionMatches(r.value, id, now)
    ensures r.None? <==> forall k :: 0 <= k < |s| ==> !SessionMatches(s[k], id, now)
  {
    if s == [] then None
    else if SessionMatches(s[0], id, now) then Some(s[0])
    else
      var r := FindSession(s[1..], id, now);
      assert forall k :: 1 <= k < |s| ==> s[k] == s[1..][k - 1];
      r
  }

  /**
   * `DELETE FROM sessoes WHERE session_id = ?`: no row with that identifier
   * remains, and every other row remains, in order.
   */
  function DeleteSession(s: seq<SessaoRow>, id: string): (r: seq<SessaoRow>)
    ensures forall x :: x in r <==> x in s && x.sessionId != id
    ensures |r| <= |s|
  {
    if s == [] then []
    else (if s[0].sessionId == id then [] else [s[0]]) + DeleteSession(s[1..], id)
  }

  /** Deleting an identifier no row carries changes nothing. */
  lemma {:induction false} DeleteAbsentSession(s: seq<SessaoRow>, id: string)
    requires forall k :: 0 <= k < |s| ==> s[k].sessionId != id
    ensures DeleteSession(s, id) == s
  {
    if s != [] {
      DeleteAbsentSession(s[1..], id);
      assert s == [s[0]] + s[1..];
    }
  }

  /** Deleting a session twice is deleting it once. */
  lemma DeleteSessionIdempotent(s: seq<SessaoRow>, id: string)
    ensures DeleteSession(DeleteSession(s, id), id) == DeleteSession(s, id)
  {
    var r := DeleteSession(s, id);
    forall k | 0 <= k < |r| ensures r[k].sessionId != id {
      assert r[k] in r;
    }
    DeleteAbsentSession(r, id);
  }

  /** Deleting one session changes what no other identifier resolves to. */
  lemma {:induction false} DeleteKeepsOtherSessions(s: seq<SessaoRow>, id: string, other: string, now: int)
    requires other != id
    ensures FindSession(DeleteSession(s, id), other, now) == FindSession(s, other, now)
  {
    if s != [] {
      DeleteKeepsOtherSessions(s[1..], id, other, now);
      var tail := DeleteSession(s[1..], id);
      if s[0].sessionId != id {
        assert DeleteSession(s, id) == [s[0]] + tail;
        assert ([s[0]] + tail)[1..] == tail;
      } else {
        assert DeleteSession(s, id) == tail;
      }
    }
  }

  // ---------------------------------------------------------------------------
  // plantoes and their children
  // ---------------------------------------------------------------------------

  function PlantaoIdSet(rows: seq<PlantaoRow>): set<nat> {
    set p | p in rows :: p.id
  }

  /** Every child row belongs to an existing report (the convention the schema does not enforce). */
  predicate ChildrenAttached(rows: seq<PlantaoRow>, equipe: seq<EquipeRow>, procs: seq<ProcedimentoRow>) {
    && (forall e :: e in equipe ==> e.plantaoId in PlantaoIdSet(rows))
    && (forall p :: p in procs ==> p.plantaoId in PlantaoIdSet(rows))
  }

  /**
   * `UPDATE plantoes SET protocolo = ? WHERE id = ?`: the rows with that id get
   * the protocol; every other row is unchanged.
   */
  function SetProtocolo(rows: seq<PlantaoRow>, id: nat, protocolo: string): (r: seq<PlantaoRow>)
    ensures |r| == |rows|
    ensures forall k :: 0 <= k < |r| && rows[k].id == id ==> r[k] == rows[k].(protocolo := Some(protocolo))
    ensures forall k :: 0 <= k < |r| && rows[k].id != id ==> r[k] == rows[k]
  {
    seq(|rows|, k requires 0 <= k < |rows| =>
      if rows[k].id == id then rows[k].(protocolo := Some(protocolo)) else rows[k])
  }

  /** The three tables a save of a report writes. */
  datatype Relatorios = Relatorios(plantoes: seq<PlantaoRow>, equipe: seq<EquipeRow>, procedimentos: seq<ProcedimentoRow>)

  /** What the store keeps true of them: distinct report ids, and no child row without its report. */
  predicate RelatoriosValid(t: Relatorios) {
    DistinctIds(PlantaoIds(t.plantoes)) && ChildrenAttached(t.plantoes, t.equipe, t.procedimentos)
  }

  /** The child rows of one report, in table order. */
  function EquipeOf(rows: seq<EquipeRow>, id: nat): (r: seq<EquipeRow>)
    ensures forall x :: x in r <==> x in rows && x.plantaoId == id
  {
    if rows == [] then [] else (if rows[0].plantaoId == id then [rows[0]] else []) + EquipeOf(rows[1..], id)
  }

  function ProcedimentosOf(rows: seq<ProcedimentoRow>, id: nat): (r: seq<ProcedimentoRow>)
    ensures forall x :: x in r <==> x in rows && x.plantaoId == id
  {
    if rows == [] then [] else (if rows[0].plantaoId == id then [rows[0]] else []) + ProcedimentosOf(rows[1..], id)
  }

  lemma {:induction false} EquipeOfAppend(a: seq<EquipeRow>, b: seq<EquipeRow>, id: nat)
    ensures EquipeOf(a + b, id) == EquipeOf(a, id) + EquipeOf(b, id)
  {
    if a == [] {
      assert a + b == b;
    } else {
      assert (a + b)[1..] == a[1..] + b;
      EquipeOfAppend(a[1..], b, id);
    }
  }

  lemma {:induction false} ProcedimentosOfAppend(a: seq<ProcedimentoRow>, b: seq<ProcedimentoRow>, id: nat)
    ensures ProcedimentosOf(a + b, id) == ProcedimentosOf(a, id) + ProcedimentosOf(b, id)
  {
    if a == [] {
      assert a + b == b;
    } else {
      assert (a + b)[1..] == a[1..] + b;
      ProcedimentosOfAppend(a[1..], b, id);
    }
  }

  // ---------------------------------------------------------------------------
  // remocoes
  // ---------------------------------------------------------------------------

  /**
   * The integer a bound TEXT value stands for when SQLite compares it with an
   * INTEGER column: an optional sign followed by one or more decimal digits.
   */
  function SqlIntegerText(s: string): Option<int> {
    var negative := s != [] && s[0] == '-';
    var digits := if s != [] && (s[0] == '-' || s[0] == '+') then s[1..] else s;
    if digits == [] || !AllRadixDigits(digits, 10) then None
    else
      var v: int := RadixValue(digits, 10);
      Some(if negative then -v else v)
  }

  /**
   * `UPDATE remocoes SET status = ? WHERE id = ?` with the id bound as text: the
   * rows whose id the text denotes get the new status; every other row is unchanged.
   */
  function UpdateRemocaoStatus(rows: seq<RemocaoRow>, idText: string, status: string): (r: seq<RemocaoRow>)
    ensures |r| == |rows|
    ensures forall k :: 0 <= k < |r| && SqlIntegerText(idText) == Some(rows[k].id) ==> r[k] == rows[k].(status := status)
    ensures forall k :: 0 <= k < |r| && SqlIntegerText(idText) != Some(rows[k].id) ==> r[k] == rows[k]
  {
    seq(|rows|, k requires 0 <= k < |rows| =>
      if SqlIntegerText(idText) == Some(rows[k].id) then rows[k].(status := status) else rows[k])
  }

  // ---------------------------------------------------------------------------
  // The database
  // ---------------------------------------------------------------------------

  /** The `remocoespcce` D1 binding: every table the core reads or writes. */
  class Database {
    var servidores: seq<Servidor>
    var tokens: seq<TokenRow>
    var sessoes: seq<SessaoRow>
    var plantoes: seq<PlantaoRow>
    var equipe: seq<EquipeRow>
    var procedimentos: seq<ProcedimentoRow>
    var rascunhos: seq<RascunhoRow>
    var remocoes: seq<RemocaoRow>

    /** What the core keeps true of the tables between requests. */
    ghost predicate Valid()
      reads this
    {
      && TokensValid(tokens)
      && RelatoriosValid(Relatorios(plantoes, equipe, procedimentos))
    }

    /** A database with the given reference data and empty working tables. */
    constructor (servidores: seq<Servidor>, rascunhos: seq<RascunhoRow>, remocoes: seq<RemocaoRow>)
      ensures Valid()
      ensures this.servidores == servidores && this.rascunhos == rascunhos && this.remocoes == remocoes
      ensures tokens == [] && sessoes == [] && plantoes == [] && equipe == [] && procedimentos == []
    {
      this.servidores := servidores;
      this.rascunhos := rascunhos;
      this.remocoes := remocoes;
      tokens, sessoes, plantoes, equipe, procedimentos := [], [], [], [], [];
    }

    /** `UPDATE tokens_acesso SET status = 'expirado' WHERE email = ? AND status = 'pendente'`. */
    method ExpirePendingTokens(email: string)
      modifies this`tokens
      ensures tokens == ExpirePending(old(tokens), email)
    {
      tokens := ExpirePending(tokens, email);
    }

    /** `INSERT INTO tokens_acesso (email, token, expiracao, status) VALUES (?, ?, ?, 'pendente')`. */
    method InsertToken(email: string, token: string, expiracao: int) returns (id: nat)
      modifies this`tokens
      ensures id == NextRowId(TokenIds(old(tokens)))
      ensures tokens == old(tokens) + [TokenRow(id, email, token, expiracao, Pendente)]
    {
      id := NextRowId(TokenIds(tokens));
      tokens := tokens + [TokenRow(id, email, token, expiracao, Pendente)];
    }

    /** `UPDATE tokens_acesso SET status = 'usado' WHERE id = ?`. */
    method MarkTokenUsed(id: nat)
      modifies this`tokens
      ensures tokens == MarkUsed(old(tokens), id)
    {
      tokens := MarkUsed(tokens, id);
    }

    /** `INSERT INTO sessoes (...) VALUES (...)`. */
    method InsertSessao(row: SessaoRow)
      modifies this`sessoes
      ensures sessoes == old(sessoes) + [row]
    {
      sessoes := sessoes + [row];
    }

    /** `DELETE FROM sessoes WHERE session_id = ?`. */
    method DeleteSessao(id: string)
      modifies this`sessoes
      ensures sessoes == DeleteSession(old(sessoes), id)
    {
      sessoes := DeleteSession(sessoes, id);
    }

    /** `INSERT INTO plantoes (...)`: the row gets the next rowid, which is returned as `last_row_id`. */
    method InsertPlantao(row: PlantaoRow) returns (id: nat)
      modifies this`plantoes
      ensures id == NextRowId(PlantaoIds(old(plantoes)))
      ensures plantoes == old(plantoes) + [row.(id := id)]
    {
      id := NextRowId(PlantaoIds(plantoes));
      plantoes := plantoes + [row.(id := id)];
    }

    /** `UPDATE plantoes SET protocolo = ? WHERE id = ?`. */
    method UpdateProtocolo(id: nat, protocolo: string)
      modifies this`plantoes
      ensures plantoes == SetProtocolo(old(plantoes), id, protocolo)
    {
      plantoes := SetProtocolo(plantoes, id, protocolo);
    }

    /** `db.batch([...])` of child inserts: D1 applies a batch as one transaction. */
    method InsertChildren(team: seq<EquipeRow>, procs: seq<ProcedimentoRow>)
      modifies this`equipe, this`procedimentos
      ensures equipe == old(equipe) + team
      ensures procedimentos == old(procedimentos) + procs
    {
      equipe := equipe + team;
      procedimentos := procedimentos + procs;
    }

    /** `UPDATE remocoes SET status = ? WHERE id = ?`. */
    method UpdateRemocao(idText: string, status: string)
      modifies this`remocoes
      ensures remocoes == UpdateRemocaoStatus(old(remocoes), idText, status)
    {
      remocoes := UpdateRemocaoStatus(remocoes, idText, status);
    }
  }
}
