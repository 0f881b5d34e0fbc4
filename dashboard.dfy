/**
 * The dashboard page's `load`: a listing of the most recent reports with
 * their team and procedure totals, the report counts per status, the sums of
 * the quantitative counters over finished reports, and the distinct police
 * stations. Without a store, or when a query fails, every part is empty or
 * zero. Each part is the answer of one SQL statement, modelled as a function
 * of the tables.
 */
module Dashboard {
  import opened Util
  import opened App
  import opened Store

  // ---------------------------------------------------------------------------
  // The listing: ORDER BY criado_em DESC LIMIT 200
  // ---------------------------------------------------------------------------

  /** One listed report: its columns, and the aggregates over its child rows. */
  datatype Resumo = Resumo(
    id: nat, protocolo: Option<string>, delegacia: string,
    dataEntrada: string, horaEntrada: string, dataSaida: Option<string>, horaSaida: Option<string>,
    status: string, nomeResponsavel: string, q: Quantitativos, criadoEm: int,
    totalEquipe: nat, totalProcedimentos: nat,
    servidoresEquipe: set<string>, tiposProcedimento: set<string>)

  const LimiteListagem: nat := 200

  predicate MaisRecentesPrimeiro(rows: seq<PlantaoRow>) {
    forall i, j :: 0 <= i < j < |rows| ==> rows[i].criadoEm >= rows[j].criadoEm
  }

  /** Places a report in a list ordered newest first. */
  function Inserir(p: PlantaoRow, s: seq<PlantaoRow>): (r: seq<PlantaoRow>)
    requires MaisRecentesPrimeiro(s)
    ensures |r| == |s| + 1
    ensures forall y :: y in r <==> y == p || y in s
    ensures MaisRecentesPrimeiro(r)
    ensures multiset(r) == multiset(s) + multiset{p}
  {
    if s == [] || p.criadoEm >= s[0].criadoEm then
      [p] + s
    else
      var rest := Inserir(p, s[1..]);
      assert s == [s[0]] + s[1..];
      forall j | 0 <= j < |rest| ensures rest[j].criadoEm <= s[0].criadoEm {
        assert rest[j] in rest;
        if rest[j] != p {
          var k :| 0 <= k < |s[1..]| && s[1..][k] == rest[j];
          assert s[k + 1] == rest[j];
        }
      }
      [s[0]] + rest
  }

  /** `ORDER BY criado_em DESC`: the same reports, newest first. */
  function Ordenar(rows: seq<PlantaoRow>): (r: seq<PlantaoRow>)
    ensures |r| == |rows|
    ensures forall y :: y in r <==> y in rows
    ensures MaisRecentesPrimeiro(r)
    ensures multiset(r) == multiset(rows)
  {
    if rows == [] then []
    else
      assert rows == [rows[0]] + rows[1..];
      Inserir(rows[0], Ordenar(rows[1..]))
  }

  /**
   * The aggregates of one report over its child rows: `COUNT(DISTINCT ...)`
   * counts the rows, `GROUP_CONCAT(DISTINCT ...)` gathers the distinct names and
   * procedure kinds (empty for NULL).
   */
  function Resumir(p: PlantaoRow, equipe: seq<EquipeRow>, procs: seq<ProcedimentoRow>): (r: Resumo)
    ensures r.id == p.id && r.criadoEm == p.criadoEm && r.status == p.status && r.q == p.q
    ensures r.protocolo == p.protocolo && r.delegacia == p.delegacia && r.nomeResponsavel == p.nomeResponsavel
    ensures r.dataEntrada == p.dataEntrada && r.horaEntrada == p.horaEntrada
      && r.dataSaida == p.dataSaida && r.horaSaida == p.horaSaida
    ensures r.totalEquipe == |EquipeOf(equipe, p.id)| && r.totalProcedimentos == |ProcedimentosOf(procs, p.id)|
    ensures forall n :: n in r.servidoresEquipe <==>
      exists e :: e in equipe && e.plantaoId == p.id && e.nomeServidor == n
    ensures forall t :: t in r.tiposProcedimento <==>
      exists x :: x in procs && x.plantaoId == p.id && x.tipo == t
  {
    var team := EquipeOf(equipe, p.id);
    var ps := ProcedimentosOf(procs, p.id);
    Resumo(p.id, p.protocolo, p.delegacia, p.dataEntrada, p.horaEntrada, p.dataSaida, p.horaSaida,
           p.status, p.nomeResponsavel, p.q, p.criadoEm,
           |team|, |ps|,
           set e | e in team :: e.nomeServidor, set x | x in ps :: x.tipo)
  }

  /** The shown reports: the 200 newest, newest first. */
  function Recentes(rows: seq<PlantaoRow>): (r: seq<PlantaoRow>)
    ensures |r| == if |rows| < LimiteListagem then |rows| else LimiteListagem
    ensures forall p :: p in r ==> p in rows
    ensures MaisRecentesPrimeiro(r)
    ensures multiset(r) <= multiset(rows)
  {
    var s := Ordenar(rows);
    var n := if |s| < LimiteListagem then |s| else LimiteListagem;
    assert s == s[..n] + s[n..];
    s[..n]
  }

  /** The listing: one summary per shown report, newest first. */
  function Listagem(t: Relatorios): (r: seq<Resumo>)
    ensures |r| <= LimiteListagem && (|t.plantoes| <= LimiteListagem ==> |r| == |t.plantoes|)
    ensures forall i, j :: 0 <= i < j < |r| ==> r[i].criadoEm >= r[j].criadoEm
  {
    var top := Recentes(t.plantoes);
    seq(|top|, k requires 0 <= k < |top| => Resumir(top[k], t.equipe, t.procedimentos))
  }

  /** Every entry of the listing summarises a report of the table. */
  lemma ListagemFromTable(t: Relatorios, k: nat)
    requires k < |Listagem(t)|
    ensures exists p :: p in t.plantoes && Listagem(t)[k] == Resumir(p, t.equipe, t.procedimentos)
  {
    var top := Recentes(t.plantoes);
    assert top[k] in top;
    assert Listagem(t)[k] == Resumir(top[k], t.equipe, t.procedimentos);
  }

  /** A report that did not make the cut is no newer than any shown one. */
  lemma RecentesOmitted(rows: seq<PlantaoRow>, p: PlantaoRow, k: nat)
    requires p in rows && p !in Recentes(rows)
    requires k < |Recentes(rows)|
    ensures p.criadoEm <= Recentes(rows)[k].criadoEm
  {
    var s := Ordenar(rows);
    var top := Recentes(rows);
    var n := |top|;
    assert s == top + s[n..];
    assert p in multiset(s);
    assert p in s;
    var j :| 0 <= j < |s| && s[j] == p;
    assert top[k] == s[k];
  }

  /** A report left out of the listing is no newer than any listed one. */
  lemma OmittedNotNewer(t: Relatorios, p: PlantaoRow, k: nat)
    requires p in t.plantoes
    requires forall i :: 0 <= i < |Listagem(t)| ==> Listagem(t)[i].id != p.id
    requires k < |Listagem(t)|
    ensures p.criadoEm <= Listagem(t)[k].criadoEm
  {
    var top := Recentes(t.plantoes);
    forall i | 0 <= i < |top| ensures top[i] != p {
      assert Listagem(t)[i].id == top[i].id;
    }
    RecentesOmitted(t.plantoes, p, k);
    assert Listagem(t)[k].criadoEm == top[k].criadoEm;
  }

  /** With distinct report ids, each report appears in the listing at most once. */
  lemma ListagemDistinct(t: Relatorios)
    requires RelatoriosValid(t)
    ensures forall i, j :: 0 <= i < j < |Listagem(t)| ==> Listagem(t)[i].id != Listagem(t)[j].id
  {
    var top := Recentes(t.plantoes);
    forall i, j | 0 <= i < j < |Listagem(t)| ensures Listagem(t)[i].id != Listagem(t)[j].id {
      if top[i].id == top[j].id {
        assert top[i] in multiset(top) && top[j] in multiset(top);
        assert top[i] in t.plantoes && top[j] in t.plantoes;
        var a :| 0 <= a < |t.plantoes| && t.plantoes[a] == top[i];
        var b :| 0 <= b < |t.plantoes| && t.plantoes[b] == top[j];
        assert PlantaoIds(t.plantoes)[a] == PlantaoIds(t.plantoes)[b];
        CountTwo(top, i, j);
        CountAtMostOne(t.plantoes, top[i]);
      }
    }
  }

  lemma CountTwo<T>(s: seq<T>, i: nat, j: nat)
    requires i < j < |s| && s[i] == s[j]
    ensures multiset(s)[s[i]] >= 2
  {
    assert s == s[..i] + [s[i]] + s[i + 1..j] + [s[j]] + s[j + 1..];
  }

  lemma {:induction false} CountAtMostOne(rows: seq<PlantaoRow>, x: PlantaoRow)
    requires DistinctIds(PlantaoIds(rows))
    ensures multiset(rows)[x] <= 1
  {
    if rows != [] {
      var tail := rows[1..];
      assert rows == [rows[0]] + tail;
      forall i, j | 0 <= i < j < |tail| ensures PlantaoIds(tail)[i] != PlantaoIds(tail)[j] {
        assert PlantaoIds(rows)[i + 1] != PlantaoIds(rows)[j + 1];
      }
      CountAtMostOne(tail, x);
      if rows[0] == x {
        forall k | 0 <= k < |tail| ensures tail[k] != x {
          assert PlantaoIds(rows)[0] != PlantaoIds(rows)[k + 1];
        }
        assert x !in multiset(tail);
      }
    }
  }

  // ---------------------------------------------------------------------------
  // Statistics: counts per status and sums over finished reports
  // ---------------------------------------------------------------------------

  /** The number of reports with the given status. */
  function Contar(rows: seq<PlantaoRow>, status: string): (n: nat)
    ensures n <= |rows|
  {
    if rows == [] then 0 else (if rows[0].status == status then 1 else 0) + Contar(rows[1..], status)
  }

  /** `SUM(CASE WHEN status = ? THEN 1 ELSE 0 END)`: NULL over an empty table. */
  function ContarSql(rows: seq<PlantaoRow>, status: string): (r: Option<nat>)
    ensures r.None? <==> rows == []
  {
    if rows == [] then None else Some(Contar(rows, status))
  }

  datatype Estatisticas = Estatisticas(total: int, rascunhos: int, finalizados: int, retificados: int)

  const EstatisticasZero := Estatisticas(0, 0, 0, 0)

  /** `COUNT(*)` and the three status counts, a NULL read as 0. */
  function Estatisticar(rows: seq<PlantaoRow>): (e: Estatisticas)
    ensures e.total == |rows|
    ensures 0 <= e.rascunhos && 0 <= e.finalizados && 0 <= e.retificados
    ensures e.rascunhos + e.finalizados + e.retificados <= e.total
    ensures e.rascunhos == Contar(rows, "rascunho") && e.finalizados == Contar(rows, "finalizado")
      && e.retificados == Contar(rows, "retificado")
    ensures rows == [] ==> e == EstatisticasZero
  {
    StatusCountsBounded(rows);
    Estatisticas(|rows|, ContarSql(rows, "rascunho").GetOr(0), ContarSql(rows, "finalizado").GetOr(0),
                 ContarSql(rows, "retificado").GetOr(0))
  }

  /** The three statuses never count more than all reports; exactly all when no other status occurs. */
  lemma {:induction false} StatusCountsBounded(rows: seq<PlantaoRow>)
    ensures Contar(rows, "rascunho") + Contar(rows, "finalizado") + Contar(rows, "retificado") <= |rows|
    ensures Contar(rows, "rascunho") + Contar(rows, "finalizado") + Contar(rows, "retificado") == |rows|
      <==> forall p :: p in rows ==> p.status in {"rascunho", "finalizado", "retificado"}
  {
    if rows != [] {
      StatusCountsBounded(rows[1..]);
      assert forall p :: p in rows <==> p == rows[0] || p in rows[1..];
    }
  }

  const QuantitativosZero := Quantitativos(0, 0, 0, 0, 0, 0)

  /** The counter `i` of a report: `q_bo`, `q_guias`, `q_apreensoes`, `q_presos`, `q_medidas`, `q_outros`. */
  function Campo(q: Quantitativos, i: nat): int {
    match i
    case 0 => q.bo
    case 1 => q.guias
    case 2 => q.apreensoes
    case 3 => q.presos
    case 4 => q.medidas
    case _ => q.outros
  }

  /** The sum of counter `i` over every report that is not a draft. */
  function SomaCampo(rows: seq<PlantaoRow>, i: nat): int {
    if rows == [] then 0
    else (if rows[0].status != "rascunho" then Campo(rows[0].q, i) else 0) + SomaCampo(rows[1..], i)
  }

  /** The six sums. */
  function SomaQuantitativos(rows: seq<PlantaoRow>): (r: Quantitativos)
    ensures forall i :: 0 <= i < 6 ==> Campo(r, i) == SomaCampo(rows, i)
  {
    Quantitativos(SomaCampo(rows, 0), SomaCampo(rows, 1), SomaCampo(rows, 2),
                  SomaCampo(rows, 3), SomaCampo(rows, 4), SomaCampo(rows, 5))
  }

  /** `SUM(CASE WHEN status != 'rascunho' THEN q_* ELSE 0 END)`: NULL over an empty table. */
  function QuantitativosSql(rows: seq<PlantaoRow>): (r: Option<Quantitativos>)
    ensures r.None? <==> rows == []
  {
    if rows == [] then None else Some(SomaQuantitativos(rows))
  }

  /** The sums split over any division of the table. */
  lemma {:induction false} SomaAdditive(a: seq<PlantaoRow>, b: seq<PlantaoRow>, i: nat)
    ensures SomaCampo(a + b, i) == SomaCampo(a, i) + SomaCampo(b, i)
  {
    if a == [] {
      assert a + b == b;
    } else {
      assert (a + b)[1..] == a[1..] + b;
      SomaAdditive(a[1..], b, i);
    }
  }

  /** Drafts add nothing: a table of drafts sums to zero. */
  lemma {:induction false} RascunhosNaoSomam(rows: seq<PlantaoRow>, i: nat)
    requires forall k :: 0 <= k < |rows| ==> rows[k].status == "rascunho"
    ensures SomaCampo(rows, i) == 0
  {
    if rows != [] {
      RascunhosNaoSomam(rows[1..], i);
    }
  }

  /** A new draft leaves the totals as they were; any other report adds its own counters. */
  lemma NovoRelatorioNasSomas(rows: seq<PlantaoRow>, p: PlantaoRow, i: nat)
    ensures p.status == "rascunho" ==> SomaCampo(rows + [p], i) == SomaCampo(rows, i)
    ensures p.status != "rascunho" ==> SomaCampo(rows + [p], i) == SomaCampo(rows, i) + Campo(p.q, i)
  {
    SomaAdditive(rows, [p], i);
  }

  // ---------------------------------------------------------------------------
  // Police stations: SELECT DISTINCT delegacia ... ORDER BY delegacia
  // ---------------------------------------------------------------------------

  /**
   * SQLite's BINARY collation: the UTF-8 bytes compared in order, which is the
   * order of the code points, a proper prefix coming first.
   */
  predicate LexLess(a: string, b: string) {
    if a == [] then b != []
    else b != [] && (a[0] < b[0] || (a[0] == b[0] && LexLess(a[1..], b[1..])))
  }

  lemma {:induction false} LexIrreflexive(a: string)
    ensures !LexLess(a, a)
  {
    if a != [] {
      LexIrreflexive(a[1..]);
    }
  }

  lemma {:induction false} LexTransitive(a: string, b: string, c: string)
    requires LexLess(a, b) && LexLess(b, c)
    ensures LexLess(a, c)
  {
    if a != [] && a[0] == b[0] && b[0] == c[0] {
      LexTransitive(a[1..], b[1..], c[1..]);
    }
  }

  lemma {:induction false} LexTotal(a: string, b: string)
    requires a != b
    ensures LexLess(a, b) || LexLess(b, a)
  {
    if a != [] && b != [] && a[0] == b[0] {
      assert a == [a[0]] + a[1..] && b == [b[0]] + b[1..];
      LexTotal(a[1..], b[1..]);
    }
  }

  predicate Ascending(s: seq<string>) {
    forall i, j :: 0 <= i < j < |s| ==> LexLess(s[i], s[j])
  }

  /** Adds a name to an ascending list that may already hold it. */
  function InserirNome(x: string, s: seq<string>): (r: seq<string>)
    requires Ascending(s)
    ensures Ascending(r)
    ensures forall y :: y in r <==> y == x || y in s
  {
    if s == [] then [x]
    else if x == s[0] then s
    else if LexLess(x, s[0]) then
      forall k | 1 <= k < |s| ensures LexLess(x, s[k]) {
        LexTransitive(x, s[0], s[k]);
      }
      [x] + s
    else
      LexTotal(x, s[0]);
      var rest := InserirNome(x, s[1..]);
      assert forall y :: y in s <==> y == s[0] || y in s[1..];
      forall j | 0 <= j < |rest| ensures LexLess(s[0], rest[j]) {
        assert rest[j] in rest;
        if rest[j] != x {
          var k :| 0 <= k < |s[1..]| && s[1..][k] == rest[j];
          assert s[k + 1] == rest[j];
        }
      }
      [s[0]] + rest
  }

  /** The distinct non-empty stations, ascending. */
  function Delegacias(rows: seq<PlantaoRow>): (r: seq<string>)
    ensures Ascending(r)
    ensures forall d :: d in r <==> d != "" && exists p :: p in rows && p.delegacia == d
  {
    if rows == [] then []
    else
      var rest := Delegacias(rows[1..]);
      assert forall p :: p in rows <==> p == rows[0] || p in rows[1..];
      if rows[0].delegacia == "" then rest else InserirNome(rows[0].delegacia, rest)
  }

  /** An ascending list names each station once. */
  lemma DelegaciasDistinct(rows: seq<PlantaoRow>)
    ensures forall i, j :: 0 <= i < j < |Delegacias(rows)| ==> Delegacias(rows)[i] != Delegacias(rows)[j]
  {
    var r := Delegacias(rows);
    forall i, j | 0 <= i < j < |r| ensures r[i] != r[j] {
      LexIrreflexive(r[i]);
    }
  }

  // ---------------------------------------------------------------------------
  // The page data
  // ---------------------------------------------------------------------------

  datatype Painel = Painel(
    plantoes: seq<Resumo>, delegacias: seq<string>,
    estatisticas: Estatisticas, quantitativos: Quantitativos,
    usuario: Option<Usuario>)

  /** The answer without a store, and after any failed query. */
  function PainelVazio(usuario: Option<Usuario>): Painel {
    Painel([], [], EstatisticasZero, QuantitativosZero, usuario)
  }

  /**
   * `load`: `tabelas` is None when the `remocoespcce` binding is missing. An
   * empty table gives the same page as a missing store, since every NULL
   * aggregate reads as 0.
   */
  function Carregar(tabelas: Option<Relatorios>, usuario: Option<Usuario>, queryFails: bool): (r: Painel)
    ensures r.usuario == usuario
    ensures tabelas.None? || queryFails ==> r == PainelVazio(usuario)
    ensures tabelas.Some? && tabelas.value.plantoes == [] ==> r == PainelVazio(usuario)
    ensures |r.plantoes| <= LimiteListagem
    ensures r.estatisticas.rascunhos + r.estatisticas.finalizados + r.estatisticas.retificados
              <= r.estatisticas.total
    ensures tabelas.Some? && !queryFails ==>
      && r.estatisticas.total == |tabelas.value.plantoes|
      && r.plantoes == Listagem(tabelas.value)
      && r.delegacias == Delegacias(tabelas.value.plantoes)
      && r.estatisticas == Estatisticar(tabelas.value.plantoes)
      && r.quantitativos == SomaQuantitativos(tabelas.value.plantoes)
      && Ascending(r.delegacias)
  {
    match tabelas
    case None => PainelVazio(usuario)
    case Some(t) =>
      if queryFails then PainelVazio(usuario)
      else
        Painel(Listagem(t), Delegacias(t.plantoes), Estatisticar(t.plantoes),
               QuantitativosSql(t.plantoes).GetOr(QuantitativosZero), usuario)
  }
}
