/**
 * The shift-report page's server actions: `salvar` decodes the report form,
 * inserts the report, writes its protocol and inserts its team and procedure
 * rows; `carregarRascunho` looks a draft up by its code.
 */
module Plantao {
  import opened Util
  import opened JsText
  import opened Forms
  import opened App
  import opened Store

  // ---------------------------------------------------------------------------
  // Protocol and draft codes
  // ---------------------------------------------------------------------------

  /** `String(id).padStart(6, '0')`. */
  function ZeroPadded(id: nat): string {
    PadStart(Decimal(id), 6, '0')
  }

  /** `gerarProtocolo`: "FT-" and the id zero-padded to six digits. */
  function GerarProtocolo(id: nat): string {
    "FT-" + ZeroPadded(id)
  }

  /** `gerarCodigoRascunho`: "R-" and the id zero-padded to six digits. */
  function GerarCodigoRascunho(id: nat): string {
    "R-" + ZeroPadded(id)
  }

  /**
   * The padded numeral has at least six digits, exactly six below one million,
   * and reads back as the id.
   */
  lemma ZeroPaddedReadsBack(id: nat)
    ensures var z := ZeroPadded(id);
      && AllDecDigits(z) && AllRadixDigits(z, 10) && RadixValue(z, 10) == id
      && |z| >= 6
      && (id < 1000000 <==> |z| == 6)
  {
    var d := Decimal(id);
    var z := ZeroPadded(id);
    DecimalValue(id);
    DecimalLength(id, 6);
    assert Pow10(6) == 1000000;
    PadStartShape(d, 6, '0');
    var pad := z[..|z| - |d|];
    assert z == pad + d;
    LeadingZerosValue(pad, d);
  }

  /**
   * For an id below one million the protocol is nine characters, "FT-" and six
   * digits that read back as the id; for a larger id it is "FT-" and the plain numeral.
   */
  lemma ProtocoloFormat(id: nat)
    ensures var p := GerarProtocolo(id);
      && p[..3] == "FT-" && AllDecDigits(p[3..]) && AllRadixDigits(p[3..], 10) && RadixValue(p[3..], 10) == id
      && (id < 1000000 <==> |p| == 9)
      && (id >= 100000 ==> p == "FT-" + Decimal(id))
  {
    ZeroPaddedReadsBack(id);
    var p := GerarProtocolo(id);
    assert p[3..] == ZeroPadded(id);
    if id >= 100000 {
      DecimalLength(id, 5);
      assert Pow10(5) == 100000;
    }
  }

  /** Different reports get different protocols. */
  lemma ProtocoloInjective(a: nat, b: nat)
    requires GerarProtocolo(a) == GerarProtocolo(b)
    ensures a == b
  {
    ProtocoloFormat(a);
    ProtocoloFormat(b);
  }

  /**
   * A draft code is "R-" and six digits below one million that read back as the
   * id; it is already upper-case and trimmed, so it survives the normalization
   * `carregarRascunho` applies and passes its "R-" test.
   */
  lemma CodigoRascunhoFormat(id: nat)
    ensures var c := GerarCodigoRascunho(id);
      && c[..2] == "R-" && AllRadixDigits(c[2..], 10) && RadixValue(c[2..], 10) == id
      && (id < 1000000 <==> |c| == 8)
      && Normalize(c) == c
  {
    ZeroPaddedReadsBack(id);
    var c := GerarCodigoRascunho(id);
    assert c[2..] == ZeroPadded(id);
    DigitCodeIsNormalized("R-", ZeroPadded(id));
  }

  /** A code made of an upper-case letter prefix and a digit string is left alone by the normalization. */
  lemma DigitCodeIsNormalized(prefix: string, digits: string)
    requires prefix == "R-" || prefix == "FT-"
    requires digits != [] && AllDecDigits(digits)
    ensures Normalize(prefix + digits) == prefix + digits
  {
    var c := prefix + digits;
    assert IsUpperFixed(c) by {
      forall k | 0 <= k < |c| ensures IsUpperChar(c[k]) {
        if k >= |prefix| { assert c[k] == digits[k - |prefix|]; }
      }
    }
    UpperOfFixed(c);
    assert c[|c| - 1] == digits[|digits| - 1];
    TrimOfTrimmed(c);
  }

  // ---------------------------------------------------------------------------
  // Counters
  // ---------------------------------------------------------------------------

  /** `parseInt(formData.get(name)?.toString() || '0') || 0`: parse-or-zero. */
  function Counter(form: FormData, name: string): (r: int)
    ensures !Has(form, name) ==> r == 0
    ensures Get(form, name) == Some("") ==> r == 0
  {
    var text := Field(form, name, "0");
    assert text == "0" ==> ParseInt(text) == Some(0) by {
      ParseIntOfNumeral("", "", "0", "");
      assert "" + ("" + ("0" + "")) == "0";
    }
    match ParseInt(text)
    case Some(v) => v
    case None => 0
  }

  /** A value with no integer where `parseInt` looks for one counts as zero. */
  lemma CounterOfNaN(form: FormData, name: string)
    requires Has(form, name) && ParseInt(Get(form, name).value) == None
    ensures Counter(form, name) == 0
  {
  }

  /**
   * Otherwise the counter is the integer `parseInt` reads: a run of decimal
   * digits (leading zeros allowed), with optional leading whitespace and sign,
   * and any tail that cannot continue the digits.
   */
  lemma CounterOfNumeral(form: FormData, name: string, ws: string, sign: string, d: string, rest: string)
    requires forall k :: 0 <= k < |ws| ==> IsJsSpace(ws[k])
    requires IsSign(sign) && d != [] && AllDecDigits(d)
    requires EndsNumeral(d, rest)
    requires Get(form, name) == Some(ws + (sign + (d + rest)))
    ensures AllRadixDigits(d, 10) && Counter(form, name) == Signed(sign, RadixValue(d, 10))
  {
    ParseIntOfNumeral(ws, sign, d, rest);
  }

  /** The six counters of the form. */
  function ReadQuantitativos(form: FormData): Quantitativos {
    Quantitativos(
      Counter(form, "q_bo"), Counter(form, "q_guias"), Counter(form, "q_apreensoes"),
      Counter(form, "q_presos"), Counter(form, "q_medidas"), Counter(form, "q_outros"))
  }

  // ---------------------------------------------------------------------------
  // Report-level fields
  // ---------------------------------------------------------------------------

  /** The report's entry and exit dates and hours, as submitted (empty when missing). */
  datatype Horario = Horario(dataEntrada: string, horaEntrada: string, dataSaida: string, horaSaida: string)

  function ReadHorario(form: FormData): Horario {
    Horario(
      Field(form, "data_entrada", ""), Field(form, "hora_entrada", ""),
      Field(form, "data_saida", ""), Field(form, "hora_saida", ""))
  }

  /** The unit, upper-cased and trimmed. */
  function Delegacia(form: FormData): string {
    NormField(form, "delegacia")
  }

  /** The fields `salvar` requires: unit, entry date and entry hour. */
  predicate HasRequiredFields(form: FormData) {
    var h := ReadHorario(form);
    Delegacia(form) != "" && h.dataEntrada != "" && h.horaEntrada != ""
  }

  /** `formData.get('acao')?.toString() || 'rascunho'`. */
  function Acao(form: FormData): string {
    Field(form, "acao", "rascunho")
  }

  /** The status a save writes: finalizado exactly when the action is "finalizar". */
  function StatusFor(form: FormData): (s: string)
    ensures s == "finalizado" <==> Acao(form) == "finalizar"
    ensures s == "finalizado" || s == "rascunho"
    ensures !Has(form, "acao") ==> s == "rascunho"
  {
    if Acao(form) == "finalizar" then "finalizado" else "rascunho"
  }

  // ---------------------------------------------------------------------------
  // Team members: equipe_{i}_*
  // ---------------------------------------------------------------------------

  /** One decoded team member. */
  datatype Membro = Membro(
    nome: string, matricula: string, cargo: string, classe: string, escala: string,
    dataEntrada: string, horaEntrada: string, dataSaida: string, horaSaida: string)

  function EquipeKey(i: nat, field: string): string {
    IndexedKey("equipe_", i, field)
  }

  /**
   * The member at index `i`: the name upper-cased and trimmed; escala "Normal"
   * when missing or empty; dates and hours default to the report's own.
   */
  function MembroAt(form: FormData, i: nat, h: Horario): (m: Membro)
    ensures m.nome == NormField(form, EquipeKey(i, "_nome"))
    ensures m.escala != ""
    ensures !Has(form, EquipeKey(i, "_escala")) ==> m.escala == "Normal"
    ensures !Has(form, EquipeKey(i, "_data_entrada")) ==> m.dataEntrada == h.dataEntrada
    ensures !Has(form, EquipeKey(i, "_hora_entrada")) ==> m.horaEntrada == h.horaEntrada
    ensures h.dataEntrada != "" ==> m.dataEntrada != ""
    ensures h.horaEntrada != "" ==> m.horaEntrada != ""
  {
    Membro(
      NormField(form, EquipeKey(i, "_nome")),
      Field(form, EquipeKey(i, "_matricula"), ""),
      Field(form, EquipeKey(i, "_cargo"), ""),
      Field(form, EquipeKey(i, "_classe"), ""),
      Field(form, EquipeKey(i, "_escala"), "Normal"),
      Field(form, EquipeKey(i, "_data_entrada"), h.dataEntrada),
      Field(form, EquipeKey(i, "_hora_entrada"), h.horaEntrada),
      Field(form, EquipeKey(i, "_data_saida"), h.dataSaida),
      Field(form, EquipeKey(i, "_hora_saida"), h.horaSaida))
  }

  /** Index `i` yields a member exactly when its normalized name is not empty. */
  function MembroSlot(form: FormData, h: Horario): nat -> Option<Membro> {
    (i: nat) => if NormField(form, EquipeKey(i, "_nome")) != "" then Some(MembroAt(form, i, h)) else None
  }

  /** Where the team scan stops: the first index without an `equipe_{i}_nome` entry. */
  function EquipeLength(form: FormData): nat {
    ScanLength(form, "equipe_", "_nome", 0)
  }

  /** The decoded team: the named members before the first missing index, in index order. */
  function Equipe(form: FormData, h: Horario): seq<Membro> {
    Collect(MembroSlot(form, h), EquipeLength(form))
  }

  /** The team loop of `salvar`. */
  method DecodeEquipe(form: FormData, h: Horario) returns (equipe: seq<Membro>)
    ensures equipe == Equipe(form, h)
  {
    ghost var n := EquipeLength(form);
    ghost var slot := MembroSlot(form, h);
    equipe := [];
    var i := 0;
    while Has(form, EquipeKey(i, "_nome"))
      invariant i <= n
      invariant equipe == Collect(slot, i)
      decreases n - i
    {
      ScanStep(form, "equipe_", "_nome", i);
      var nome := NormField(form, EquipeKey(i, "_nome"));
      if nome != "" {
        equipe := equipe + [MembroAt(form, i, h)];
      }
      assert slot(i) == if nome != "" then Some(MembroAt(form, i, h)) else None;
      i := i + 1;
    }
    ScanStep(form, "equipe_", "_nome", i);
  }

  /**
   * Every decoded member has a non-empty, upper-case, trimmed name and a
   * non-empty escala, and inherits a non-empty entry date and hour when the
   * report has them; every member comes from an index before the first gap.
   */
  lemma EquipeWellFormed(form: FormData, h: Horario, m: Membro)
    requires m in Equipe(form, h)
    ensures m.nome != "" && IsNormalized(m.nome) && m.escala != ""
    ensures h.dataEntrada != "" ==> m.dataEntrada != ""
    ensures h.horaEntrada != "" ==> m.horaEntrada != ""
    ensures exists i: nat :: i < EquipeLength(form) && Has(form, EquipeKey(i, "_nome")) && m == MembroAt(form, i, h)
  {
    CollectSound(MembroSlot(form, h), EquipeLength(form), m);
    var i: nat :| i < EquipeLength(form) && MembroSlot(form, h)(i) == Some(m);
    assert m == MembroAt(form, i, h);
    NormFieldNormalized(form, EquipeKey(i, "_nome"));
  }

  /**
   * Every named index before the first gap yields its member, at the position
   * given by how many named indices precede it: unnamed indices are skipped
   * without ending the scan, and order is preserved.
   */
  lemma EquipeKeepsNamed(form: FormData, h: Horario, i: nat)
    requires i < EquipeLength(form)
    requires NormField(form, EquipeKey(i, "_nome")) != ""
    ensures var before := Collect(MembroSlot(form, h), i);
      |before| < |Equipe(form, h)| && Equipe(form, h)[|before|] == MembroAt(form, i, h)
  {
    CollectPosition(MembroSlot(form, h), EquipeLength(form), i);
  }

  /** No index at or after a missing `equipe_{g}_nome` contributes a member. */
  lemma EquipeTruncatedAtGap(form: FormData, h: Horario, g: nat)
    requires !Has(form, EquipeKey(g, "_nome"))
    ensures EquipeLength(form) <= g
    ensures Equipe(form, h) <= Collect(MembroSlot(form, h), g)
  {
    ScanStopsAtFirstGap(form, "equipe_", "_nome", 0, g);
    CollectPrefix(MembroSlot(form, h), EquipeLength(form), g);
  }

  // ---------------------------------------------------------------------------
  // Procedures: proc_{j}_*, with proc_{j}_vitima_{v} and proc_{j}_suspeito_{s}
  // ---------------------------------------------------------------------------

  /** One decoded procedure; the victim and suspect lists are what gets serialized to JSON. */
  datatype Procedimento = Procedimento(
    tipo: string, numero: string, natureza: string, envolvidos: string, resumo: string,
    vitimas: seq<string>, suspeitos: seq<string>)

  function ProcKey(j: nat, field: string): string {
    IndexedKey("proc_", j, field)
  }

  /** `proc_{j}_vitima_`: the victims of procedure `j` are keyed by this prefix and an index. */
  function VitimaPrefix(j: nat): string {
    "proc_" + Decimal(j) + "_vitima_"
  }

  /** `proc_{j}_suspeito_`. */
  function SuspeitoPrefix(j: nat): string {
    "proc_" + Decimal(j) + "_suspeito_"
  }

  /** The name at index `v` of a list, if it is not empty after upper-casing and trimming. */
  function NomeAt(form: FormData, prefix: string, v: nat): Option<string> {
    if NormField(form, IndexedKey(prefix, v, "")) != "" then Some(NormField(form, IndexedKey(prefix, v, ""))) else None
  }

  /** Name `v` of a list yields an entry exactly when it is not empty after upper-casing and trimming. */
  function NomeSlot(form: FormData, prefix: string): nat -> Option<string> {
    (v: nat) => NomeAt(form, prefix, v)
  }

  /** A victim or suspect list: the non-empty normalized names before the first missing index. */
  function Nomes(form: FormData, prefix: string): seq<string> {
    Collect(NomeSlot(form, prefix), ScanLength(form, prefix, "", 0))
  }

  /** The victim (or suspect) loop of `salvar`. */
  method DecodeNomes(form: FormData, prefix: string) returns (nomes: seq<string>)
    ensures nomes == Nomes(form, prefix)
  {
    ghost var n := ScanLength(form, prefix, "", 0);
    ghost var slot := NomeSlot(form, prefix);
    nomes := [];
    var v := 0;
    while Has(form, IndexedKey(prefix, v, ""))
      invariant v <= n
      invariant nomes == Collect(slot, v)
      decreases n - v
    {
      ScanStep(form, prefix, "", v);
      var nome := NormField(form, IndexedKey(prefix, v, ""));
      NomesStep(form, prefix, v);
      if nome != "" {
        nomes := nomes + [nome];
      }
      v := v + 1;
    }
    ScanStep(form, prefix, "", v);
  }

  /** One more index of a name list adds its name when that name is not empty. */
  lemma NomesStep(form: FormData, prefix: string, v: nat)
    ensures var nome := NormField(form, IndexedKey(prefix, v, ""));
      Collect(NomeSlot(form, prefix), v + 1)
        == Collect(NomeSlot(form, prefix), v) + (if nome != "" then [nome] else [])
  {
  }

  /** Every listed name is non-empty, upper-case and trimmed. */
  lemma NomesWellFormed(form: FormData, prefix: string, n: string)
    requires n in Nomes(form, prefix)
    ensures n != "" && IsNormalized(n)
  {
    CollectSound(NomeSlot(form, prefix), ScanLength(form, prefix, "", 0), n);
    var v: nat :| v < ScanLength(form, prefix, "", 0) && NomeSlot(form, prefix)(v) == Some(n);
    NormFieldNormalized(form, IndexedKey(prefix, v, ""));
  }

  /**
   * Procedure `j`: kept only when its tipo and its normalized natureza are both
   * non-empty; its name lists are decoded only then.
   */
  function ProcedimentoAt(form: FormData, j: nat): (p: Option<Procedimento>)
    ensures p.Some? <==> Field(form, ProcKey(j, "_tipo"), "") != "" && NormField(form, ProcKey(j, "_natureza")) != ""
  {
    var tipo := Field(form, ProcKey(j, "_tipo"), "");
    var natureza := NormField(form, ProcKey(j, "_natureza"));
    if tipo != "" && natureza != "" then
      Some(Procedimento(
        tipo,
        Field(form, ProcKey(j, "_numero"), ""),
        natureza,
        NormField(form, ProcKey(j, "_envolvidos")),
        NormField(form, ProcKey(j, "_resumo")),
        Nomes(form, VitimaPrefix(j)),
        Nomes(form, SuspeitoPrefix(j))))
    else None
  }

  function ProcedimentoSlot(form: FormData): nat -> Option<Procedimento> {
    (j: nat) => ProcedimentoAt(form, j)
  }

  /** Where the procedure scan stops: the first index without a `proc_{j}_tipo` entry. */
  function ProcedimentosLength(form: FormData): nat {
    ScanLength(form, "proc_", "_tipo", 0)
  }

  /** The decoded procedures, in index order. */
  function Procedimentos(form: FormData): seq<Procedimento> {
    Collect(ProcedimentoSlot(form), ProcedimentosLength(form))
  }

  /** The procedure loop of `salvar`, with its two nested name loops. */
  method DecodeProcedimentos(form: FormData) returns (procs: seq<Procedimento>)
    ensures procs == Procedimentos(form)
  {
    ghost var n := ProcedimentosLength(form);
    ghost var slot := ProcedimentoSlot(form);
    procs := [];
    var j := 0;
    while Has(form, ProcKey(j, "_tipo"))
      invariant j <= n
      invariant procs == Collect(slot, j)
      decreases n - j
    {
      ScanStep(form, "proc_", "_tipo", j);
      var tipo := Field(form, ProcKey(j, "_tipo"), "");
      var natureza := NormField(form, ProcKey(j, "_natureza"));
      ProcedimentosStep(form, j);
      if tipo != "" && natureza != "" {
        var vitimas := DecodeNomes(form, VitimaPrefix(j));
        var suspeitos := DecodeNomes(form, SuspeitoPrefix(j));
        var p := Procedimento(
          tipo,
          Field(form, ProcKey(j, "_numero"), ""),
          natureza,
          NormField(form, ProcKey(j, "_envolvidos")),
          NormField(form, ProcKey(j, "_resumo")),
          vitimas,
          suspeitos);
        assert ProcedimentoAt(form, j) == Some(p);
        procs := procs + [p];
      }
      j := j + 1;
    }
    ScanStep(form, "proc_", "_tipo", j);
  }

  /** One more procedure index adds its procedure when it is kept. */
  lemma ProcedimentosStep(form: FormData, j: nat)
    ensures var p := ProcedimentoAt(form, j);
      Collect(ProcedimentoSlot(form), j + 1)
        == Collect(ProcedimentoSlot(form), j) + (if p.Some? then [p.value] else [])
  {
  }

  /**
   * Every decoded procedure has a non-empty tipo and a non-empty, normalized
   * natureza, and all its victim and suspect names are non-empty and normalized.
   */
  lemma ProcedimentosWellFormed(form: FormData, p: Procedimento)
    requires p in Procedimentos(form)
    ensures p.tipo != "" && p.natureza != "" && IsNormalized(p.natureza)
    ensures forall v :: v in p.vitimas ==> v != "" && IsNormalized(v)
    ensures forall s :: s in p.suspeitos ==> s != "" && IsNormalized(s)
  {
    CollectSound(ProcedimentoSlot(form), ProcedimentosLength(form), p);
    var j: nat :| j < ProcedimentosLength(form) && ProcedimentoSlot(form)(j) == Some(p);
    assert ProcedimentoAt(form, j) == Some(p);
    NormFieldNormalized(form, ProcKey(j, "_natureza"));
    forall v | v in p.vitimas ensures v != "" && IsNormalized(v) {
      NomesWellFormed(form, VitimaPrefix(j), v);
    }
    forall s | s in p.suspeitos ensures s != "" && IsNormalized(s) {
      NomesWellFormed(form, SuspeitoPrefix(j), s);
    }
  }

  /** A procedure index before the first gap with tipo and natureza yields its procedure, in order. */
  lemma ProcedimentosKeepValid(form: FormData, j: nat)
    requires j < ProcedimentosLength(form)
    requires Field(form, ProcKey(j, "_tipo"), "") != "" && NormField(form, ProcKey(j, "_natureza")) != ""
    ensures var before := Collect(ProcedimentoSlot(form), j);
      |before| < |Procedimentos(form)| && Procedimentos(form)[|before|] == ProcedimentoAt(form, j).value
  {
    CollectPosition(ProcedimentoSlot(form), ProcedimentosLength(form), j);
  }

  // ---------------------------------------------------------------------------
  // Rows written by a save
  // ---------------------------------------------------------------------------

  /** The `plantoes` row a save inserts, before the store assigns its id. */
  function NovoPlantao(form: FormData, u: Usuario, now: int): PlantaoRow {
    var h := ReadHorario(form);
    PlantaoRow(
      0, None, u.matricula, u.nome, Delegacia(form), h.dataEntrada, h.horaEntrada,
      NullIfEmpty(h.dataSaida), NullIfEmpty(h.horaSaida), StatusFor(form),
      NullIfEmpty(NormField(form, "observacoes")), ReadQuantitativos(form), now, now)
  }

  function EquipeRowOf(id: nat, m: Membro): EquipeRow {
    EquipeRow(
      id, m.nome, NullIfEmpty(m.matricula), NullIfEmpty(m.cargo), NullIfEmpty(m.classe), m.escala,
      m.dataEntrada, m.horaEntrada, NullIfEmpty(m.dataSaida), NullIfEmpty(m.horaSaida))
  }

  function ProcedimentoRowOf(id: nat, p: Procedimento): ProcedimentoRow {
    ProcedimentoRow(
      id, p.tipo, NullIfEmpty(p.numero), p.natureza, NullIfEmpty(p.envolvidos), NullIfEmpty(p.resumo),
      p.vitimas, p.suspeitos)
  }

  /** One `plantoes_equipe` row per member, in order, all for report `id`. */
  function EquipeRows(id: nat, equipe: seq<Membro>): (rows: seq<EquipeRow>)
    ensures |rows| == |equipe|
    ensures forall k :: 0 <= k < |rows| ==> rows[k] == EquipeRowOf(id, equipe[k])
  {
    seq(|equipe|, k requires 0 <= k < |equipe| => EquipeRowOf(id, equipe[k]))
  }

  /** One `plantoes_procedimentos` row per procedure, in order, all for report `id`. */
  function ProcedimentoRows(id: nat, procs: seq<Procedimento>): (rows: seq<ProcedimentoRow>)
    ensures |rows| == |procs|
    ensures forall k :: 0 <= k < |rows| ==> rows[k] == ProcedimentoRowOf(id, procs[k])
  {
    seq(|procs|, k requires 0 <= k < |procs| => ProcedimentoRowOf(id, procs[k]))
  }

  // ---------------------------------------------------------------------------
  // salvar
  // ---------------------------------------------------------------------------

  const ErroSessao := "Sessão expirada. Faça login novamente."
  const ErroCampos := "Preencha a unidade policial e os horários de entrada."
  const ErroSalvar := "Erro ao salvar os dados. Tente novamente."

  /** What `salvar` answers: a failure with its HTTP status, a redirect, or the saved draft's protocol. */
  datatype SalvarResult =
    | SalvarFail(status: int, erro: string)
    | SalvarRedirect(status: int, location: string)
    | Salvo(mensagem: string, protocolo: string)

  /** Which of the three writes, if any, the store rejects. */
  datatype StoreFault = NoFault | InsertFails | ProtocoloFails | BatchFails

  /** Where a finalized report sends the browser: its print view. */
  function ImprimirPath(id: nat): string {
    "/plantao/imprimir/" + Decimal(id)
  }

  /** How the `try` block of `salvar` ends: with a value, by throwing a redirect, or with a store error. */
  datatype TryExit = Returned(value: SalvarResult) | ThrewRedirect(status: int, location: string) | ThrewError

  /**
   * The `catch` clause as written: it re-raises only a `Response`, and the
   * object SvelteKit's `redirect` throws is not a `Response`, so a thrown
   * redirect ends up as the generic 500 like any store error.
   */
  function CatchAsWritten(e: TryExit): SalvarResult {
    match e
    case Returned(v) => v
    case ThrewRedirect(_, _) => SalvarFail(500, ErroSalvar)
    case ThrewError => SalvarFail(500, ErroSalvar)
  }

  /** The `catch` clause as intended (and as `validarToken` does it, with `isRedirect`): redirects pass through. */
  function Catch(e: TryExit): SalvarResult {
    match e
    case Returned(v) => v
    case ThrewRedirect(status, location) => SalvarRedirect(status, location)
    case ThrewError => SalvarFail(500, ErroSalvar)
  }

  /**
   * What `salvar` has decoded from a complete form before it writes: the report
   * row (its id not yet assigned), the team, the procedures, and whether the
   * action finalizes.
   */
  datatype Relatorio = Relatorio(row: PlantaoRow, equipe: seq<Membro>, procedimentos: seq<Procedimento>, finalizar: bool)

  function Decode(form: FormData, u: Usuario, now: int): Relatorio {
    Relatorio(NovoPlantao(form, u, now), Equipe(form, ReadHorario(form)), Procedimentos(form), Acao(form) == "finalizar")
  }

  /**
   * The `try` block of `salvar`: the report insert, the protocol update and the
   * child batch, each of which the store may reject (`fault`); a rejected write
   * throws and the later ones never run. Only the last step ends otherwise: a
   * redirect for a finalized report, the protocol for a draft.
   */
  function SaveWrites(t: Relatorios, d: Relatorio, fault: StoreFault): (out: (Relatorios, TryExit))
    ensures out.1.Returned? ==> out.1.value.Salvo?
    ensures out.1.ThrewRedirect? ==> d.finalizar && out.1.status == 303
    ensures fault == NoFault ==> !out.1.ThrewError?
  {
    if fault == InsertFails then (t, ThrewError)
    else
      var id := NextRowId(PlantaoIds(t.plantoes));
      var inserted := t.plantoes + [d.row.(id := id)];
      if fault == ProtocoloFails then (t.(plantoes := inserted), ThrewError)
      else
        var protocolo := GerarProtocolo(id);
        var numbered := SetProtocolo(inserted, id, protocolo);
        var team := EquipeRows(id, d.equipe);
        var procs := ProcedimentoRows(id, d.procedimentos);
        if |team| + |procs| > 0 && fault == BatchFails then (t.(plantoes := numbered), ThrewError)
        else
          (Relatorios(numbered, t.equipe + team, t.procedimentos + procs),
           if d.finalizar then ThrewRedirect(303, ImprimirPath(id))
           else Returned(Salvo("Rascunho salvo! Protocolo: " + protocolo, protocolo)))
  }

  /**
   * `salvar` on the tables of an available store: the new tables and the answer.
   * Only a signed-in user with a complete form causes any write; the session
   * and validation errors leave every table as it was, and they are answered
   * exactly when the user is missing, or present with an incomplete form.
   */
  function Save(t: Relatorios, usuario: Option<Usuario>, form: FormData, now: int, fault: StoreFault)
    : (out: (Relatorios, SalvarResult))
    ensures out.0 != t ==> usuario.Some? && HasRequiredFields(form)
    ensures out.1 == SalvarFail(401, ErroSessao) <==> usuario.None?
    ensures out.1 == SalvarFail(400, ErroCampos) <==> usuario.Some? && !HasRequiredFields(form)
    ensures out.1.SalvarFail? && out.1.status != 500 ==> out.0 == t
  {
    if usuario.None? then (t, SalvarFail(401, ErroSessao))
    else if !HasRequiredFields(form) then (t, SalvarFail(400, ErroCampos))
    else
      var w := SaveWrites(t, Decode(form, usuario.value, now), fault);
      (w.0, Catch(w.1))
  }

  /** Whatever the store rejects, the writes keep report ids distinct and every child row attached to a report. */
  lemma SaveKeepsValid(t: Relatorios, d: Relatorio, fault: StoreFault)
    requires RelatoriosValid(t)
    ensures RelatoriosValid(SaveWrites(t, d, fault).0)
  {
    if fault != InsertFails {
      var id := NextRowId(PlantaoIds(t.plantoes));
      var row := d.row.(id := id);
      NewRowKeepsValid(t.plantoes, t.equipe, t.procedimentos, id, row);
      if fault != ProtocoloFails {
        var protocolo := GerarProtocolo(id);
        var numbered := t.plantoes + [row.(protocolo := Some(protocolo))];
        ProtocoloOnNewRow(t.plantoes, id, row, protocolo);
        NewRowKeepsValid(t.plantoes, t.equipe, t.procedimentos, id, row.(protocolo := Some(protocolo)));
        assert id in PlantaoIdSet(numbered) by { assert numbered[|t.plantoes|].id == id; }
        ChildrenKeepValid(numbered, t.equipe, t.procedimentos, id,
          EquipeRows(id, d.equipe), ProcedimentoRows(id, d.procedimentos));
      }
    }
  }

  /**
   * Writes the store accepts append one report, with the next id and its
   * protocol; the report's child rows are then exactly one per decoded member
   * and one per decoded procedure, in order, and earlier rows are kept.
   */
  lemma SaveStoresReport(t: Relatorios, d: Relatorio)
    requires RelatoriosValid(t)
    ensures var id := NextRowId(PlantaoIds(t.plantoes));
      var w := SaveWrites(t, d, NoFault);
      && w.0.plantoes == t.plantoes + [d.row.(id := id, protocolo := Some(GerarProtocolo(id)))]
      && t.equipe <= w.0.equipe && t.procedimentos <= w.0.procedimentos
      && EquipeOf(w.0.equipe, id) == EquipeRows(id, d.equipe)
      && ProcedimentosOf(w.0.procedimentos, id) == ProcedimentoRows(id, d.procedimentos)
  {
    var id := NextRowId(PlantaoIds(t.plantoes));
    var team, procs := EquipeRows(id, d.equipe), ProcedimentoRows(id, d.procedimentos);
    var row := d.row.(id := id, protocolo := Some(GerarProtocolo(id)));
    ProtocoloOnNewRow(t.plantoes, id, d.row.(id := id), GerarProtocolo(id));
    assert SaveWrites(t, d, NoFault).0 == Relatorios(t.plantoes + [row], t.equipe + team, t.procedimentos + procs);
    SavedChildrenExact(t.plantoes, t.equipe, t.procedimentos, team, procs);
  }

  /**
   * A save the store accepts redirects a finalized report to its print view and
   * answers a draft with its protocol.
   */
  lemma SaveAnswers(t: Relatorios, d: Relatorio)
    ensures var id := NextRowId(PlantaoIds(t.plantoes));
      var w := SaveWrites(t, d, NoFault);
      && (d.finalizar ==> Catch(w.1) == SalvarRedirect(303, ImprimirPath(id)))
      && (!d.finalizar ==>
            Catch(w.1) == Salvo("Rascunho salvo! Protocolo: " + GerarProtocolo(id), GerarProtocolo(id)))
  {
  }

  /**
   * The three writes are not one transaction: a rejected protocol update leaves
   * the new report without a protocol and without children, and a rejected
   * batch leaves it numbered but without children. A rejected insert writes nothing.
   */
  lemma SaveIsNotAtomic(t: Relatorios, d: Relatorio)
    ensures SaveWrites(t, d, InsertFails) == (t, ThrewError)
    ensures var id := NextRowId(PlantaoIds(t.plantoes));
      SaveWrites(t, d, ProtocoloFails) == (t.(plantoes := t.plantoes + [d.row.(id := id)]), ThrewError)
    ensures var id := NextRowId(PlantaoIds(t.plantoes));
      var w := SaveWrites(t, d, BatchFails);
      && w.0.plantoes == t.plantoes + [d.row.(id := id, protocolo := Some(GerarProtocolo(id)))]
      && (|d.equipe| + |d.procedimentos| > 0 ==> w == (t.(plantoes := w.0.plantoes), ThrewError))
  {
    var id := NextRowId(PlantaoIds(t.plantoes));
    ProtocoloOnNewRow(t.plantoes, id, d.row.(id := id), GerarProtocolo(id));
  }

  /**
   * A finalized save, as written and as intended: the report is stored either
   * way, but the catch clause as written turns the redirect to the print view
   * into the generic 500.
   */
  lemma FinalizeCaughtAsWritten(t: Relatorios, d: Relatorio)
    requires d.finalizar
    ensures var w := SaveWrites(t, d, NoFault);
      && |w.0.plantoes| == |t.plantoes| + 1
      && CatchAsWritten(w.1) == SalvarFail(500, ErroSalvar)
      && Catch(w.1) == SalvarRedirect(303, ImprimirPath(NextRowId(PlantaoIds(t.plantoes))))
  {
  }

  /**
   * The `salvar` action. Without a store it fails with 500 and touches nothing;
   * otherwise its writes and its answer are those of `Save`, the invariant of
   * the store is kept, and no other table changes.
   */
  method Salvar(db: Database?, locals: Locals, form: FormData, now: int, fault: StoreFault)
    returns (r: SalvarResult)
    requires db != null ==> db.Valid()
    modifies db
    ensures db == null ==> r == SalvarFail(500, ErroBanco)
    ensures db != null ==>
      var out := Save(Relatorios(old(db.plantoes), old(db.equipe), old(db.procedimentos)), locals.usuario, form, now, fault);
      Relatorios(db.plantoes, db.equipe, db.procedimentos) == out.0 && r == out.1
    ensures db != null ==> db.Valid()
    ensures db != null ==>
      (db.servidores == old(db.servidores) && db.tokens == old(db.tokens) && db.sessoes == old(db.sessoes)
       && db.rascunhos == old(db.rascunhos) && db.remocoes == old(db.remocoes))
  {
    if db == null {
      return SalvarFail(500, ErroBanco);
    }
    if locals.usuario.None? {
      return SalvarFail(401, ErroSessao);
    }
    var usuario := locals.usuario.value;
    var delegacia := NormField(form, "delegacia");
    var h := ReadHorario(form);
    if delegacia == "" || h.dataEntrada == "" || h.horaEntrada == "" {
      return SalvarFail(400, ErroCampos);
    }
    var d := Decodificar(form, usuario, now);
    ghost var t := Relatorios(db.plantoes, db.equipe, db.procedimentos);
    ghost var w := SaveWrites(t, d, fault);
    assert Save(t, locals.usuario, form, now, fault) == (w.0, Catch(w.1));
    var exit := Gravar(db, d, fault);
    r := Catch(exit);
  }

  /**
   * The decoding half of `salvar`, once the form is known to be complete: the
   * action, the report fields, the six counters, the team loop and the
   * procedure loop, giving the report to write.
   */
  method Decodificar(form: FormData, usuario: Usuario, now: int) returns (d: Relatorio)
    ensures d == Decode(form, usuario, now)
  {
    var acao := Field(form, "acao", "rascunho");
    var delegacia := NormField(form, "delegacia");
    var h := ReadHorario(form);
    var observacoes := NormField(form, "observacoes");
    var q := ReadQuantitativos(form);
    var equipe := DecodeEquipe(form, h);
    var procedimentos := DecodeProcedimentos(form);
    var status := if acao == "finalizar" then "finalizado" else "rascunho";
    var row := PlantaoRow(
      0, None, usuario.matricula, usuario.nome, delegacia, h.dataEntrada, h.horaEntrada,
      NullIfEmpty(h.dataSaida), NullIfEmpty(h.horaSaida), status,
      NullIfEmpty(observacoes), q, now, now);
    d := Relatorio(row, equipe, procedimentos, acao == "finalizar");
  }

  /** The `try` block of `salvar` against the store: the writes of `SaveWrites`, keeping the store's invariant. */
  method Gravar(db: Database, d: Relatorio, fault: StoreFault) returns (exit: TryExit)
    requires db.Valid()
    modifies db
    ensures db.Valid()
    ensures var w := SaveWrites(Relatorios(old(db.plantoes), old(db.equipe), old(db.procedimentos)), d, fault);
      Relatorios(db.plantoes, db.equipe, db.procedimentos) == w.0 && exit == w.1
    ensures db.servidores == old(db.servidores) && db.tokens == old(db.tokens) && db.sessoes == old(db.sessoes)
      && db.rascunhos == old(db.rascunhos) && db.remocoes == old(db.remocoes)
  {
    SaveKeepsValid(Relatorios(db.plantoes, db.equipe, db.procedimentos), d, fault);
    if fault == InsertFails {
      return ThrewError;
    }
    var plantaoId := db.InsertPlantao(d.row);
    var protocolo := GerarProtocolo(plantaoId);
    if fault == ProtocoloFails {
      return ThrewError;
    }
    db.UpdateProtocolo(plantaoId, protocolo);
    var team := EquipeRows(plantaoId, d.equipe);
    var procs := ProcedimentoRows(plantaoId, d.procedimentos);
    if |team| + |procs| > 0 {
      if fault == BatchFails {
        return ThrewError;
      }
      db.InsertChildren(team, procs);
    }
    if d.finalizar {
      return ThrewRedirect(303, ImprimirPath(plantaoId));
    }
    return Returned(Salvo("Rascunho salvo! Protocolo: " + protocolo, protocolo));
  }

  /** Appending a row with a fresh id keeps ids distinct and children attached. */
  lemma NewRowKeepsValid(rows: seq<PlantaoRow>, equipe: seq<EquipeRow>, procs: seq<ProcedimentoRow>, id: nat, row: PlantaoRow)
    requires DistinctIds(PlantaoIds(rows)) && ChildrenAttached(rows, equipe, procs)
    requires id == NextRowId(PlantaoIds(rows)) && row.id == id
    ensures DistinctIds(PlantaoIds(rows + [row])) && ChildrenAttached(rows + [row], equipe, procs)
  {
    var r := rows + [row];
    forall i, j | 0 <= i < j < |r| ensures PlantaoIds(r)[i] != PlantaoIds(r)[j] {
      if j == |rows| {
        assert PlantaoIds(rows)[i] == r[i].id;
      } else {
        assert PlantaoIds(rows)[i] == r[i].id && PlantaoIds(rows)[j] == r[j].id;
      }
    }
    assert PlantaoIdSet(rows) <= PlantaoIdSet(r);
  }

  /** Writing the protocol on the newly inserted row touches only that row. */
  lemma ProtocoloOnNewRow(rows: seq<PlantaoRow>, id: nat, row: PlantaoRow, protocolo: string)
    requires id == NextRowId(PlantaoIds(rows)) && row.id == id
    ensures SetProtocolo(rows + [row], id, protocolo) == rows + [row.(protocolo := Some(protocolo))]
  {
    var r := rows + [row];
    forall k | 0 <= k < |rows| ensures rows[k].id != id {
      assert PlantaoIds(rows)[k] == rows[k].id;
    }
    assert SetProtocolo(r, id, protocolo)[..|rows|] == rows;
  }

  /** Child rows of an existing report keep the children attached. */
  lemma ChildrenKeepValid(rows: seq<PlantaoRow>, equipe: seq<EquipeRow>, procs: seq<ProcedimentoRow>,
                          id: nat, team: seq<EquipeRow>, procRows: seq<ProcedimentoRow>)
    requires ChildrenAttached(rows, equipe, procs)
    requires id in PlantaoIdSet(rows)
    requires forall e :: e in team ==> e.plantaoId == id
    requires forall p :: p in procRows ==> p.plantaoId == id
    ensures ChildrenAttached(rows, equipe + team, procs + procRows)
  {
  }

  /**
   * The child rows a save appends for the new id are all the rows that id has:
   * no earlier row carries it, since every existing child belongs to an existing report.
   */
  lemma SavedChildrenExact(rows: seq<PlantaoRow>, equipe: seq<EquipeRow>, procs: seq<ProcedimentoRow>,
                           team: seq<EquipeRow>, procRows: seq<ProcedimentoRow>)
    requires DistinctIds(PlantaoIds(rows)) && ChildrenAttached(rows, equipe, procs)
    requires forall e :: e in team ==> e.plantaoId == NextRowId(PlantaoIds(rows))
    requires forall p :: p in procRows ==> p.plantaoId == NextRowId(PlantaoIds(rows))
    ensures var id := NextRowId(PlantaoIds(rows));
      EquipeOf(equipe + team, id) == team && ProcedimentosOf(procs + procRows, id) == procRows
  {
    var id := NextRowId(PlantaoIds(rows));
    assert id !in PlantaoIdSet(rows) by {
      forall p | p in rows ensures p.id != id {
        var k :| 0 <= k < |rows| && rows[k] == p;
        assert PlantaoIds(rows)[k] == p.id;
      }
    }
    EquipeOfAppend(equipe, team, id);
    EquipeOfNone(equipe, id);
    EquipeOfAll(team, id);
    ProcedimentosOfAppend(procs, procRows, id);
    ProcedimentosOfNone(procs, id);
    ProcedimentosOfAll(procRows, id);
  }

  lemma {:induction false} EquipeOfNone(rows: seq<EquipeRow>, id: nat)
    requires forall e :: e in rows ==> e.plantaoId != id
    ensures EquipeOf(rows, id) == []
  {
    if rows != [] { EquipeOfNone(rows[1..], id); }
  }

  lemma {:induction false} EquipeOfAll(rows: seq<EquipeRow>, id: nat)
    requires forall e :: e in rows ==> e.plantaoId == id
    ensures EquipeOf(rows, id) == rows
  {
    if rows != [] { EquipeOfAll(rows[1..], id); }
  }

  lemma {:induction false} ProcedimentosOfNone(rows: seq<ProcedimentoRow>, id: nat)
    requires forall p :: p in rows ==> p.plantaoId != id
    ensures ProcedimentosOf(rows, id) == []
  {
    if rows != [] { ProcedimentosOfNone(rows[1..], id); }
  }

  lemma {:induction false} ProcedimentosOfAll(rows: seq<ProcedimentoRow>, id: nat)
    requires forall p :: p in rows ==> p.plantaoId == id
    ensures ProcedimentosOf(rows, id) == rows
  {
    if rows != [] { ProcedimentosOfAll(rows[1..], id); }
  }

  // ---------------------------------------------------------------------------
  // carregarRascunho
  // ---------------------------------------------------------------------------

  const ErroCodigo := "Código inválido. Use o formato R-XXXXXX."
  const ErroRascunho := "Rascunho não encontrado ou expirado (válido por 36 horas)."
  const ErroCarregar := "Erro ao carregar o rascunho."

  /** What `carregarRascunho` answers: a failure, or the draft's saved form, verbatim. */
  datatype CarregarResult = CarregarFail(status: int, erro: string) | RascunhoCarregado(dados: string)

  /** The draft a lookup matches: same code, active, and not yet expired. */
  predicate RascunhoMatches(row: RascunhoRow, codigo: string, now: int) {
    row.codigo == codigo && row.expiraEm > now && row.status == "ativo"
  }

  /** `SELECT * FROM rascunhos WHERE codigo = ? AND expira_em > ? AND status = 'ativo' LIMIT 1`. */
  function FindRascunho(rows: seq<RascunhoRow>, codigo: string, now: int): (r: Option<RascunhoRow>)
    ensures r.Some? ==> r.value in rows && RascunhoMatches(r.value, codigo, now)
    ensures r.None? <==> forall k :: 0 <= k < |rows| ==> !RascunhoMatches(rows[k], codigo, now)
  {
    if rows == [] then None
    else if RascunhoMatches(rows[0], codigo, now) then Some(rows[0])
    else
      var r := FindRascunho(rows[1..], codigo, now);
      assert forall k :: 1 <= k < |rows| ==> rows[k] == rows[1..][k - 1];
      r
  }

  /** The submitted code, upper-cased and trimmed. */
  function Codigo(form: FormData): string {
    NormField(form, "codigo")
  }

  /**
   * The `carregarRascunho` action. A code that does not start with "R-" fails
   * with 400 before the store is read; a draft is returned only if its code
   * matches, it is active and it has not expired; otherwise 404. A store error
   * (`queryFails`) answers 500.
   */
  function CarregarRascunho(db: Database?, form: FormData, now: int, queryFails: bool): (r: CarregarResult)
    reads db
    ensures db == null ==> r == CarregarFail(500, ErroBanco)
    ensures db != null && !("R-" <= Codigo(form)) ==> r == CarregarFail(400, ErroCodigo)
    ensures r.RascunhoCarregado? ==>
      db != null && "R-" <= Codigo(form)
      && exists row :: row in db.rascunhos && RascunhoMatches(row, Codigo(form), now) && row.dadosJson == r.dados
    ensures r == CarregarFail(404, ErroRascunho) <==>
      db != null && "R-" <= Codigo(form) && !queryFails
      && forall k :: 0 <= k < |db.rascunhos| ==> !RascunhoMatches(db.rascunhos[k], Codigo(form), now)
    ensures r.RascunhoCarregado? <==>
      db != null && "R-" <= Codigo(form) && !queryFails
      && exists k :: 0 <= k < |db.rascunhos| && RascunhoMatches(db.rascunhos[k], Codigo(form), now)
    ensures r == CarregarFail(500, ErroCarregar) <==> db != null && "R-" <= Codigo(form) && queryFails
  {
    if db == null then CarregarFail(500, ErroBanco)
    else
      var codigo := Codigo(form);
      if !("R-" <= codigo) then CarregarFail(400, ErroCodigo)
      else if queryFails then CarregarFail(500, ErroCarregar)
      else
        match FindRascunho(db.rascunhos, codigo, now)
        case None => CarregarFail(404, ErroRascunho)
        case Some(row) => RascunhoCarregado(row.dadosJson)
  }
}
