/**
 * The two-step login of the login route: `buscarServidor` looks a servant up
 * by registration number and issues a six-digit code valid for 15 minutes;
 * `validarToken` consumes a matching code, opens an 8-hour session and sets
 * the `session_id` cookie. The random code and the 32 random bytes of the
 * session identifier are parameters; so is the failure of any store statement.
 */
module Login {
  import opened Util
  import opened JsText
  import opened Forms
  import opened App
  import opened Store

  // ---------------------------------------------------------------------------
  // gerarSessionId
  // ---------------------------------------------------------------------------

  predicate IsLowerHex(c: char) { IsDecDigit(c) || 'a' <= c <= 'f' }

  /** The lower-case hexadecimal digit for `d`. */
  function HexDigit(d: nat): (c: char)
    requires d < 16
    ensures IsLowerHex(c) && IsHexDigit(c) && DigitValue(c) == d
  {
    if d < 10 then DecDigit(d) else ('a' as int + d - 10) as char
  }

  /** `n.toString(16)`: lower-case hexadecimal without leading zeros, read back as `n`. */
  function HexNumeral(n: nat): (r: string)
    ensures 1 <= |r| && AllRadixDigits(r, 16) && RadixValue(r, 16) == n
    ensures n < 16 <==> |r| == 1
  {
    if n < 16 then [HexDigit(n)]
    else
      var r := HexNumeral(n / 16) + [HexDigit(n % 16)];
      assert r[..|r| - 1] == HexNumeral(n / 16);
      r
  }

  /** `b.toString(16).padStart(2, '0')`: two lower-case digits whose value is the byte. */
  function ByteHex(b: byte): (r: string)
    ensures |r| == 2 && IsLowerHex(r[0]) && IsLowerHex(r[1])
    ensures IsHexDigit(r[0]) && IsHexDigit(r[1]) && DigitValue(r[0]) * 16 + DigitValue(r[1]) == b as int
  {
    var h := HexNumeral(b as nat);
    if b < 16 then
      assert h == [HexDigit(b as nat)];
      PadStart(h, 2, '0')
    else
      assert HexNumeral(b as nat / 16) == [HexDigit(b as nat / 16)];
      PadStart(h, 2, '0')
  }

  /**
   * `gerarSessionId`: the bytes drawn by `crypto.getRandomValues`, each as two
   * lower-case hexadecimal digits, joined in order.
   */
  function GerarSessionId(bytes: seq<byte>): (id: string)
    ensures |id| == 2 * |bytes|
    ensures forall k :: 0 <= k < |id| ==> IsLowerHex(id[k])
  {
    if bytes == [] then ""
    else
      var h, rest := ByteHex(bytes[0]), GerarSessionId(bytes[1..]);
      assert forall k :: 0 <= k < |h + rest| ==> IsLowerHex((h + rest)[k]) by {
        forall k | 0 <= k < |h + rest| ensures IsLowerHex((h + rest)[k]) {
          if k >= 2 { assert (h + rest)[k] == rest[k - 2]; }
        }
      }
      h + rest
  }

  /** Reading a hexadecimal text back as bytes, two digits per byte; None if it is not one. */
  function DecodeHex(s: string): (r: Option<seq<byte>>)
    ensures r.Some? ==> 2 * |r.value| == |s|
  {
    if s == [] then Some([])
    else if |s| < 2 || !IsHexDigit(s[0]) || !IsHexDigit(s[1]) then None
    else
      match DecodeHex(s[2..])
      case None => None
      case Some(rest) => Some([(DigitValue(s[0]) * 16 + DigitValue(s[1])) as byte] + rest)
  }

  /** The identifier encodes its bytes without loss: decoding it gives them back. */
  lemma {:induction false} SessionIdDecodes(bytes: seq<byte>)
    ensures DecodeHex(GerarSessionId(bytes)) == Some(bytes)
  {
    if bytes != [] {
      var id := GerarSessionId(bytes);
      var h, rest := ByteHex(bytes[0]), GerarSessionId(bytes[1..]);
      assert id == h + rest;
      assert id[0] == h[0] && id[1] == h[1];
      assert id[2..] == rest;
      SessionIdDecodes(bytes[1..]);
      assert bytes == [bytes[0]] + bytes[1..];
    }
  }

  /** Different random bytes give different identifiers; 32 bytes give 64 digits. */
  lemma SessionIdInjective(a: seq<byte>, b: seq<byte>)
    requires GerarSessionId(a) == GerarSessionId(b)
    ensures a == b
  {
    SessionIdDecodes(a);
    SessionIdDecodes(b);
  }

  // ---------------------------------------------------------------------------
  // Masking an e-mail address: replace(/(.{2})(.*)(@.*)/, '$1***$3')
  // ---------------------------------------------------------------------------

  /** The characters `.` does not match. */
  predicate IsLineTerminator(c: char) {
    c == '\n' || c == '\r' || c == '\U{2028}' || c == '\U{2029}'
  }

  /** The first line terminator at or after `p`, or the end of `s`. */
  function LineEnd(s: string, p: nat): (e: nat)
    requires p <= |s|
    ensures p <= e <= |s|
    ensures forall k :: p <= k < e ==> !IsLineTerminator(s[k])
    ensures e == |s| || IsLineTerminator(s[e])
    decreases |s| - p
  {
    if p == |s| || IsLineTerminator(s[p]) then p else LineEnd(s, p + 1)
  }

  /** The last '@' in `s[lo..hi]`, if there is one. */
  function LastAt(s: string, lo: nat, hi: nat): (q: Option<nat>)
    requires lo <= hi <= |s|
    ensures q.Some? ==> lo <= q.value < hi && s[q.value] == '@'
    ensures q.Some? ==> forall k :: q.value < k < hi ==> s[k] != '@'
    ensures q.None? <==> forall k :: lo <= k < hi ==> s[k] != '@'
    decreases hi - lo
  {
    if lo == hi then None
    else if s[hi - 1] == '@' then Some(hi - 1)
    else LastAt(s, lo, hi - 1)
  }

  /**
   * The leftmost match of `(.{2})(.*)(@.*)` starting at `p` or later: its start,
   * and where its third group begins. The greedy middle group makes that the
   * last '@' on the start's line at least two characters in.
   */
  function MatchFrom(s: string, p: nat): (m: Option<(nat, nat)>)
    requires p <= |s|
    ensures m.Some? ==> p <= m.value.0 && m.value.0 + 2 <= m.value.1 < |s| && s[m.value.1] == '@'
    decreases |s| - p
  {
    if p == |s| then None
    else
      var e := LineEnd(s, p);
      if p + 2 <= e && LastAt(s, p + 2, e).Some? then Some((p, LastAt(s, p + 2, e).value))
      else MatchFrom(s, p + 1)
  }

  /** The masked address shown in the second step: the match's first two characters, "***", then its '@' part. */
  function MaskEmail(s: string): string {
    match MatchFrom(s, 0)
    case None => s
    case Some((p, q)) => s[..p + 2] + "***" + s[q..]
  }

  /**
   * A one-line address with at least two characters before its last '@' keeps
   * those two characters and the domain, with "***" in between.
   */
  lemma MaskAddress(local: string, domain: string)
    requires |local| >= 2
    requires forall k :: 0 <= k < |local| ==> !IsLineTerminator(local[k])
    requires forall k :: 0 <= k < |domain| ==> !IsLineTerminator(domain[k]) && domain[k] != '@'
    ensures MaskEmail(local + "@" + domain) == local[..2] + "***@" + domain
  {
    var s := local + "@" + domain;
    var n := |local|;
    assert forall k :: 0 <= k < |s| ==> !IsLineTerminator(s[k]) by {
      forall k | 0 <= k < |s| ensures !IsLineTerminator(s[k]) {
        if k < n { assert s[k] == local[k]; }
        else if k > n { assert s[k] == domain[k - n - 1]; }
      }
    }
    assert LineEnd(s, 0) == |s|;
    assert s[n] == '@';
    var q := LastAt(s, 2, |s|);
    assert q.Some?;
    forall k | n < k < |s| ensures s[k] != '@' {
      assert s[k] == domain[k - n - 1];
    }
    assert q.value == n;
    assert s[..2] == local[..2];
    assert s[n..] == "@" + domain;
  }

  /** No match can start anywhere when no '@' sits two or more characters in. */
  lemma {:induction false} NoMatchWithoutAt(s: string, p: nat)
    requires p <= |s|
    requires forall k :: 2 <= k < |s| ==> s[k] != '@'
    ensures MatchFrom(s, p).None?
    decreases |s| - p
  {
    if p < |s| {
      var e := LineEnd(s, p);
      if p + 2 <= e {
        assert LastAt(s, p + 2, e).None?;
      }
      NoMatchWithoutAt(s, p + 1);
    }
  }

  /** A string without an '@' after its first two characters is shown unmasked. */
  lemma MaskWithoutAt(s: string)
    requires forall k :: 2 <= k < |s| ==> s[k] != '@'
    ensures MaskEmail(s) == s
  {
    NoMatchWithoutAt(s, 0);
  }

  // ---------------------------------------------------------------------------
  // servidores lookups
  // ---------------------------------------------------------------------------

  predicate AtivoCom(row: Servidor, matricula: string) {
    row.matricula == matricula && row.ativo == 1
  }

  /** `SELECT ... FROM servidores WHERE matricula = ? AND ativo = 1 LIMIT 1`. */
  function FindAtivo(rows: seq<Servidor>, matricula: string): (r: Option<Servidor>)
    ensures r.Some? ==> r.value in rows && AtivoCom(r.value, matricula)
    ensures r.None? <==> forall k :: 0 <= k < |rows| ==> !AtivoCom(rows[k], matricula)
  {
    if rows == [] then None
    else if AtivoCom(rows[0], matricula) then Some(rows[0])
    else
      var r := FindAtivo(rows[1..], matricula);
      assert forall k :: 1 <= k < |rows| ==> rows[k] == rows[1..][k - 1];
      r
  }

  /** `SELECT ... FROM servidores WHERE email = ? LIMIT 1`: active or not. */
  function FindPorEmail(rows: seq<Servidor>, email: string): (r: Option<Servidor>)
    ensures r.Some? ==> r.value in rows && r.value.email == email
    ensures r.None? <==> forall k :: 0 <= k < |rows| ==> rows[k].email != email
  {
    if rows == [] then None
    else if rows[0].email == email then Some(rows[0])
    else
      var r := FindPorEmail(rows[1..], email);
      assert forall k :: 1 <= k < |rows| ==> rows[k] == rows[1..][k - 1];
      r
  }

  // ---------------------------------------------------------------------------
  // buscarServidor
  // ---------------------------------------------------------------------------

  const ErroMatricula := "Matrícula inválida. Digite sua matrícula completa."
  const ErroNaoEncontrada := "Matrícula não encontrada. Verifique seu número ou entre em contato com o administrador."
  const ErroInterno := "Erro interno ao processar a solicitação."

  /** A login code is valid for 15 minutes (in milliseconds). */
  const TokenValidadeMs := 15 * 60 * 1000

  /** What `buscarServidor` answers; `tokenDev` shows the code when no e-mail service is configured. */
  datatype BuscarResult =
    | BuscarFail(status: int, erro: string)
    | TokenEnviado(nome: string, matricula: string, emailMascarado: string, email: string, tokenDev: Option<string>)

  /** Which store statement of `buscarServidor`, if any, throws. */
  datatype BuscarFault = BuscarNoFault | LookupFails | ExpireFails | InsertTokenFails

  /** The registration number as submitted, trimmed. */
  function Matricula(form: FormData): string {
    TrimmedField(form, "matricula")
  }

  /**
   * `buscarServidor` on the tables of an available store: the new
   * `tokens_acesso` and the answer. A registration number shorter than five
   * UTF-16 units is refused before the store is read; a code is issued exactly
   * when an active servant has that number and no statement fails, and then
   * the servant's earlier pending codes are expired and the new one is pending.
   */
  function Buscar(servidores: seq<Servidor>, tokens: seq<TokenRow>, form: FormData, now: int,
                  codigo: nat, resendKey: string, fault: BuscarFault)
    : (out: (seq<TokenRow>, BuscarResult))
    requires 100000 <= codigo <= 999999
    ensures out.1 == BuscarFail(400, ErroMatricula) <==> Utf16Length(Matricula(form)) < 5
    ensures out.1 == BuscarFail(404, ErroNaoEncontrada) <==>
      Utf16Length(Matricula(form)) >= 5 && fault != LookupFails && FindAtivo(servidores, Matricula(form)).None?
    ensures out.1.TokenEnviado? <==>
      Utf16Length(Matricula(form)) >= 5 && fault == BuscarNoFault && FindAtivo(servidores, Matricula(form)).Some?
    ensures out.1.TokenEnviado? ==>
      var s := FindAtivo(servidores, Matricula(form)).value;
      && out.0 == IssueToken(tokens, s.email, Decimal(codigo), now + TokenValidadeMs)
      && out.1 == TokenEnviado(s.nome, s.matricula, MaskEmail(s.email), s.email,
                               if resendKey == "" then Some(Decimal(codigo)) else None)
    ensures out.1.BuscarFail? && out.0 != tokens ==>
      fault == InsertTokenFails && out.1 == BuscarFail(500, ErroInterno)
      && out.0 == ExpirePending(tokens, FindAtivo(servidores, Matricula(form)).value.email)
  {
    var matricula := Matricula(form);
    if Utf16Length(matricula) < 5 then (tokens, BuscarFail(400, ErroMatricula))
    else if fault == LookupFails then (tokens, BuscarFail(500, ErroInterno))
    else
      match FindAtivo(servidores, matricula)
      case None => (tokens, BuscarFail(404, ErroNaoEncontrada))
      case Some(s) =>
        var token := Decimal(codigo);
        if fault == ExpireFails then (tokens, BuscarFail(500, ErroInterno))
        else if fault == InsertTokenFails then (ExpirePending(tokens, s.email), BuscarFail(500, ErroInterno))
        else
          assert fault == BuscarNoFault;
          assert Utf16Length(Matricula(form)) >= 5;
          assert FindAtivo(servidores, Matricula(form)).Some?;
          (IssueToken(tokens, s.email, token, now + TokenValidadeMs),
           TokenEnviado(s.nome, s.matricula, MaskEmail(s.email), s.email,
                        if resendKey == "" then Some(token) else None))
  }

  /** `buscarServidor` keeps the token invariant, whatever it answers. */
  lemma BuscarKeepsValid(servidores: seq<Servidor>, tokens: seq<TokenRow>, form: FormData, now: int,
                         codigo: nat, resendKey: string, fault: BuscarFault)
    requires 100000 <= codigo <= 999999
    requires TokensValid(tokens)
    ensures TokensValid(Buscar(servidores, tokens, form, now, codigo, resendKey, fault).0)
  {
    var out := Buscar(servidores, tokens, form, now, codigo, resendKey, fault);
    if out.0 != tokens {
      var email := FindAtivo(servidores, Matricula(form)).value.email;
      if out.1.TokenEnviado? {
        IssuePreservesValid(tokens, email, Decimal(codigo), now + TokenValidadeMs);
      } else {
        ExpirePreservesValid(tokens, email);
      }
    }
  }

  /**
   * The code `buscarServidor` issues is the one a lookup finds for that address
   * until it expires: every older code of the address is no longer pending.
   */
  lemma IssuedCodeFound(servidores: seq<Servidor>, tokens: seq<TokenRow>, form: FormData, now: int,
                        codigo: nat, resendKey: string, later: int)
    requires 100000 <= codigo <= 999999
    requires Buscar(servidores, tokens, form, now, codigo, resendKey, BuscarNoFault).1.TokenEnviado?
    requires later < now + TokenValidadeMs
    ensures var out := Buscar(servidores, tokens, form, now, codigo, resendKey, BuscarNoFault);
      var row := FindToken(out.0, out.1.email, Decimal(codigo), later);
      && row.Some? && row.value == out.0[|out.0| - 1]
      && row.value.expiracao == now + TokenValidadeMs
      && CountPending(out.0, out.1.email) == 1
  {
    var out := Buscar(servidores, tokens, form, now, codigo, resendKey, BuscarNoFault);
    var email := out.1.email;
    var expired := ExpirePending(tokens, email);
    var r := out.0;
    assert r[..|expired|] == expired;
    IssueLeavesOnePending(tokens, email, Decimal(codigo), now + TokenValidadeMs);
    FindTokenLast(expired, r[|r| - 1], email, Decimal(codigo), later);
  }

  /** When no earlier row is pending for the address, a lookup finds the appended row if it matches. */
  lemma {:induction false} FindTokenLast(t: seq<TokenRow>, row: TokenRow, email: string, token: string, now: int)
    requires forall k :: 0 <= k < |t| ==> !IsPendingFor(t[k], email)
    requires TokenMatches(row, email, token, now)
    ensures FindToken(t + [row], email, token, now) == Some(row)
  {
    if t != [] {
      assert (t + [row])[1..] == t[1..] + [row];
      FindTokenLast(t[1..], row, email, token, now);
    }
  }

  /**
   * The `buscarServidor` action. The registration-number check comes before the
   * store check; with a store, its writes and answer are those of `Buscar`, the
   * store invariant is kept and no other table changes.
   */
  method BuscarServidor(db: Database?, form: FormData, now: int, codigo: nat, resendKey: string, fault: BuscarFault)
    returns (r: BuscarResult)
    requires 100000 <= codigo <= 999999
    requires db != null ==> db.Valid()
    modifies db
    ensures db == null ==>
      r == if Utf16Length(Matricula(form)) < 5 then BuscarFail(400, ErroMatricula) else BuscarFail(500, ErroBanco)
    ensures db != null ==>
      (db.tokens, r) == Buscar(old(db.servidores), old(db.tokens), form, now, codigo, resendKey, fault)
    ensures db != null ==> db.Valid()
    ensures db != null ==>
      (db.servidores == old(db.servidores) && db.sessoes == old(db.sessoes) && db.plantoes == old(db.plantoes)
       && db.equipe == old(db.equipe) && db.procedimentos == old(db.procedimentos)
       && db.rascunhos == old(db.rascunhos) && db.remocoes == old(db.remocoes))
  {
    var matricula := Matricula(form);
    if Utf16Length(matricula) < 5 {
      return BuscarFail(400, ErroMatricula);
    }
    if db == null {
      return BuscarFail(500, ErroBanco);
    }
    if fault == LookupFails {
      return BuscarFail(500, ErroInterno);
    }
    var servidor := FindAtivo(db.servidores, matricula);
    if servidor.None? {
      return BuscarFail(404, ErroNaoEncontrada);
    }
    var s := servidor.value;
    var token := Decimal(codigo);
    var expiracao := now + TokenValidadeMs;
    if fault == ExpireFails {
      return BuscarFail(500, ErroInterno);
    }
    ghost var before := db.tokens;
    db.ExpirePendingTokens(s.email);
    if fault == InsertTokenFails {
      ExpirePreservesValid(before, s.email);
      return BuscarFail(500, ErroInterno);
    }
    var _ := db.InsertToken(s.email, token, expiracao);
    assert db.tokens == IssueToken(before, s.email, token, expiracao);
    IssuePreservesValid(before, s.email, token, expiracao);
    var emailMascarado := MaskEmail(s.email);
    r := TokenEnviado(s.nome, s.matricula, emailMascarado, s.email, if resendKey == "" then Some(token) else None);
  }

  // ---------------------------------------------------------------------------
  // validarToken
  // ---------------------------------------------------------------------------

  const ErroToken := "Token inválido. Digite os 6 dígitos recebidos por email."
  const ErroCodigoExpirado := "Código inválido ou expirado. Tente novamente."
  const ErroServidor := "Servidor não encontrado."

  /** A session lasts 8 hours: in milliseconds in the table, in seconds in the cookie. */
  const SessaoValidadeMs := 8 * 60 * 60 * 1000
  const SessaoMaxAge := 8 * 60 * 60

  /** Where a successful login goes when no `redirect` parameter is given. */
  const DestinoPadrao := "/plantao"

  /** `url.searchParams.get('redirect') || '/plantao'`. */
  function Destino(redirectParam: Option<string>): (r: string)
    ensures r != ""
    ensures redirectParam.Some? && redirectParam.value != "" ==> r == redirectParam.value
    ensures redirectParam.None? || redirectParam.value == "" ==> r == DestinoPadrao
  {
    if redirectParam.Some? && redirectParam.value != "" then redirectParam.value else DestinoPadrao
  }

  function Email(form: FormData): string {
    TrimmedField(form, "email")
  }

  function Token(form: FormData): string {
    TrimmedField(form, "token")
  }

  /** The second step's form passes its check: an address and a code of six UTF-16 units. */
  predicate CredenciaisBemFormadas(form: FormData) {
    Email(form) != "" && Token(form) != "" && Utf16Length(Token(form)) == 6
  }

  /** What `validarToken` answers: a failure, or the thrown 303 redirect. */
  datatype ValidarResult = ValidarFail(status: int, erro: string) | ValidarRedirect(status: int, location: string)

  /** Which store statement of `validarToken`, if any, throws. */
  datatype ValidarFault = ValidarNoFault | TokenQueryFails | MarkUsedFails | ServidorQueryFails | SessaoInsertFails

  /** The tables `validarToken` writes, its answer, and the cookie it sets. */
  datatype ValidarOut = ValidarOut(tokens: seq<TokenRow>, sessoes: seq<SessaoRow>, result: ValidarResult, cookie: CookieChange)

  /** The session row opened for a servant at `now`. */
  function NovaSessao(sessionId: string, s: Servidor, now: int): SessaoRow {
    SessaoRow(sessionId, s.matricula, s.nome, s.email, s.lotacao, s.cargo, now, now + SessaoValidadeMs)
  }

  /**
   * `validarToken` on the tables of an available store. The form check comes
   * first; a session is opened, and the cookie set, exactly when a pending
   * unexpired code matches, a servant has that address and no statement
   * fails. A matched code is consumed even when the servant is then missing.
   */
  function Validar(servidores: seq<Servidor>, tokens: seq<TokenRow>, sessoes: seq<SessaoRow>, form: FormData,
                   redirectParam: Option<string>, now: int, sessionId: string, fault: ValidarFault)
    : (out: ValidarOut)
    ensures out.result == ValidarFail(400, ErroToken) <==> !CredenciaisBemFormadas(form)
    ensures out.result.ValidarRedirect? <==>
      && CredenciaisBemFormadas(form) && fault == ValidarNoFault
      && FindToken(tokens, Email(form), Token(form), now).Some?
      && FindPorEmail(servidores, Email(form)).Some?
    ensures out.result.ValidarRedirect? ==>
      var row := FindToken(tokens, Email(form), Token(form), now).value;
      && out.tokens == MarkUsed(tokens, row.id)
      && out.sessoes == sessoes + [NovaSessao(sessionId, FindPorEmail(servidores, Email(form)).value, now)]
      && out.result == ValidarRedirect(303, Destino(redirectParam))
      && out.cookie == SetCookie(SessionCookie, sessionId, "/", SessaoMaxAge)
    ensures out.result.ValidarFail? ==> out.sessoes == sessoes && out.cookie == NoCookieChange
    ensures out.result == ValidarFail(401, ErroCodigoExpirado) <==>
      CredenciaisBemFormadas(form) && fault != TokenQueryFails && FindToken(tokens, Email(form), Token(form), now).None?
    ensures out.tokens != tokens ==>
      FindToken(tokens, Email(form), Token(form), now).Some?
      && out.tokens == MarkUsed(tokens, FindToken(tokens, Email(form), Token(form), now).value.id)
    ensures out.result == ValidarFail(404, ErroServidor) <==>
      && CredenciaisBemFormadas(form)
      && fault != TokenQueryFails && fault != MarkUsedFails && fault != ServidorQueryFails
      && FindToken(tokens, Email(form), Token(form), now).Some?
      && FindPorEmail(servidores, Email(form)).None?
    ensures out.result == ValidarFail(404, ErroServidor) ==>
      out.tokens == MarkUsed(tokens, FindToken(tokens, Email(form), Token(form), now).value.id)
  {
    var email := Email(form);
    var token := Token(form);
    if !CredenciaisBemFormadas(form) then ValidarOut(tokens, sessoes, ValidarFail(400, ErroToken), NoCookieChange)
    else if fault == TokenQueryFails then ValidarOut(tokens, sessoes, ValidarFail(500, ErroInterno), NoCookieChange)
    else
      match FindToken(tokens, email, token, now)
      case None => ValidarOut(tokens, sessoes, ValidarFail(401, ErroCodigoExpirado), NoCookieChange)
      case Some(row) =>
        if fault == MarkUsedFails then ValidarOut(tokens, sessoes, ValidarFail(500, ErroInterno), NoCookieChange)
        else
          var used := MarkUsed(tokens, row.id);
          if fault == ServidorQueryFails then ValidarOut(used, sessoes, ValidarFail(500, ErroInterno), NoCookieChange)
          else
            match FindPorEmail(servidores, email)
            case None => ValidarOut(used, sessoes, ValidarFail(404, ErroServidor), NoCookieChange)
            case Some(s) =>
              if fault == SessaoInsertFails then ValidarOut(used, sessoes, ValidarFail(500, ErroInterno), NoCookieChange)
              else
                assert fault == ValidarNoFault;
                ValidarOut(used, sessoes + [NovaSessao(sessionId, s, now)],
                           ValidarRedirect(303, Destino(redirectParam)),
                           SetCookie(SessionCookie, sessionId, "/", SessaoMaxAge))
  }

  /** `validarToken` keeps the token invariant, whatever it answers. */
  lemma ValidarKeepsValid(servidores: seq<Servidor>, tokens: seq<TokenRow>, sessoes: seq<SessaoRow>, form: FormData,
                          redirectParam: Option<string>, now: int, sessionId: string, fault: ValidarFault)
    requires TokensValid(tokens)
    ensures TokensValid(Validar(servidores, tokens, sessoes, form, redirectParam, now, sessionId, fault).tokens)
  {
    var out := Validar(servidores, tokens, sessoes, form, redirectParam, now, sessionId, fault);
    if out.tokens != tokens {
      MarkUsedPreservesValid(tokens, FindToken(tokens, Email(form), Token(form), now).value.id);
    }
  }

  /** A code opens at most one session: submitting it again, at any later time, is refused with 401. */
  lemma ValidarRejectsReplay(servidores: seq<Servidor>, tokens: seq<TokenRow>, sessoes: seq<SessaoRow>, form: FormData,
                             redirectParam: Option<string>, now: int, sessionId: string,
                             later: int, sessionId2: string)
    requires TokensValid(tokens)
    requires Validar(servidores, tokens, sessoes, form, redirectParam, now, sessionId, ValidarNoFault).result.ValidarRedirect?
    ensures var out := Validar(servidores, tokens, sessoes, form, redirectParam, now, sessionId, ValidarNoFault);
      Validar(servidores, out.tokens, out.sessoes, form, redirectParam, later, sessionId2, ValidarNoFault).result
        == ValidarFail(401, ErroCodigoExpirado)
  {
    ConsumedTokenRejected(tokens, Email(form), Token(form), now, later);
  }

  /** The issued code is six decimal digits, so it passes the second step's check unchanged. */
  lemma IssuedCodeWellFormed(codigo: nat)
    requires 100000 <= codigo <= 999999
    ensures Trim(Decimal(codigo)) == Decimal(codigo)
    ensures Utf16Length(Decimal(codigo)) == 6
  {
    var c := Decimal(codigo);
    SixDigitNumeral(codigo);
    assert !IsJsSpace(c[0]) && !IsJsSpace(c[5]);
    TrimOfTrimmed(c);
  }

  /**
   * The login round trip: after `buscarServidor` issues a code, submitting that
   * address and that code before it expires opens a session for the servant
   * whose address it is, and redirects.
   */
  lemma LoginRoundTrip(servidores: seq<Servidor>, tokens: seq<TokenRow>, sessoes: seq<SessaoRow>, form: FormData,
                       now: int, codigo: nat, resendKey: string,
                       redirectParam: Option<string>, later: int, sessionId: string)
    requires 100000 <= codigo <= 999999
    requires Buscar(servidores, tokens, form, now, codigo, resendKey, BuscarNoFault).1.TokenEnviado?
    requires IsTrimmed(Buscar(servidores, tokens, form, now, codigo, resendKey, BuscarNoFault).1.email)
    requires Buscar(servidores, tokens, form, now, codigo, resendKey, BuscarNoFault).1.email != ""
    requires later < now + TokenValidadeMs
    ensures var b := Buscar(servidores, tokens, form, now, codigo, resendKey, BuscarNoFault);
      var second := [("email", b.1.email), ("token", Decimal(codigo))];
      var v := Validar(servidores, b.0, sessoes, second, redirectParam, later, sessionId, ValidarNoFault);
      && v.result == ValidarRedirect(303, Destino(redirectParam))
      && v.sessoes == sessoes + [NovaSessao(sessionId, FindPorEmail(servidores, b.1.email).value, later)]
      && v.cookie == SetCookie(SessionCookie, sessionId, "/", SessaoMaxAge)
  {
    var b := Buscar(servidores, tokens, form, now, codigo, resendKey, BuscarNoFault);
    var email := b.1.email;
    var second := [("email", email), ("token", Decimal(codigo))];
    assert Get(second, "email") == Some(email);
    assert Get(second, "token") == Some(Decimal(codigo));
    TrimOfTrimmed(email);
    IssuedCodeWellFormed(codigo);
    IssuedCodeFound(servidores, tokens, form, now, codigo, resendKey, later);
    var s := FindAtivo(servidores, Matricula(form)).value;
    assert s in servidores && s.email == email;
  }

  /**
   * The `validarToken` action. The form check comes before the store check;
   * with a store, its writes, answer and cookie are those of `Validar` for the
   * identifier the drawn bytes give, the store invariant is kept and no other
   * table changes.
   */
  method ValidarToken(db: Database?, form: FormData, redirectParam: Option<string>, now: int,
                      bytes: seq<byte>, fault: ValidarFault)
    returns (r: ValidarResult, cookie: CookieChange)
    requires |bytes| == 32
    requires db != null ==> db.Valid()
    modifies db
    ensures db == null ==> cookie == NoCookieChange
    ensures db == null ==>
      r == if CredenciaisBemFormadas(form) then ValidarFail(500, ErroBanco) else ValidarFail(400, ErroToken)
    ensures db != null ==>
      ValidarOut(db.tokens, db.sessoes, r, cookie)
        == Validar(old(db.servidores), old(db.tokens), old(db.sessoes), form, redirectParam, now, GerarSessionId(bytes), fault)
    ensures db != null ==> db.Valid()
    ensures db != null ==>
      (db.servidores == old(db.servidores) && db.plantoes == old(db.plantoes)
       && db.equipe == old(db.equipe) && db.procedimentos == old(db.procedimentos)
       && db.rascunhos == old(db.rascunhos) && db.remocoes == old(db.remocoes))
  {
    cookie := NoCookieChange;
    var email := Email(form);
    var token := Token(form);
    if email == "" || token == "" || Utf16Length(token) != 6 {
      return ValidarFail(400, ErroToken), cookie;
    }
    if db == null {
      return ValidarFail(500, ErroBanco), cookie;
    }
    if fault == TokenQueryFails {
      return ValidarFail(500, ErroInterno), cookie;
    }
    var registro := FindToken(db.tokens, email, token, now);
    if registro.None? {
      return ValidarFail(401, ErroCodigoExpirado), cookie;
    }
    if fault == MarkUsedFails {
      return ValidarFail(500, ErroInterno), cookie;
    }
    MarkUsedPreservesValid(db.tokens, registro.value.id);
    db.MarkTokenUsed(registro.value.id);
    if fault == ServidorQueryFails {
      return ValidarFail(500, ErroInterno), cookie;
    }
    var servidor := FindPorEmail(db.servidores, email);
    if servidor.None? {
      return ValidarFail(404, ErroServidor), cookie;
    }
    var sessionId := GerarSessionId(bytes);
    if fault == SessaoInsertFails {
      return ValidarFail(500, ErroInterno), cookie;
    }
    db.InsertSessao(NovaSessao(sessionId, servidor.value, now));
    cookie := SetCookie(SessionCookie, sessionId, "/", SessaoMaxAge);
    r := ValidarRedirect(303, Destino(redirectParam));
  }
}
