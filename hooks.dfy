/**
 * The server hook that runs before every request: it resolves the
 * `session_id` cookie to a user in `locals`, and sends an anonymous request
 * for a protected path to the login page, carrying the path in the
 * `redirect` query parameter.
 */
module Hooks {
  import opened Util
  import opened JsText
  import opened Forms
  import opened App
  import opened Store
  import opened Uri
  import opened Login

  // ---------------------------------------------------------------------------
  // Public routes
  // ---------------------------------------------------------------------------

  /** The path prefixes that need no session. */
  const RotasPublicas: seq<string> := ["/login", "/api/"]

  /** `prefixes.some(r => s.startsWith(r))`. */
  function StartsWithAny(s: string, prefixes: seq<string>): (b: bool)
    ensures b <==> exists k :: 0 <= k < |prefixes| && prefixes[k] <= s
  {
    if prefixes == [] then false
    else if prefixes[0] <= s then true
    else
      assert forall k :: 1 <= k < |prefixes| ==> prefixes[k] == prefixes[1..][k - 1];
      StartsWithAny(s, prefixes[1..])
  }

  /** `ehPublica`: the path starts with one of the public prefixes. */
  function EhPublica(pathname: string): bool {
    StartsWithAny(pathname, RotasPublicas)
  }

  /** Exactly the paths under "/login" (as a plain prefix, so "/login-x" too) and under "/api/" are public. */
  lemma PublicPaths(pathname: string)
    ensures EhPublica(pathname) <==> "/login" <= pathname || "/api/" <= pathname
  {
    assert RotasPublicas[0] == "/login" && RotasPublicas[1] == "/api/";
  }

  // ---------------------------------------------------------------------------
  // The login redirect
  // ---------------------------------------------------------------------------

  /** `/login?redirect=${encodeURIComponent(pathname)}`. */
  function LoginUrl(pathname: string): string {
    "/login?redirect=" + EncodeURIComponent(pathname)
  }

  /** The path part of a URL: everything before its first '?' or '#'. */
  function PathOf(url: string): (p: string)
    ensures p <= url
  {
    if url == [] || url[0] == '?' || url[0] == '#' then [] else [url[0]] + PathOf(url[1..])
  }

  /** The login URL leads to a public path, so the redirect cannot loop. */
  lemma LoginUrlIsPublic(pathname: string)
    ensures PathOf(LoginUrl(pathname)) == "/login" && EhPublica(PathOf(LoginUrl(pathname)))
  {
    var q := "?redirect=" + EncodeURIComponent(pathname);
    assert LoginUrl(pathname) == "/login" + q;
    PathBeforeQuery("/login", q);
    PublicPaths("/login");
  }

  /**
   * The query of the login URL is the single `redirect` parameter, whose value
   * decodes back to the requested path: the value has no '&', '#' or '+' that
   * a query parser would split on or turn into a space.
   */
  lemma LoginUrlCarriesPath(pathname: string)
    ensures var v := EncodeURIComponent(pathname);
      && LoginUrl(pathname) == "/login?redirect=" + v
      && (forall k :: 0 <= k < |v| ==> v[k] != '&' && v[k] != '#' && v[k] != '+')
      && DecodeURIComponent(v) == Some(pathname)
  {
    var v := EncodeURIComponent(pathname);
    forall k | 0 <= k < |v| ensures v[k] != '&' && v[k] != '#' && v[k] != '+' {
      assert IsUnreserved(v[k]) || v[k] == '%';
    }
    EncodeDecodes(pathname);
  }

  /** A path without '?' or '#' followed by a query is its own path part. */
  lemma {:induction false} PathBeforeQuery(path: string, query: string)
    requires forall k :: 0 <= k < |path| ==> path[k] != '?' && path[k] != '#'
    requires query != [] && query[0] == '?'
    ensures PathOf(path + query) == path
  {
    if path == [] {
      assert path + query == query;
    } else {
      assert (path + query)[1..] == path[1..] + query;
      PathBeforeQuery(path[1..], query);
    }
  }

  // ---------------------------------------------------------------------------
  // The session cookie
  // ---------------------------------------------------------------------------

  /** The user a session row stands for. */
  function UsuarioDaSessao(row: SessaoRow): Usuario {
    Usuario(row.matricula, row.nome, row.email, row.lotacao, row.cargo)
  }

  /**
   * The user a non-empty session cookie resolves to: the first session with
   * that identifier that has not expired. A failed lookup is ignored, so it
   * resolves to nobody.
   */
  function SessaoDoCookie(sessoes: seq<SessaoRow>, cookie: Option<string>, now: int, lookupFails: bool)
    : (u: Option<Usuario>)
    ensures u.Some? <==>
      cookie.Some? && cookie.value != "" && !lookupFails && FindSession(sessoes, cookie.value, now).Some?
    ensures u.Some? ==>
      exists row :: row in sessoes && SessionMatches(row, cookie.value, now) && u.value == UsuarioDaSessao(row)
  {
    if cookie.Some? && cookie.value != "" && !lookupFails then
      match FindSession(sessoes, cookie.value, now)
      case None => None
      case Some(row) => Some(UsuarioDaSessao(row))
    else None
  }

  /** The hook's decision: only an anonymous request for a protected path is redirected, to the login URL. */
  datatype Resposta = Resolve | Redirect(status: int, location: string)

  function Acesso(pathname: string, usuario: Option<Usuario>): (r: Resposta)
    ensures r.Redirect? <==> !EhPublica(pathname) && usuario.None?
    ensures r.Redirect? ==> r.status == 302 && r.location == LoginUrl(pathname) && PathOf(r.location) == "/login"
  {
    if !EhPublica(pathname) && usuario.None? then
      LoginUrlIsPublic(pathname);
      Redirect(302, LoginUrl(pathname))
    else Resolve
  }

  /**
   * `handle`. With a store and a non-empty cookie, a session that matches sets
   * `locals.usuario`; nothing else changes it. The answer is then `Acesso` on
   * the resulting user.
   */
  method Handle(db: Database?, locals: Locals, pathname: string, cookie: Option<string>, now: int, lookupFails: bool)
    returns (r: Resposta)
    modifies locals
    ensures var found := if db == null then None else SessaoDoCookie(db.sessoes, cookie, now, lookupFails);
      locals.usuario == if found.Some? then found else old(locals.usuario)
    ensures r == Acesso(pathname, locals.usuario)
  {
    var ehPublica := EhPublica(pathname);
    if cookie.Some? && cookie.value != "" && db != null && !lookupFails {
      var sessao := FindSession(db.sessoes, cookie.value, now);
      if sessao.Some? {
        locals.usuario := Some(UsuarioDaSessao(sessao.value));
      }
    }
    if !ehPublica && locals.usuario.None? {
      return Redirect(302, LoginUrl(pathname));
    }
    return Resolve;
  }

  // ---------------------------------------------------------------------------
  // Login and the hook together
  // ---------------------------------------------------------------------------

  /** When no earlier session matches, a lookup finds the appended row if it matches. */
  lemma {:induction false} FindSessionLast(s: seq<SessaoRow>, row: SessaoRow, id: string, now: int)
    requires forall k :: 0 <= k < |s| ==> !SessionMatches(s[k], id, now)
    requires SessionMatches(row, id, now)
    ensures FindSession(s + [row], id, now) == Some(row)
  {
    if s != [] {
      assert (s + [row])[1..] == s[1..] + [row];
      FindSessionLast(s[1..], row, id, now);
    }
  }

  /**
   * A successful `validarToken` authenticates the following requests: for
   * eight hours the cookie it sets resolves, in the hook, to the servant whose
   * address the code was sent to, unless an older session already answers to
   * the same identifier.
   */
  lemma LoginAuthenticates(servidores: seq<Servidor>, tokens: seq<TokenRow>, sessoes: seq<SessaoRow>, form: FormData,
                           redirectParam: Option<string>, now: int, bytes: seq<byte>, later: int)
    requires |bytes| == 32
    requires Validar(servidores, tokens, sessoes, form, redirectParam, now, GerarSessionId(bytes), ValidarNoFault)
               .result.ValidarRedirect?
    requires forall k :: 0 <= k < |sessoes| ==> !SessionMatches(sessoes[k], GerarSessionId(bytes), later)
    requires later < now + SessaoValidadeMs
    ensures var out := Validar(servidores, tokens, sessoes, form, redirectParam, now, GerarSessionId(bytes), ValidarNoFault);
      var s := FindPorEmail(servidores, Email(form)).value;
      && out.cookie.SetCookie? && out.cookie.name == SessionCookie
      && SessaoDoCookie(out.sessoes, Some(out.cookie.value), later, false)
           == Some(Usuario(s.matricula, s.nome, s.email, s.lotacao, s.cargo))
  {
    var id := GerarSessionId(bytes);
    var s := FindPorEmail(servidores, Email(form)).value;
    FindSessionLast(sessoes, NovaSessao(id, s, now), id, later);
  }
}
