/**
 * The logout route: it deletes the session the cookie names, ignoring a
 * failed delete, clears the cookie and sends the browser to the login page.
 */
module Logout {
  import opened Util
  import opened App
  import opened Store
  import opened Hooks

  /** The redirect every logout ends in, with the cookie it clears. */
  datatype LogoutResult = LogoutResult(cookie: CookieChange, status: int, location: string)

  const LogoutRedirect := LogoutResult(DeleteCookie(SessionCookie, "/"), 303, "/login")

  /**
   * The sessions table after a logout: with a store, a non-empty cookie and a
   * delete that succeeds, no row answers to the cookie's identifier any more
   * and every other row is kept; otherwise nothing changes.
   */
  function Encerrar(sessoes: seq<SessaoRow>, cookie: Option<string>, temBanco: bool, deleteFails: bool)
    : (r: seq<SessaoRow>)
    ensures forall x :: x in r ==> x in sessoes
    ensures cookie.Some? && cookie.value != "" && temBanco && !deleteFails ==>
      (forall x :: x in r ==> x.sessionId != cookie.value)
      && (forall x :: x in sessoes && x.sessionId != cookie.value ==> x in r)
    ensures !(cookie.Some? && cookie.value != "" && temBanco && !deleteFails) ==> r == sessoes
  {
    if cookie.Some? && cookie.value != "" && temBanco && !deleteFails then DeleteSession(sessoes, cookie.value)
    else sessoes
  }

  /** `load`: always the same redirect; the sessions table as `Encerrar` says, and nothing else changes. */
  method Load(db: Database?, cookie: Option<string>, deleteFails: bool) returns (r: LogoutResult)
    modifies db
    ensures r == LogoutRedirect
    ensures db != null ==> db.sessoes == Encerrar(old(db.sessoes), cookie, true, deleteFails)
    ensures db != null ==>
      (db.servidores == old(db.servidores) && db.tokens == old(db.tokens)
       && db.plantoes == old(db.plantoes) && db.equipe == old(db.equipe) && db.procedimentos == old(db.procedimentos)
       && db.rascunhos == old(db.rascunhos) && db.remocoes == old(db.remocoes))
  {
    if cookie.Some? && cookie.value != "" && db != null && !deleteFails {
      db.DeleteSessao(cookie.value);
    }
    return LogoutRedirect;
  }

  /**
   * After a logout that deleted its session, the old cookie resolves to nobody
   * at any time, while every other cookie resolves as it did before.
   */
  lemma LogoutEndsSession(sessoes: seq<SessaoRow>, id: string, other: Option<string>, t: int)
    requires id != ""
    ensures SessaoDoCookie(Encerrar(sessoes, Some(id), true, false), Some(id), t, false).None?
    ensures other != Some(id) ==>
      SessaoDoCookie(Encerrar(sessoes, Some(id), true, false), other, t, false) == SessaoDoCookie(sessoes, other, t, false)
  {
    var r := Encerrar(sessoes, Some(id), true, false);
    forall k | 0 <= k < |r| ensures !SessionMatches(r[k], id, t) {
      assert r[k] in r;
    }
    if other.Some? && other != Some(id) {
      DeleteKeepsOtherSessions(sessoes, id, other.value, t);
    }
  }
}
