/** Request-scoped state shared by the hook and the routes (the `App.Locals` declaration), and cookie changes. */
module App {
  import opened Util

  /** The identity a session resolves to: `App.Locals.usuario`. */
  datatype Usuario = Usuario(
    matricula: string,
    nome: string,
    email: string,
    lotacao: Option<string>,
    cargo: Option<string>)

  /** The per-request `event.locals` object; it starts without a user. */
  class Locals {
    var usuario: Option<Usuario>

    constructor ()
      ensures usuario == None
    {
      usuario := None;
    }
  }

  /** The change a response makes to the browser's cookies. */
  datatype CookieChange =
    | NoCookieChange
    | SetCookie(name: string, value: string, path: string, maxAgeSeconds: int)
    | DeleteCookie(name: string, path: string)

  /** Name of the cookie that carries the session identifier. */
  const SessionCookie := "session_id"

  /** The answer of every action when the `remocoespcce` binding is missing. */
  const ErroBanco := "Banco de dados não configurado."
}
