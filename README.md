# Shift reports over a session-protected store

This project models the server side of a small police shift-report
application ("relatórios de plantão") written as SvelteKit route handlers
over a D1 (SQLite) database. The application has four parts:

- **Login.** Logging in takes two steps.
  - `buscarServidor` looks up an active servant by registration number. It expires the servant's pending access codes and stores a new six-digit code for 15 minutes.
  - `validarToken` accepts a pending, unexpired code for an address. It marks the code used, opens an eight-hour session row, sets the `session_id` cookie and redirects.
- **Server hook.** `handle` runs before every request. It resolves the `session_id` cookie to a user. It sends an anonymous request for any path outside `/login` and `/api/` to `/login?redirect=<path>`.
- **Logout.** `load` deletes the session row, clears the cookie and redirects to `/login`.
- **Shift reports.**
  - `salvar` decodes a shift report from a form: the unit, the hours, six counters, the team and the procedures with their victims and suspects. It stores the report, gives it the protocol `FT-` plus six digits, and stores its team and procedure rows.
  - `carregarRascunho` loads an active draft by its `R-` code.
  - The dashboard lists the 200 most recent reports. It also shows the counts per status, the sums of the counters over non-draft reports, and the distinct units.
  - The test dashboard lists up to 100 transfer requests and updates the status of one.

## How the model is organised

Each source file becomes one module:

| Module | Source |
|---|---|
| `Plantao` | `plantao/+page.server.ts` |
| `Login` | `login/+page.server.ts` |
| `Hooks` | `hooks.server.ts` |
| `Logout` | `logout/+page.server.ts` |
| `Dashboard` | `dashboard/+page.server.ts` |
| `DashboardTeste` | `dashboard-teste/+page.server.ts` |

Shared modules model the pieces those files rely on:

- `JsText`: the ECMAScript string functions used, namely `trim`, `toUpperCase`, `String(n)`, `padStart`, `parseInt` and the UTF-16 `length`.
- `Uri`: `encodeURIComponent` and its inverse.
- `Forms`: `FormData`, as a sequence of name and value pairs.
- `App`: the user in `locals` and the cookie changes.
- `Store`: the rows of every table, one pure function per SQL statement over a table, and a `Database` class whose fields are the tables.

There is one `Database` method per statement. Each method's `ensures` ties the new table to the statement's function.

The route actions that change state are methods that take the database:

- `Plantao.Salvar`
- `Login.BuscarServidor`
- `Login.ValidarToken`
- `Hooks.Handle`, which writes `locals`
- `Logout.Load`
- `DashboardTeste.AtualizarStatus`

Each is proved against a function over the old tables that gives the new tables and the answer. Lemmas state the properties of that function.

The form loops of `salvar` are methods with loop invariants. They are proved equal to the scan functions in `Forms`.

How the model stands in for what it cannot run:

- **Time** is an integer count of milliseconds, passed in as `now`.
- **Randomness** is passed in as parameters: the six-digit code and the 32 session bytes.
- **Store failures** are passed in as explicit fault parameters, wherever the source catches an error or lets it escape.

## Model

| member | source | states |
|---|---|---|
| JsText.Trim | src/routes/login/+page.server.ts:22 | `trim` returns a string with no ECMAScript white space or line terminator at either end, no longer than its input |
| JsText.TrimIdempotent | src/routes/login/+page.server.ts:113-114 | trimming a trimmed field changes nothing |
| JsText.NormalizeIsNormalized | src/routes/plantao/+page.server.ts:40 | `toUpperCase().trim()` yields a normalized string, and applying it again changes nothing |
| JsText.ToUpperCaseIdempotent | src/routes/plantao/+page.server.ts:63 | upper-casing twice is upper-casing once |
| JsText.DecimalValue | src/routes/plantao/+page.server.ts:21 | `String(id)` is a numeral of decimal digits that reads back as `id` |
| JsText.PadStartShape | src/routes/plantao/+page.server.ts:21 | `padStart` ends with the original string, and every character before it is the fill character |
| JsText.ParseIntOfNumeral | src/routes/plantao/+page.server.ts:52-57 | `parseInt` skips leading white space and reads an optional '-' or '+' and the longest run of decimal digits, leading zeros included, ignoring any tail that starts with no digit (and, after a lone "0", with no 'x' or 'X') |
| JsText.SignOfDigits | src/routes/plantao/+page.server.ts:52-57 | a '-' in front of digits negates what the unsigned reader gives; a '+' or no sign keeps it |
| JsText.Utf16Length | src/routes/login/+page.server.ts:24 | `length` counts UTF-16 code units: at least one per character, and exactly one per character of the Basic Multilingual Plane |
| Forms.Get | src/routes/plantao/+page.server.ts:38 | `formData.get` finds a value exactly when the name was submitted, and the value belongs to that name |
| Forms.GetFirst | src/routes/plantao/+page.server.ts:38 | `formData.get` returns the first value submitted under a name |
| Forms.NormFieldNormalized | src/routes/plantao/+page.server.ts:40 | an upper-cased, trimmed field is normalized |
| Forms.ScanLength | src/routes/plantao/+page.server.ts:62 | the `while (formData.has(...))` scan stops at the first missing index, and every index before it is present |
| Forms.ScanStopsAtFirstGap | src/routes/plantao/+page.server.ts:83 | the scan never passes a missing index |
| Forms.CollectSound | src/routes/plantao/+page.server.ts:64-76 | every collected entry comes from an index before the stop whose slot was filled |
| Uri.EncodeURIComponent | src/hooks.server.ts:48 | the encoding contains only unreserved characters and '%' |
| Uri.Utf8Decodes | src/hooks.server.ts:48 | the UTF-8 bytes of a character decode back to it |
| Uri.EncodeDecodes | src/hooks.server.ts:48 | decoding the encoding of a path gives the path back |
| Uri.EncodeInjective | src/hooks.server.ts:48 | different paths have different encodings |
| Store.NullIfEmpty | src/routes/plantao/+page.server.ts:121 | `x \|\| null` stores NULL exactly for the empty string, and the string otherwise |
| Store.NextRowId | src/routes/plantao/+page.server.ts:124 | the new row id is greater than every existing id |
| Store.ExpirePending | src/routes/login/+page.server.ts:50-52 | afterwards no token of that address is pending; tokens of other addresses, and non-pending tokens, are unchanged |
| Store.MarkUsed | src/routes/login/+page.server.ts:139-141 | exactly the row with that id becomes used |
| Store.FindToken | src/routes/login/+page.server.ts:129-132 | returns a row for that address and code that is pending and unexpired, and returns none exactly when no such row exists |
| Store.IssueLeavesOnePending | src/routes/login/+page.server.ts:50-57 | after the expire and the insert, exactly one code of that address is pending, and the tokens of other addresses are unchanged |
| Store.IssuePreservesValid | src/routes/login/+page.server.ts:55-57 | the expire-then-insert keeps token ids distinct and at most one pending code per address |
| Store.MarkUsedPreservesValid | src/routes/login/+page.server.ts:139-141 | marking a code used keeps token ids distinct and at most one pending code per address |
| Store.ExpirePreservesValid | src/routes/login/+page.server.ts:50-52 | expiring codes keeps token ids distinct and at most one pending code per address |
| Store.ConsumedTokenRejected | src/routes/login/+page.server.ts:129-141 | a code that has been marked used is never found again, at any time |
| Store.FindSession | src/hooks.server.ts:21-30 | returns a session with that id that has not expired, and returns none exactly when no such session exists |
| Store.DeleteSession | src/routes/logout/+page.server.ts:9-12 | removes exactly the rows with that id |
| Store.DeleteSessionIdempotent | src/routes/logout/+page.server.ts:9-12 | deleting the same id twice is deleting it once |
| Store.DeleteKeepsOtherSessions | src/routes/logout/+page.server.ts:9-12 | every other session id resolves as before |
| Store.SetProtocolo | src/routes/plantao/+page.server.ts:128-130 | exactly the row with that id gets the protocol |
| Store.EquipeOf | src/routes/dashboard/+page.server.ts:25 | the team rows joined to a report are exactly those with its id |
| Store.ProcedimentosOf | src/routes/dashboard/+page.server.ts:26 | the procedure rows joined to a report are exactly those with its id |
| Store.UpdateRemocaoStatus | src/routes/dashboard-teste/+page.server.ts:45-47 | exactly the rows whose integer id equals the submitted id text get the new status; the length is kept |
| Store.Database.ExpirePendingTokens | src/routes/login/+page.server.ts:50-52 | the tokens table becomes `ExpirePending` of the old one |
| Store.Database.InsertToken | src/routes/login/+page.server.ts:55-57 | appends one pending token with the next row id |
| Store.Database.MarkTokenUsed | src/routes/login/+page.server.ts:139-141 | the tokens table becomes `MarkUsed` of the old one |
| Store.Database.InsertSessao | src/routes/login/+page.server.ts:157-160 | appends the session row |
| Store.Database.DeleteSessao | src/routes/logout/+page.server.ts:9-12 | the sessions table becomes `DeleteSession` of the old one |
| Store.Database.InsertPlantao | src/routes/plantao/+page.server.ts:119-124 | appends the report with the next row id and returns that id |
| Store.Database.UpdateProtocolo | src/routes/plantao/+page.server.ts:128-130 | the reports table becomes `SetProtocolo` of the old one |
| Store.Database.InsertChildren | src/routes/plantao/+page.server.ts:134-148 | appends the team and procedure rows of the batch |
| Store.Database.UpdateRemocao | src/routes/dashboard-teste/+page.server.ts:45-47 | the transfers table becomes `UpdateRemocaoStatus` of the old one |
| Plantao.ZeroPaddedReadsBack | src/routes/plantao/+page.server.ts:21 | the padded id has at least six digits (exactly six below one million) and reads back as the id |
| Plantao.ProtocoloFormat | src/routes/plantao/+page.server.ts:20-22 | a protocol is "FT-" followed by digits that read back as the id, nine characters long below one million |
| Plantao.ProtocoloInjective | src/routes/plantao/+page.server.ts:20-22 | different report ids get different protocols |
| Plantao.CodigoRascunhoFormat | src/routes/plantao/+page.server.ts:24-26 | a draft code is "R-" followed by digits that read back as the id; it survives the upper-case-and-trim applied to a submitted code |
| Plantao.Counter | src/routes/plantao/+page.server.ts:52-57 | a missing or empty counter is 0 |
| Plantao.CounterOfNaN | src/routes/plantao/+page.server.ts:52-57 | a counter that `parseInt` cannot read is 0 |
| Plantao.CounterOfNumeral | src/routes/plantao/+page.server.ts:52-57 | a counter holding a run of decimal digits (leading zeros allowed), after optional white space and an optional '-' or '+', is the signed value of those digits |
| Plantao.StatusFor | src/routes/plantao/+page.server.ts:116 | the status is "finalizado" exactly when `acao` is "finalizar", and "rascunho" otherwise |
| Plantao.MembroAt | src/routes/plantao/+page.server.ts:63-75 | the member's name is the normalized field; the escala defaults to "Normal"; the entry date and hour default to the report's |
| Plantao.DecodeEquipe | src/routes/plantao/+page.server.ts:60-78 | the team loop yields the named members before the first missing `equipe_{i}_nome`, in index order |
| Plantao.EquipeWellFormed | src/routes/plantao/+page.server.ts:63-75 | every decoded member has a non-empty normalized name and an escala, and comes from a present index |
| Plantao.EquipeKeepsNamed | src/routes/plantao/+page.server.ts:64-65 | a member with a non-empty name at an index before the stop appears in the team, at its position in index order |
| Plantao.EquipeTruncatedAtGap | src/routes/plantao/+page.server.ts:62 | members after a missing index are dropped |
| Plantao.DecodeNomes | src/routes/plantao/+page.server.ts:87-100 | the victim and suspect loops collect the non-empty normalized names before the first missing index |
| Plantao.NomesWellFormed | src/routes/plantao/+page.server.ts:90-91 | every collected name is non-empty and normalized |
| Plantao.ProcedimentoAt | src/routes/plantao/+page.server.ts:84-86 | a procedure is kept exactly when its type and normalized nature are both non-empty |
| Plantao.DecodeProcedimentos | src/routes/plantao/+page.server.ts:81-113 | the procedure loop, with its two nested loops, yields the kept procedures before the first missing `proc_{j}_tipo`, in index order |
| Plantao.ProcedimentosWellFormed | src/routes/plantao/+page.server.ts:84-110 | every decoded procedure has a type and a normalized nature, and its victims and suspects are non-empty and normalized |
| Plantao.ProcedimentosKeepValid | src/routes/plantao/+page.server.ts:86-110 | a kept procedure appears at its position in index order |
| Plantao.EquipeRows | src/routes/plantao/+page.server.ts:136-139 | one team row per member, in order, for the new report |
| Plantao.ProcedimentoRows | src/routes/plantao/+page.server.ts:141-144 | one procedure row per procedure, in order, for the new report |
| Plantao.SaveWrites | src/routes/plantao/+page.server.ts:118-154 | the try block returns only a saved answer; it throws a 303 only when finalizing; it throws no error when the store accepts every write |
| Plantao.Save | src/routes/plantao/+page.server.ts:30-159 | 401 exactly without a user; 400 exactly with a user and a missing unit, entry date or entry hour; the tables change only for a user and a complete form; a non-500 failure changes nothing |
| Plantao.SaveKeepsValid | src/routes/plantao/+page.server.ts:118-148 | every write, including one cut short by a failure, keeps report ids distinct and every child row attached to a report |
| Plantao.SaveStoresReport | src/routes/plantao/+page.server.ts:119-148 | a successful save appends the report with the next id and its protocol; the report's team and procedure rows are exactly the decoded ones |
| Plantao.SaveAnswers | src/routes/plantao/+page.server.ts:150-154 | with redirects passing the catch: a finalized report redirects (303) to its print page; a draft answers with its protocol |
| Plantao.SaveIsNotAtomic | src/routes/plantao/+page.server.ts:119-148 | a failed protocol update leaves the report without a protocol; a failed batch leaves the report without its children |
| Plantao.FinalizeCaughtAsWritten | src/routes/plantao/+page.server.ts:150-159 | as written, a finalized report is stored and then answered with the generic 500 |
| Plantao.Salvar | src/routes/plantao/+page.server.ts:30-160 | 500 without a store; otherwise the three report tables and the answer are those of `Save`, the store stays valid and the other tables are unchanged |
| Plantao.Decodificar | src/routes/plantao/+page.server.ts:38-116 | the decoding steps of `salvar` yield the report row, the team, the procedures and the action |
| Plantao.Gravar | src/routes/plantao/+page.server.ts:118-148 | the writes of `salvar` change the tables as `SaveWrites` says, and nothing else |
| Plantao.FindRascunho | src/routes/plantao/+page.server.ts:177-180 | returns a draft with that code that is active and unexpired, and returns none exactly when no such draft exists |
| Plantao.CarregarRascunho | src/routes/plantao/+page.server.ts:163-191 | 500 without a store; 400 for a code not starting with "R-"; a draft is loaded exactly when the query succeeds and an active, unexpired draft has the code, and it is that draft's data; 404 exactly when no draft matches and the query succeeds; 500 exactly when the query fails |
| Login.HexDigit | src/routes/login/+page.server.ts:7 | `toString(16)` of a digit is a lower-case hexadecimal character with that value |
| Login.HexNumeral | src/routes/login/+page.server.ts:7 | `toString(16)` is a hexadecimal numeral of the value, one character long exactly below 16 |
| Login.ByteHex | src/routes/login/+page.server.ts:7 | a padded byte is two lower-case hexadecimal characters with its value |
| Login.GerarSessionId | src/routes/login/+page.server.ts:4-8 | the session id has two lower-case hexadecimal characters per random byte |
| Login.SessionIdDecodes | src/routes/login/+page.server.ts:4-8 | the id decodes back to the random bytes |
| Login.SessionIdInjective | src/routes/login/+page.server.ts:4-8 | different random bytes give different session ids |
| Login.MaskAddress | src/routes/login/+page.server.ts:92 | an address of one line with at least two characters before its '@' shows those two, then "***", then the domain |
| Login.MaskWithoutAt | src/routes/login/+page.server.ts:92 | a string without '@' is not masked |
| Login.FindAtivo | src/routes/login/+page.server.ts:35-38 | returns an active servant with that registration number, and returns none exactly when there is none |
| Login.FindPorEmail | src/routes/login/+page.server.ts:144-147 | returns a servant with that address, and returns none exactly when there is none |
| Login.Buscar | src/routes/login/+page.server.ts:20-108 | 400 exactly for a number shorter than five UTF-16 units; 404 exactly when no active servant has it; a code is issued exactly when one does and nothing fails, and then the servant's older codes are expired and the new one is stored; the code is shown on the page only without an e-mail key |
| Login.BuscarKeepsValid | src/routes/login/+page.server.ts:50-57 | every outcome keeps token ids distinct and at most one pending code per address |
| Login.IssuedCodeFound | src/routes/login/+page.server.ts:45-57 | within 15 minutes the issued code is found for the address, and it is that address's only pending code |
| Login.BuscarServidor | src/routes/login/+page.server.ts:20-108 | without a store: 400 for a short number, otherwise 500; with a store, the tokens table and the answer are those of `Buscar`, and every other table is unchanged |
| Login.Destino | src/routes/login/+page.server.ts:171 | the redirect goes to the `redirect` parameter when it is present and non-empty, and to "/plantao" otherwise |
| Login.Validar | src/routes/login/+page.server.ts:111-178 | 400 exactly for a malformed form; 401 exactly when no pending unexpired code matches; a redirect exactly when a code matches, a servant has the address and nothing fails, and then the code is used, a session is appended and the cookie is set; a failure opens no session and sets no cookie; the only token change is consuming the matched code; 404 exactly when a code matches, no statement before the servant lookup fails and no servant has the address, and the code then stays consumed |
| Login.ValidarKeepsValid | src/routes/login/+page.server.ts:139-141 | every outcome keeps token ids distinct and at most one pending code per address |
| Login.ValidarRejectsReplay | src/routes/login/+page.server.ts:129-141 | submitting the same code again after it is accepted gives 401 |
| Login.IssuedCodeWellFormed | src/routes/login/+page.server.ts:45-116 | an issued code is six digits, so the second form accepts it after trimming |
| Login.LoginRoundTrip | src/routes/login/+page.server.ts:20-178 | the code issued in the first step, submitted with the shown address within 15 minutes, logs the servant in: a redirect, a new session and the cookie |
| Login.ValidarToken | src/routes/login/+page.server.ts:111-178 | without a store: 400 or 500 and no cookie; with a store, the tokens and sessions tables, the answer and the cookie are those of `Validar` with the generated session id, and every other table is unchanged |
| Hooks.StartsWithAny | src/hooks.server.ts:11 | `some(startsWith)` holds exactly when one of the prefixes starts the path |
| Hooks.PublicPaths | src/hooks.server.ts:5-11 | a path is public exactly when it starts with "/login" or "/api/" |
| Hooks.PathOf | src/hooks.server.ts:48 | the path part of a URL is a prefix of it |
| Hooks.LoginUrlIsPublic | src/hooks.server.ts:47-49 | the login URL's path is "/login", which is public, so the redirect cannot loop |
| Hooks.LoginUrlCarriesPath | src/hooks.server.ts:48 | the `redirect` value contains no '&', '#' or '+', and decodes back to the requested path |
| Hooks.PathBeforeQuery | src/hooks.server.ts:48 | a path followed by a query keeps that path |
| Hooks.SessaoDoCookie | src/hooks.server.ts:14-43 | a non-empty cookie resolves to a user exactly when a matching unexpired session exists and the lookup succeeds; the user is that session's |
| Hooks.Acesso | src/hooks.server.ts:46-52 | a 302 redirect exactly for an anonymous request to a non-public path, to `/login?redirect=` followed by the encoded path; otherwise the request is resolved |
| Hooks.Handle | src/hooks.server.ts:7-53 | `locals.usuario` is set from the session when one matches and otherwise kept; the answer is `Acesso` of the result |
| Hooks.FindSessionLast | src/hooks.server.ts:21-23 | when no older session matches, the appended one is found |
| Hooks.LoginAuthenticates | src/routes/login/+page.server.ts:154-169 | for eight hours after a successful login, the cookie set resolves in the hook to the servant who logged in |
| Logout.Encerrar | src/routes/logout/+page.server.ts:5-16 | with a cookie, a store and a successful delete, no session with that id remains and the others are kept; otherwise nothing changes |
| Logout.Load | src/routes/logout/+page.server.ts:4-20 | always clears the cookie and redirects (303) to "/login"; the sessions table changes as `Encerrar` says, and nothing else changes |
| Logout.LogoutEndsSession | src/routes/logout/+page.server.ts:9-12 | after a logout the old cookie resolves to nobody, while every other cookie resolves as before |
| Dashboard.Inserir | src/routes/dashboard/+page.server.ts:28 | inserting into a list sorted newest first keeps it sorted and a permutation of the list plus the new row |
| Dashboard.Ordenar | src/routes/dashboard/+page.server.ts:28 | `ORDER BY criado_em DESC` gives a permutation of the rows, newest first |
| Dashboard.Resumir | src/routes/dashboard/+page.server.ts:15-27 | a listing row copies every selected column of the report; its team and procedure totals count the rows joined to it; its team names and procedure types are exactly those of the joined rows |
| Dashboard.Recentes | src/routes/dashboard/+page.server.ts:28-29 | `LIMIT 200` keeps the newest reports, up to 200, sorted and drawn from the table |
| Dashboard.Listagem | src/routes/dashboard/+page.server.ts:15-37 | at most 200 reports, all of them when there are no more than 200, newest first |
| Dashboard.ListagemFromTable | src/routes/dashboard/+page.server.ts:24-27 | every listed row summarizes a report of the table |
| Dashboard.RecentesOmitted | src/routes/dashboard/+page.server.ts:28-29 | a report cut by the limit is not newer than any kept one |
| Dashboard.OmittedNotNewer | src/routes/dashboard/+page.server.ts:28-29 | a report left out of the listing is not newer than any listed one |
| Dashboard.ListagemDistinct | src/routes/dashboard/+page.server.ts:27 | `GROUP BY p.id` lists each report at most once |
| Dashboard.Contar | src/routes/dashboard/+page.server.ts:41-43 | a status count never exceeds the number of reports |
| Dashboard.ContarSql | src/routes/dashboard/+page.server.ts:41-70 | `SUM` over no rows is NULL, which `?? 0` shows as 0 |
| Dashboard.Estatisticar | src/routes/dashboard/+page.server.ts:39-43 | the total is the number of reports; each status count is the number of reports with that status; the three add up to at most the total; all are 0 for an empty table |
| Dashboard.StatusCountsBounded | src/routes/dashboard/+page.server.ts:41-43 | the status counts add up to the total exactly when every status is one of the three |
| Dashboard.SomaQuantitativos | src/routes/dashboard/+page.server.ts:44-49 | each counter total is the sum of that counter over the non-draft reports |
| Dashboard.QuantitativosSql | src/routes/dashboard/+page.server.ts:44-78 | the counter totals are NULL exactly for an empty table |
| Dashboard.SomaAdditive | src/routes/dashboard/+page.server.ts:44-49 | counter totals add up over a split of the table |
| Dashboard.RascunhosNaoSomam | src/routes/dashboard/+page.server.ts:44-49 | drafts contribute nothing to the counter totals |
| Dashboard.NovoRelatorioNasSomas | src/routes/dashboard/+page.server.ts:44-49 | a new report adds its counters to the totals unless it is a draft |
| Dashboard.LexIrreflexive | src/routes/dashboard/+page.server.ts:59 | `ORDER BY delegacia` (binary collation) is a strict order: no unit precedes itself |
| Dashboard.LexTransitive | src/routes/dashboard/+page.server.ts:59 | `ORDER BY delegacia` (binary collation) is transitive |
| Dashboard.LexTotal | src/routes/dashboard/+page.server.ts:59 | and total on distinct strings |
| Dashboard.InserirNome | src/routes/dashboard/+page.server.ts:57-59 | inserting a unit keeps the list strictly ascending, with exactly the old units and the new one |
| Dashboard.Delegacias | src/routes/dashboard/+page.server.ts:56-60 | the units are strictly ascending, and a unit is listed exactly when it is non-empty and some report has it |
| Dashboard.DelegaciasDistinct | src/routes/dashboard/+page.server.ts:57 | `DISTINCT` lists each unit once |
| Dashboard.Carregar | src/routes/dashboard/+page.server.ts:3-92 | the user is passed through; without a store or when a query fails the page is empty; at most 200 reports; the status counts add up to at most the total; on success the listing is `Listagem` of the tables, the units are `Delegacias` (ascending), the statistics are `Estatisticar` and the counter totals are the sums over non-draft reports |
| DashboardTeste.Filtrar | src/routes/dashboard-teste/+page.server.ts:29-30 | `filter` keeps exactly the rows with that status |
| DashboardTeste.FiltrosDisjuntos | src/routes/dashboard-teste/+page.server.ts:29-30 | the pending and completed counts add up to at most the total |
| DashboardTeste.Carregar | src/routes/dashboard-teste/+page.server.ts:15-35 | the page fails exactly when the binding exists and the query fails; `env_detectado` says whether the binding exists; the records are the first `min(n, 100)` rows of the table; `total` is their number, and `pendentes` and `concluidas` count the records with each status |
| DashboardTeste.Atualizar | src/routes/dashboard-teste/+page.server.ts:38-54 | 400 exactly for a missing or empty id or status; success exactly when the data is valid and either there is no platform or the update succeeds; success echoes the status; when the update runs, every row whose id the submitted text denotes gets the submitted status, and no other row changes |
| DashboardTeste.AtualizarIdempotente | src/routes/dashboard-teste/+page.server.ts:45-47 | submitting the same status twice leaves the table as submitting it once |
| DashboardTeste.AtualizarStatus | src/routes/dashboard-teste/+page.server.ts:38-54 | the transfers table and the answer are those of `Atualizar` (so with a platform and binding the matching row takes the submitted status), and every other table is unchanged |

## Left out

- The e-mail sent through Resend (`src/routes/login/+page.server.ts:60-89`). It is a network call whose failure is swallowed, so the model gives it no effect. Only whether a key is configured matters: the code is shown on the page only without one.
- The clock and randomness are parameters. `Date` and ISO timestamps are integer milliseconds, and comparing two ISO strings is comparing those integers.
  - `buscarServidor` reads the six-digit code as a parameter in 100000..999999.
  - `gerarSessionId` reads its 32 random bytes as a parameter.
- Login.ValidarToken: the session's `criado_em` and its expiry are both computed from one `now`. The source reads the clock twice, milliseconds apart.
- Store failures are explicit fault parameters, one per statement that can fail. D1 bindings and platform objects are reduced to "present or not".
- `JSON.stringify` of the victim and suspect lists, and `JSON.parse` of a draft, are not modelled. Both lists are kept as sequences, and a draft's `dados_json` is returned as text.
- `Promise.all`: the three dashboard queries are modelled as if run one after another. Any one failing empties the page, as the single `catch` does.
- `toUpperCase` maps ASCII and Latin-1 (including 'ß' to "SS"). Other Unicode case mappings are not modelled, so such characters stay unchanged.
- `parseInt` reads digits into an unbounded integer. The loss of precision above 2^53 is not modelled.
- SQLite type affinity beyond integer text: the id in `UPDATE remocoes ... WHERE id = ?` matches when its text is an optionally signed decimal integer. Texts such as "5.0" are not modelled.
- Row ids assigned by the batch insert of team and procedure rows are not modelled. Only their `plantao_id` is kept.
- Rows with equal `criado_em` are ordered as the model's insertion sort leaves them. SQLite leaves that order unspecified.
  - `LIMIT 1` without `ORDER BY` takes the first matching row in table order.
  - `LIMIT 100` on `remocoes` takes the first 100 rows in table order.
- `GROUP_CONCAT(DISTINCT ...)` is modelled as the set of values, not as a comma-joined string in some order. `COUNT(DISTINCT e.id)` is modelled as the number of joined rows, since child row ids are not modelled.
- NULL `delegacia` or `status` columns cannot be represented: the only writer, `salvar`, always supplies both.
- The page `load` functions of `/login` and `/plantao`, and every other route, are outside this model.
- An unset `RESEND_API_KEY` is modelled as the empty string.
- Store.IssuePreservesValid: "at most one pending code per address" holds for requests run one at a time. The model runs each request as one atomic step. Two concurrent `buscarServidor` calls for the same address can interleave as expire, expire, insert, insert (`src/routes/login/+page.server.ts:50-57`) and leave two pending codes. `Login.BuscarKeepsValid` and `Login.ValidarRejectsReplay` rest on the same one-at-a-time assumption.
- `Forms.FormData` holds text entries only. A `File` submitted under `id`, `status` or `codigo` is truthy in the source, and its `toString()` is "[object File]"; the model does not represent file entries.
- Login.MaskAddress: the masking regular expression has no `u` flag, so in the source each `.` matches one UTF-16 code unit; the model matches one character (code point). The two agree when the first two characters of the address are in the Basic Multilingual Plane. An address starting with an astral-plane character (an emoji, say) is masked differently: the source may keep half of a surrogate pair, or mask an address the model leaves unchanged.
- Cookie attributes other than name, value, path and max-age are not modelled: `httpOnly`, `secure` and `sameSite` have no bearing on the server's logic.
- `console.error` logging is not modelled.

## Findings

| source | as written | input that shows it | evidently intended | confidence | as-written member | corrected member |
|---|---|---|---|---|---|---|
| src/routes/plantao/+page.server.ts:150-159 | the `catch` re-throws only when `err instanceof Response`. The object SvelteKit's `redirect` throws is not a `Response`, so the redirect of a finalized report is caught and answered with the generic 500, after the report and its children are already stored. | `acao=finalizar` with a unit, an entry date and an entry hour, and a store that accepts every write | redirect (303) to `/plantao/imprimir/{id}`, as `validarToken` does by re-throwing when `isRedirect(err)` (`src/routes/login/+page.server.ts:174`) | high (not executed) | Plantao.FinalizeCaughtAsWritten | Plantao.SaveAnswers |

The rest of the model uses the corrected `Plantao.Catch`: `Plantao.Save` and `Plantao.Salvar` answer a finalized report with its redirect.
