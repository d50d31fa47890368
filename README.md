# Stroke Files API: paragraph extraction and session progress

This project models the two parts of the stroke-practice server (`server.js`) that hold logic:

- **Page-content extraction** (`GET /notion/page/:pageId`). The handler lists a page's
  child blocks from the document service. It keeps the blocks of type `'paragraph'`
  whose `paragraph.rich_text` is an array. For each kept block it joins the fragments'
  `plain_text` values with no separator, then drops the empty texts. The answer is
  `{ pageId, content }`. If anything inside the `try` throws, the answer is one fixed
  failure, `'Failed to fetch from Notion.'`. That covers a failed fetch, and also a
  paragraph block with no `paragraph` object, because reading its `rich_text` throws.
- **Progress tracking** (`GET`/`POST /session`). `POST` copies the body's `lastStroke`
  and `context` onto the caller's session record, and always overwrites both.
  `GET` answers with each field `|| null`.

Modules:

- `Js` (js.dfy): `Option`, a `Result` whose single `Error` stands for any thrown
  exception, the JavaScript `Value`s a request body or session can hold, JavaScript
  truthiness (`Falsy`) and `||` (`Or`).
- `BlockExtract` (extract.dfy): the `filter`/`map`/`join`/`filter` chain. Each stage is
  a function: `KeepParagraphs`, `Texts` over `JoinPlain`, `NonEmpty`. `Extract`
  composes them. The lemmas relate the chain to a per-block reference view. In that
  view, `Contribution` is what one block gives on its own and `Sources` lists the
  indices of the contributing blocks.
- `PageGateway` (gateway.dfy): the `try`/`catch` around the fetch and the extraction.
  The fetch's outcome is an input.
- `ProgressSession` (session.dfy): `SaveProgress` and `ReadProgress` over a map from
  session ids to records. The class `SessionStore` holds that map as a field, and its
  `Save` and `Read` methods are proved against those two functions.

Two edge cases of the code shape the model:

- A `'paragraph'` block whose `paragraph` is undefined or null is not skipped. Reading
  its `rich_text` throws, so the whole page fails (`server.js:73`, `82-85`). Only a
  `rich_text` that is not an array is skipped (`server.js:73`). `Throws`, `Extract` and
  `PageGateway.NoPartialContent` state this.
- `|| null` (`server.js:46-47`) reads every falsy stored value back as `null`: `0`,
  `""`, `false`, `NaN`, `undefined`. `ProgressSession.ReadAfterSave` states this.

## Model

| member | source | states |
|---|---|---|
| `Js.Falsy` | server.js:46-47 | a value is falsy exactly when it is one of JavaScript's falsy values: `undefined`, `null`, `false`, `0`, `NaN`, `0n`, `""`; every object and array is truthy |
| `Js.Or` | server.js:46-47 | JavaScript or-ing `a` with `b` yields one of its operands, and the result is falsy only when both operands are |
| `Js.OrNullNeverFalsy` | server.js:46-47 | JavaScript `Or(x, Null)` (`x` or-ed with `null`) is `null` exactly when `x` is falsy; otherwise it is a truthy value |
| `BlockExtract.KeepTest` | server.js:73 | the filter test throws exactly on a paragraph block with a nullish `paragraph`, and accepts exactly the paragraph blocks whose `rich_text` is an array |
| `BlockExtract.KeepParagraphs` | server.js:72-73 | the first filter succeeds iff no block throws; on success it keeps no more blocks than it was given, and every kept block qualifies |
| `BlockExtract.KeepParagraphsKeeps` | server.js:72-73 | on success every kept block is an input block, and every qualifying input block is kept |
| `BlockExtract.Texts` | server.js:74-78 | the map gives one text per kept block, and text `k` is the join of block `k`'s fragments |
| `BlockExtract.NonEmpty` | server.js:79 | the last filter keeps no more texts than it was given; every kept text is non-empty and is one of the inputs |
| `BlockExtract.NonEmptyKeeps` | server.js:79 | every non-empty input text is kept |
| `BlockExtract.Extract` | server.js:72-79 | extraction succeeds iff no block throws; on success the output is no longer than the block list and holds no empty string |
| `BlockExtract.PlainText` | server.js:76-77 | definition: a fragment joins as its `plain_text`, or as `""` when that is undefined or null |
| `BlockExtract.JoinPlain` | server.js:75-77 | the joined text starts with the first fragment's text and is at least as long as every fragment's text |
| `BlockExtract.JoinPlainAppend` | server.js:75-77 | joining the fragments distributes over concatenation of fragment lists |
| `BlockExtract.JoinPlainAt` | server.js:75-77 | fragment `i`'s text (undefined and null as `""`) sits in the joined text right after the texts of fragments `0..i-1`, with no separator |
| `BlockExtract.JoinPlainEmpty` | server.js:75-79 | a block's text is empty, so the block is dropped, exactly when every fragment's text is missing or empty |
| `BlockExtract.KeepParagraphsAppend` | server.js:72-73 | the first filter distributes over concatenation, and fails if either half fails |
| `BlockExtract.TextsAppend` | server.js:74-78 | the map stage distributes over concatenation |
| `BlockExtract.NonEmptyAppend` | server.js:79 | the last filter distributes over concatenation |
| `BlockExtract.ExtractAppend` | server.js:72-79 | `extract(a + b)` is `extract(a) + extract(b)`, and fails when either part fails |
| `BlockExtract.ExtractSingle` | server.js:72-79 | a single block either throws or gives exactly its own contribution: its text if it qualifies and the text is non-empty, otherwise nothing |
| `BlockExtract.NonParagraphIgnored` | server.js:73 | inserting a block that is not a paragraph anywhere in the list never changes the result, whatever the block contains |
| `BlockExtract.ExtractSources` | server.js:72-79 | output text `k` is the text of block `Sources[k]`, and that block contributes; the source indices strictly increase, so order is preserved; every contributing block is among the sources |
| `BlockExtract.ScenarioHelloWorld` | server.js:72-79 | a heading, a paragraph `["Hello, ", "world"]` and an empty paragraph extract to `["Hello, world"]` |
| `PageGateway.GetPage` | server.js:65-85 | the answer is page content iff the fetch succeeded and no block throws; content carries the request's `pageId` unchanged; every failure is the one fixed error message |
| `PageGateway.GetPageContent` | server.js:69-81 | on success the content is exactly the extraction of the fetched blocks |
| `PageGateway.NoPartialContent` | server.js:67-85 | one paragraph block without a paragraph object turns the whole answer into the fixed error, whatever surrounds it |
| `PageGateway.UniformFailure` | server.js:82-85 | a failed fetch and a throwing extraction give the same answer, whatever the page id |
| `ProgressSession.Field` | server.js:53 | definition: destructuring a body field gives its value when the body has it, and `undefined` otherwise |
| `ProgressSession.ReadProgress` | server.js:44-49 | each answered field is `null` or a truthy value |
| `ProgressSession.SaveProgress` | server.js:52-56 | a save adds `sid` to the sessions, sets both of its fields from the body (a missing field as undefined), and keeps every other session's record |
| `ProgressSession.ReadUnsaved` | server.js:46-47 | a session that was never saved reads as `(null, null)` |
| `ProgressSession.ReadAfterSave` | server.js:46-55 | after a save, a truthy field reads back as saved; a falsy or missing field reads back as `null` |
| `ProgressSession.SaveFrame` | server.js:52-56 | a save leaves what every other session reads unchanged |
| `ProgressSession.SaveOverwrites` | server.js:53-55 | a second save to the same session replaces both fields; nothing of the first survives, even a field the second body lacks |
| `ProgressSession.SavesCommute` | server.js:52-56 | saves to two different sessions give the same records in either order |
| `ProgressSession.SessionStore.Save` | server.js:52-57 | the new records are `SaveProgress` of the old: the caller's record holds the body's two fields, and every other record is unchanged |
| `ProgressSession.SessionStore.Read` | server.js:44-49 | the answer is `ReadProgress` of the current records, and `(null, null)` for a session never saved |

## Left out

- Express setup, the JSON body parser, static files under `/files`, the health check and
  `app.listen` (`server.js:7-37`, `91-94`): routing and I/O plumbing.
- The `express-session` configuration: the secret, cookie expiry and `saveUninitialized`
  (`server.js:12-17`). Sessions are an explicit map. An unknown id has the same effect
  as the empty session the library creates, and expiry is not modelled.
- The document-service client and its network call (`server.js:63`, `69`): the call's
  outcome is the `FetchOutcome` input. Pagination of the listing is not modelled,
  because the handler reads only one page of results.
- `console.error` logging and the HTTP status codes 204 and 500 (`server.js:56`, `83-84`);
  only success and failure are distinguished.
- Concurrent requests to one session (last write wins): every call is modelled as one
  sequential step.
- `null` entries in `results` or in `rich_text`, and a `plain_text` that is neither a
  string nor undefined/null: the document service does not produce them. In the code the
  first two would throw and the third would be stringified by `join`.
- Values are modelled only as far as `||` needs them. Numbers are reals with a
  separate `NaN`, so `Infinity` and `-Infinity` (which a JSON literal such as `1e400`
  parses to) are not represented; `NaN` and BigInts cannot come from a JSON body at all.
  Every object or array is one truthy opaque `Object`.
- The session store's serialisation of records between requests: the session layer's
  default store keeps them as JSON text, so a saved object reads back as a copy and an
  infinite number reads back as `null`. The model hands back the saved value itself.
- A request body that is not an object: the body parser always provides one.
- JavaScript string length counts UTF-16 code units, and the model counts characters.
  The `length > 0` test (`server.js:79`) gives the same answer either way.
