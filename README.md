# Project charter creation endpoint, in Dafny

This project models the `POST /api/projetos` handler of the project-charter
application: the endpoint that receives a JSON body describing a project
charter (*termo de abertura de projeto*), validates it, and inserts one row
into the charter table (`termoAberturaProjeto`).

The handler runs four steps in a fixed order:

1. It reads the body with `request.json()` and destructures ten fields from it.
2. **Presence guard.** The eight text fields and `cronogramaInicial` must be
   JavaScript-truthy. `orcamentoEstimado` must only not be `undefined`.
3. **Type guard.** The text fields must be strings, the budget a number, and
   the schedule a string or a `Date`.
4. **Date guard.** `new Date(cronogramaInicial)` must not be an Invalid Date.

If all three guards pass, the handler makes exactly one `create` call and
answers 201 with the created record. Every other outcome is a fixed status
and message. A `SyntaxError` thrown while parsing gives 400 "Invalid JSON in
request body". Any other thrown error gives 500 "Failed to create project
charter". That includes a store failure, and destructuring a `null` body.

Modules, one per file:

- `Wrappers` (`wrappers.dfy`): `Option` and `Result`.
- `Js` (`js.dfy`): the JavaScript values a parsed body can contain.
  - `Undefined`, `Null`, booleans, numbers, strings, arrays, objects, and `Date` objects.
  - Numbers are `NaN`, a finite value or an infinity.
  - A `Date` holds an optional time value; `None` is an Invalid Date.
  - Also here: truthiness (`Truthy`), `typeof` (`TypeOf`), `instanceof Date`,
    what `JSON.parse` can produce (`IsJson`), and `new Date(v)` (`NewDate`).
- `CharterValidation` (`validation.dfy`): destructuring, the three guards as
  the handler writes them, and `Validate`. `Validate`'s contract classifies
  every input against reference predicates stated over the field names
  (`Present`, `WellTyped`, `Forwarded`).
- `ProjetosRoute` (`route.dfy`): the responses and the charter table.
  - The table is a value `Table` with the pure operations `Insert` and `Handle`.
  - It is also a class `CharterTable` whose fields `Create` updates in place.
  - The handler `Post` is proved against `Handle`.
  - `Serve` runs a sequence of POSTs against one table.
- `CharterProperties` (`properties.dfy`): lemmas that relate several calls
  or pin down particular payloads.

Foreign behaviour becomes parameters:

- The result of `request.json()` is a `BodyRead` value.
- The engine's date-string parser is a function parameter of type `DateParser`.
- The insert time is the parameter `now`.
- Whether the database rejects the insert is the parameter `storeFails`.

Presence is JavaScript truthiness (route.ts:25-34), so `0`, `NaN`, `false`
and `null` in a text field or in `cronogramaInicial` give "Missing required
fields", not "Invalid data types".

## Model

| member | source | states |
|---|---|---|
| Js.TypeOf | projeto-charter-app/src/app/api/projetos/route.ts:41-50 | `typeof v` is "string" exactly for strings, "number" exactly for numbers, "undefined" exactly for undefined (so `typeof null` is not "number") |
| CharterValidation.Destructure | projeto-charter-app/src/app/api/projetos/route.ts:9-21 | destructuring the body throws (TypeError) exactly when the body is `null` or `undefined` |
| Js.Truthy | projeto-charter-app/src/app/api/projetos/route.ts:25-34 | the `!x` tests: ToBoolean, false exactly for undefined, null, false, ±0, NaN and "", true for every object (arrays, Dates, an Invalid Date) |
| Js.NewDate | projeto-charter-app/src/app/api/projetos/route.ts:56-57 | `new Date(cronogramaInicial)`: a string goes through the engine's date parser, a Date's time value is copied; None stands for a NaN time value |
| CharterValidation.MissingRequired | projeto-charter-app/src/app/api/projetos/route.ts:24-35 | the presence guard as written: some text field or the schedule is falsy, or the budget is `undefined` |
| CharterValidation.WrongTypes | projeto-charter-app/src/app/api/projetos/route.ts:40-51 | the type guard as written: some text field's `typeof` is not "string", the budget's is not "number", or the schedule is neither a string nor a Date |
| ProjetosRoute.Message | projeto-charter-app/src/app/api/projetos/route.ts:36-86 | the five error strings, one per failure: "Invalid JSON in request body", "Missing required fields", "Invalid data types", "Invalid cronogramaInicial date format", "Failed to create project charter" |
| CharterValidation.Validate | projeto-charter-app/src/app/api/projetos/route.ts:8-59 | "Invalid JSON" exactly for a SyntaxError. The pre-store 500 exactly for another read error or a nullish body. For any other body: "Missing required fields" iff the presence guard fails; "Invalid data types" iff presence passes and types fail; the date error iff both pass and the date is invalid; acceptance iff all three pass. An accepted record holds the eight strings and the budget verbatim and the schedule as its parsed time value |
| ProjetosRoute.ErrorResponse | projeto-charter-app/src/app/api/projetos/route.ts:79-87 | every failure answers with an error body; status 500 exactly for the catch-all failure, 400 for all others |
| ProjetosRoute.Insert | projeto-charter-app/src/app/api/projetos/route.ts:62-76 | a create appends exactly one row, holding the data given, with an id not in use before and autorizacaoFormal false; the table stays well formed (unique increasing ids, createdAt ≤ updatedAt) |
| ProjetosRoute.Handle | projeto-charter-app/src/app/api/projetos/route.ts:62-87 | a validation failure returns its error response with the table unchanged; a rejected insert returns 500 with the table unchanged; otherwise exactly one row holding the validated data is appended and the answer is 201 with that row |
| ProjetosRoute.CharterTable.Create | projeto-charter-app/src/app/api/projetos/route.ts:62-76 | the in-place create: on failure nothing changes; on success the table's new state and the returned record are those of `Insert` |
| ProjetosRoute.Post | projeto-charter-app/src/app/api/projetos/route.ts:6-88 | the handler's response and the table's new state are exactly those `Handle` gives for the old state |
| ProjetosRoute.Serve | projeto-charter-app/src/app/api/projetos/route.ts:62-78 | any sequence of POSTs keeps the table well formed |
| CharterProperties.ZeroBudgetIsPresent | projeto-charter-app/src/app/api/projetos/route.ts:33 | a budget of 0 is never reported as missing when the other presence-checked fields are truthy |
| CharterProperties.NullBudgetIsInvalidType | projeto-charter-app/src/app/api/projetos/route.ts:33-53 | a `null` budget passes the presence guard and is then rejected as "Invalid data types" |
| CharterProperties.AnyNumberBudgetAccepted | projeto-charter-app/src/app/api/projetos/route.ts:49-72 | no sign or range check on the budget: with non-empty text fields and a parsable schedule, every number (negative, zero, infinite) is accepted and forwarded unchanged |
| CharterProperties.ParserUnusedBeforeDateGuard | projeto-charter-app/src/app/api/projetos/route.ts:24-59 | the date parser is consulted only after the presence and type guards pass: any earlier outcome is the same under every parser |
| CharterProperties.ExtraKeysIgnored | projeto-charter-app/src/app/api/projetos/route.ts:9-21 | two object bodies that agree on the ten destructured keys get the same outcome and the same record |
| CharterProperties.AutorizacaoFormalIgnored | projeto-charter-app/src/app/api/projetos/route.ts:20 | the client's autorizacaoFormal never changes the outcome |
| CharterProperties.NonObjectBodyIsMissingFields | projeto-charter-app/src/app/api/projetos/route.ts:9-37 | a body that parsed to a boolean, number, string or array gets "Missing required fields" |
| CharterProperties.ErrorResponsesDistinct | projeto-charter-app/src/app/api/projetos/route.ts:36-86 | different failures never share a response |
| CharterProperties.JsonScheduleIsString | projeto-charter-app/src/app/api/projetos/route.ts:50-56 | an accepted body that came from JSON always carried its schedule as a string (the `instanceof Date` branch is unreachable from a parsed body) |
| CharterProperties.HandleStep | projeto-charter-app/src/app/api/projetos/route.ts:62-78 | one POST leaves existing rows untouched, adds exactly the data of an accepted and stored payload (nothing otherwise), and never adds an authorized row |
| CharterProperties.ServeStoresExactlyAccepted | projeto-charter-app/src/app/api/projetos/route.ts:62-78 | after any sequence of POSTs, existing rows are untouched and the added rows hold exactly the accepted, stored payloads in request order: no rejected request reaches the table |
| CharterProperties.ServeNeverAuthorizes | projeto-charter-app/src/app/api/projetos/route.ts:74 | no sequence of POSTs sets autorizacaoFormal on any row |

## Left out

- The list page (`src/app/page.tsx`), the detail page (`src/app/projetos/[id]/page.tsx`), the creation form (`src/app/projetos/novo/page.tsx`) and the layout are rendering and client code. They are not part of this model.
- The database behind Prisma is not modelled. The table is an append-only sequence. Ids come from an auto-incrementing counter starting at 1, the usual behaviour of an auto-increment id, which is not visible in the code. Both timestamps are the insert time `now`. Why the database might reject an insert is a parameter.
- `request.json()` is not modelled; its result is an input. JSON text parsing, and the duplicate-key and `__proto__` handling of `JSON.parse`, are out of scope.
- Date-string parsing by `new Date(string)` is a parameter. Its calendar and platform rules are not modelled.
- Text is modelled as Dafny strings, which are sequences of Unicode scalar values. A JavaScript string is a sequence of UTF-16 code units, so a string with an unpaired surrogate (such as the JSON `"\ud800"`) cannot be represented. The handler only tests text for emptiness and passes it on unchanged.
- IEEE-754 arithmetic is not modelled. A finite number is any real, not only a representable double; +0 and -0 are one value.
- Property reads consult only the body's own entries. None of the ten keys names a property of a built-in prototype, so the prototype chain is not modelled.
- `console.error` logging and the JSON serialisation of the 201 body are left out. `NextResponse` is reduced to a status and a body.
- Concurrent requests are not modelled. Each POST runs whole, one after another.
