# golang-delos-aqua: farms, ponds and an access counter, in Dafny

The service is a REST API over gin and gorm. It stores farms and ponds, and it
counts how often each client reaches each path. This project models four parts
of it and proves properties of them:

- **The helpers.** `GetClientIP` derives the client identifier: the
  `X-Forwarded-For` header, else `X-Real-IP`, else the socket address, cut
  at the first comma. `ParseUint` reads a base-10 unsigned 64-bit id and
  yields 0 with an error on failure. Module `Helpers` holds both, with
  `strings.Split`/`Join` and `fmt.Sprint` of an id (`Decimal`).
- **The request validators** (`Validator`). The binding tags are functions
  that list the failing fields. `ShouldBind` decodes a body and then checks
  those tags.
- **The farm, pond and record handlers** (`FarmHandler`, `PondHandler`,
  `RecordApiHandler`). Each handler is a method that maps the bind result
  and the repository outcome to a status code and a message.
  - The farm and pond repositories are one generic in-memory `Store.Table`.
    Ids are fresh and ascending, a lookup reports NotFound when the id is
    absent, a save overwrites by id, and a delete removes by id. A path id
    is parsed by the repository with its error ignored, so a path of `0` or
    one that does not parse reads as 0, which the lookup treats as no
    condition: GET answers the first row by id and DELETE removes it.
  - Every repository call takes a `Fault`. `Some(text)` makes that call fail
    with a database error, which reaches the 500 paths.
- **The access counter.** `RecordRepository.RecordApiRepository` is a class
  holding a `map<Key, nat>` from (request path, client identifier, final
  status, referer) to a visit count. `Middleware.RecordApi` is the
  upsert-or-increment step run after each request, with the lookup by exact
  key that the code evidently intends (see "## Findings": the code as written
  looks the key up as a struct condition, modelled by
  `Middleware.StepAsWritten`). The effect of the keyed step on the table is
  the function `Recorded`, about which the lemmas prove these facts:
  - nothing else changes;
  - counts only grow;
  - counts stay at least 1;
  - two requests commute;
  - the sum of counts rises by exactly one per request.

The response envelope (`Envelope`) keeps the status, the message and the
error detail; its JSON form is not modelled. The injected faults stand for
the database. Request headers, the path, the referer and the final status
are plain inputs.

## Model

| member | source | states |
|---|---|---|
| Helpers.Split | pkg/helpers/util.go:27 | `strings.Split` with a one-character separator: at least one field, no field holds the separator, and exactly one field iff the separator does not occur |
| Helpers.SplitJoin | pkg/helpers/util.go:27 | joining the fields of a split with the separator gives back the input, so splitting loses nothing |
| Helpers.SplitHead | pkg/helpers/util.go:26-28 | the first field is a prefix of the input, and when the separator occurs it stands right after that prefix |
| Helpers.FirstEntry | pkg/helpers/util.go:26-28 | the comma cut returns a prefix without a comma; input without a comma comes back unchanged; otherwise the prefix ends exactly at the first comma |
| Helpers.GetClientIP | pkg/helpers/util.go:12-31 | the identifier is a comma-free prefix of the chosen header, with no trimming; it is the first entry of `X-Forwarded-For` when that is non-empty, else of `X-Real-IP` when that is non-empty, else of the socket address |
| Helpers.ForwardedForDominates | pkg/helpers/util.go:14-22 | a non-empty `X-Forwarded-For` fixes the identifier whatever `X-Real-IP` and the socket address hold |
| Helpers.FallbackOrder | pkg/helpers/util.go:16-22 | `X-Real-IP` is chosen only when `X-Forwarded-For` is empty (or equal to it), and something other than the socket address only when one header is non-empty |
| Helpers.FirstEntryIdempotent | pkg/helpers/util.go:26-30 | cutting twice equals cutting once, and a non-empty identifier fed back as `X-Forwarded-For` gives itself |
| Helpers.Decimal | internal/api/handler/farm.handler.go:151 | `fmt.Sprint` of an id is a non-empty digit string that denotes the id |
| Helpers.LeadingDigits | pkg/helpers/util.go:36 | the run of decimal digits the input starts with: a digit prefix followed by a non-digit or by the end |
| Helpers.ParseUint64 | pkg/helpers/util.go:36 | `strconv.ParseUint(s, 10, 64)` succeeds iff `s` is a non-empty decimal digit string below 2^64, with its value; the empty string is a syntax error; otherwise the error is a range error exactly when the leading digit run already reaches 2^64, since the input is read from the left, and a syntax error when not |
| Helpers.ParseUint | pkg/helpers/util.go:35-41 | no error iff the input is a base-10 number below 2^64, and then the value is that number; on an error the value is 0 |
| Helpers.ParseDecimal | pkg/helpers/parseInt.go:7-13 | parsing the decimal rendering of any n < 2^64 gives (n, no error) |
| Helpers.ParseRejectsOverflow | pkg/helpers/parseInt.go:8-11 | the rendering of any n >= 2^64 gives (0, range error) |
| Helpers.ZerosThenDigits | pkg/helpers/parseInt.go:8 | in base 10, zeros before a digit string leave its value unchanged |
| Helpers.LeadingZerosIgnored | pkg/helpers/parseInt.go:8-12 | for every digit string, any number of leading zeros changes neither the parsed value nor the error |
| Helpers.NonDigitIsSyntaxError | pkg/helpers/parseInt.go:8-11 | any input holding a non-digit (sign, `0x` prefix, underscore, space) whose leading digit run stays below 2^64 gives (0, syntax error) |
| Helpers.OverflowBeforeNonDigit | pkg/helpers/parseInt.go:8-11 | a digit run of value at least 2^64 followed by a non-digit gives (0, range error), not a syntax error |
| Validator.NameViolation | internal/pkg/validator/farm.validator.go:5 | `required,min=1` on a string holds exactly for a non-empty name |
| Validator.FarmIdViolation | internal/pkg/validator/pond.validator.go:6 | `required` on `farm_id` holds exactly for a non-zero id |
| Validator.CreateFarmViolations | internal/pkg/validator/farm.validator.go:4-6 | a create-farm request is valid iff its name is non-empty |
| Validator.CreatePondViolations | internal/pkg/validator/pond.validator.go:4-7 | a create-pond request is valid iff its name is non-empty and its farm id is non-zero |
| Validator.UpdateFarmViolations | internal/pkg/validator/farm.validator.go:9-12 | the update-farm request has no tags, so no field can fail |
| Validator.UpdatePondViolations | internal/pkg/validator/pond.validator.go:10-14 | the update-pond request has no tags on id, name or farm id, so no field can fail |
| Validator.ShouldBind | internal/api/handler/farm.handler.go:43-44 | binding succeeds iff the body decodes and no tag fails, and then yields the decoded request unchanged; an undecodable body is reported as malformed; a decoded body with failing tags is refused with exactly those fields |
| Validator.BindCreateFarm | internal/api/handler/farm.handler.go:43-51 | binding a create-farm body succeeds iff it decodes with a non-empty name |
| Validator.BindUpdateFarm | internal/api/handler/farm.handler.go:122-129 | binding an update-farm body succeeds iff it decodes |
| Validator.BindCreatePond | internal/api/handler/pond.handler.go:43-51 | binding a create-pond body succeeds iff it decodes with a non-empty name and a non-zero farm id |
| Validator.BindUpdatePond | internal/api/handler/pond.handler.go:122-129 | binding an update-pond body succeeds iff it decodes |
| Validator.PutAcceptsWhatPostRefuses | internal/pkg/validator/pond.validator.go:4-14 | an empty name (and for ponds a zero farm id) is refused by the create requests and accepted by the update requests, with or without an id |
| Store.Find | internal/pkg/repository/farm.repository.go:47-56 | the position found holds the id, and no row holds it when none is found |
| Store.FirstWithId | internal/pkg/repository/farm.repository.go:49-51 | the row `First` answers for a condition holding only an id: for a non-zero id the row with that id, or none when no row has it; for id 0, no condition, the first row whenever there is one |
| Store.WithoutAbsent | internal/pkg/repository/farm.repository.go:74-80 | deleting an id that is not stored changes nothing |
| Store.WithoutLowest | internal/pkg/repository/farm.repository.go:74-80 | deleting the id of the first row of an ascending table drops exactly that row |
| Store.Without | internal/pkg/repository/farm.repository.go:74-80 | delete by primary key: exactly the rows with another id remain, still in ascending id order |
| Store.Upsert | internal/pkg/repository/farm.repository.go:69-71 | save by primary key: the saved row replaces the row with its id or is added, and id order is kept |
| Store.UpsertExisting | internal/pkg/repository/farm.repository.go:69-71 | saving over a stored id overwrites that row in place and moves no other row |
| Store.WithoutRemoves | internal/pkg/repository/farm.repository.go:74-80 | after a delete the id is no longer found |
| Store.WithoutKeeps | internal/pkg/repository/farm.repository.go:74-80 | a delete leaves every other stored id findable |
| Store.Table.Create | internal/pkg/repository/farm.repository.go:31-37 | on success the row is appended under a fresh id above every stored id; on failure the table is untouched and the database error returned |
| Store.Table.GetAll | internal/pkg/repository/farm.repository.go:40-44 | all rows in ascending id order, an empty table being no error; the error otherwise |
| Store.Table.GetById | internal/pkg/repository/farm.repository.go:47-56 | the path text is parsed with its error ignored; a non-zero id succeeds iff a row has it, with that row; id 0 (a `0` or a text that does not parse) succeeds iff the table is non-empty, with the first row by id; NotFound otherwise; the database error when the call fails |
| Store.Table.Update | internal/pkg/repository/farm.repository.go:69-71 | save: the nil entity stores nothing, id 0 inserts under a fresh id, any other id upserts by id; a failure changes nothing |
| Store.Table.Delete | internal/pkg/repository/farm.repository.go:74-80 | deletes the row with the entity's id, the nil entity deletes nothing, a failure changes nothing |
| RecordRepository.PathLeTotal | internal/pkg/repository/record_api.repository.go:33 | any two paths are ordered one way or the other |
| RecordRepository.PathLeTransitive | internal/pkg/repository/record_api.repository.go:33 | the path order is transitive |
| RecordRepository.InsertByPath | internal/pkg/repository/record_api.repository.go:33 | inserting into a path-sorted list keeps it sorted and adds exactly the one record |
| RecordRepository.KeysOfInsert | internal/pkg/repository/record_api.repository.go:33 | an insertion adds exactly the record's key to the listed keys |
| RecordRepository.RecordApiRepository.Create | internal/pkg/repository/record_api.repository.go:26-28 | the row is stored under its key with its count, or nothing changes on failure, and no error is returned to the caller |
| RecordRepository.RecordApiRepository.GetAll | internal/pkg/repository/record_api.repository.go:31-35 | every row once, each with its stored count, in ascending path order; the database error otherwise |
| RecordRepository.RecordApiRepository.GetByModel | internal/pkg/repository/record_api.repository.go:38-45 | the row with the lookup's key and its count iff that key is stored, NotFound iff it is not, the database error (and no record) when the call fails; this is the lookup by exact key that the finding below calls intended, while the code as written is `FirstByStructCondition` |
| RecordRepository.RecordApiRepository.UpdateCount | internal/pkg/repository/record_api.repository.go:48-51 | the passed record's count goes up by exactly one and no other field changes; the increment is returned even when the save fails, with the save's error; a nil record is dereferenced |
| RecordRepository.FirstByStructCondition | internal/pkg/repository/record_api.repository.go:38-45 | the ORM's lookup as written: the first row matching every non-zero field of the condition, and none when no row matches |
| RecordRepository.StructConditionOnFullKey | internal/pkg/repository/record_api.repository.go:38-45 | when every key field of the condition is non-zero and no count is set, the struct condition is exactly key equality |
| Middleware.Recorded | internal/api/middleware/record_api.go:29-39 | one request adds its key, creates its count at 1 or bumps it by exactly 1, and leaves every other key's count unchanged |
| Middleware.CountsGrow | internal/api/middleware/record_api.go:29-39 | no key disappears and no count shrinks |
| Middleware.CountsStayPositive | internal/api/middleware/record_api.go:32-39 | if every count is at least 1 before a request, every count is at least 1 after it |
| Middleware.RecordedCommutes | internal/api/middleware/record_api.go:29-39 | two requests leave the same table in either order |
| Middleware.TotalRemove | internal/api/middleware/record_api.go:29-39 | the sum of counts is the count of any one key plus the sum of the others |
| Middleware.RecordedTotal | internal/api/middleware/record_api.go:29-39 | each request adds exactly one to the sum of all counts |
| Middleware.SameClientBehindProxy | internal/api/middleware/record_api.go:22-27 | with `X-Forwarded-For` set, requests with the same path, referer and status share a key whatever their other addresses |
| Middleware.RecordApi | internal/api/middleware/record_api.go:15-41 | after the chain has written its status, the table becomes `Recorded(table, key)` for the key (path, client identifier, that status, referer); a failed insert or save is dropped and leaves the table as it was; a failed lookup panics on the nil record and changes nothing; the lookup is by exact key, the corrected behaviour of the finding below |
| Middleware.StepAsWritten | internal/api/middleware/record_api.go:22-39 | the step as written over the rows: the first row matching the non-zero fields of the lookup is bumped by one and the others are kept; with no match a row with count 1 is appended |
| Middleware.EmptyRefererBumpsAnotherRow | internal/api/middleware/record_api.go:22-39 | a request without a referer bumps the row of a request from the same client and path that had one, and gets no row of its own, where the keyed table creates one at 1 |
| FarmHandler.CreateFarm | internal/api/handler/farm.handler.go:42-68 | 400 and no store change when binding fails; 500 with the database error and no change on a failed insert; otherwise 200 with the new farm, appended under a fresh id, and the id counter advanced by one |
| FarmHandler.GetAllFarm | internal/api/handler/farm.handler.go:71-93 | 500 on an error, checked before emptiness; 404 with "no record found" on an empty table; 200 with all farms by id otherwise |
| FarmHandler.GetById | internal/api/handler/farm.handler.go:96-118 | for a path that parses to a non-zero id, 200 "success to fetch data" with the farm iff one has that id; for a path `0` or one that does not parse, 200 with the first farm by id whenever one is stored; 404 on NotFound; 500 on any other error |
| FarmHandler.Update | internal/api/handler/farm.handler.go:121-171 | 400 on an undecodable body; id 0 takes the create path (200 or 500, never 204); an absent id is 404 with no save; a stored id has its name overwritten in place and gives 204, or 500 on a failed save; a failed lookup goes on to save the nil farm |
| FarmHandler.Delete | internal/api/handler/farm.handler.go:174-193 | 404 without deleting when the lookup of GetById finds nothing; otherwise the delete runs: 500 on its error, else 204 with the found farm removed, which for a path `0` or one that does not parse is the first farm by id; a failed lookup deletes the nil farm, which removes nothing |
| FarmHandler.CreateFetchDeleteFetch | internal/api/handler/farm.handler.go:42-193 | creating, fetching, deleting and fetching a farm gives 200 with a fresh non-zero id, 200 with the same farm, 204, then 404 |
| FarmHandler.PutCreatesWhatPostRefuses | test/handler/farm.handler_test.go:150 | POST with an empty name is 400, while PUT without an id stores a farm with an empty name and answers 200 |
| PondHandler.CreatePond | internal/api/handler/pond.handler.go:42-68 | 400 and no store change when binding fails; 500 and no change on a failed insert; otherwise 200 with the new pond, appended under a fresh id, and the id counter advanced by one |
| PondHandler.GetAllPond | internal/api/handler/pond.handler.go:71-93 | 500 on an error, checked before emptiness; 404 with "no record found" on an empty table; 200 with all ponds by id otherwise |
| PondHandler.GetById | internal/api/handler/pond.handler.go:96-118 | for a path that parses to a non-zero id, 200 with the pond iff one has that id; for a path `0` or one that does not parse, 200 with the first pond by id whenever one is stored; 404 on NotFound; 500 on any other error |
| PondHandler.Update | internal/api/handler/pond.handler.go:121-169 | 400 on an undecodable body; id 0 creates (200 or 500) even with a zero farm id; an absent id is 404 with no save; a stored id has its name and farm id overwritten and gives 204, or 500 on a failed save; a failed lookup goes on with the nil pond |
| PondHandler.Delete | internal/api/handler/pond.handler.go:172-191 | 404 without deleting when the lookup of GetById finds nothing; otherwise 500 on the delete's error, else 204 with the found pond removed, which for a path `0` or one that does not parse is the first pond by id; a failed lookup deletes the nil pond, which removes nothing |
| PondHandler.CreateFetchDeleteFetch | internal/api/handler/pond.handler.go:42-191 | creating, fetching, deleting and fetching a pond gives 200 with a fresh non-zero id, 200 with the same pond, 204, then 404 |
| PondHandler.PutCreatesWhatPostRefuses | internal/api/handler/pond.handler.go:133-147 | POST with an empty name and farm id 0 is 400, while PUT without an id stores that pond and answers 200 |
| RecordApiHandler.GetAllRecord | internal/api/handler/record_api.handler.go:32-54 | 500 on an error, checked before emptiness; 404 with "no record found" on an empty table; 200 "success to fetch data" with every row once, with its count, by ascending path |

## Left out

- Database connection, migration, pool settings, the router, CORS and the log format are configuration and I/O. The router registers no route for `GetAllRecord`, so the model shows that handler as written, unreachable in the service.
- The ORM helpers behind the farm and pond repositories (`Create`, `Find`, `First`, `Save`, `DeleteByModel`) are not part of this model. `Store.Table` gives only their observable contract. Preloading of ponds, soft-delete timestamps, cascades and the 100-character column limits are database behaviour.
- Store.Table.GetById: a path id of 0, given or from a failed parse, is modelled as a struct condition with no field set, which the ORM answers with the first row by primary key. The generic `First` helper is not part of this model, so this rests on the same zero-value behaviour as the finding below. FarmHandler.GetById, FarmHandler.Delete, PondHandler.GetById and PondHandler.Delete inherit it.
- RecordRepository.RecordApiRepository.GetByModel: models the lookup by exact key, which the finding below calls the intended one, not the struct condition the code passes to `First`; `RecordRepository.FirstByStructCondition` and `Middleware.StepAsWritten` model the code as written.
- Middleware.RecordApi: uses that exact-key lookup, so it is the corrected step; the table it keeps is not what the code as written keeps when a key field is empty.
- Store.Table.Update: saving and deleting the nil entity after a failed lookup is modelled as storing nothing, with the injected outcome of the write. The ORM's real behaviour on a nil pointer is not shown. The same holds for Store.Table.Delete.
- FarmHandler.Update: `smapping.FillStruct` is modelled as assigning the request's name (and, for ponds, the farm id) to the fetched entity. Nothing is claimed about the fields it leaves alone. The same holds for PondHandler.Update.
- The validator's error text and the JSON form of the envelope are left out; the model keeps the failing field names and the envelope's status, message and detail.
- RecordRepository.RecordApiRepository.GetAll: the path order is plain character order, not a database collation, and the order among rows with equal paths is left open.
- RecordRepository.RecordApiRepository.UpdateCount: the count is unbounded, with no 64-bit wrap-around. The same holds for the ids of `Store.Table`.
- Middleware.RecordApi: requests are modelled one at a time. The race between two requests that both miss and both insert is not modelled, and the map cannot hold two rows with the same key.
- Middleware.RecordApi: the panic on the nil record is modelled as a returned flag. It happens after the response has been written and is caught by gin's recovery middleware, which is not modelled.

## Findings

| source | as written | input that shows it | evidently intended | confidence | as-written member | corrected member |
|---|---|---|---|---|---|---|
| internal/api/middleware/record_api.go:22-29 | the lookup passes the key as a struct condition, and the ORM ignores zero-valued fields, so an empty referer (or an empty client identifier) matches any value | a row (`/farm`, `10.0.0.7`, 200, `https://a/`) with count 3, then a request from `10.0.0.7` to `/farm` with no `Referer` header: that row goes to 4 and no row for the request's own key is created | each key counts its own requests: the request creates (`/farm`, `10.0.0.7`, 200, "") with count 1 | not executed | Middleware.EmptyRefererBumpsAnotherRow | Middleware.RecordApi |
