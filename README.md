# A verified model of the `dict` REST service

The service keeps a single PostgreSQL table, `dict`. Each row has an
auto-increment `id` and two nullable text columns, `ja` and `en`. The table
is exposed over HTTP as `POST /item`, `PATCH /item/:id`, `DELETE /item/:id`
and `GET /item/:id`. This project models three layers in Dafny and proves
what each promises:

- the **normalisation helpers** of the model layer: `isJson`,
  `parseJsonQuery` in insert and update mode, `deDupJsonQueryArray`, and the
  per-row filter of `getByContents`;
- the **store operations** `getAll`, `getById`, `getByContents`, `create`,
  `updateById` and `deleteById`, over an abstract table that keeps the
  unique indexes the migration declares;
- the **controller's decisions**: `parseModelResponse`, `parseResponseJson`,
  the path-id pattern `^[-]?\d*$`, and how each route turns the model's
  answer `{recordsArray, errorCode, errorMsg}` into a status and a body.

Files and modules:

- `wrappers.dfy` (`Wrappers`): `Option`.
- `jsvalue.dfy` (`JsValue`): JSON values as they reach a handler.
  It also covers `undefined` as distinct from `null`, `===`, and `String(v)`.
- `schema.dfy` (`Schema`): the row, one predicate per unique index, the
  fixture rows, and selecting or removing rows by id.
- `query.dfy` (`Query`): parsing, de-duplication, the batch `create` builds,
  and the filter.
- `store.dfy` (`Store`): the answers of the read operations and the outcomes
  of the write operations, as functions of the table. The class `Dict` holds
  the table and the id sequence, and its write methods change them in place.
- `controller.dfy` (`Controller`): the two checking helpers, the path
  parameter, the replies of each route, the route handlers over a `Dict`,
  and end-to-end status lemmas.
- `scenarios.dfy` (`Scenarios`): the controller's test cases, stated as
  contracts over the handlers on the fixture table.

Interfaces the model does not decide become parameters:

- `fault: Option<Fault>` stands for a store failure other than a unique
  violation, such as a lost connection. It carries `Number(err.code)` and
  `err.message`.
- The JSON body arrives already parsed, as a `Json` value.
- The path parameter arrives as a string.

A read answers with the table unchanged. A write's outcome is the answer,
the new table and the new sequence position. The table invariant,
`StateValid`, holds these together:

- every unique index holds, with PostgreSQL's semantics: NULLs never clash,
  and `""` is an ordinary value;
- every id was handed out by a sequence that starts at 1.

Where the comments in `create` and `getByContents` and their code disagree,
the model states both the code as written and the documented behaviour (see
"## Findings"). For `create`, the rest of the model uses the documented one.

## Model

| member | source | states |
|---|---|---|
| Schema.KeysAre | src/server_model.js:4 | The recognised keys are exactly `ja` and `en`. |
| Schema.IdsUnique | db/migrations/20221111023113_create_dict_table.js:8 | Defines `table.increments()` as a primary key: no two rows share an id. `Schema.AtMostOneWithId` and `Store.IdsOfValid` state its consequences. |
| Schema.JaUnique | db/migrations/20221111023113_create_dict_table.js:9 | Defines `table.text("ja").unique()`: non-null `ja` values are pairwise distinct, and NULLs never clash. `Schema.ValidIffNoConflicts` folds it into `Schema.Conflict`. |
| Schema.EnUnique | db/migrations/20221111023113_create_dict_table.js:10 | Defines `table.text("en").unique()` the same way for `en`. `Schema.ValidIffNoConflicts` folds it into `Schema.Conflict`. |
| Schema.JaUniqueAmongBlankEn | db/migrations/20221111023113_create_dict_table.js:13 | Defines index `i_unique_dict`: among rows whose `en` is NULL or `''`, the non-null `ja` values differ. `Schema.ValidIffNoConflicts` proves it adds nothing to `Schema.JaUnique`. |
| Schema.EnUniqueAmongBlankJa | db/migrations/20221111023113_create_dict_table.js:16 | Defines index `i_unique_dict2`: among rows whose `ja` is NULL or `''`, the non-null `en` values differ. `Schema.ValidIffNoConflicts` proves it adds nothing to `Schema.EnUnique`. |
| Schema.AtMostOneBothBlank | db/migrations/20221111023113_create_dict_table.js:19 | Defines index `i_unique_dict3`: its two indexed expressions are booleans that are never NULL, so at most one row has both columns blank. `Schema.ValidIffNoConflicts` states it. |
| Schema.TableValid | db/migrations/20221111023113_create_dict_table.js:7-20 | Defines the table's constraints as the conjunction of the six predicates above. `Schema.ValidIffNoConflicts`, `Schema.ValidCons` and `Schema.ValidSnoc` characterise it, and every store outcome preserves it through `Store.StateValid`. |
| Schema.Blank | src/server_model.js:87-88 | Defines `c IS NULL OR c = ''`, used by the partial indexes and by the blank filter. `Query.BlankJaFilter` states it for the filter. |
| Schema.Conflict | db/migrations/20221111023113_create_dict_table.js:8-19 | Defines when two rows cannot share a table: a shared id, a shared non-null `ja` or `en`, or both columns blank in both. `Schema.ValidIffNoConflicts` proves it equal to the constraints. |
| Schema.NoConflicts | db/migrations/20221111023113_create_dict_table.js:8-19 | Defines a pairwise conflict-free table. `Schema.ValidIffNoConflicts` proves it equivalent to `Schema.TableValid`. |
| Schema.ValidIffNoConflicts | db/migrations/20221111023113_create_dict_table.js:8-19 | The five unique indexes and the primary key hold exactly when no two rows conflict. Rows conflict on a shared id, a shared non-null `ja`, a shared non-null `en`, or when both are blank in both columns. The two partial indexes on one blank column add nothing to the plain unique columns. |
| Schema.NoConflictsCons | db/migrations/20221111023113_create_dict_table.js:8-19 | A row put in front of a conflict-free table keeps it conflict-free exactly when it conflicts with none of the rows. |
| Schema.ValidCons | db/migrations/20221111023113_create_dict_table.js:8-19 | The same for the table's constraints: a row in front keeps the table valid if and only if it conflicts with no row. |
| Schema.ValidSnoc | db/migrations/20221111023113_create_dict_table.js:8-19 | A row appended to a valid table that conflicts with none of its rows leaves it valid. |
| Schema.TailValid | db/migrations/20221111023113_create_dict_table.js:8-19 | Removing the first row keeps a table valid. |
| Schema.WithId | src/server_model.js:51 | `WHERE id = n` selects exactly the rows that have the id. |
| Schema.WithoutId | src/server_model.js:295-298 | A delete by id leaves exactly the rows with another id, and the rows kept plus the rows selected make up the table. |
| Schema.AtMostOneWithId | db/migrations/20221111023113_create_dict_table.js:8 | Because ids are unique, an id selects at most one row of a valid table. It selects exactly one if and only if some row has it. |
| Schema.WithoutIdValid | src/server_model.js:295-298 | Deleting by id keeps every constraint. |
| Schema.FixturesValid | test/fixtures.js:5-26 | The five fixture rows (which are also the seed rows) satisfy every constraint. |
| JsValue.StrictEqualsSymmetricTransitive | src/server_model.js:190 | `===` between values of recognised keys is symmetric and transitive. |
| JsValue.IsJson | src/server_model.js:148-166 | Defines `isJson` as "an object or an array". `Query.KeptIff`, `Query.SurvivorsDistinct` and `Store.GetByContents` state what it decides. |
| JsValue.StrictEquals | src/server_model.js:190 | Defines `===` between two fields: primitives compare by value, `undefined` equals only `undefined`, and distinct objects or arrays never compare equal. `JsValue.StrictEqualsSymmetricTransitive` states its laws. |
| JsValue.Get | src/server_model.js:129 | Defines `v[key]` for a column name: `undefined` (Absent) unless v is an object holding the key. `null` is present and distinct from absent. `Query.Parsed` and `Query.RowMatchesIff` rely on it. |
| JsValue.KeyCount | src/server_model.js:122 | Defines `Object.keys(v).length` for an object or an array. `Query.Parsed` states its use: a body with no own keys is rejected. |
| JsValue.ToText | src/server_model.js:90 | Defines `String(v)` as the template literal `${v}` renders it. `Controller.IdTextRoundTrip` states that an integer's text reads back as the integer. |
| JsValue.IsBlank | src/server_model.js:130 | Defines the test "`v` is `null` or `""`". `Query.Canonical` and `Query.RowMatchesIff` state its effect. |
| JsValue.NatText | src/server_model.js:90 | Defines the decimal digits `String(n)` writes for a natural number. Its contract says the text is non-empty and all digits, and `Controller.NatTextValue` proves it denotes n. |
| JsValue.Join | src/server_model.js:90 | Defines `Array.prototype.join` with commas, which `String()` of an array uses. |
| Query.Canonical | src/server_model.js:130-135 | A recognised key's stored value is never `""`. It is `null` exactly when the value was `null` or `""`. |
| Query.Parsed | src/server_model.js:121-146 | `parseJsonQuery` gives null in both modes for a non-object or an object with no own keys. The payload holds exactly the recognised keys the body has, each with its canonical value. Insert mode succeeds if and only if some recognised key is non-blank. Update mode succeeds if and only if some recognised key is present. |
| Query.ParseJsonQuery | src/server_model.js:121-146 | The loop over the keys computes `Parsed`. Its invariants: the object built so far is the first i keys normalised, and the flag says whether it holds a non-null value. |
| Query.SameKeysSymmetricTransitive | src/server_model.js:188-191 | Agreeing on both keys is symmetric and transitive, so the objects of an array fall into classes that agree on both keys. |
| Query.SameKeys | src/server_model.js:188-191 | Defines the `fiTmp` loop: two elements agree on both keys under `===`. `Query.SameKeysSymmetricTransitive` states its laws. |
| Query.FindIndex | src/server_model.js:183-193 | Defines the index `self.findIndex(...)` returns for element i. `Query.FindIndexSpec` specifies it. |
| Query.FindIndexSpec | src/server_model.js:183-193 | `findIndex` for element i returns i exactly when no earlier object agrees with it on both keys. Otherwise it returns the first object that does. |
| Query.Kept | src/server_model.js:178-195 | Defines the `filter` callback for element i: a JSON value whose `findIndex` is i. `Query.KeptIff` specifies it. |
| Query.Survivors | src/server_model.js:178-197 | Defines the elements from an index on that the filter keeps, in order. `Query.SurvivorsMembers`, `Query.SurvivorsSubsequence` and `Query.SurvivorsDistinct` specify it. |
| Query.KeptIff | src/server_model.js:178-195 | The filter keeps element i if and only if it is an object or array and no earlier such element agrees with it on both keys. |
| Query.DeDupJsonQueryArray | src/server_model.js:173-198 | Defines `deDupJsonQueryArray`: null for a non-array, otherwise the kept elements. `Query.SurvivorsMembers`, `Query.SurvivorsSubsequence`, `Query.SurvivorsDistinct`, `Query.FirstOccurrenceKept` and `Query.DeDupIdempotent` specify it. |
| Query.SurvivorOrigin | src/server_model.js:178-197 | Every element of the de-duplicated array is a kept element of the input. |
| Query.KeptSurvives | src/server_model.js:178-197 | Every kept element appears in the output. |
| Query.SurvivorsMembers | src/server_model.js:178-197 | The output's elements are exactly the kept elements. |
| Query.SurvivorsSubsequence | src/server_model.js:178-197 | The output is an order-preserving subsequence of the input. |
| Query.SurvivorsDistinct | src/server_model.js:178-197 | The output has only objects and arrays, and no two of its elements agree on both keys. |
| Query.FirstOccurrenceKept | src/server_model.js:178-195 | Every object is kept, or an earlier kept object agrees with it. So the first occurrence of each (`ja`, `en`) pair is the one kept. |
| Query.DistinctSurvives | src/server_model.js:178-197 | An array of pairwise distinct objects passes through unchanged. |
| Query.DeDupIdempotent | src/server_model.js:173-198 | De-duplicating twice is the same as once. |
| Query.SurvivorsOfNonJson | src/server_model.js:179-181 | An array with no objects or arrays de-duplicates to nothing. |
| Query.ParseOrNull | src/server_model.js:210 | Defines one step of the `map`: the element parsed in insert mode, or `null`. `Query.BatchOfArray` and `Query.EmptyBatch` state what the mapped array yields. |
| Query.ParsedItems | src/server_model.js:210 | Defines the whole `map` over the body's elements. `Query.BatchOfArray` specifies the batch built from it. |
| Query.FieldsOf | src/server_model.js:210-211 | Defines reading a kept element back as a payload. `Query.BatchOfArray` states that each payload comes from a valid element. |
| Query.Batch | src/server_model.js:206-217 | Defines `newQueryJsonArray` of `create`, with None where `create` answers -1 before reaching the store. `Query.BatchOfObject`, `Query.BatchOfArray` and `Query.EmptyBatch` specify it. |
| Query.EmptyBatch | src/server_model.js:208-211 | An array none of whose elements parses in insert mode, `[]` included, becomes an empty batch and not a rejected one. |
| Query.BatchOfObject | src/server_model.js:212-217 | A body that is not an array becomes a batch of exactly its parsed payload, or is rejected when it does not parse. |
| Query.BatchOfArray | src/server_model.js:208-211 | An array body is never rejected before the store. Every payload of the batch comes from a valid element, no two payloads agree on both keys, and every valid element is covered by a payload. Invalid elements are dropped silently. |
| Query.Contains | src/server_model.js:90 | Defines `whereLike(key, %v%)` as substring containment. `Query.ContainsIff` specifies it. |
| Query.ConditionFor | src/server_model.js:84-91 | Defines the branch of the `where` callback a key takes: `1=1` when absent, NULL-or-blank for `null` or `""`, otherwise LIKE on the value's text. `Query.RowMatchesIff` specifies it. |
| Query.Satisfies | src/server_model.js:84-91 | Defines what each branch demands of a column value. `Query.RowMatchesIff` specifies it. |
| Query.RowMatches | src/server_model.js:83-93 | Defines the WHERE clause of `getByContents` as one condition per key. `Query.RowMatchesIff` specifies it. |
| Query.ContainsIff | src/server_model.js:90 | The substring test holds if and only if the value occurs at some position of the column. |
| Query.RowMatchesIff | src/server_model.js:83-93 | The filter is the conjunction over `ja` and `en`. An absent key accepts any row. A blank key accepts a column that is null or `""`. Any other value accepts a non-null column that contains its text. |
| Query.ColumnAccepted | src/server_model.js:84-91 | The independent reading of one key's condition, written with `OccursAt` and not through `Query.ConditionFor`. `Query.RowMatchesIff` proves the filter agrees with it. |
| Query.NoKeysMatchesAll | src/server_model.js:85-86 | A body with no recognised key matches every row. |
| Query.BlankJaFilter | src/server_model.js:87-88 | `{ja: null}` selects exactly the rows whose `ja` is null or `""`. |
| Query.NormaliseBlankJa | src/server_model.js:130-131 | `{ja: "", en: b}` normalises to `{ja: null, en: b}` in both modes. |
| Query.NullOnlyBody | src/server_model.js:139-143 | `{en: null}` is a valid update but is rejected as an insert. |
| Query.ParsedOne | src/server_model.js:128-137 | One recognised key with a non-empty string parses to itself. |
| Query.ParsedPair | src/server_model.js:128-137 | `{ja, en}` with non-empty strings parses to itself. |
| Query.DeDupExample | src/server_model.js:173-198 | `[{A,B}, {C,D}, {A,B}]` de-duplicates to `[{A,B}, {C,D}]`. |
| Store.Invalid | src/server_model.js:223-225 | Defines the validation answer `{null, -1, "query is something wrong."}`, which every operation gives before touching the store. |
| Store.Failed | src/server_model.js:238-243 | Defines the answer for a store failure: no records, `Number(err.code)` and `err.message`. |
| Store.Conflicted | src/server_model.js:238-243 | Defines the same answer for a unique violation, code 23505. `Store.UpdateClash` and `Store.CreateClash` state when it arises. |
| Store.Found | src/server_model.js:232-236 | Defines a successful answer: the records, with no code and no message. |
| Store.Take | src/server_model.js:18 | `.limit(n)` (also lines 52 and 99): a prefix of the rows of length min(n, row count). |
| Store.Matching | src/server_model.js:82-93 | The rows before the limit are exactly the table rows the filter accepts. |
| Store.CellOf | src/server_model.js:228-229 | A payload value is stored as NULL exactly when it is `null`. |
| Store.NewCell | src/server_model.js:228-229 | Defines a new row's column: the payload's value, or NULL (the column default) when the payload lacks the key. `Store.CreateThenGet` states what a created row holds. |
| Store.StateValid | db/migrations/20221111023113_create_dict_table.js:8-19 | Defines the table invariant: every index holds, and every id lies in [1, next sequence value). `Store.CreateOutcome`, `Store.UpdateOutcome` and `Store.DeleteOutcome` each ensure that they preserve it. |
| Store.InsertedRows | src/server_model.js:228-230 | Defines the rows a bulk insert adds: one per payload, in order, row i with id start + i. `Store.InsertedIds`, `Store.CreateThenGet` and `Store.CreateClash` specify it. |
| Store.InsertedIds | src/server_model.js:228-230 | A batch's new ids are strictly increasing and lie in [start, start + batch size). None of them is an id of a table whose ids all lie below start. |
| Store.UpdateRows | src/server_model.js:262-265 | Defines the table after `UPDATE … WHERE id = n`. `Store.UpdateRowsSplit`, `Store.UpdateThenGet`, `Store.UpdateToOwnValues`, `Store.UpdateClash` and `Controller.UpdatedRowSelected` specify it. |
| Store.UpdateRowsSplit | src/server_model.js:262-265 | An update by id keeps the table's length. The rows with other ids stay exactly as they were, in order. The rows the id selects afterwards are exactly the updated forms of the rows it selected before. |
| Store.UpdatedRow | src/server_model.js:262-265 | Defines one row after `SET` with a payload. `Store.UpdatedRowIdempotent` and `Store.UpdateToOwnValues` specify it. |
| Store.UpdatedRowIdempotent | src/server_model.js:262-265 | Applying the same update twice is the same as applying it once, and an update never changes a row's id. |
| Store.GetAll | src/server_model.js:14-33 | `.limit(256)`: exactly the first min(n, `Limit`) rows of an n-row table, so the whole table when it has at most `Limit` = 256 rows. A failure gives its code. |
| Store.GetById | src/server_model.js:39-67 | A non-integer id gives -1 without a store access. Otherwise at most one row, exactly the rows that have the id. |
| Store.GetByContents | src/server_model.js:73-114 | A body that is not an object or array gives -1. Otherwise the answer is a prefix, in table order, of the rows the filter accepts. It holds at most `Limit` rows, every one of them from the table and accepted by the filter. When at most `Limit` rows match, the answer is exactly the matching rows in table order. When more match, exactly `Limit` come back. This is the code as written: an array passes the `isJson` check (see "## Findings"). |
| Store.MatchingAll | src/server_model.js:82-93 | A filter that every row passes keeps the whole table, in order. |
| Store.ArrayFilterAsWritten | src/server_model.js:69-114 | As written, `getByContents` of any array answers exactly the first `Limit` rows of the table. |
| Store.GetByContentsObjectsOnly | src/server_model.js:70 | `getByContents` as its documentation states it: anything but an object, an array included, gives -1. An object's answer is the table-order prefix of the matching rows, complete up to `Limit` and exactly `Limit` long beyond it. |
| Store.CreateAsWritten | src/server_model.js:205-245 | `create` as written. A missing batch gives -1 and a failure gives its code, both leaving the table unchanged. Otherwise the batch is one insert: all rows are added with the next ids and returned, or a unique index rejects the batch, giving 23505 with the table unchanged. The invariant is kept. |
| Store.CreateOutcome | src/server_model.js:219-226 | The same, with an empty batch also rejected with -1. A successful create returns at least one row. |
| Store.UpdateOutcome | src/server_model.js:252-280 | A non-integer id or a body with no recognised key gives -1, unchanged. Otherwise the updated table must satisfy the indexes: if it does, it is kept and the updated rows are returned; if not, the answer is 23505 with the table unchanged. The sequence never moves. |
| Store.DeleteOutcome | src/server_model.js:286-313 | A non-integer id gives -1. Otherwise the rows with the id are returned and removed. The invariant is kept. |
| Store.Dict.Empty | db/migrations/20221111023113_create_dict_table.js:8-19 | The freshly migrated table: no rows, the sequence at 1, and the invariant holds. |
| Store.Dict.Holding | test/fixtures.js:5-26 | A table holding given valid rows with the sequence at a given position, as after the fixtures are seeded. |
| Store.Dict.Create | src/server_model.js:205-245 | The method's answer and new state are `CreateOutcome` of the old state, and the invariant is kept. |
| Store.Dict.UpdateById | src/server_model.js:252-280 | The method's answer and new state are `UpdateOutcome` of the old state. |
| Store.Dict.DeleteById | src/server_model.js:286-313 | The method's answer and new state are `DeleteOutcome` of the old state. |
| Store.IdsOfValid | db/migrations/20221111023113_create_dict_table.js:8 | Two rows of a table with unique ids that share an id are the same row. |
| Store.GetByIdFindsRow | src/server_model.js:48-52 | `getById` of a row's id returns exactly that row. |
| Store.CreateThenGet | test/server_controller.spec.js:56-121 | Every row `create` returns is afterwards what `getById` returns for its id. |
| Store.UpdateThenGet | test/server_controller.spec.js:151-238 | After a successful update, `getById` returns what the update returned. |
| Store.DeleteThenGet | test/server_controller.spec.js:331-346 | After a delete the id selects nothing, and a second delete returns nothing and changes nothing. |
| Store.NoneWithId | src/server_model.js:51 | An id no row has selects nothing and deletes nothing. |
| Store.UpdateMissingId | src/server_model.js:262-265 | An update of a missing id returns zero rows, gives no error, and changes nothing. |
| Store.UpdateToOwnValues | test/server_controller.spec.js:222-238 | Writing a row's own values back succeeds, returns the row and leaves the table unchanged. |
| Store.UpdateClash | test/server_controller.spec.js:258-295 | Giving a row another row's non-null `ja` or `en` gives 23505 with the table unchanged. |
| Store.CreateClash | test/server_controller.spec.js:123-131 | A batch with a row that repeats an existing non-null `ja` or `en` is rejected whole with 23505. |
| Controller.ModelVerdict | src/server_controller.js:12-53 | -1 gives 400, 23505 gives 409, any other code gives 500 with "DB error occured: " and the message. With no code, missing or empty rows give 404 and any rows give 0. The message is null exactly when the result is 0. |
| Controller.ParseModelResponse | src/server_controller.js:12-53 | The switch and the `forEach` over the records compute `ModelVerdict`. |
| Controller.ResponseJsonVerdict | src/server_controller.js:55-75 | 0 if and only if the record has `ja` or `en` as a key. Otherwise 500 with its message. |
| Controller.ParseResponseJson | src/server_controller.js:55-75 | The flag loop over the keys computes `ResponseJsonVerdict`. |
| Controller.FlagsMissingId | src/server_controller.js:44 | Defines `!"id" in record`, which parses as `(!"id") in record` and so asks for a key named `"false"`. `Controller.RecordChecksPass` proves it never holds of a returned row. |
| Controller.CellJson | src/server_model.js:230 | Defines a column as the driver returns it: a string, or `null` for NULL. `Controller.RecordObject` states the row's keys. |
| Controller.MessageText | src/server_controller.js:32 | Defines `${errorMsg}` for a message that may be null, which renders as "null". `Controller.ModelVerdict` states the 500 message built from it. |
| Controller.RecordChecksPass | src/server_controller.js:43-50 | `!"id" in record` asks for a key named "false", which no returned row has. `parseResponseJson` passes on every returned row. |
| Controller.RecordObject | src/server_model.js:230 | A returned row is an object with exactly the keys `id`, `ja`, `en`. |
| Controller.IsDigit | src/server_controller.js:145 | Defines `\d` of the pattern as an ASCII digit. |
| Controller.AllDigits | src/server_controller.js:145 | Defines `\d*` through to the end of the string. `Controller.IdPattern` uses it. |
| Controller.IdPattern | src/server_controller.js:145 | Defines `/^[-]?\d*$/`. `Controller.PathNumber`, `Controller.IdTextRoundTrip` and `Controller.PathExamples` state what it accepts. |
| Controller.DigitsValue | src/server_controller.js:154 | Defines the number a digit string denotes, `""` giving 0. `Controller.NatTextValue` proves it inverts `JsValue.NatText`. |
| Controller.IdText | src/server_controller.js:145 | Defines the path text `${id}` a client writes for an id. `Controller.IdTextRoundTrip` proves it passes the pattern and reads back as the id. |
| Controller.PathNumber | src/server_controller.js:154 | `Number()` of a string gives an integer only if the string passes the pattern. Every passing string except a lone `-` gives an integer: the value of its digits, negated after a leading `-`. So `007` is 7 and `-0` is 0. |
| Controller.IdTextRoundTrip | src/server_controller.js:145 | Every id written into a path passes the pattern and is read back as itself. |
| Controller.NatTextValue | src/server_controller.js:154 | The decimal digits of a natural number denote it. |
| Controller.PathExamples | src/server_controller.js:145-148 | `a` fails the pattern. `-1` passes and is -1. `-` passes and is not an integer. `""` passes and is 0. |
| Controller.DbErrorText | src/server_controller.js:106-110 | Defines the 500 message: "DB error occured: " and the message when the message is truthy, the literal "DB error occured}" otherwise. `Controller.ModelVerdict` specifies when it is used. |
| Controller.IdRequired | src/server_controller.js:136-138 | Defines the constant reply of `PATCH /item` and `DELETE /item` (also 183-185): 400 with "ID is required.". |
| Controller.BadPath | src/server_controller.js:145-148 | Defines the reply 400 "Path Parameter is invalid." of every `:id` route (also lines 192-194 and 235-237). `Controller.PatchItem`, `Controller.DeleteItem` and `Controller.GetItem` state when it is given. |
| Controller.PostReply | src/server_controller.js:94-134 | POST gives 400 exactly for -1 and 409 exactly for 23505. It gives 201 exactly when rows come back, with the first one as the body. Otherwise it gives 500, including when no rows come back. |
| Controller.PatchReply | src/server_controller.js:150-181 | PATCH keeps `parseModelResponse`'s status: 400, 404, 409 or 500. Success is 200 with the first row. |
| Controller.ReadReply | src/server_controller.js:197-228 | DELETE and GET give 400 for -1 and 404 for no rows. 409 becomes 500. Success is 200 with the first row. |
| Controller.PostItem | src/server_controller.js:90-134 | The handler's reply is `PostReply` of the create outcome. The table becomes that outcome's table. |
| Controller.PatchItem | src/server_controller.js:140-181 | A path failing the pattern gives 400 before any model call, and the table is unchanged. Otherwise the reply is `PatchReply` of the update outcome for `Number(param)`. |
| Controller.DeleteItem | src/server_controller.js:187-228 | A path failing the pattern gives 400 before any model call. Otherwise the reply is `ReadReply` of the delete outcome. |
| Controller.GetItem | src/server_controller.js:230-271 | A path failing the pattern gives 400. Otherwise the reply is `ReadReply` of `getById`. |
| Controller.PostStatus | src/server_controller.js:90-134 | From the table before: a rejected or empty batch gives 400, and a batch a unique index rejects gives 409. Otherwise 201, with the first new row, whose id is the sequence's next value. |
| Controller.NoValidElement | src/server_model.js:219-226 | An array body with no valid element gives, as written, an empty insert and POST 500. With the intended pre-check it gives 400. |
| Controller.UpdatedRowSelected | src/server_model.js:262-265 | After a valid update the id selects exactly the updated row. |
| Controller.PatchStatus | src/server_controller.js:140-181 | A non-integer id or a body with no recognised key gives 400. A missing id gives 404. A clash gives 409. Otherwise 200 with the updated row. |
| Controller.DeleteStatus | src/server_controller.js:187-228 | A non-integer id gives 400. A missing id gives 404 with the table unchanged. Otherwise 200 with the row, which is then gone, and the table is one row shorter. |
| Controller.GetStatus | src/server_controller.js:230-271 | A non-integer id gives 400. A missing id gives 404. Otherwise 200 with the row. |
| Controller.GetByPathFindsRow | test/server_controller.spec.js:375-387 | Requesting any row by its id in the path gives 200 with that row. |
| Scenarios.NewPairFits | test/server_controller.spec.js:56-71 | The new pair clashes with no fixture row. |
| Scenarios.PostNewPair | test/server_controller.spec.js:56-71 | A new `{ja, en}` gives 201 with id 6, and fetching id 6 returns the same record. |
| Scenarios.PostExistingJa | test/server_controller.spec.js:123-131 | `{ja: "相棒"}` gives 409, and the table is still the fixtures. |
| Scenarios.PostInvalidBodies | test/server_controller.spec.js:133-147 | A JSON string and `{}` both give 400. |
| Scenarios.PatchSameRecord | test/server_controller.spec.js:222-238 | Writing row 1's own values gives 200 with row 1 unchanged. |
| Scenarios.BlankJaUpdateFits | test/server_controller.spec.js:187-203 | Clearing row 1's `ja` and giving it a new `en` clashes with no row. |
| Scenarios.PatchBlankJa | test/server_controller.spec.js:187-203 | `{ja: "", en: "Party Parrot"}` gives 200 with `ja` null. |
| Scenarios.PatchOtherIdSameRecord | test/server_controller.spec.js:258-276 | Giving row 2 row 1's values gives 409, and row 2 is unchanged. |
| Scenarios.PatchOtherIdSameJa | test/server_controller.spec.js:278-295 | Giving row 2 row 1's `ja` gives 409, and row 2 is unchanged. |
| Scenarios.PatchBadIds | test/server_controller.spec.js:297-327 | `-1` gives 404. `a` gives 400. No id gives 400. |
| Scenarios.DeleteExisting | test/server_controller.spec.js:331-346 | Deleting row 2 gives 200 with it, and afterwards its id gives 404. |
| Scenarios.DeleteBadIds | test/server_controller.spec.js:348-372 | `-1` gives 404. `a` gives 400. No id gives 400. |
| Scenarios.GetRows | test/server_controller.spec.js:375-403 | Row 2 gives 200 with it. `-1` gives 404. `a` gives 400. |

## Findings

| source | as written | input that shows it | evidently intended | confidence | as-written member | corrected member |
|---|---|---|---|---|---|---|
| src/server_model.js:219-226 | The pre-check `!newQueryJsonArray` only catches a missing batch. An array body always yields an array, and an empty array is truthy, so an empty batch reaches the insert. | `POST /item` with `[]`, `[{}]` or `[null]` | The comment says the check keeps an empty batch from reaching the insert. So the empty batch should be rejected with -1, and POST should answer 400. | not executed; high for the missed check. The model takes the empty insert as returning no rows. If the driver raised an error instead, POST would answer 500 just the same. | Store.CreateAsWritten, with Controller.NoValidElement showing the 500 | Store.CreateOutcome, used by Store.Dict.Create and Controller.PostItem |
| src/server_model.js:69-114 | The documentation of `getByContents` says an array is not accepted. But the guard is `isJson`, which holds for an array, and an array holds neither key, so every condition is `1=1`. | `getByContents([])` or `getByContents([{ja: "x"}])` | An array is rejected with -1, as the documentation says. | not executed; medium. The method has no route, and the documentation may describe an obligation on callers rather than a promise. | Store.GetByContents, with Store.ArrayFilterAsWritten showing the first `Limit` rows come back | Store.GetByContentsObjectsOnly |

## Left out

- HTTP glue is not modelled: Express, body-parser, the `SyntaxError` middleware, `GET /` and the server bootstrap. `PATCH /item` and `DELETE /item` are the constant reply `Controller.IdRequired` (400, "ID is required.").
- Exceptions are not modelled. The `try`/`catch` reply "Server error occured" is reachable in the source: for `POST /item` with `["{}"]`, `isJson("{}")` holds, `Object.keys("{}")` has two entries, and `"ja" in "{}"` then throws a TypeError, which the route answers with 500 "Server error occured: …". The model treats a string element as invalid and drops it, so that body gives 400 here.
- Async plumbing is not modelled: the mix of Promises and plain objects is taken as already awaited.
- Concurrent requests and uniqueness races are not modelled.
- SQL and knex are replaced by the abstract table, including the dummy `1=1` clause.
- A failure other than a unique violation is the `fault` parameter. The model does not decide when one happens.
- The text of PostgreSQL's unique-violation message is a fixed string. No reply shows it.
- Query.ContainsIff: `%` and `_` inside a filter value act as LIKE wildcards in the source, and `\` is LIKE's default escape character. The model matches the value as a literal substring.
- JsValue.IsJson: a body, or an element of an array body, that is a string holding JSON text counts as JSON in the source and then throws at `key in` (see the exception line above). The model treats every string as not JSON.
- A top-level string body never reaches a handler: body-parser's strict JSON mode rejects it, and the test's `send("相棒")` goes out form-encoded, so `create` receives `{}`. The model accepts any `Json` value as a body, so `Scenarios.PostInvalidBodies` also covers a string that cannot in fact arrive. The answer there is 400 either way.
- JSON numbers are integers. Fractions, and `JSON.stringify` edge cases such as `undefined` or functions, are not modelled.
- Store.CellOf: a non-string value is stored as its `String()` text. For arrays and objects the pg driver's own serialisation differs.
- `Number(err.code)` is NaN for a non-numeric SQLSTATE. `Fault` carries an integer code of the type `FaultCode`, which excludes -1 (the model's own validation code) and 23505 (a unique violation, modelled separately). Every such code behaves exactly as NaN does: it falls to the default branch.
- A `null`, `undefined` or `""` error code all take the same branch. The model produces only null, written None.
- Ids are exact integers. Neither JavaScript number precision above 2^53 nor the 32-bit range of the `id` column is modelled.
- JsValue.ToText: JSON numbers in a payload are exact integers written as plain digits. Two things in JavaScript are not modelled. `String(n)` switches to exponent form from 1e21 on, so `{ja: 1e21}` is stored and matched as "1e+21". `JSON.parse` also rounds integers above 2^53, which changes both the text stored or filtered on and the `===` of de-duplication (src/server_model.js:190).
- Controller.PathNumber: strings the pattern rejects never reach `Number()`. The model maps them all to a non-integer, although `Number()` would read some, such as `0x10`, as numbers.
- Store.CreateOutcome: a failed insert leaves the model's sequence where it was. PostgreSQL consumes sequence values even then, so the model claims only that ids are unique and below the sequence position, never that they are gap-free.
- Store.GetAll, Store.GetByContents, Store.GetByContentsObjectsOnly, Store.ArrayFilterAsWritten: rows come back in table order. The source's `SELECT` has no `ORDER BY` (src/server_model.js:16-18 and 82-99), so the order, and which 256 rows a large read returns, are really unspecified.
- The `forEach` at src/server_controller.js:43-50 is modelled as written. The dead check, which tests for a key named `false`, is proved never to fire (`Controller.RecordChecksPass`).
- The `record:` typo in `deleteById`'s error branch leaves `recordsArray` undefined. The model writes that as no records, which the controller treats the same way.
- `getByContents` has no HTTP route in the source, so only the model-level operation is covered.
