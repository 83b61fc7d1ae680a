# Relation resolution in bun, modelled in Dafny

This project models the part of the bun ORM that resolves relations between
tables:

- The name converters that derive column, table and Go names:
  `Underscore`, `CamelCased` and `ToExported` in `internal/underscore.go`.
- The composite map key that correlates owner rows with fetched rows
  (`internal/map_key.go`).
- The relation descriptor (`schema/relation.go`).
- The has-many model, which indexes the owners by their key values, scans
  the fetched rows and parks each fetched struct in its owners' slices
  (`model_table_has_many.go`).
- The SQL composition of relation joins (`relation_join.go`). This covers:
  - the `LEFT JOIN` of a has-one or belongs-to relation, with nested
    aliases, soft delete and extra conditions;
  - the has-many `WHERE`, in its composite-`IN` and `OR`-chain forms and
    with its array-relation and PostgreSQL array variants;
  - the many-to-many mapping-table `JOIN`;
  - the deduplicated value lists;
  - the column list;
  - the save/restore of query state around a user callback.

Modules:

| file | module | models |
|---|---|---|
| `wrappers.dfy` | `Wrappers` | `Option` and `Result` |
| `strings.dfy` | `Strings` | joining with a separator, first-occurrence dedup, counting |
| `underscore.dfy` | `Underscore` | `internal/underscore.go` |
| `map_key.dfy` | `MapKeys` | `internal/map_key.go` |
| `relation.dfy` | `Schema` | `schema/relation.go`, plus the field and table records it refers to |
| `has_many.dfy` | `HasMany` | `model_table_has_many.go` |
| `relation_join.dfy` | `RelationJoin` | `relation_join.go` |

## How the model represents the program

- **Strings.** Go strings are byte strings, so `Underscore` works on `Bytes`:
  `seq` of a `char` subset `<= 'ÿ'`. `ToUpper` and `ToLower` wrap modulo 256,
  as Go byte arithmetic does.
- **Values.** A field value is given pre-rendered. It is a `Value(sql, key)`:
  the SQL literal `Field.AppendValue` writes, and the `%v` rendering of what
  `indirectAsKey` returns. A struct is a map from field name to value; a
  missing entry is the field's zero value. A map key is the `"|"`-joined list
  of renderings.
- **The owner walk.** The owners the walk visits are a sequence of
  `Owner(values, slot)`, in visiting order. `slot` names the owner's relation
  slice. The root's `ID` rendering is a parameter.
- **Fetched rows.** The rows of a query are a sequence of cell lists. Each
  cell either converts to a value or fails with a reason. Failures of
  `rows.Columns` and `rows.Err` are parameters.
- **Parked structs.** A parked struct is stored by value, or by pointer with
  an address. `HasMany.HasManyModel.nextAddr` models allocation, so clones get
  fresh addresses.
- **The has-many model.** `HasMany.HasManyModel` is a class whose fields are
  the scanner state that the Go methods update: columns, scan index, current
  struct, struct key, slices and the next free address.
- **Formatter and dialect.** They are an `Env` record of functions: query
  formatting, column-expression formatting (which can fail), the column-list
  writer and the zero-time literal. Its fields also hold the identifier
  quote, whether the dialect is PostgreSQL, and whether it supports composite
  `IN`.
- **A select query.** It is a `SelectQuery` record. `Where`, `Join` and
  `ColumnExpr` append to it. The builders return the new query, plus the
  columns the callback gave the join.

## Model

| member | source | states |
|---|---|---|
| Underscore.ToUpper | internal/underscore.go:11-13 | byte arithmetic modulo 256; a lower-case letter becomes upper case |
| Underscore.ToLower | internal/underscore.go:15-17 | byte arithmetic modulo 256; an upper-case letter becomes lower case |
| Underscore.CaseRoundTrip | internal/underscore.go:11-17 | each shift maps a letter to the same letter of the other case, and the two shifts undo each other on letters; with wrap-around they are inverse on every byte |
| Underscore.Underscore | internal/underscore.go:20-95 | the loop computes `Snake`, the step-by-step reading of the conversion: `_` doubled, `IDs`/`ID` folded to `ids`/`id`, an underscore before a case break, letters lowered |
| Underscore.Advance | internal/underscore.go:28-92 | moving one step's output from the pending conversion into the buffer keeps their concatenation; the buffer then ends in `_` exactly when the input byte before the cursor is `_` |
| Underscore.SnakeLength | internal/underscore.go:20-95 | the result is at least as long as the input and at most twice as long |
| Underscore.SnakeHasNoUpper | internal/underscore.go:86-91 | the result holds no upper-case letter |
| Underscore.SnakeWithoutUpper | internal/underscore.go:32-35 | on input without upper-case letters, the conversion only doubles underscores |
| Underscore.SnakeIdentity | internal/underscore.go:20-95 | input without upper-case letters and underscores is returned unchanged |
| Underscore.UnderscoreDoubled | internal/underscore.go:32-35 | every input `_` appears in the output as `__`, followed by the conversion of the rest of the input |
| Underscore.SnakeCamelCasedString | internal/underscore.go:19-20 | `CamelCasedString` becomes `camel_cased_string` |
| Underscore.SnakeHttpRequest | internal/underscore.go:78-83 | `HTTPRequest` becomes `http_request` (end of an acronym) |
| Underscore.SnakeUserId | internal/underscore.go:53-65 | `UserID` becomes `user_id` |
| Underscore.SnakeRoleIds | internal/underscore.go:39-51 | `RoleIDs` becomes `role_ids` |
| Underscore.CamelCased | internal/underscore.go:97-115 | the loop computes `Camel`: underscores dropped, the first letter of each word capitalised |
| Underscore.CamelHasNoUnderscore | internal/underscore.go:102-105 | the result has no underscore |
| Underscore.CamelLength | internal/underscore.go:97-115 | the result is the input minus its underscores, in length |
| Underscore.CamelPrefix | internal/underscore.go:100-113 | converting a prefix of the input gives a prefix of the result |
| Underscore.CamelAt | internal/underscore.go:106-112 | each kept byte lands at its position, capitalised exactly when it starts a word |
| Underscore.ToExported | internal/underscore.go:117-127 | only the first byte can change, and it is capitalised when it is a lower-case letter |
| Underscore.ToExportedIdempotent | internal/underscore.go:117-127 | exporting twice is exporting once |
| Underscore.CamelWithoutUnderscore | internal/underscore.go:97-127 | without underscores, `CamelCased` is `ToExported` |
| MapKeys.NewMapKeyString | internal/map_key.go:21-30 | the builder loop yields the renderings joined by `\|` |
| MapKeys.NewMapKey | internal/map_key.go:15-19 | the key wraps that joined string |
| MapKeys.SeparatorCount | internal/map_key.go:21-30 | a key of n separator-free renderings holds n-1 separators |
| MapKeys.KeyInjective | internal/map_key.go:21-30 | on non-empty separator-free lists, equal keys exactly when the lists are equal |
| MapKeys.KeyPointwise | internal/map_key.go:21-30 | for equal-length separator-free lists, equal keys exactly when the renderings agree pointwise |
| MapKeys.KeyOrderMatters | internal/map_key.go:23-28 | swapping two distinct values changes the key |
| MapKeys.KeyCollisions | internal/map_key.go:21-30 | a rendering that contains `\|` collides with a longer list, and the empty list collides with `[""]` |
| Schema.Kinds | schema/relation.go:7-13 | the five relation kinds are numbered 0 to 4 in declaration order |
| Schema.NewRelation | schema/relation.go:37-44 | kind, field, join table and array flag are as given; every other field is zero |
| Schema.ReferencesByKind | schema/relation.go:48-50 | only has-one and belongs-to relations declare the foreign key in the owning table |
| Schema.IsArrayCases | schema/relation.go:53-63 | the relation is an array relation when flagged so, or when it has a field tagged `array`, and otherwise not |
| Schema.NewRelationIsArray | schema/relation.go:37-63 | a new relation is an array relation exactly when asked to be, or when its field is tagged `array` |
| Schema.Relation.String | schema/relation.go:65-67 | the display form is `relation=` followed by the field's Go name |
| Schema.FindArrayField | relation_join.go:712-724 | finds the first field tagged `array`, and reports whether there is one |
| HasMany.HasManyModel.New | model_table_has_many.go:25-43 | no model exactly when the walk visits no owner; otherwise the model holds the owner index |
| HasMany.BaseValues | model_table_has_many.go:133-170 | the loops build `IndexOf`, the owner index: each owner's slot is listed under its key |
| HasMany.ModelKey | model_table_has_many.go:172-177 | appends the renderings of the key fields to the key, in field order |
| HasMany.IndexLookup | model_table_has_many.go:133-170 | the slots under a key are the slots of the owners with that key, in visiting order; a key is present exactly when some owner has it |
| HasMany.IndexEmpty | model_table_has_many.go:25-31 | the index is empty exactly when there are no owners |
| HasMany.OwnerListed | model_table_has_many.go:164-168 | every owner's slot is found under its own key |
| HasMany.ArrayIndex | model_table_has_many.go:146-160 | with an array key field, every owner is filed under the single key of the root's ID |
| HasMany.RowFindsOwner | model_table_has_many.go:105-112 | a fetched row whose key equals an owner's key finds that owner's slot |
| HasMany.FirstNamed | model_table_has_many.go:95-100 | the first key field with the column's name, or none |
| HasMany.ScanCell | model_table_has_many.go:82-103 | consumes one column: a column the table does not have is the `MissingColumn` error, and a value that fails to convert is the `ScanFailed` error; an error changes neither struct nor key; a known column succeeds exactly when its value converts, and the value is then stored in the column's field; only the first key field with that name can record its key |
| HasMany.ScanCellRecordsKey | model_table_has_many.go:95-100 | a converted value of a key column records its rendering in the struct key |
| HasMany.ParkRow | model_table_has_many.go:105-131 | a struct key with no owner is the `MissingBase` error, quoting the relation field's Go name; otherwise the struct is appended to every owner slot under the key |
| HasMany.ParkedOther | model_table_has_many.go:114-128 | slices of other owners are unchanged |
| HasMany.ParkedGrowth | model_table_has_many.go:114-128 | each slice keeps its old elements as a prefix and grows by the number of times its slot is listed |
| HasMany.ParkedDistinct | model_table_has_many.go:114-128 | with distinct slots, each owner slot gets exactly one new element |
| HasMany.AppendFresh | model_table_has_many.go:119-127 | appending a pointer at or above every stored one keeps all stored pointers distinct and below the new bound |
| HasMany.ParkedFresh | model_table_has_many.go:119-127 | by pointer, the first slot gets the row's own struct and every other slot a fresh clone: the parked pointers are new, pairwise distinct and below the advanced counter |
| HasMany.RowStepFresh | model_table_has_many.go:56-72 | each row allocates a new struct, so one row keeps every stored pointer distinct and below the allocation counter |
| HasMany.ScanAllFresh | model_table_has_many.go:56-74 | across the whole row loop, whatever stops it, no two stored pointers point to the same struct |
| HasMany.RowStepAppendOnly | model_table_has_many.go:56-73 | scanning one row only appends to slices, and a slot that no key lists is never touched |
| HasMany.ScanAllCount | model_table_has_many.go:54-79 | without an error, the count is the number of rows; it never exceeds it |
| HasMany.ScanAllAppendOnly | model_table_has_many.go:54-79 | scanning rows only appends to slices, and a slot that no key lists is never touched |
| HasMany.RowStepGrowth | model_table_has_many.go:56-74 | a parked row grows each slot by the number of times the slot is listed under the row's struct key |
| HasMany.ScanAllGrowth | model_table_has_many.go:56-74 | a clean scan files one key per row, and grows each slot by its listings under those keys, summed over the rows |
| HasMany.SlotsUnderAbsent | model_table_has_many.go:162-169 | a slot that no owner holds is listed under no key |
| HasMany.SlotsUnderOwner | model_table_has_many.go:162-169 | with one slot per owner, an owner's slot is listed once under its own key and never under another |
| HasMany.OwnerListings | model_table_has_many.go:105-131 | over the owner index, an owner's slot is listed once for every row key equal to the owner's key, and for no other |
| HasMany.ScanOwnerGrowth | model_table_has_many.go:45-80 | after a clean scan, each owner's slice has grown by exactly the number of rows filed under the owner's own key |
| HasMany.HasManyModel.Scan | model_table_has_many.go:82-103 | the scanner's state after one cell is `ScanCell`'s result; columns, slices and address are unchanged |
| HasMany.HasManyModel.ParkStruct | model_table_has_many.go:105-131 | the slices and next address become those of `ParkRow`; the error is `ParkRow`'s |
| HasMany.HasManyModel.ScanEachRow | model_table_has_many.go:56-74 | the state, count and error after the loop are those of `ScanAll` |
| HasMany.HasManyModel.ScanRows | model_table_has_many.go:45-80 | a column error returns 0 and changes nothing, columns included; the struct key is reset to one `<nil>` per join key; any error reports a count of 0; a rows error is reported after a clean scan; stored pointers stay distinct and below the counter |
| RelationJoin.ApplyTo | relation_join.go:26-43 | without a callback nothing changes; with one, the query keeps what the callback did except table and columns, which are restored, and the join takes the callback's columns |
| RelationJoin.ApplyIdentity | relation_join.go:26-43 | an identity callback leaves the query unchanged and clears the join's columns |
| RelationJoin.ApplyColumns | relation_join.go:35-42 | columns the callback adds go to the join, not to the query |
| RelationJoin.AliasIsJoinedPath | relation_join.go:616-623 | the alias is the relation names from the outermost has-one or belongs-to ancestor down, joined by `__` |
| RelationJoin.HasParentIsReferences | relation_join.go:548-556 | a join nests in its parent exactly when the parent relation references |
| RelationJoin.AliasNesting | relation_join.go:558-588 | the base alias of a nested join is the quoted parent alias; the alias extends the parent's by `__` and the field name; an aliased column is the alias followed by `__` and the column, quoted |
| RelationJoin.SoftDeleteSelects | relation_join.go:590-614 | the test names the soft-delete column, and only the deleted flag decides it: two flag sets give the same test exactly when both or neither carry the flag |
| RelationJoin.AppendAdditionalJoinOnConditions | relation_join.go:819-829 | appends the formatted conditions joined by `AND` |
| RelationJoin.AppendTuple | relation_join.go:741-752 | one owner's values joined by commas, in parentheses only when there are several fields |
| RelationJoin.KeepFirst | relation_join.go:755-759 | a fragment seen before is cut from the buffer again; a new one is kept and remembered |
| RelationJoin.AppendDistinctTuples | relation_join.go:737-763 | before trimming, the buffer holds each distinct owner tuple once, in order of first occurrence, each followed by a comma, and the seen set holds exactly those entries |
| RelationJoin.AppendChildValues | relation_join.go:712-765 | for a single array field under PostgreSQL, the array value; otherwise the distinct owner tuples in order of first occurrence, separated by commas, with the trailing comma trimmed |
| RelationJoin.ChildValuesOnce | relation_join.go:737-763 | the list is a duplicate-free listing of exactly the owners' tuples |
| RelationJoin.ChildValuesDistinctOwners | relation_join.go:737-763 | owners with distinct tuples are all listed in visiting order; no owners give the empty list |
| RelationJoin.ChildValuesSnoc | relation_join.go:737-763 | a repeated tuple adds nothing; a new tuple is appended after a comma |
| RelationJoin.TupleForms | relation_join.go:741-752 | a one-field tuple is the bare value; a larger one is parenthesised |
| RelationJoin.AppendMultiCond | relation_join.go:784-802 | one owner's `alias.col=value` pairs joined by `AND`, each in parentheses when there are several |
| RelationJoin.AppendMultiValues | relation_join.go:769-817 | mismatched key lists give no result (the panic); otherwise the distinct owner conditions in parentheses, joined by `OR` |
| RelationJoin.MultiValuesEmpty | relation_join.go:780-815 | no owners give `()` |
| RelationJoin.MultiValuesOnce | relation_join.go:781-813 | each distinct owner condition appears exactly once |
| RelationJoin.AppendArrayOnCond | relation_join.go:640-679 | an array relation's key pair: `@> ARRAY[...]` for an array base key (checked first), `= ANY(...)` for an array join key, else equality |
| RelationJoin.AppendHasOneJoin | relation_join.go:625-710 | the `LEFT JOIN ... AS alias ON (pairs)`, then the soft-delete test when the table soft-deletes and deleted rows are not requested, then the extra conditions; never an error |
| RelationJoin.HasOneEqualities | relation_join.go:680-694 | without the array flag every pair is an equality, whatever the fields' tags |
| RelationJoin.HasOneJoinShape | relation_join.go:630-696 | the clause starts with `LEFT JOIN ` and, with no soft delete and no extra conditions, ends with the closing parenthesis |
| RelationJoin.AppendArrayPairs | relation_join.go:77-163 | an array relation's `WHERE` pairs: with an array base key, `= ANY(value)` for array base keys; otherwise `value = ANY(col)` for array join keys; plain equality between them |
| RelationJoin.AppendInClause | relation_join.go:213-228 | the join columns, parenthesised when several, `IN` the child values |
| RelationJoin.KeyConditionFamilies | relation_join.go:75-418 | the two dialect families differ only in the key condition: array pairs are wrapped in parentheses, the PostgreSQL array cases agree, and the plain case is the `IN` list or the `OR` chain in double parentheses |
| RelationJoin.FinishManyQuery | relation_join.go:232-246 | the `WHERE` is the key condition plus the extra conditions; then the polymorphic condition, the callback and the column list follow |
| RelationJoin.ManyQueryCompositeIn | relation_join.go:75-247 | the query gets the composite-`IN` key condition |
| RelationJoin.ManyQueryMulti | relation_join.go:249-418 | the query gets the `OR`-chain key condition |
| RelationJoin.ManyQuery | relation_join.go:59-73 | no query when the owner index is empty; otherwise the query scans into the has-many model, with the key condition of the dialect's family |
| RelationJoin.ManyQueryNone | relation_join.go:59-63 | no query exactly when no owner is visited |
| RelationJoin.ManyQueryWheres | relation_join.go:237-246 | without a callback the query gains the key `WHERE` and, only for a polymorphic relation, `? = ?` on the type column after it; joins, table and flags are unchanged |
| RelationJoin.ColumnListFailureSticks | relation_join.go:439-444 | the first entry error is the one reported |
| RelationJoin.ColumnListCases | relation_join.go:424-446 | the list succeeds exactly when every entry does, and is then the entries joined by commas; otherwise the error is the first failing entry's |
| RelationJoin.HasManyColumnsResult | relation_join.go:420-454 | only the columns or the error change; without requested columns the join table's fields are selected under its alias |
| RelationJoin.HasManyColumns | relation_join.go:420-454 | the loop builds `HasManyColumnsResult`: a bare field name becomes `alias.column`, anything else is formatted; a formatting error sets the query error and adds no column |
| RelationJoin.AppendM2MJoin | relation_join.go:486-507 | `JOIN m2m AS alias ON (keys) IN (child values)`, then the extra conditions |
| RelationJoin.AppendM2MWheres | relation_join.go:511-540 | one condition per mapping key, in order: `= ANY` or `@> ARRAY` for array relations, else equality |
| RelationJoin.M2MQuery | relation_join.go:464-546 | no query without a mapping model; otherwise it selects the mapping table's base keys, joins it, adds the key conditions, then the callback and the column list |
| RelationJoin.M2MEqualities | relation_join.go:534-539 | without the array flag each mapping condition is `target.col = m2m.col` |
| RelationJoin.M2MQueryShape | relation_join.go:471-545 | without a callback: one join, the mapping conditions after the existing ones, and the mapping key columns before the column list |

## Left out

- I/O, reflection and the database driver are left out. Rows, column names,
  value conversion and their errors are inputs. `walk` is represented by the
  owner sequence it visits.
- `relationJoin.Select` is left out. Its `switch` has no cases, so it
  always panics with "not reached".
- `selectMany` and `selectM2M` are left out. They only ask the query
  builders shown above for a query and run `Scan` on it.
- The debug `Printf` in `Relation.IsArray` is left out, because printing is I/O.
- The `%q` formatting of the struct key in the missing-base error is left
  out. The error carries the key instead.
- `newM2MModel` is not part of this model. `RelationJoin.M2MQuery` takes
  whether it returned a model as a parameter.
- `indirectAsKey` and `Field.AppendValue` are left out. Their renderings are
  given by `Value`. `fmter.AppendQuery`, `appendColumns`, `AppendTime` and
  `QueryWithArgs.AppendQuery` are functions of `Env`, and each returns the
  text it appends.
- `SelectQuery.setErr` is assumed to keep the first error. Its definition is
  not part of this model.
- RelationJoin.ApplyTo: the callback is assumed to return the query it was
  given. The Go code restores the table and columns on the query the
  callback returns, while the caller goes on with its own pointer.
- HasMany.ScanCell: a `ScanValue` failure is assumed to leave the struct
  unchanged.
- Key lists: `relation_join.go` and `model_table_has_many.go` read
  `BasePKs`/`JoinPKs`, while `schema/relation.go` declares
  `BaseFields`/`JoinFields`. The model uses the one pair.
- Key-list lengths: the builders require equal base and join key lists,
  because the source indexes the join keys by the base keys' positions
  without a check. Only `appendMultiValues` checks this, by panicking, and
  `RelationJoin.AppendMultiValues` models that check as `None`.
- RelationJoin.M2MQuery: it requires a mapping table and no more mapping
  join keys than join keys, because the source dereferences and indexes both
  unguarded.
- Schema.Relation.String: it requires a relation field. The source
  dereferences a nil `Field` there and panics, and the model has no panic.
- HasMany.ParkRow: for a relation without a field, the error carries `None`
  as its name. The source panics there, dereferencing the nil `Field` while
  it formats the message. `MissingBase` also leaves out the base table,
  which the source message names (model_table_has_many.go:109-111).
- RelationJoin.AliasPath, RelationJoin.QuotedAlias, RelationJoin.AliasColumn,
  RelationJoin.BaseAlias and the has-one builders from
  RelationJoin.AppendHasOneJoin down: they require a field on every relation
  of the alias path (`RelationJoin.Named`). The source reads
  `j.Relation.Field.Name` unguarded and panics on a nil `Field`
  (relation_join.go:621), and the model has no panic.
- HasMany.ScanOwnerGrowth: it counts rows by the struct key they are filed
  under. The struct key is not reset between rows, so it equals the row's own
  join values only when the row fills every join column. The model does not
  compose that step.
- HasMany.HasManyModel.ScanRows: it requires every fetched row to have one
  cell per column, as `rows.Scan` does with its destination list.
- Buffers: the `[]byte` buffers with their capacities are modelled as
  immutable strings, so capacity and aliasing are not captured. The has-many
  slices are a map from slot to sequence, so reflection aliasing is not
  captured either.
