/**
  SQL composition for relation joins (relation_join.go): the `LEFT JOIN`
  of a has-one or belongs-to relation, the `WHERE` that selects the rows of
  a has-many relation, the `JOIN` and conditions of a many-to-many
  relation, the nested alias path, the deduplicated value lists, the column
  list, and the save/restore of query state around a user callback.

  The formatter and the dialect are an `Env` record of given functions;
  each returns the text it would append, whatever the buffer holds. A select
  query is a record that accumulates its fragments. The owner batch the walk
  visits comes as a `Batch`: the owners in visiting order, the struct that
  the field index path reaches from the root, and the root's `ID` rendering.
*/
module RelationJoin {
  import opened Wrappers
  import opened Strings
  import opened Schema
  import opened MapKeys
  import HasMany

  // ---------------------------------------------------------------------
  // Queries, formatter and join records
  // ---------------------------------------------------------------------

  /** A query argument: a safe (raw) SQL fragment, or a value to quote. */
  datatype Arg = Safe(text: string) | Str(text: string)

  /** A query fragment with its arguments; `None` stands for a nil argument list. */
  datatype QueryWithArgs = QueryWithArgs(query: string, args: Option<seq<Arg>>)

  function ArgsOf(c: QueryWithArgs): seq<Arg> {
    if c.args.Some? then c.args.value else []
  }

  /** A fragment given as a plain string, with no arguments. */
  function Raw(query: string): QueryWithArgs {
    QueryWithArgs(query, None)
  }

  datatype Flag = DeletedFlag | AllWithDeletedFlag

  /**
    The formatter and the dialect: the identifier quote, whether the
    dialect is PostgreSQL, whether it has the composite `IN` feature, query
    formatting, column-expression formatting (which may fail), the column
    list writer, and the rendering of the zero time.
  */
  datatype Env = Env(
    identQuote: char,
    isPG: bool,
    compositeIn: bool,
    appendQuery: (string, seq<Arg>) -> string,
    appendColumnExpr: QueryWithArgs -> Result<string, string>,
    appendColumns: (string, seq<Field>) -> string,
    zeroTime: string)

  /** The model a select query scans into. */
  datatype QueryModel = NoModel | HasManyOf(baseValues: HasMany.Index) | M2MOf

  datatype SelectQuery = SelectQuery(
    model: QueryModel,
    table: Option<Table>,
    columns: seq<QueryWithArgs>,
    wheres: seq<QueryWithArgs>,
    joins: seq<QueryWithArgs>,
    flags: set<Flag>,
    err: Option<string>)

  function Where(q: SelectQuery, w: QueryWithArgs): SelectQuery {
    q.(wheres := q.wheres + [w])
  }

  function AddJoin(q: SelectQuery, s: string): SelectQuery {
    q.(joins := q.joins + [Raw(s)])
  }

  function ColumnExpr(q: SelectQuery, s: string): SelectQuery {
    q.(columns := q.columns + [Raw(s)])
  }

  /** The first error sticks. */
  function SetErr(q: SelectQuery, e: string): SelectQuery {
    if q.err.None? then q.(err := Some(e)) else q
  }

  /**
    One relation join. The base and join models are represented by their
    tables; the parent is the join this one is nested in.
  */
  datatype RelationJoin = RelationJoin(
    parent: Option<RelationJoin>,
    baseTable: Table,
    joinTable: Table,
    relation: Relation,
    additionalJoinOnConditions: seq<QueryWithArgs>,
    apply: Option<SelectQuery -> SelectQuery>,
    columns: seq<QueryWithArgs>)

  /** The owner batch: the owners visited, the struct at the field index path, the root's ID. */
  datatype Batch = Batch(owners: seq<HasMany.Owner>, atIndex: Struct, rootID: string)

  /** The builders index the join keys by the base keys' positions. */
  predicate Paired(r: Relation) {
    |r.baseFields| == |r.joinFields|
  }

  // ---------------------------------------------------------------------
  // The callback
  // ---------------------------------------------------------------------

  /** What the callback sees: the query retargeted at the join table with no columns. */
  function CallbackView(j: RelationJoin, q: SelectQuery): SelectQuery
    requires j.apply.Some?
  {
    j.apply.value(q.(table := Some(j.joinTable), columns := []))
  }

  /**
    `applyTo`: the join's new columns and the query afterwards. Without a
    callback nothing changes. With one, the query keeps everything the
    callback did except its table and columns, which are restored, and the
    join takes the columns the callback set.
  */
  function ApplyTo(j: RelationJoin, q: SelectQuery): (r: (seq<QueryWithArgs>, SelectQuery))
    ensures r.1.table == q.table && r.1.columns == q.columns
    ensures j.apply.None? ==> r == (j.columns, q)
    ensures j.apply.Some? ==> r.0 == CallbackView(j, q).columns
    ensures j.apply.Some? ==> var v := CallbackView(j, q);
      r.1.model == v.model && r.1.wheres == v.wheres && r.1.joins == v.joins && r.1.flags == v.flags && r.1.err == v.err
  {
    if j.apply.None? then (j.columns, q)
    else
      var v := j.apply.value(q.(table := Some(j.joinTable), columns := []));
      (v.columns, v.(table := q.table, columns := q.columns))
  }

  /** A callback that changes nothing leaves the query as it was and the join with no columns. */
  lemma ApplyIdentity(j: RelationJoin, q: SelectQuery)
    requires j.apply.Some? && forall x :: j.apply.value(x) == x
    ensures ApplyTo(j, q) == ([], q)
  {
  }

  /** A callback that sets columns hands them to the join and leaves the query's columns alone. */
  lemma ApplyColumns(j: RelationJoin, q: SelectQuery, cols: seq<QueryWithArgs>)
    requires j.apply.Some? && forall x :: j.apply.value(x) == x.(columns := x.columns + cols)
    ensures ApplyTo(j, q) == (cols, q)
  {
    assert [] + cols == cols;
  }

  // ---------------------------------------------------------------------
  // Aliases
  // ---------------------------------------------------------------------

  /** The join is nested in a has-one or belongs-to parent. */
  predicate HasParent(j: RelationJoin) {
    j.parent.Some? && (j.parent.value.relation.typ == HasOneRelation || j.parent.value.relation.typ == BelongsToRelation)
  }

  /** Every relation on the alias path has a field. */
  predicate Named(j: RelationJoin)
    decreases j
  {
    j.relation.field.Some? && (HasParent(j) ==> Named(j.parent.value))
  }

  /** `appendAlias`: the parent's alias path, `__`, and the relation field's name. */
  function AliasPath(j: RelationJoin): string
    requires Named(j)
    decreases j
  {
    (if HasParent(j) then AliasPath(j.parent.value) + "__" else "") + j.relation.field.value.name
  }

  /** The relation field names from the outermost has-one or belongs-to ancestor down to `j`. */
  function Chain(j: RelationJoin): (r: seq<string>)
    requires Named(j)
    ensures |r| > 0 && r[|r| - 1] == j.relation.field.value.name
    decreases j
  {
    (if HasParent(j) then Chain(j.parent.value) else []) + [j.relation.field.value.name]
  }

  /** The alias is the chain of relation names joined by `__`. */
  lemma {:induction false} AliasIsJoinedPath(j: RelationJoin)
    requires Named(j)
    ensures AliasPath(j) == Join(Chain(j), "__")
    decreases j
  {
    if HasParent(j) {
      AliasIsJoinedPath(j.parent.value);
      JoinSnoc(Chain(j.parent.value), j.relation.field.value.name, "__");
    }
  }

  /** The parent's kind decides nesting: only a has-one or belongs-to parent is part of the path. */
  lemma HasParentIsReferences(j: RelationJoin)
    ensures HasParent(j) <==> j.parent.Some? && j.parent.value.relation.References()
  {
  }

  /** The quoted alias. */
  function QuotedAlias(env: Env, j: RelationJoin): string
    requires Named(j)
  {
    [env.identQuote] + AliasPath(j) + [env.identQuote]
  }

  /** `appendAliasColumn`: the quoted alias of a column of the joined table. */
  function AliasColumn(env: Env, j: RelationJoin, column: string): string
    requires Named(j)
  {
    [env.identQuote] + AliasPath(j) + "__" + column + [env.identQuote]
  }

  /** `appendBaseAlias`: the quoted parent alias, or the base table's alias. */
  function BaseAlias(env: Env, j: RelationJoin): string
    requires Named(j)
  {
    if HasParent(j) then QuotedAlias(env, j.parent.value) else j.baseTable.sqlAlias
  }

  /**
    Aliases nest: a nested join's alias extends its base alias (the
    parent's) by `__` and its own name, and an aliased column extends the
    alias path the same way.
  */
  lemma AliasNesting(env: Env, j: RelationJoin, column: string)
    requires Named(j)
    ensures HasParent(j) ==> BaseAlias(env, j) == [env.identQuote] + AliasPath(j.parent.value) + [env.identQuote]
    ensures HasParent(j) ==> AliasPath(j) == AliasPath(j.parent.value) + "__" + j.relation.field.value.name
    ensures !HasParent(j) ==> AliasPath(j) == j.relation.field.value.name && BaseAlias(env, j) == j.baseTable.sqlAlias
    ensures AliasColumn(env, j, column) == QuotedAlias(env, j)[..|QuotedAlias(env, j)| - 1] + "__" + column + [env.identQuote]
  {
    var qa := QuotedAlias(env, j);
    assert qa[..|qa| - 1] == [env.identQuote] + AliasPath(j);
  }

  // ---------------------------------------------------------------------
  // Soft delete, extra conditions, column values
  // ---------------------------------------------------------------------

  /**
    `appendSoftDelete`: the soft-delete column, tested with `IS NULL` / `IS
    NOT NULL` when it is a pointer or nullzero, against the zero time
    otherwise; the deleted flag selects the negated test.
  */
  function SoftDelete(env: Env, t: Table, flags: set<Flag>): string
    requires t.softDeleteField.Some?
  {
    var f := t.softDeleteField.value;
    "." + f.sqlName +
      if f.isPtr || f.nullZero then
        (if DeletedFlag in flags then " IS NOT NULL" else " IS NULL")
      else
        (if DeletedFlag in flags then " != " else " = ") + env.zeroTime
  }

  /**
    The test names the soft-delete column, and the deleted flag alone
    decides it: two flag sets give the same text exactly when both or
    neither carry the flag, so deleted and live rows get different tests.
  */
  lemma SoftDeleteSelects(env: Env, t: Table, f1: set<Flag>, f2: set<Flag>)
    requires t.softDeleteField.Some?
    ensures var c := "." + t.softDeleteField.value.sqlName;
      |SoftDelete(env, t, f1)| > |c| && SoftDelete(env, t, f1)[..|c|] == c
    ensures SoftDelete(env, t, f1) == SoftDelete(env, t, f2) <==> (DeletedFlag in f1 <==> DeletedFlag in f2)
  {
  }

  function ConditionText(env: Env, c: QueryWithArgs): string {
    env.appendQuery(c.query, ArgsOf(c))
  }

  function ConditionTexts(env: Env, conds: seq<QueryWithArgs>): (r: seq<string>)
    ensures |r| == |conds| && forall i :: 0 <= i < |conds| ==> r[i] == ConditionText(env, conds[i])
  {
    seq(|conds|, i requires 0 <= i < |conds| => ConditionText(env, conds[i]))
  }

  /** The extra join conditions, each formatted, joined by `AND`. */
  function AdditionalConds(env: Env, conds: seq<QueryWithArgs>): string {
    Join(ConditionTexts(env, conds), " AND ")
  }

  /** `appendAdditionalJoinOnConditions` */
  method AppendAdditionalJoinOnConditions(env: Env, b: string, conds: seq<QueryWithArgs>) returns (r: string)
    ensures r == b + AdditionalConds(env, conds)
  {
    ghost var ts := ConditionTexts(env, conds);
    r := b;
    var i := 0;
    while i < |conds|
      invariant 0 <= i <= |conds|
      invariant r == b + Join(ts[..i], " AND ")
    {
      JoinStep(ts, i, " AND ");
      if i > 0 {
        r := r + " AND ";
      }
      r := r + env.appendQuery(conds[i].query, ArgsOf(conds[i]));
      i := i + 1;
    }
    assert ts[..i] == ts;
  }

  /** `appendColumnValue`: the rendering of a field of the struct at the index path. */
  function ColumnValue(batch: Batch, f: Field): string {
    ValueOf(batch.atIndex, f).sql
  }

  /** The tuple opener and closer: parentheses only around several fields. */
  function Open(fields: seq<Field>): string {
    if |fields| > 1 then "(" else ""
  }

  function Close(fields: seq<Field>): string {
    if |fields| > 1 then ")" else ""
  }

  // ---------------------------------------------------------------------
  // The deduplicated IN list
  // ---------------------------------------------------------------------

  function ValuesOf(s: Struct, fields: seq<Field>): (r: seq<string>)
    ensures |r| == |fields| && forall i :: 0 <= i < |fields| ==> r[i] == ValueOf(s, fields[i]).sql
  {
    seq(|fields|, i requires 0 <= i < |fields| => ValueOf(s, fields[i]).sql)
  }

  /** One owner's value tuple. */
  function Tuple(s: Struct, fields: seq<Field>): string {
    Open(fields) + Join(ValuesOf(s, fields), ", ") + Close(fields)
  }

  function Tuples(owners: seq<HasMany.Owner>, fields: seq<Field>): (r: seq<string>)
    ensures |r| == |owners| && forall i :: 0 <= i < |owners| ==> r[i] == Tuple(owners[i].values, fields)
  {
    seq(|owners|, i requires 0 <= i < |owners| => Tuple(owners[i].values, fields))
  }

  /**
    The `IN` list: for a single array field under PostgreSQL, the array
    value itself; otherwise each distinct owner tuple once, in order of
    first occurrence, separated by commas.
  */
  function ChildValuesText(env: Env, batch: Batch, fields: seq<Field>): string {
    if AnyArray(fields) && env.isPG && |fields| == 1 then ColumnValue(batch, fields[0])
    else Join(Distinct(Tuples(batch.owners, fields)), ", ")
  }

  /** The inner loop of `appendChildValues`: one owner's tuple. */
  method AppendTuple(b: string, s: Struct, fields: seq<Field>) returns (r: string)
    ensures r == b + Tuple(s, fields)
  {
    ghost var vs := ValuesOf(s, fields);
    r := b;
    if |fields| > 1 {
      r := r + "(";
    }
    ghost var b1 := r;
    assert b1 == b + Open(fields);
    var i := 0;
    while i < |fields|
      invariant 0 <= i <= |fields|
      invariant r == b1 + Join(vs[..i], ", ")
    {
      ghost var r0 := r;
      if i > 0 {
        r := r + ", ";
      }
      r := r + ValueOf(s, fields[i]).sql;
      JoinAdvance(b1, vs, i, ", ", r0, r);
      i := i + 1;
    }
    assert vs[..i] == vs;
    ghost var inner := Join(vs, ", ");
    if |fields| > 1 {
      r := r + ")";
    }
    assert r == b + Open(fields) + inner + Close(fields);
    Regroup(b, Open(fields), inner, Close(fields));
  }

  /** A buffer extended by `x` splits back into the old buffer and `x`. */
  lemma SplitAt(a: string, x: string, r: string)
    requires r == a + x
    ensures r[|a|..] == x && r[..|a|] == a
  {
  }

  /** The dedup test: the entry written since `start` is dropped again when already seen, else recorded. */
  method KeepFirst(b: string, start: nat, seen: set<string>) returns (r: string, seen2: set<string>)
    requires start <= |b|
    ensures b[start..] in seen ==> r == b[..start] && seen2 == seen
    ensures b[start..] !in seen ==> r == b && seen2 == seen + {b[start..]}
  {
    r, seen2 := b, seen;
    if b[start..] in seen {
      r := b[..start];
    } else {
      seen2 := seen + {b[start..]};
    }
  }

  /** Dropping the trailing separator of a dedup loop's buffer. */
  lemma TrimSeparator(b: string, xs: seq<string>, t: string, r: string)
    requires r == b + Terminated(Distinct(xs), t) && xs != []
    ensures |r| >= |t| && r[..|r| - |t|] == b + Join(Distinct(xs), t)
  {
    TerminatedTrim(Distinct(xs), t);
    var tt := Terminated(Distinct(xs), t);
    assert r[..|r| - |t|] == b + tt[..|tt| - |t|];
  }

  /** One visited owner of `appendChildValues`: its tuple and separator are written, then dropped again if seen. */
  method ChildValuesStep(ghost b: string, ghost ts: seq<string>, i: nat, r: string, seen: set<string>, s: Struct, fields: seq<Field>)
    returns (r2: string, seen2: set<string>)
    requires i < |ts| && ts[i] == Tuple(s, fields)
    requires r == b + Terminated(Distinct(ts[..i]), ", ") && seen == Seen(ts[..i], ", ")
    ensures r2 == b + Terminated(Distinct(ts[..i + 1]), ", ") && seen2 == Seen(ts[..i + 1], ", ")
  {
    var start := |r|;
    r2 := AppendTuple(r, s, fields);
    r2 := r2 + ", ";
    SplitAt(r, ts[i] + ", ", r2);
    r2, seen2 := KeepFirst(r2, start, seen);
    DedupAdvance(b, ts, i, ", ", r, seen, r2, seen2);
  }

  /** `appendChildValues` */
  method AppendChildValues(env: Env, b: string, batch: Batch, fields: seq<Field>) returns (r: string)
    ensures r == b + ChildValuesText(env, batch, fields)
  {
    var hasArrayField, arrayField := FindArrayField(fields);
    if hasArrayField && env.isPG {
      if |fields| == 1 {
        r := b + ColumnValue(batch, fields[arrayField]);
        return;
      }
    }
    ghost var ts := Tuples(batch.owners, fields);
    var seen;
    r, seen := AppendDistinctTuples(b, batch, fields);
    SeenEmpty(ts, ", ");
    if |seen| > 0 {
      TrimSeparator(b, ts, ", ", r);
      r := r[..|r| - 2];
    }
  }

  /** The owner loop of `appendChildValues`, before its trailing separator is trimmed. */
  method AppendDistinctTuples(b: string, batch: Batch, fields: seq<Field>) returns (r: string, seen: set<string>)
    ensures r == b + Terminated(Distinct(Tuples(batch.owners, fields)), ", ")
    ensures seen == Seen(Tuples(batch.owners, fields), ", ")
  {
    ghost var ts := Tuples(batch.owners, fields);
    seen := {};
    r := b;
    var i := 0;
    while i < |batch.owners|
      invariant 0 <= i <= |batch.owners|
      invariant r == b + Terminated(Distinct(ts[..i]), ", ")
      invariant seen == Seen(ts[..i], ", ")
    {
      r, seen := ChildValuesStep(b, ts, i, r, seen, batch.owners[i].values, fields);
      i := i + 1;
    }
    assert ts[..i] == ts;
  }

  /** Each distinct tuple appears once: the list is a duplicate-free listing of exactly the owners' tuples. */
  lemma ChildValuesOnce(env: Env, batch: Batch, fields: seq<Field>)
    requires !(AnyArray(fields) && env.isPG && |fields| == 1)
    ensures exists ds :: (NoDuplicates(ds) && (forall t :: t in ds <==> t in Tuples(batch.owners, fields))
      && ChildValuesText(env, batch, fields) == Join(ds, ", "))
  {
    var ds := Distinct(Tuples(batch.owners, fields));
    assert NoDuplicates(ds) && (forall t :: t in ds <==> t in Tuples(batch.owners, fields));
  }

  /** Owners with pairwise distinct tuples are all listed, in visiting order; no owner gives an empty list. */
  lemma ChildValuesDistinctOwners(env: Env, batch: Batch, fields: seq<Field>)
    requires !(AnyArray(fields) && env.isPG && |fields| == 1)
    ensures NoDuplicates(Tuples(batch.owners, fields)) ==> ChildValuesText(env, batch, fields) == Join(Tuples(batch.owners, fields), ", ")
    ensures batch.owners == [] ==> ChildValuesText(env, batch, fields) == ""
  {
    if NoDuplicates(Tuples(batch.owners, fields)) {
      DistinctIdentity(Tuples(batch.owners, fields));
    }
  }

  /**
    Visiting one more owner: an owner whose tuple was already listed adds
    nothing; a new tuple is appended after a comma, or stands alone after
    no owner.
  */
  lemma ChildValuesSnoc(env: Env, batch: Batch, fields: seq<Field>, o: HasMany.Owner)
    requires !(AnyArray(fields) && env.isPG && |fields| == 1)
    ensures var more := ChildValuesText(env, batch.(owners := batch.owners + [o]), fields);
      var t := Tuple(o.values, fields);
      (t in Tuples(batch.owners, fields) ==> more == ChildValuesText(env, batch, fields)) &&
      (t !in Tuples(batch.owners, fields) && batch.owners != [] ==> more == ChildValuesText(env, batch, fields) + ", " + t) &&
      (batch.owners == [] ==> more == t)
  {
    var ts := Tuples(batch.owners, fields);
    var ts2 := Tuples(batch.owners + [o], fields);
    var t := Tuple(o.values, fields);
    assert ts2 == ts + [t];
    assert ts2[..|ts2| - 1] == ts;
    if t !in ts && ts != [] {
      JoinSnoc(Distinct(ts), t, ", ");
    }
  }

  /** A single-field tuple is the bare value; a several-field tuple is parenthesised. */
  lemma TupleForms(s: Struct, fields: seq<Field>)
    ensures |fields| == 1 ==> Tuple(s, fields) == ValueOf(s, fields[0]).sql
    ensures |fields| > 1 ==> Tuple(s, fields)[0] == '(' && Tuple(s, fields)[|Tuple(s, fields)| - 1] == ')'
  {
  }

  // ---------------------------------------------------------------------
  // The OR chain
  // ---------------------------------------------------------------------

  /** One `alias.col=value` pair, parenthesised when there are several. */
  function PairText(s: Struct, baseFields: seq<Field>, joinFields: seq<Field>, alias: string, i: nat): string
    requires i < |baseFields| == |joinFields|
  {
    Open(baseFields) + alias + "." + joinFields[i].sqlName + "=" + ValueOf(s, baseFields[i]).sql + Close(baseFields)
  }

  function PairTexts(s: Struct, baseFields: seq<Field>, joinFields: seq<Field>, alias: string): (r: seq<string>)
    requires |baseFields| == |joinFields|
    ensures |r| == |baseFields| && forall i :: 0 <= i < |baseFields| ==> r[i] == PairText(s, baseFields, joinFields, alias, i)
  {
    seq(|baseFields|, i requires 0 <= i < |baseFields| => PairText(s, baseFields, joinFields, alias, i))
  }

  /** One owner's condition: its pairs joined by `AND`. */
  function MultiCond(s: Struct, baseFields: seq<Field>, joinFields: seq<Field>, alias: string): string
    requires |baseFields| == |joinFields|
  {
    Join(PairTexts(s, baseFields, joinFields, alias), " AND ")
  }

  function MultiConds(owners: seq<HasMany.Owner>, baseFields: seq<Field>, joinFields: seq<Field>, alias: string): (r: seq<string>)
    requires |baseFields| == |joinFields|
    ensures |r| == |owners| && forall i :: 0 <= i < |owners| ==> r[i] == MultiCond(owners[i].values, baseFields, joinFields, alias)
  {
    seq(|owners|, i requires 0 <= i < |owners| => MultiCond(owners[i].values, baseFields, joinFields, alias))
  }

  /** The OR chain: each distinct owner condition once, parenthesised, joined by `OR`. */
  function MultiValuesText(batch: Batch, baseFields: seq<Field>, joinFields: seq<Field>, alias: string): string
    requires |baseFields| == |joinFields|
  {
    "(" + Join(Distinct(MultiConds(batch.owners, baseFields, joinFields, alias)), ") OR (") + ")"
  }

  /** The inner loop of `appendMultiValues`: one owner's condition. */
  method AppendMultiCond(b: string, s: Struct, baseFields: seq<Field>, joinFields: seq<Field>, alias: string) returns (r: string)
    requires |baseFields| == |joinFields|
    ensures r == b + MultiCond(s, baseFields, joinFields, alias)
  {
    ghost var ps := PairTexts(s, baseFields, joinFields, alias);
    r := b;
    var i := 0;
    while i < |baseFields|
      invariant 0 <= i <= |baseFields|
      invariant r == b + Join(ps[..i], " AND ")
    {
      ghost var r0 := r;
      if i > 0 {
        r := r + " AND ";
      }
      r := AppendPair(r, s, baseFields, joinFields, alias, i);
      JoinAdvance(b, ps, i, " AND ", r0, r);
      i := i + 1;
    }
    assert ps[..i] == ps;
  }

  /** One `alias.col=value` pair of `appendMultiValues`. */
  method AppendPair(b: string, s: Struct, baseFields: seq<Field>, joinFields: seq<Field>, alias: string, i: nat) returns (r: string)
    requires i < |baseFields| == |joinFields|
    ensures r == b + PairText(s, baseFields, joinFields, alias, i)
  {
    r := b;
    if |baseFields| > 1 {
      r := r + "(";
    }
    r := r + alias + "." + joinFields[i].sqlName;
    r := r + "=" + ValueOf(s, baseFields[i]).sql;
    if |baseFields| > 1 {
      r := r + ")";
    }
  }

  /** One visited owner of `appendMultiValues`: its condition and separator are written, then dropped again if seen. */
  method MultiValuesStep(ghost b: string, ghost cs: seq<string>, i: nat, r: string, seen: set<string>,
                         s: Struct, baseFields: seq<Field>, joinFields: seq<Field>, alias: string)
    returns (r2: string, seen2: set<string>)
    requires |baseFields| == |joinFields|
    requires i < |cs| && cs[i] == MultiCond(s, baseFields, joinFields, alias)
    requires r == b + Terminated(Distinct(cs[..i]), ") OR (") && seen == Seen(cs[..i], ") OR (")
    ensures r2 == b + Terminated(Distinct(cs[..i + 1]), ") OR (") && seen2 == Seen(cs[..i + 1], ") OR (")
  {
    var start := |r|;
    r2 := AppendMultiCond(r, s, baseFields, joinFields, alias);
    r2 := r2 + ") OR (";
    SplitAt(r, cs[i] + ") OR (", r2);
    r2, seen2 := KeepFirst(r2, start, seen);
    DedupAdvance(b, cs, i, ") OR (", r, seen, r2, seen2);
  }

  /** `appendMultiValues`: no result (a panic) when the key lists differ in length. */
  method AppendMultiValues(env: Env, b: string, batch: Batch, baseFields: seq<Field>, joinFields: seq<Field>, alias: string)
    returns (r: Option<string>)
    ensures |baseFields| != |joinFields| <==> r.None?
    ensures |baseFields| == |joinFields| ==> r == Some(b + MultiValuesText(batch, baseFields, joinFields, alias))
  {
    if |joinFields| != |baseFields| {
      return None;
    }
    ghost var cs := MultiConds(batch.owners, baseFields, joinFields, alias);
    var s := b + "(";
    var seen: set<string> := {};
    var i := 0;
    while i < |batch.owners|
      invariant 0 <= i <= |batch.owners|
      invariant s == b + "(" + Terminated(Distinct(cs[..i]), ") OR (")
      invariant seen == Seen(cs[..i], ") OR (")
    {
      s, seen := MultiValuesStep(b + "(", cs, i, s, seen, batch.owners[i].values, baseFields, joinFields, alias);
      i := i + 1;
    }
    assert cs[..i] == cs;
    SeenEmpty(cs, ") OR (");
    ghost var chain := Join(Distinct(cs), ") OR (");
    if |seen| > 0 {
      TrimSeparator(b + "(", cs, ") OR (", s);
      s := s[..|s| - 6];
    } else {
      assert s == b + "(" + chain;
    }
    Regroup(b, "(", chain, ")");
    r := Some(s + ")");
  }

  /** With no owners the chain is an empty pair of parentheses. */
  lemma MultiValuesEmpty(batch: Batch, baseFields: seq<Field>, joinFields: seq<Field>, alias: string)
    requires |baseFields| == |joinFields| && batch.owners == []
    ensures MultiValuesText(batch, baseFields, joinFields, alias) == "()"
  {
  }

  /** Each distinct owner condition appears once in the chain. */
  lemma MultiValuesOnce(batch: Batch, baseFields: seq<Field>, joinFields: seq<Field>, alias: string)
    requires |baseFields| == |joinFields|
    ensures exists ds :: (NoDuplicates(ds) && (forall c :: c in ds <==> c in MultiConds(batch.owners, baseFields, joinFields, alias))
      && MultiValuesText(batch, baseFields, joinFields, alias) == "(" + Join(ds, ") OR (") + ")")
  {
    var ds := Distinct(MultiConds(batch.owners, baseFields, joinFields, alias));
    assert NoDuplicates(ds) && (forall c :: c in ds <==> c in MultiConds(batch.owners, baseFields, joinFields, alias));
  }

  // ---------------------------------------------------------------------
  // The has-one join
  // ---------------------------------------------------------------------

  /**
    One key pair of the `ON` clause. For an array relation a base-side
    array (checked first) is tested with `@> ARRAY[…]`, a join-side array
    with `= ANY(…)`; every other pair is an equality.
  */
  function HasOneCond(env: Env, j: RelationJoin, i: nat): string
    requires Named(j) && Paired(j.relation) && i < |j.relation.baseFields|
  {
    var base := j.relation.baseFields[i];
    var join := j.relation.joinFields[i];
    if j.relation.isArrayRelation && base.hasArray then
      BaseAlias(env, j) + "." + base.sqlName + " @> ARRAY[" + QuotedAlias(env, j) + "." + join.sqlName + "]"
    else if j.relation.isArrayRelation && join.hasArray then
      BaseAlias(env, j) + "." + base.sqlName + " = ANY(" + QuotedAlias(env, j) + "." + join.sqlName + ")"
    else
      QuotedAlias(env, j) + "." + join.sqlName + " = " + BaseAlias(env, j) + "." + base.sqlName
  }

  function HasOneConds(env: Env, j: RelationJoin): (r: seq<string>)
    requires Named(j) && Paired(j.relation)
    ensures |r| == |j.relation.baseFields| && forall i :: 0 <= i < |r| ==> r[i] == HasOneCond(env, j, i)
  {
    seq(|j.relation.baseFields|, i requires 0 <= i < |j.relation.baseFields| => HasOneCond(env, j, i))
  }

  /** The soft-delete clause is added when the table has a soft-delete field and deleted rows are not wanted. */
  predicate SoftDeleting(j: RelationJoin, flags: set<Flag>) {
    j.joinTable.softDeleteField.Some? && AllWithDeletedFlag !in flags
  }

  /** The clause up to the closing parenthesis of the key conditions. */
  function HasOneOn(env: Env, j: RelationJoin): string
    requires Named(j) && Paired(j.relation)
  {
    "LEFT JOIN " + env.appendQuery(j.joinTable.sqlNameForSelects, []) + " AS " + QuotedAlias(env, j) + " ON "
      + "(" + Join(HasOneConds(env, j), " AND ") + ")"
  }

  /** The whole `LEFT JOIN` clause. */
  function HasOneJoinText(env: Env, j: RelationJoin, flags: set<Flag>): string
    requires Named(j) && Paired(j.relation)
  {
    HasOneOn(env, j) + SoftPart(env, j, flags) + ExtraPart(env, j)
  }

  /** The soft-delete test on the joined table's alias, when it applies. */
  function SoftPart(env: Env, j: RelationJoin, flags: set<Flag>): string
    requires Named(j)
  {
    if SoftDeleting(j, flags) then " AND " + QuotedAlias(env, j) + SoftDelete(env, j.joinTable, flags) else ""
  }

  /** The extra join conditions, when there are any. */
  function ExtraPart(env: Env, j: RelationJoin): string {
    if |j.additionalJoinOnConditions| > 0 then " AND " + AdditionalConds(env, j.additionalJoinOnConditions) else ""
  }

  /** One key pair of an array relation's `ON` clause. */
  method AppendArrayOnCond(env: Env, b: string, j: RelationJoin, i: nat) returns (r: string)
    requires Named(j) && Paired(j.relation) && i < |j.relation.baseFields| && j.relation.isArrayRelation
    ensures r == b + HasOneCond(env, j, i)
  {
    var baseField := j.relation.baseFields[i];
    var joinField := j.relation.joinFields[i];
    if baseField.hasArray {
      r := b + BaseAlias(env, j) + "." + baseField.sqlName + " @> ARRAY[" + QuotedAlias(env, j) + "." + joinField.sqlName + "]";
    } else if joinField.hasArray {
      r := b + BaseAlias(env, j) + "." + baseField.sqlName + " = ANY(" + QuotedAlias(env, j) + "." + joinField.sqlName + ")";
    } else {
      r := b + QuotedAlias(env, j) + "." + joinField.sqlName + " = " + BaseAlias(env, j) + "." + baseField.sqlName;
    }
  }

  /** One key pair of a plain relation's `ON` clause. */
  method AppendEqualityOnCond(env: Env, b: string, j: RelationJoin, i: nat) returns (r: string)
    requires Named(j) && Paired(j.relation) && i < |j.relation.baseFields| && !j.relation.isArrayRelation
    ensures r == b + HasOneCond(env, j, i)
  {
    r := b + QuotedAlias(env, j) + "." + j.relation.joinFields[i].sqlName + " = " + BaseAlias(env, j) + "." + j.relation.baseFields[i].sqlName;
  }

  /** The key conditions of the `ON` clause, joined by `AND`: the array loop or the plain loop. */
  method AppendHasOneConds(env: Env, b: string, j: RelationJoin) returns (r: string)
    requires Named(j) && Paired(j.relation)
    ensures r == b + Join(HasOneConds(env, j), " AND ")
  {
    ghost var cs := HasOneConds(env, j);
    r := b;
    var i := 0;
    if j.relation.isArrayRelation {
      while i < |j.relation.baseFields|
        invariant 0 <= i <= |j.relation.baseFields|
        invariant r == b + Join(cs[..i], " AND ")
      {
        ghost var r0 := r;
        if i > 0 {
          r := r + " AND ";
        }
        r := AppendArrayOnCond(env, r, j, i);
        JoinAdvance(b, cs, i, " AND ", r0, r);
        i := i + 1;
      }
    } else {
      while i < |j.relation.baseFields|
        invariant 0 <= i <= |j.relation.baseFields|
        invariant r == b + Join(cs[..i], " AND ")
      {
        ghost var r0 := r;
        if i > 0 {
          r := r + " AND ";
        }
        r := AppendEqualityOnCond(env, r, j, i);
        JoinAdvance(b, cs, i, " AND ", r0, r);
        i := i + 1;
      }
    }
    assert cs[..i] == cs;
  }

  /** The head of `appendHasOneJoin`: the joined table, its alias and the key conditions. */
  method AppendHasOneOn(env: Env, b: string, j: RelationJoin) returns (r: string)
    requires Named(j) && Paired(j.relation)
    ensures r == b + HasOneOn(env, j)
  {
    var head := "LEFT JOIN " + env.appendQuery(j.joinTable.sqlNameForSelects, []) + " AS " + QuotedAlias(env, j) + " ON " + "(";
    r := b + head;
    r := AppendHasOneConds(env, r, j);
    r := r + ")";
    Regroup(b, head, Join(HasOneConds(env, j), " AND "), ")");
  }

  /** `appendHasOneJoin`; it never reports an error. */
  method AppendHasOneJoin(env: Env, b: string, j: RelationJoin, q: SelectQuery) returns (r: string)
    requires Named(j) && Paired(j.relation)
    ensures r == b + HasOneJoinText(env, j, q.flags)
  {
    r := AppendHasOneOn(env, b, j);
    r := AppendSoftPart(env, r, j, q.flags);
    r := AppendExtraPart(env, r, j);
    Regroup(b, HasOneOn(env, j), SoftPart(env, j, q.flags), ExtraPart(env, j));
  }

  method AppendSoftPart(env: Env, b: string, j: RelationJoin, flags: set<Flag>) returns (r: string)
    requires Named(j)
    ensures r == b + SoftPart(env, j, flags)
  {
    var isSoftDelete := j.joinTable.softDeleteField.Some? && AllWithDeletedFlag !in flags;
    r := b;
    if isSoftDelete {
      r := r + " AND ";
      r := r + QuotedAlias(env, j);
      r := r + SoftDelete(env, j.joinTable, flags);
      Regroup(b, " AND ", QuotedAlias(env, j), SoftDelete(env, j.joinTable, flags));
    }
  }

  method AppendExtraPart(env: Env, b: string, j: RelationJoin) returns (r: string)
    ensures r == b + ExtraPart(env, j)
  {
    r := b;
    if |j.additionalJoinOnConditions| > 0 {
      r := r + " AND ";
      r := AppendAdditionalJoinOnConditions(env, r, j.additionalJoinOnConditions);
    }
  }

  /** Without the array flag every pair is `alias.join = base.base`, whatever the fields' tags say. */
  lemma HasOneEqualities(env: Env, j: RelationJoin, i: nat)
    requires Named(j) && Paired(j.relation) && i < |j.relation.baseFields| && !j.relation.isArrayRelation
    ensures HasOneCond(env, j, i) == QuotedAlias(env, j) + "." + j.relation.joinFields[i].sqlName + " = "
      + BaseAlias(env, j) + "." + j.relation.baseFields[i].sqlName
  {
  }

  /** The clause ends in the closing parenthesis unless a soft-delete test or extra conditions follow. */
  lemma HasOneJoinShape(env: Env, j: RelationJoin, flags: set<Flag>)
    requires Named(j) && Paired(j.relation)
    ensures var s := HasOneJoinText(env, j, flags); |s| > 10 && s[..10] == "LEFT JOIN "
    ensures !SoftDeleting(j, flags) && j.additionalJoinOnConditions == [] ==>
      var s := HasOneJoinText(env, j, flags); s[|s| - 1] == ')'
  {
  }

  // ---------------------------------------------------------------------
  // The has-many query
  // ---------------------------------------------------------------------

  /**
    One key pair of an array relation's `WHERE`. With an array among the
    base keys the value comes from the struct at the index path: an array
    base key is matched with `join = ANY(value)`, another with `join =
    value`. Otherwise an array join key is matched with `value =
    ANY(join)`, another with `join = value`.
  */
  function ArrayPairCond(j: RelationJoin, batch: Batch, arrayOnBase: bool, i: nat): string
    requires Paired(j.relation) && i < |j.relation.baseFields|
  {
    var alias := j.joinTable.sqlAlias;
    var base := j.relation.baseFields[i];
    var join := j.relation.joinFields[i];
    if arrayOnBase then
      if base.hasArray then alias + "." + join.sqlName + " = ANY(" + ColumnValue(batch, base) + ")"
      else alias + "." + join.sqlName + " = " + ColumnValue(batch, base)
    else
      if join.hasArray then ColumnValue(batch, base) + " = ANY(" + alias + "." + join.sqlName + ")"
      else alias + "." + join.sqlName + " = " + ColumnValue(batch, base)
  }

  function ArrayPairConds(j: RelationJoin, batch: Batch, arrayOnBase: bool): (r: seq<string>)
    requires Paired(j.relation)
    ensures |r| == |j.relation.baseFields| && forall i :: 0 <= i < |r| ==> r[i] == ArrayPairCond(j, batch, arrayOnBase, i)
  {
    seq(|j.relation.baseFields|, i requires 0 <= i < |j.relation.baseFields| => ArrayPairCond(j, batch, arrayOnBase, i))
  }

  /** One key pair of an array relation's `WHERE`. */
  method AppendArrayPair(b: string, j: RelationJoin, batch: Batch, arrayOnBase: bool, i: nat) returns (r: string)
    requires Paired(j.relation) && i < |j.relation.baseFields|
    ensures r == b + ArrayPairCond(j, batch, arrayOnBase, i)
  {
    var alias := j.joinTable.sqlAlias;
    var baseField := j.relation.baseFields[i];
    var joinField := j.relation.joinFields[i];
    if arrayOnBase {
      if baseField.hasArray {
        r := b + alias + "." + joinField.sqlName + " = ANY(" + ColumnValue(batch, baseField) + ")";
      } else {
        r := b + alias + "." + joinField.sqlName + " = " + ColumnValue(batch, baseField);
      }
    } else {
      if joinField.hasArray {
        r := b + ColumnValue(batch, baseField) + " = ANY(" + alias + "." + joinField.sqlName + ")";
      } else {
        r := b + alias + "." + joinField.sqlName + " = " + ColumnValue(batch, baseField);
      }
    }
  }

  /** The key-pair loop of an array relation. */
  method AppendArrayPairs(b: string, j: RelationJoin, batch: Batch, arrayOnBase: bool) returns (r: string)
    requires Paired(j.relation)
    ensures r == b + Join(ArrayPairConds(j, batch, arrayOnBase), " AND ")
  {
    ghost var cs := ArrayPairConds(j, batch, arrayOnBase);
    r := b;
    var i := 0;
    while i < |j.relation.baseFields|
      invariant 0 <= i <= |j.relation.baseFields|
      invariant r == b + Join(cs[..i], " AND ")
    {
      ghost var r0 := r;
      if i > 0 {
        r := r + " AND ";
      }
      r := AppendArrayPair(r, j, batch, arrayOnBase, i);
      JoinAdvance(b, cs, i, " AND ", r0, r);
      i := i + 1;
    }
    assert cs[..i] == cs;
  }

  /** `(alias.k1, alias.k2) IN (…)`, the columns parenthesised only when there are several. */
  function InClauseText(env: Env, j: RelationJoin, batch: Batch): string {
    var joins := j.relation.joinFields;
    Open(joins) + env.appendColumns(j.joinTable.sqlAlias, joins) + Close(joins)
      + " IN (" + ChildValuesText(env, batch, j.relation.baseFields) + ")"
  }

  method AppendInClause(env: Env, b: string, j: RelationJoin, batch: Batch) returns (r: string)
    ensures r == b + InClauseText(env, j, batch)
  {
    var joins := j.relation.joinFields;
    var cols := env.appendColumns(j.joinTable.sqlAlias, joins);
    r := b;
    if |joins| > 1 {
      r := r + "(";
    }
    r := r + cols;
    if |joins| > 1 {
      r := r + ")";
    }
    ghost var head := Open(joins) + cols + Close(joins);
    Regroup(b, Open(joins), cols, Close(joins));
    assert r == b + head;
    r := r + " IN (";
    r := AppendChildValues(env, r, batch, j.relation.baseFields);
    ghost var cv := ChildValuesText(env, batch, j.relation.baseFields);
    Regroup(b, head, " IN (", cv);
    r := r + ")";
    assert InClauseText(env, j, batch) == head + " IN (" + cv + ")";
  }

  /** A single array base key under PostgreSQL: `alias.join = ANY(value)`. */
  function PgArrayText(j: RelationJoin, batch: Batch): string
    requires Paired(j.relation) && |j.relation.baseFields| == 1
  {
    j.joinTable.sqlAlias + "." + j.relation.joinFields[0].sqlName + " = ANY(" + ColumnValue(batch, j.relation.baseFields[0]) + ")"
  }

  /**
    The key condition of the has-many `WHERE`, for the composite-`IN`
    dialects (`multi` false) and the others (`multi` true).
  */
  function KeyCondition(env: Env, j: RelationJoin, batch: Batch, multi: bool): string
    requires Paired(j.relation)
  {
    var bases := j.relation.baseFields;
    if j.relation.isArrayRelation then
      var pairs := Join(ArrayPairConds(j, batch, AnyArray(bases)), " AND ");
      if multi then "(" + pairs + ")" else pairs
    else if AnyArray(bases) && env.isPG then
      if |bases| == 1 && bases[0].hasArray then PgArrayText(j, batch) else InClauseText(env, j, batch)
    else if multi then
      "(" + MultiValuesText(batch, bases, j.relation.joinFields, j.joinTable.sqlAlias) + ")"
    else
      InClauseText(env, j, batch)
  }

  /** The two dialect families differ only in the key condition; an array relation's pairs are wrapped for the others. */
  lemma KeyConditionFamilies(env: Env, j: RelationJoin, batch: Batch)
    requires Paired(j.relation)
    ensures j.relation.isArrayRelation ==> KeyCondition(env, j, batch, true) == "(" + KeyCondition(env, j, batch, false) + ")"
    ensures !j.relation.isArrayRelation && AnyArray(j.relation.baseFields) && env.isPG ==>
      KeyCondition(env, j, batch, true) == KeyCondition(env, j, batch, false)
    ensures !j.relation.isArrayRelation && !(AnyArray(j.relation.baseFields) && env.isPG) ==>
      KeyCondition(env, j, batch, false) == InClauseText(env, j, batch) &&
      KeyCondition(env, j, batch, true) == "((" + Join(Distinct(MultiConds(batch.owners, j.relation.baseFields, j.relation.joinFields, j.joinTable.sqlAlias)), ") OR (") + "))"
  {
    if !j.relation.isArrayRelation && !(AnyArray(j.relation.baseFields) && env.isPG) {
      KeyConditionPlain(env, j, batch);
    }
  }

  lemma KeyConditionPlain(env: Env, j: RelationJoin, batch: Batch)
    requires Paired(j.relation) && !j.relation.isArrayRelation && !(AnyArray(j.relation.baseFields) && env.isPG)
    ensures KeyCondition(env, j, batch, true) == "((" + Join(Distinct(MultiConds(batch.owners, j.relation.baseFields, j.relation.joinFields, j.joinTable.sqlAlias)), ") OR (") + "))"
  {
    var m := Join(Distinct(MultiConds(batch.owners, j.relation.baseFields, j.relation.joinFields, j.joinTable.sqlAlias)), ") OR (");
    assert MultiValuesText(batch, j.relation.baseFields, j.relation.joinFields, j.joinTable.sqlAlias) == "(" + m + ")";
    assert "(" + ("(" + m + ")") + ")" == "((" + m + "))";
  }

  /** The polymorphic condition: `? = ?` on the polymorphic column and value. */
  function PolymorphicWhere(r: Relation): QueryWithArgs
    requires r.polymorphicField.Some?
  {
    QueryWithArgs("? = ?", Some([Safe(r.polymorphicField.value.sqlName), Str(r.polymorphicValue)]))
  }

  /** The `WHERE` text: the key condition, then the extra conditions. */
  function WhereText(env: Env, j: RelationJoin, where: string): string {
    where + (if |j.additionalJoinOnConditions| > 0 then " AND " + AdditionalConds(env, j.additionalJoinOnConditions) else "")
  }

  /**
    The common tail of both has-many builders: the `WHERE`, the polymorphic
    condition, the callback and the column list.
  */
  function FinishMany(env: Env, j: RelationJoin, q: SelectQuery, where: string): (seq<QueryWithArgs>, SelectQuery) {
    var q1 := Where(q, Raw(WhereText(env, j, where)));
    var q2 := if j.relation.polymorphicField.Some? then Where(q1, PolymorphicWhere(j.relation)) else q1;
    var applied := ApplyTo(j, q2);
    (applied.0, HasManyColumnsResult(env, j.(columns := applied.0), applied.1))
  }

  method FinishManyQuery(env: Env, where: string, j: RelationJoin, q: SelectQuery) returns (cols: seq<QueryWithArgs>, r: SelectQuery)
    ensures (cols, r) == FinishMany(env, j, q, where)
  {
    var w := where;
    if |j.additionalJoinOnConditions| > 0 {
      w := w + " AND ";
      w := AppendAdditionalJoinOnConditions(env, w, j.additionalJoinOnConditions);
      assert w == where + (" AND " + AdditionalConds(env, j.additionalJoinOnConditions));
    } else {
      assert w == where + "";
    }
    r := Where(q, Raw(w));
    if j.relation.polymorphicField.Some? {
      r := Where(r, PolymorphicWhere(j.relation));
    }
    var applied := ApplyTo(j, r);
    cols := applied.0;
    r := HasManyColumns(env, j.(columns := cols), applied.1);
  }

  /** The single-array-key condition under PostgreSQL. */
  method AppendPgArray(b: string, j: RelationJoin, batch: Batch) returns (r: string)
    requires Paired(j.relation) && |j.relation.baseFields| == 1
    ensures r == b + PgArrayText(j, batch)
  {
    r := b + j.joinTable.sqlAlias + "." + j.relation.joinFields[0].sqlName + " = ANY(" + ColumnValue(batch, j.relation.baseFields[0]) + ")";
  }

  /** `manyQueryCompositeIn`: the key condition as tuples `IN` the owners' values. */
  method ManyQueryCompositeIn(env: Env, where: string, j: RelationJoin, q: SelectQuery, batch: Batch)
    returns (cols: seq<QueryWithArgs>, r: SelectQuery)
    requires Paired(j.relation)
    ensures (cols, r) == FinishMany(env, j, q, where + KeyCondition(env, j, batch, false))
  {
    var w := where;
    var bases := j.relation.baseFields;
    if j.relation.isArrayRelation {
      var arrayOnBase, _ := FindArrayField(bases);
      w := AppendArrayPairs(w, j, batch, arrayOnBase);
    } else {
      var hasArrayField, _ := FindArrayField(bases);
      if hasArrayField && env.isPG {
        if |bases| == 1 && bases[0].hasArray {
          w := AppendPgArray(w, j, batch);
        } else {
          w := AppendInClause(env, w, j, batch);
        }
      } else {
        w := AppendInClause(env, w, j, batch);
      }
    }
    assert w == where + KeyCondition(env, j, batch, false);
    cols, r := FinishManyQuery(env, w, j, q);
  }

  /** `manyQueryMulti`: the key condition as an `OR` chain, for dialects without composite `IN`. */
  method ManyQueryMulti(env: Env, where: string, j: RelationJoin, q: SelectQuery, batch: Batch)
    returns (cols: seq<QueryWithArgs>, r: SelectQuery)
    requires Paired(j.relation)
    ensures (cols, r) == FinishMany(env, j, q, where + KeyCondition(env, j, batch, true))
  {
    var w := where;
    var bases := j.relation.baseFields;
    if j.relation.isArrayRelation {
      var arrayOnBase, _ := FindArrayField(bases);
      w := w + "(";
      w := AppendArrayPairs(w, j, batch, arrayOnBase);
      w := w + ")";
      Regroup(where, "(", Join(ArrayPairConds(j, batch, arrayOnBase), " AND "), ")");
    } else {
      var hasArrayField, _ := FindArrayField(bases);
      if hasArrayField && env.isPG {
        if |bases| == 1 && bases[0].hasArray {
          w := AppendPgArray(w, j, batch);
        } else {
          w := AppendInClause(env, w, j, batch);
        }
      } else {
        w := w + "(";
        var mv := AppendMultiValues(env, w, batch, bases, j.relation.joinFields, j.joinTable.sqlAlias);
        w := mv.value + ")";
        Regroup(where, "(", MultiValuesText(batch, bases, j.relation.joinFields, j.joinTable.sqlAlias), ")");
      }
    }
    assert w == where + KeyCondition(env, j, batch, true);
    cols, r := FinishManyQuery(env, w, j, q);
  }

  /**
    `manyQuery`: no query when the owner index is empty; otherwise the
    query scans into the has-many model and selects by the key condition of
    the dialect's family. The join's new columns come with it.
  */
  function ManyResult(env: Env, j: RelationJoin, q: SelectQuery, batch: Batch): Option<(seq<QueryWithArgs>, SelectQuery)>
    requires Paired(j.relation)
  {
    var index := HasMany.IndexOf(batch.owners, j.relation.baseFields, batch.rootID);
    if |index| == 0 then None
    else Some(FinishMany(env, j, q.(model := HasManyOf(index)), KeyCondition(env, j, batch, !env.compositeIn)))
  }

  method ManyQuery(env: Env, j: RelationJoin, q: SelectQuery, batch: Batch) returns (res: Option<(seq<QueryWithArgs>, SelectQuery)>)
    requires Paired(j.relation)
    ensures res == ManyResult(env, j, q, batch)
  {
    var baseValues := HasMany.BaseValues(batch.owners, j.relation.baseFields, batch.rootID);
    if |baseValues| == 0 {
      return None;
    }
    var q1 := q.(model := HasManyOf(baseValues));
    var where := "";
    var cols, r;
    if env.compositeIn {
      cols, r := ManyQueryCompositeIn(env, where, j, q1, batch);
    } else {
      cols, r := ManyQueryMulti(env, where, j, q1, batch);
    }
    assert where + KeyCondition(env, j, batch, !env.compositeIn) == KeyCondition(env, j, batch, !env.compositeIn);
    res := Some((cols, r));
  }

  /** No query exactly when the walk visits no owner. */
  lemma ManyQueryNone(env: Env, j: RelationJoin, q: SelectQuery, batch: Batch)
    requires Paired(j.relation)
    ensures ManyResult(env, j, q, batch).None? <==> batch.owners == []
  {
    HasMany.IndexEmpty(batch.owners, j.relation.baseFields, batch.rootID);
  }

  /**
    Without a callback, the has-many query adds exactly the key `WHERE` and,
    only for a polymorphic relation, the polymorphic condition after it; it
    adds no join and one column expression or the query error.
  */
  lemma ManyQueryWheres(env: Env, j: RelationJoin, q: SelectQuery, batch: Batch)
    requires Paired(j.relation) && j.apply.None? && batch.owners != []
    ensures ManyResult(env, j, q, batch).Some?
    ensures var r := ManyResult(env, j, q, batch).value.1;
      var w := Raw(WhereText(env, j, KeyCondition(env, j, batch, !env.compositeIn)));
      r.wheres == q.wheres + [w] + (if j.relation.polymorphicField.Some? then [PolymorphicWhere(j.relation)] else [])
    ensures var r := ManyResult(env, j, q, batch).value.1;
      r.joins == q.joins && r.table == q.table && r.flags == q.flags
  {
    ManyQueryNone(env, j, q, batch);
  }

  // ---------------------------------------------------------------------
  // The column list
  // ---------------------------------------------------------------------

  /** One requested column: a bare argument-free field name becomes `alias.column`; anything else is formatted. */
  function ColumnEntry(env: Env, t: Table, col: QueryWithArgs): Result<string, string> {
    if col.args.None? && col.query in t.fieldMap then Success(t.sqlAlias + "." + t.fieldMap[col.query].sqlName)
    else env.appendColumnExpr(col)
  }

  /** The first `n` entries joined by commas, or the first error among them. */
  function ColumnList(env: Env, t: Table, cols: seq<QueryWithArgs>, n: nat): Result<string, string>
    requires n <= |cols|
    decreases n
  {
    if n == 0 then Success("")
    else match ColumnList(env, t, cols, n - 1)
      case Failure(e) => Failure(e)
      case Success(s) =>
        match ColumnEntry(env, t, cols[n - 1])
          case Failure(e) => Failure(e)
          case Success(x) => Success(if n == 1 then x else s + ", " + x)
  }

  /** An error among the first `n` entries stays the reported one. */
  lemma {:induction false} ColumnListFailureSticks(env: Env, t: Table, cols: seq<QueryWithArgs>, n: nat, m: nat)
    requires n <= m <= |cols| && ColumnList(env, t, cols, n).Failure?
    ensures ColumnList(env, t, cols, m) == ColumnList(env, t, cols, n)
    decreases m - n
  {
    if n < m {
      ColumnListFailureSticks(env, t, cols, n, m - 1);
    }
  }

  /**
    The list succeeds exactly when every entry does, and is then the
    entries joined by commas; otherwise it reports the first failing
    entry's error.
  */
  lemma ColumnListCases(env: Env, t: Table, cols: seq<QueryWithArgs>, n: nat)
    requires n <= |cols|
    ensures ColumnList(env, t, cols, n).Success? <==> forall k :: 0 <= k < n ==> ColumnEntry(env, t, cols[k]).Success?
    ensures ColumnList(env, t, cols, n).Success? ==>
      ColumnList(env, t, cols, n).value == Join(seq(n, k requires 0 <= k < n => ColumnEntry(env, t, cols[k]).value), ", ")
    ensures ColumnList(env, t, cols, n).Failure? ==> exists k :: (0 <= k < n && ColumnEntry(env, t, cols[k]) == ColumnList(env, t, cols, n)
      && forall m :: 0 <= m < k ==> ColumnEntry(env, t, cols[m]).Success?)
  {
    ColumnListSucceeds(env, t, cols, n);
    ColumnListValue(env, t, cols, n);
    ColumnListFirstFailure(env, t, cols, n);
  }

  lemma {:induction false} ColumnListSucceeds(env: Env, t: Table, cols: seq<QueryWithArgs>, n: nat)
    requires n <= |cols|
    ensures ColumnList(env, t, cols, n).Success? <==> forall k :: 0 <= k < n ==> ColumnEntry(env, t, cols[k]).Success?
    decreases n
  {
    if n > 0 {
      ColumnListSucceeds(env, t, cols, n - 1);
    }
  }

  lemma {:induction false} ColumnListValue(env: Env, t: Table, cols: seq<QueryWithArgs>, n: nat)
    requires n <= |cols|
    ensures ColumnList(env, t, cols, n).Success? ==> forall k :: 0 <= k < n ==> ColumnEntry(env, t, cols[k]).Success?
    ensures ColumnList(env, t, cols, n).Success? ==>
      ColumnList(env, t, cols, n).value == Join(seq(n, k requires 0 <= k < n => ColumnEntry(env, t, cols[k]).value), ", ")
    decreases n
  {
    ColumnListSucceeds(env, t, cols, n);
    if n > 0 && ColumnList(env, t, cols, n).Success? {
      ColumnListValue(env, t, cols, n - 1);
      var xs := seq(n, k requires 0 <= k < n => ColumnEntry(env, t, cols[k]).value);
      assert xs[..n - 1] == seq(n - 1, k requires 0 <= k < n - 1 => ColumnEntry(env, t, cols[k]).value);
      if n > 1 {
        JoinSnoc(xs[..n - 1], xs[n - 1], ", ");
        assert xs == xs[..n - 1] + [xs[n - 1]];
      } else {
        assert xs == [xs[0]];
      }
    }
  }

  lemma {:induction false} ColumnListFirstFailure(env: Env, t: Table, cols: seq<QueryWithArgs>, n: nat)
    requires n <= |cols|
    ensures ColumnList(env, t, cols, n).Failure? ==> exists k :: (0 <= k < n && ColumnEntry(env, t, cols[k]) == ColumnList(env, t, cols, n)
      && forall m :: 0 <= m < k ==> ColumnEntry(env, t, cols[m]).Success?)
    decreases n
  {
    if n > 0 && ColumnList(env, t, cols, n).Failure? {
      if ColumnList(env, t, cols, n - 1).Failure? {
        ColumnListFirstFailure(env, t, cols, n - 1);
      } else {
        ColumnListSucceeds(env, t, cols, n - 1);
        assert ColumnEntry(env, t, cols[n - 1]) == ColumnList(env, t, cols, n);
      }
    }
  }

  /**
    `hasManyColumns`: the requested columns when there are any, else every
    field of the join table under its alias; a formatting error sets the
    query error and adds no column expression. Nothing else changes.
  */
  function HasManyColumnsResult(env: Env, j: RelationJoin, q: SelectQuery): (r: SelectQuery)
    ensures r.model == q.model && r.table == q.table && r.wheres == q.wheres && r.joins == q.joins && r.flags == q.flags
    ensures |j.columns| == 0 ==> r == ColumnExpr(q, env.appendColumns(j.joinTable.sqlAlias, j.joinTable.fields))
  {
    var t := j.joinTable;
    if |j.columns| > 0 then
      match ColumnList(env, t, j.columns, |j.columns|)
        case Failure(e) => SetErr(q, e)
        case Success(s) => ColumnExpr(q, s)
    else ColumnExpr(q, env.appendColumns(t.sqlAlias, t.fields))
  }

  method HasManyColumns(env: Env, j: RelationJoin, q: SelectQuery) returns (r: SelectQuery)
    ensures r == HasManyColumnsResult(env, j, q)
  {
    var t := j.joinTable;
    if |j.columns| > 0 {
      var b := "";
      var i := 0;
      while i < |j.columns|
        invariant 0 <= i <= |j.columns|
        invariant ColumnList(env, t, j.columns, i) == Success(b)
      {
        var col := j.columns[i];
        var entry: Result<string, string>;
        if col.args.None? && col.query in t.fieldMap {
          entry := Success(t.sqlAlias + "." + t.fieldMap[col.query].sqlName);
        } else {
          entry := env.appendColumnExpr(col);
        }
        if entry.Failure? {
          ColumnListFailureSticks(env, t, j.columns, i + 1, |j.columns|);
          return SetErr(q, entry.error);
        }
        if i > 0 {
          b := b + ", ";
        } else {
          assert "" + entry.value == entry.value;
        }
        b := b + entry.value;
        i := i + 1;
      }
      r := ColumnExpr(q, b);
    } else {
      r := ColumnExpr(q, env.appendColumns(t.sqlAlias, t.fields));
    }
  }

  // ---------------------------------------------------------------------
  // The many-to-many query
  // ---------------------------------------------------------------------

  predicate M2MReady(r: Relation) {
    r.m2mTable.Some? && |r.m2mJoinFields| <= |r.joinFields|
  }

  /**
    One condition between the mapping table and the target: for an array
    relation, `m2m.col = ANY(target.col)` when the target key is an array,
    else `m2m.col @> ARRAY[target.col]` when the mapping key is; otherwise
    `target.col = m2m.col`.
  */
  function M2MCond(j: RelationJoin, i: nat): QueryWithArgs
    requires M2MReady(j.relation) && i < |j.relation.m2mJoinFields|
  {
    var m2m := j.relation.m2mTable.value.sqlAlias;
    var mf := j.relation.m2mJoinFields[i];
    var jf := j.relation.joinFields[i];
    var t := j.joinTable.sqlAlias;
    if j.relation.isArrayRelation && jf.hasArray then
      QueryWithArgs("?.? = ANY(?.?)", Some([Safe(m2m), Safe(mf.sqlName), Safe(t), Safe(jf.sqlName)]))
    else if j.relation.isArrayRelation && mf.hasArray then
      QueryWithArgs("?.? @> ARRAY[?.?]", Some([Safe(m2m), Safe(mf.sqlName), Safe(t), Safe(jf.sqlName)]))
    else
      QueryWithArgs("?.? = ?.?", Some([Safe(t), Safe(jf.sqlName), Safe(m2m), Safe(mf.sqlName)]))
  }

  function M2MConds(j: RelationJoin): (r: seq<QueryWithArgs>)
    requires M2MReady(j.relation)
    ensures |r| == |j.relation.m2mJoinFields| && forall i :: 0 <= i < |r| ==> r[i] == M2MCond(j, i)
  {
    seq(|j.relation.m2mJoinFields|, i requires 0 <= i < |j.relation.m2mJoinFields| => M2MCond(j, i))
  }

  function M2MColumnTexts(alias: string, fields: seq<Field>): (r: seq<string>)
    ensures |r| == |fields| && forall i :: 0 <= i < |fields| ==> r[i] == alias + "." + fields[i].sqlName
  {
    seq(|fields|, i requires 0 <= i < |fields| => alias + "." + fields[i].sqlName)
  }

  /** The `JOIN` of the mapping table on its base keys. */
  function M2MJoinText(env: Env, j: RelationJoin, batch: Batch): string
    requires M2MReady(j.relation)
  {
    var m2m := j.relation.m2mTable.value;
    "JOIN " + env.appendQuery(m2m.sqlName, []) + " AS " + m2m.sqlAlias + " ON ("
      + Join(M2MColumnTexts(m2m.sqlAlias, j.relation.m2mBaseFields), ", ") + ") IN ("
      + ChildValuesText(env, batch, j.relation.baseFields) + ")"
      + (if |j.additionalJoinOnConditions| > 0 then " AND " + AdditionalConds(env, j.additionalJoinOnConditions) else "")
  }

  /**
    `m2mQuery`: no query without a many-to-many model; otherwise the
    mapping table's base keys are selected, the mapping table is joined,
    one condition per key pair is added, and the callback and column list
    follow.
  */
  function M2MResult(env: Env, j: RelationJoin, q: SelectQuery, batch: Batch, hasModel: bool): Option<(seq<QueryWithArgs>, SelectQuery)>
    requires M2MReady(j.relation)
  {
    if !hasModel then None
    else
      var m2m := j.relation.m2mTable.value;
      var q1 := ColumnExpr(q.(model := M2MOf), env.appendColumns(m2m.sqlAlias, j.relation.m2mBaseFields));
      var q2 := AddJoin(q1, M2MJoinText(env, j, batch));
      var q3 := q2.(wheres := q2.wheres + M2MConds(j));
      var applied := ApplyTo(j, q3);
      Some((applied.0, HasManyColumnsResult(env, j.(columns := applied.0), applied.1)))
  }

  method AppendM2MColumns(b: string, alias: string, fields: seq<Field>) returns (r: string)
    ensures r == b + Join(M2MColumnTexts(alias, fields), ", ")
  {
    ghost var cs := M2MColumnTexts(alias, fields);
    r := b;
    var i := 0;
    while i < |fields|
      invariant 0 <= i <= |fields|
      invariant r == b + Join(cs[..i], ", ")
    {
      JoinStep(cs, i, ", ");
      if i > 0 {
        r := r + ", ";
      }
      r := r + alias + "." + fields[i].sqlName;
      i := i + 1;
    }
    assert cs[..i] == cs;
  }

  /** The mapping-table `JOIN` of `m2mQuery`. */
  method AppendM2MJoin(env: Env, j: RelationJoin, batch: Batch) returns (join: string)
    requires M2MReady(j.relation)
    ensures join == M2MJoinText(env, j, batch)
  {
    var m2m := j.relation.m2mTable.value;
    join := "JOIN ";
    join := join + env.appendQuery(m2m.sqlName, []);
    join := join + " AS " + m2m.sqlAlias + " ON (";
    join := AppendM2MColumns(join, m2m.sqlAlias, j.relation.m2mBaseFields);
    join := join + ") IN (";
    join := AppendChildValues(env, join, batch, j.relation.baseFields);
    join := join + ")";
    ghost var head := join;
    if |j.additionalJoinOnConditions| > 0 {
      join := join + " AND ";
      join := AppendAdditionalJoinOnConditions(env, join, j.additionalJoinOnConditions);
      assert join == head + (" AND " + AdditionalConds(env, j.additionalJoinOnConditions));
    } else {
      assert join == head + "";
    }
  }

  method AppendM2MWheres(q: SelectQuery, j: RelationJoin) returns (r: SelectQuery)
    requires M2MReady(j.relation)
    ensures r == q.(wheres := q.wheres + M2MConds(j))
  {
    ghost var cs := M2MConds(j);
    var m2m := j.relation.m2mTable.value.sqlAlias;
    var t := j.joinTable.sqlAlias;
    r := q;
    var i := 0;
    while i < |j.relation.m2mJoinFields|
      invariant 0 <= i <= |j.relation.m2mJoinFields|
      invariant r == q.(wheres := q.wheres + cs[..i])
    {
      var mf := j.relation.m2mJoinFields[i];
      var jf := j.relation.joinFields[i];
      assert cs[..i + 1] == cs[..i] + [cs[i]];
      if j.relation.isArrayRelation {
        if jf.hasArray {
          r := Where(r, QueryWithArgs("?.? = ANY(?.?)", Some([Safe(m2m), Safe(mf.sqlName), Safe(t), Safe(jf.sqlName)])));
        } else if mf.hasArray {
          r := Where(r, QueryWithArgs("?.? @> ARRAY[?.?]", Some([Safe(m2m), Safe(mf.sqlName), Safe(t), Safe(jf.sqlName)])));
        } else {
          r := Where(r, QueryWithArgs("?.? = ?.?", Some([Safe(t), Safe(jf.sqlName), Safe(m2m), Safe(mf.sqlName)])));
        }
      } else {
        r := Where(r, QueryWithArgs("?.? = ?.?", Some([Safe(t), Safe(jf.sqlName), Safe(m2m), Safe(mf.sqlName)])));
      }
      i := i + 1;
    }
    assert cs[..i] == cs;
  }

  method M2MQuery(env: Env, j: RelationJoin, q: SelectQuery, batch: Batch, hasModel: bool)
    returns (res: Option<(seq<QueryWithArgs>, SelectQuery)>)
    requires M2MReady(j.relation)
    ensures res == M2MResult(env, j, q, batch, hasModel)
  {
    if !hasModel {
      return None;
    }
    var r := q.(model := M2MOf);
    var m2m := j.relation.m2mTable.value;
    r := ColumnExpr(r, env.appendColumns(m2m.sqlAlias, j.relation.m2mBaseFields));
    var join := AppendM2MJoin(env, j, batch);
    r := AddJoin(r, join);
    r := AppendM2MWheres(r, j);
    var applied := ApplyTo(j, r);
    r := HasManyColumns(env, j.(columns := applied.0), applied.1);
    res := Some((applied.0, r));
  }

  /** Without the array flag every mapping condition is the equality `target.col = m2m.col`. */
  lemma M2MEqualities(j: RelationJoin, i: nat)
    requires M2MReady(j.relation) && i < |j.relation.m2mJoinFields| && !j.relation.isArrayRelation
    ensures M2MCond(j, i).query == "?.? = ?.?"
    ensures M2MCond(j, i).args == Some([Safe(j.joinTable.sqlAlias), Safe(j.relation.joinFields[i].sqlName),
      Safe(j.relation.m2mTable.value.sqlAlias), Safe(j.relation.m2mJoinFields[i].sqlName)])
  {
  }

  /**
    Without a callback, the many-to-many query adds one join, the mapping
    conditions in key order after the existing conditions, and the mapping
    table's key columns before the column list.
  */
  lemma M2MQueryShape(env: Env, j: RelationJoin, q: SelectQuery, batch: Batch)
    requires M2MReady(j.relation) && j.apply.None?
    ensures M2MResult(env, j, q, batch, false).None?
    ensures var r := M2MResult(env, j, q, batch, true).value.1;
      r.wheres == q.wheres + M2MConds(j) && r.joins == q.joins + [Raw(M2MJoinText(env, j, batch))] &&
      |r.columns| >= |q.columns| + 1 && r.columns[|q.columns|] == Raw(env.appendColumns(j.relation.m2mTable.value.sqlAlias, j.relation.m2mBaseFields))
  {
  }
}
