/**
  The relation descriptor (schema/relation.go) and the parts of the field and
  table descriptors that the relation-resolution code reads.

  Field values are pre-rendered: a `Value` carries the SQL literal that
  `Field.AppendValue` would write and the `%v` rendering of the value that
  `indirectAsKey` returns, which is what goes into a composite map key. A
  struct instance is a map from field name to value; a field that holds no
  entry holds its zero value.
*/
module Schema {
  import opened Wrappers

  datatype Value = Value(sql: string, key: string)

  /**
    A struct field. `name` is the column name, `sqlName` the quoted column
    name, `goName` the Go field name; `hasArray` is whether the field's tag
    carries the `array` option.
  */
  datatype Field = Field(
    name: string,
    sqlName: string,
    goName: string,
    hasArray: bool,
    isPtr: bool,
    nullZero: bool,
    zero: Value)

  /** One struct instance: field name to value. */
  type Struct = map<string, Value>

  /** The value `f` holds in `s`. */
  function ValueOf(s: Struct, f: Field): (v: Value)
    ensures f.name !in s ==> v == f.zero
  {
    if f.name in s then s[f.name] else f.zero
  }

  /**
    A table descriptor. `fieldMap` maps column names to fields;
    `columnLookup` is what `LookupField` consults, which also resolves
    column aliases.
  */
  datatype Table = Table(
    typeName: string,
    sqlName: string,
    sqlNameForSelects: string,
    sqlAlias: string,
    fields: seq<Field>,
    fieldMap: map<string, Field>,
    columnLookup: map<string, Field>,
    softDeleteField: Option<Field>)

  const InvalidRelation: int := 0
  const HasOneRelation: int := 1
  const BelongsToRelation: int := 2
  const HasManyRelation: int := 3
  const ManyToManyRelation: int := 4

  /** The kind constants, in declaration order with consecutive values from zero. */
  function Kinds(): (ks: seq<int>)
    ensures |ks| == 5
    ensures forall i :: 0 <= i < |ks| ==> ks[i] == i
  {
    [InvalidRelation, HasOneRelation, BelongsToRelation, HasManyRelation, ManyToManyRelation]
  }

  datatype Relation = Relation(
    typ: int,
    field: Option<Field>,
    joinTable: Option<Table>,
    baseFields: seq<Field>,
    joinFields: seq<Field>,
    onUpdate: string,
    onDelete: string,
    condition: seq<string>,
    polymorphicField: Option<Field>,
    polymorphicValue: string,
    m2mTable: Option<Table>,
    m2mBaseFields: seq<Field>,
    m2mJoinFields: seq<Field>,
    isArrayRelation: bool)
  {
    /** Whether the owning table declares the foreign key. */
    predicate References() {
      typ == HasOneRelation || typ == BelongsToRelation
    }

    /** Whether the relation is based on an array field. */
    predicate IsArray() {
      isArrayRelation || (field.Some? && field.value.hasArray)
    }

    /** The relation's display form; dereferences the relation field. */
    function String(): (s: string)
      requires field.Some?
      ensures |s| == 9 + |field.value.goName| && s[..9] == "relation=" && s[9..] == field.value.goName
    {
      "relation=" + field.value.goName
    }
  }

  /** A new relation: kind, field, join table and array flag set, everything else zero. */
  function NewRelation(typ: int, field: Option<Field>, joinTable: Option<Table>, isArray: bool): (r: Relation)
    ensures r.typ == typ && r.field == field && r.joinTable == joinTable && r.isArrayRelation == isArray
    ensures r.baseFields == [] && r.joinFields == [] && r.condition == []
    ensures r.onUpdate == "" && r.onDelete == ""
    ensures r.polymorphicField == None && r.polymorphicValue == ""
    ensures r.m2mTable == None && r.m2mBaseFields == [] && r.m2mJoinFields == []
  {
    Relation(typ, field, joinTable, [], [], "", "", [], None, "", None, [], [], isArray)
  }

  /** Only has-one and belongs-to relations declare the key on the owning side. */
  lemma ReferencesByKind(r: Relation)
    ensures r.References() <==> r.typ in Kinds()[1..3]
    ensures r.typ == HasManyRelation || r.typ == ManyToManyRelation || r.typ == InvalidRelation ==> !r.References()
  {
    assert Kinds()[1..3] == [HasOneRelation, BelongsToRelation];
  }

  /**
    The array flag alone makes a relation an array relation, even without a
    field; without the flag and without a field it is not one.
  */
  lemma IsArrayCases(r: Relation)
    ensures r.isArrayRelation ==> r.IsArray()
    ensures !r.isArrayRelation && r.field.None? ==> !r.IsArray()
    ensures !r.isArrayRelation && r.field.Some? ==> (r.IsArray() <==> r.field.value.hasArray)
  {
  }

  /** A fresh relation is an array relation exactly when asked to be or when its field is tagged `array`. */
  lemma NewRelationIsArray(typ: int, field: Option<Field>, joinTable: Option<Table>, isArray: bool)
    ensures NewRelation(typ, field, joinTable, isArray).IsArray() <==> isArray || (field.Some? && field.value.hasArray)
  {
  }

  /** Some field in the list carries the `array` option. */
  predicate AnyArray(fields: seq<Field>) {
    exists i :: 0 <= i < |fields| && fields[i].hasArray
  }

  /**
    The scan for the first field tagged `array`, stopping at the first hit,
    that several builders run before choosing their array path: the loops
    at the head of `appendChildValues` and the key-condition builders in
    relation_join.go, and of `baseValues` in model_table_has_many.go. It
    lives here, beside `AnyArray`, because both modules use it.
  */
  method FindArrayField(fields: seq<Field>) returns (found: bool, index: nat)
    ensures found <==> AnyArray(fields)
    ensures found ==> index < |fields| && fields[index].hasArray
    ensures found ==> forall k :: 0 <= k < index ==> !fields[k].hasArray
  {
    found, index := false, 0;
    var i := 0;
    while i < |fields|
      invariant 0 <= i <= |fields|
      invariant forall k :: 0 <= k < i ==> !fields[k].hasArray
    {
      if fields[i].hasArray {
        found, index := true, i;
        return;
      }
      i := i + 1;
    }
  }
}
