/**
  The has-many result assembler (model_table_has_many.go).

  Before the query runs, the owners reached from the root value are indexed
  by the composite key of their base fields: key to the list of destination
  slots (each owner's relation slice). While rows are scanned, one column at
  a time, the row's join-key values are captured; each finished row is then
  parked: appended to every slot listed under its key.

  The walk over the owner batch is given as the sequence of owners it
  visits; a slot is a number naming one owner's relation slice, and the
  slices are a map from slot to contents. In pointer mode a struct is
  identified by its address, a number drawn from a counter.
*/
module HasMany {
  import opened Wrappers
  import opened Strings
  import opened Schema
  import opened MapKeys

  /** How `%v` renders a nil interface value: the key of a join column no row has filled. */
  const NilText: string := "<nil>"

  /** An owner visited by the walk: its field values and its relation slot. */
  datatype Owner = Owner(values: Struct, slot: nat)

  /** A driver value for one column: convertible into the field, or not. */
  datatype Src = Convertible(value: Value) | Unconvertible(reason: string)

  /** An element of a relation slice: a struct copy, or a pointer to a struct. */
  datatype Elem = ByValue(s: Struct) | ByPointer(addr: nat, s: Struct)

  datatype ScanError =
    | MissingColumn(typeName: string, column: string)
    | ScanFailed(reason: string)
    | MissingBase(relation: Option<string>, key: seq<string>)
    | RowsFailed(reason: string)

  type Index = map<MapKey, seq<nat>>
  type Slices = map<nat, seq<Elem>>

  function Lookup(m: Index, k: MapKey): seq<nat> {
    if k in m then m[k] else []
  }

  function Slice(slices: Slices, slot: nat): seq<Elem> {
    if slot in slices then slices[slot] else []
  }

  // ---------------------------------------------------------------------
  // The owner index
  // ---------------------------------------------------------------------

  /** The key values of a struct: one rendering per field, in field order. */
  function RowKey(s: Struct, fields: seq<Field>): (k: seq<string>)
    ensures |k| == |fields|
    ensures forall i :: 0 <= i < |fields| ==> k[i] == ValueOf(s, fields[i]).key
    decreases |fields|
  {
    if fields == [] then [] else RowKey(s, fields[..|fields| - 1]) + [ValueOf(s, fields[|fields| - 1]).key]
  }

  /**
    The key list an owner is filed under: in array mode the root value's ID
    alone, whatever the owner holds; otherwise its base-field values.
  */
  function OwnerKey(o: Owner, fields: seq<Field>, rootID: string): seq<string> {
    if AnyArray(fields) then [rootID] else RowKey(o.values, fields)
  }

  /** The index the walk builds, owner by owner. */
  function IndexOf(owners: seq<Owner>, fields: seq<Field>, rootID: string): Index
    decreases |owners|
  {
    if owners == [] then map[]
    else
      var m := IndexOf(owners[..|owners| - 1], fields, rootID);
      var o := owners[|owners| - 1];
      var k := KeyOf(OwnerKey(o, fields, rootID));
      m[k := Lookup(m, k) + [o.slot]]
  }

  /** The slots of the owners filed under `k`, in visiting order. */
  function SlotsUnder(owners: seq<Owner>, fields: seq<Field>, rootID: string, k: MapKey): seq<nat>
    decreases |owners|
  {
    if owners == [] then []
    else
      var o := owners[|owners| - 1];
      SlotsUnder(owners[..|owners| - 1], fields, rootID, k) + (if KeyOf(OwnerKey(o, fields, rootID)) == k then [o.slot] else [])
  }

  /** Every slot, in visiting order. */
  function AllSlots(owners: seq<Owner>): (r: seq<nat>)
    ensures |r| == |owners| && forall i :: 0 <= i < |owners| ==> r[i] == owners[i].slot
    decreases |owners|
  {
    if owners == [] then [] else AllSlots(owners[..|owners| - 1]) + [owners[|owners| - 1].slot]
  }

  /**
    The index lists under each key exactly the owners filed under it, in
    visiting order, and holds a key exactly when some owner is filed under it.
  */
  lemma {:induction false} IndexLookup(owners: seq<Owner>, fields: seq<Field>, rootID: string, k: MapKey)
    ensures Lookup(IndexOf(owners, fields, rootID), k) == SlotsUnder(owners, fields, rootID, k)
    ensures k in IndexOf(owners, fields, rootID) <==> SlotsUnder(owners, fields, rootID, k) != []
    decreases |owners|
  {
    if owners != [] {
      IndexLookup(owners[..|owners| - 1], fields, rootID, k);
    }
  }

  /** The index is empty exactly when the walk visits no owner. */
  lemma IndexEmpty(owners: seq<Owner>, fields: seq<Field>, rootID: string)
    ensures |IndexOf(owners, fields, rootID)| == 0 <==> owners == []
  {
    if owners != [] {
      var k := KeyOf(OwnerKey(owners[|owners| - 1], fields, rootID));
      assert k in IndexOf(owners, fields, rootID);
    }
  }

  /** An owner is always listed under the key of its own key list. */
  lemma {:induction false} OwnerListed(owners: seq<Owner>, fields: seq<Field>, rootID: string, i: nat)
    requires i < |owners|
    ensures owners[i].slot in Lookup(IndexOf(owners, fields, rootID), KeyOf(OwnerKey(owners[i], fields, rootID)))
    decreases |owners|
  {
    var k := KeyOf(OwnerKey(owners[i], fields, rootID));
    if i < |owners| - 1 {
      OwnerListed(owners[..|owners| - 1], fields, rootID, i);
      IndexLookup(owners[..|owners| - 1], fields, rootID, k);
      IndexLookup(owners, fields, rootID, k);
    }
  }

  /** In array mode every owner goes under the root ID's key, and no other key exists. */
  lemma {:induction false} ArrayIndex(owners: seq<Owner>, fields: seq<Field>, rootID: string, k: MapKey)
    requires AnyArray(fields)
    ensures SlotsUnder(owners, fields, rootID, k) == (if k == KeyOf([rootID]) then AllSlots(owners) else [])
    decreases |owners|
  {
    if owners != [] {
      ArrayIndex(owners[..|owners| - 1], fields, rootID, k);
    }
  }

  /**
    The lookup a row makes meets the index: outside array mode, a row whose
    join-key renderings equal an owner's base-key renderings finds that
    owner's slot under its key.
  */
  lemma RowFindsOwner(owners: seq<Owner>, fields: seq<Field>, rootID: string, i: nat, structKey: seq<string>)
    requires i < |owners| && !AnyArray(fields)
    requires structKey == RowKey(owners[i].values, fields)
    ensures owners[i].slot in Lookup(IndexOf(owners, fields, rootID), KeyOf(structKey))
  {
    OwnerListed(owners, fields, rootID, i);
  }

  /** One more owner files its slot under its key. */
  lemma IndexSnoc(owners: seq<Owner>, fields: seq<Field>, rootID: string, i: nat)
    requires i < |owners|
    ensures var k := KeyOf(OwnerKey(owners[i], fields, rootID));
      var m := IndexOf(owners[..i], fields, rootID);
      IndexOf(owners[..i + 1], fields, rootID) == m[k := Lookup(m, k) + [owners[i].slot]]
  {
    assert owners[..i + 1][..i] == owners[..i];
  }

  /** `modelKey`: appends one rendering per field, in field order. */
  method ModelKey(key: seq<string>, strct: Struct, fields: seq<Field>) returns (r: seq<string>)
    ensures r == key + RowKey(strct, fields)
  {
    r := key;
    var i := 0;
    while i < |fields|
      invariant 0 <= i <= |fields|
      invariant r == key + RowKey(strct, fields[..i])
    {
      assert fields[..i + 1][..i] == fields[..i];
      r := r + [ValueOf(strct, fields[i]).key];
      i := i + 1;
    }
    assert fields[..i] == fields;
  }

  /** `baseValues`: the owner index built by the walk. */
  method BaseValues(owners: seq<Owner>, fields: seq<Field>, rootID: string) returns (m: Index)
    ensures m == IndexOf(owners, fields, rootID)
  {
    var isArrayRelation, _ := FindArrayField(fields);
    m := map[];
    var i := 0;
    if isArrayRelation {
      while i < |owners|
        invariant 0 <= i <= |owners|
        invariant m == IndexOf(owners[..i], fields, rootID)
      {
        IndexSnoc(owners, fields, rootID, i);
        var parentKey := [rootID];
        assert OwnerKey(owners[i], fields, rootID) == parentKey;
        var mapKey := NewMapKey(parentKey);
        m := m[mapKey := Lookup(m, mapKey) + [owners[i].slot]];
        i := i + 1;
      }
    } else {
      var key: seq<string> := [];
      while i < |owners|
        invariant 0 <= i <= |owners|
        invariant m == IndexOf(owners[..i], fields, rootID)
      {
        IndexSnoc(owners, fields, rootID, i);
        key := ModelKey([], owners[i].values, fields);
        assert OwnerKey(owners[i], fields, rootID) == key;
        var mapKey := NewMapKey(key);
        m := m[mapKey := Lookup(m, mapKey) + [owners[i].slot]];
        i := i + 1;
      }
    }
    assert owners[..i] == owners;
  }

  // ---------------------------------------------------------------------
  // Scanning one column
  // ---------------------------------------------------------------------

  /** The first field named `name`, if any. */
  function FirstNamed(fields: seq<Field>, name: string): (r: Option<nat>)
    ensures r.Some? ==> r.value < |fields| && fields[r.value].name == name
    ensures r.Some? ==> forall k :: 0 <= k < r.value ==> fields[k].name != name
    ensures r.None? ==> forall k :: 0 <= k < |fields| ==> fields[k].name != name
    decreases |fields|
  {
    if fields == [] then None
    else if fields[0].name == name then Some(0)
    else match FirstNamed(fields[1..], name)
      case None => None
      case Some(k) => Some(k + 1)
  }

  /** The per-row scanning state: the struct being filled, the captured key values, the column cursor. */
  datatype RowState = RowState(strct: Struct, structKey: seq<string>, scanIndex: nat)

  /**
    One `Scan` call: the cursor always moves on; a column without a field,
    or a value the field cannot take, is an error that writes nothing;
    otherwise the field is set and, if the column is a join field's, the
    first such position of the key records the field's value.
  */
  function ScanCell(t: Table, keys: seq<Field>, columns: seq<string>, st: RowState, src: Src): (r: (RowState, Option<ScanError>))
    requires st.scanIndex < |columns|
    requires |st.structKey| == |keys|
    ensures r.0.scanIndex == st.scanIndex + 1 && |r.0.structKey| == |keys|
    ensures r.1.Some? ==> r.0.strct == st.strct && r.0.structKey == st.structKey
    ensures columns[st.scanIndex] !in t.columnLookup ==> r.1 == Some(MissingColumn(t.typeName, columns[st.scanIndex]))
    ensures columns[st.scanIndex] in t.columnLookup && src.Unconvertible? ==> r.1 == Some(ScanFailed(src.reason))
    ensures columns[st.scanIndex] in t.columnLookup ==> (r.1.None? <==> src.Convertible?)
    ensures r.1.None? ==>
      (columns[st.scanIndex] in t.columnLookup && src.Convertible? &&
       r.0.strct == st.strct[t.columnLookup[columns[st.scanIndex]].name := src.value])
    ensures forall k :: 0 <= k < |keys| && FirstNamed(keys, columns[st.scanIndex]) != Some(k) ==> r.0.structKey[k] == st.structKey[k]
  {
    var column := columns[st.scanIndex];
    var st1 := st.(scanIndex := st.scanIndex + 1);
    if column !in t.columnLookup then (st1, Some(MissingColumn(t.typeName, column)))
    else match src
      case Unconvertible(reason) => (st1, Some(ScanFailed(reason)))
      case Convertible(v) =>
        var f := t.columnLookup[column];
        var s := st.strct[f.name := v];
        var key := match FirstNamed(keys, column)
          case None => st.structKey
          case Some(i) => st.structKey[i := ValueOf(s, f).key];
        (st1.(strct := s, structKey := key), None)
  }

  /** A successful scan of a join column records the scanned value at the first matching key position. */
  lemma ScanCellRecordsKey(t: Table, keys: seq<Field>, columns: seq<string>, st: RowState, v: Value, i: nat)
    requires st.scanIndex < |columns| && |st.structKey| == |keys|
    requires columns[st.scanIndex] in t.columnLookup
    requires FirstNamed(keys, columns[st.scanIndex]) == Some(i)
    ensures ScanCell(t, keys, columns, st, Convertible(v)).1 == None
    ensures ScanCell(t, keys, columns, st, Convertible(v)).0.structKey[i] == v.key
  {
  }

  /** `rows.Scan`: every column of the row in order, stopping at the first error. */
  function ScanCells(t: Table, keys: seq<Field>, columns: seq<string>, st: RowState, cells: seq<Src>, i: nat): (r: (RowState, Option<ScanError>))
    requires |cells| == |columns| && i <= |cells| && st.scanIndex == i
    requires |st.structKey| == |keys|
    ensures |r.0.structKey| == |keys|
    decreases |cells| - i
  {
    if i == |cells| then (st, None)
    else
      var (st1, err) := ScanCell(t, keys, columns, st, cells[i]);
      if err.Some? then (st1, err) else ScanCells(t, keys, columns, st1, cells, i + 1)
  }

  // ---------------------------------------------------------------------
  // Parking one row
  // ---------------------------------------------------------------------

  /**
    What the `k`-th listed slot receives: a copy of the row in value mode;
    in pointer mode the row's own pointer for the first slot and a pointer
    to a fresh clone, numbered from `base`, for each later one.
  */
  function ElemFor(k: nat, sliceOfPtr: bool, strct: Struct, addr: nat, base: nat): Elem {
    if !sliceOfPtr then ByValue(strct)
    else if k == 0 then ByPointer(addr, strct)
    else ByPointer(base + k - 1, strct)
  }

  /** The clones allocated while parking into `n` slots. */
  function Clones(n: nat, sliceOfPtr: bool): nat {
    if sliceOfPtr && n > 0 then n - 1 else 0
  }

  /** The slices after the first `n` listed slots have received their element. */
  function Parked(slices: Slices, slots: seq<nat>, n: nat, sliceOfPtr: bool, strct: Struct, addr: nat, base: nat): Slices
    requires n <= |slots|
    decreases n
  {
    if n == 0 then slices
    else
      var p := Parked(slices, slots, n - 1, sliceOfPtr, strct, addr, base);
      p[slots[n - 1] := Slice(p, slots[n - 1]) + [ElemFor(n - 1, sliceOfPtr, strct, addr, base)]]
  }

  /** A slot that is not listed keeps its contents. */
  lemma {:induction false} ParkedOther(slices: Slices, slots: seq<nat>, n: nat, sliceOfPtr: bool, strct: Struct, addr: nat, base: nat, x: nat)
    requires n <= |slots| && x !in slots[..n]
    ensures Slice(Parked(slices, slots, n, sliceOfPtr, strct, addr, base), x) == Slice(slices, x)
    decreases n
  {
    if n > 0 {
      assert x !in slots[..n - 1] by {
        assert slots[..n - 1] == slots[..n][..n - 1];
      }
      assert slots[n - 1] == slots[..n][n - 1];
      ParkedOther(slices, slots, n - 1, sliceOfPtr, strct, addr, base, x);
    }
  }

  /**
    Parking only appends: every slot keeps its old contents as a prefix and
    grows by exactly one element per time it is listed.
  */
  lemma {:induction false} ParkedGrowth(slices: Slices, slots: seq<nat>, n: nat, sliceOfPtr: bool, strct: Struct, addr: nat, base: nat, x: nat)
    requires n <= |slots|
    ensures Slice(slices, x) <= Slice(Parked(slices, slots, n, sliceOfPtr, strct, addr, base), x)
    ensures |Slice(Parked(slices, slots, n, sliceOfPtr, strct, addr, base), x)| == |Slice(slices, x)| + Count(x, slots[..n])
    decreases n
  {
    if n > 0 {
      ParkedGrowth(slices, slots, n - 1, sliceOfPtr, strct, addr, base, x);
      assert slots[..n] == slots[..n - 1] + [slots[n - 1]];
      assert slots[..n][..n - 1] == slots[..n - 1];
    }
  }

  /** With distinct slots, the `k`-th listed slot holds its old contents plus exactly its element. */
  lemma {:induction false} ParkedDistinct(slices: Slices, slots: seq<nat>, n: nat, sliceOfPtr: bool, strct: Struct, addr: nat, base: nat, k: nat)
    requires k < n <= |slots| && NoDuplicates(slots)
    ensures Slice(Parked(slices, slots, n, sliceOfPtr, strct, addr, base), slots[k])
      == Slice(slices, slots[k]) + [ElemFor(k, sliceOfPtr, strct, addr, base)]
    decreases n
  {
    if k < n - 1 {
      ParkedDistinct(slices, slots, n - 1, sliceOfPtr, strct, addr, base, k);
    } else {
      assert slots[k] !in slots[..k];
      ParkedOther(slices, slots, k, sliceOfPtr, strct, addr, base, slots[k]);
    }
  }

  /** Every pointer stored in the slices is below `bound`. */
  ghost predicate AddrsBelow(slices: Slices, bound: nat) {
    forall x, i :: x in slices && 0 <= i < |slices[x]| && slices[x][i].ByPointer? ==> slices[x][i].addr < bound
  }

  /** No two stored pointers, wherever they sit, point to the same struct. */
  ghost predicate DistinctAddrs(slices: Slices) {
    forall x, i, y, j :: x in slices && y in slices && 0 <= i < |slices[x]| && 0 <= j < |slices[y]|
      && slices[x][i].ByPointer? && slices[y][j].ByPointer? && (x != y || i != j)
      ==> slices[x][i].addr != slices[y][j].addr
  }

  /**
    Appending one element keeps the stored pointers distinct and below the
    new bound, when the element's pointer (if any) is at least the old bound.
  */
  lemma AppendFresh(slices: Slices, x: nat, e: Elem, bound: nat, bound2: nat)
    requires AddrsBelow(slices, bound) && DistinctAddrs(slices) && bound <= bound2
    requires e.ByPointer? ==> bound <= e.addr < bound2
    ensures AddrsBelow(slices[x := Slice(slices, x) + [e]], bound2)
    ensures DistinctAddrs(slices[x := Slice(slices, x) + [e]])
  {
  }

  /**
    Pointer mode allocates: when every stored pointer is distinct and below
    `bound`, and the row's own address and the clone counter start at or
    above it, the pointers parked for one row are new and pairwise
    distinct, and all pointers stay below the counter's new value.
  */
  lemma {:induction false} ParkedFresh(slices: Slices, slots: seq<nat>, n: nat, sliceOfPtr: bool, strct: Struct, addr: nat, base: nat, bound: nat)
    requires n <= |slots| && AddrsBelow(slices, bound) && DistinctAddrs(slices)
    requires sliceOfPtr ==> bound <= addr < base
    ensures AddrsBelow(Parked(slices, slots, n, sliceOfPtr, strct, addr, base), if sliceOfPtr && n > 0 then base + n - 1 else bound)
    ensures DistinctAddrs(Parked(slices, slots, n, sliceOfPtr, strct, addr, base))
    decreases n
  {
    if n > 0 {
      ParkedFresh(slices, slots, n - 1, sliceOfPtr, strct, addr, base, bound);
      var p := Parked(slices, slots, n - 1, sliceOfPtr, strct, addr, base);
      var b := if sliceOfPtr && n - 1 > 0 then base + n - 2 else bound;
      AppendFresh(p, slots[n - 1], ElemFor(n - 1, sliceOfPtr, strct, addr, base), b, if sliceOfPtr then base + n - 1 else bound);
    }
  }

  /**
    The Go name of the relation field, which the missing-base error quotes;
    `None` for a relation without a field, whose name the source would
    dereference at nil.
  */
  function FieldName(rel: Relation): Option<string> {
    if rel.field.Some? then Some(rel.field.value.goName) else None
  }

  /** The store a row is parked into: the slices and the allocation counter. */
  datatype Store = Store(slices: Slices, nextAddr: nat)

  /**
    `parkStruct`: a row whose key has no owner is an error that appends
    nothing; otherwise every listed slot receives its element.
  */
  function ParkRow(baseValues: Index, sliceOfPtr: bool, relation: Option<string>, strct: Struct, addr: nat, structKey: seq<string>, st: Store): (r: Result<Store, ScanError>)
    ensures KeyOf(structKey) !in baseValues <==> r.Failure?
    ensures r.Failure? ==> r.error == MissingBase(relation, structKey)
  {
    var k := KeyOf(structKey);
    if k !in baseValues then Failure(MissingBase(relation, structKey))
    else
      var slots := baseValues[k];
      Success(Store(Parked(st.slices, slots, |slots|, sliceOfPtr, strct, addr, st.nextAddr), st.nextAddr + Clones(|slots|, sliceOfPtr)))
  }

  // ---------------------------------------------------------------------
  // Scanning all rows
  // ---------------------------------------------------------------------

  /** What stays fixed while rows are scanned. */
  datatype Config = Config(table: Table, keys: seq<Field>, baseValues: Index, sliceOfPtr: bool, relation: Option<string>)

  /** The assembler's whole mutable state. */
  datatype State = State(strct: Struct, addr: nat, structKey: seq<string>, scanIndex: nat, store: Store)

  /** The start of a row: a fresh struct (pointer mode) or the zeroed one, and the cursor at column 0. */
  function BeginRow(st: State, sliceOfPtr: bool): (r: State)
    ensures r.strct == map[] && r.scanIndex == 0 && r.structKey == st.structKey && r.store.slices == st.store.slices
  {
    if sliceOfPtr then st.(strct := map[], addr := st.store.nextAddr, scanIndex := 0, store := st.store.(nextAddr := st.store.nextAddr + 1))
    else st.(strct := map[], scanIndex := 0)
  }

  predicate Arity(rows: seq<seq<Src>>, columns: seq<string>) {
    forall i :: 0 <= i < |rows| ==> |rows[i]| == |columns|
  }

  /** One row: begin it, scan its columns, park it; the first error stops it. */
  function RowStep(c: Config, columns: seq<string>, cells: seq<Src>, st: State): (r: (State, Option<ScanError>))
    requires |cells| == |columns| && |st.structKey| == |c.keys|
    ensures |r.0.structKey| == |c.keys|
  {
    var st1 := BeginRow(st, c.sliceOfPtr);
    var (row, err) := ScanCells(c.table, c.keys, columns, RowState(st1.strct, st1.structKey, 0), cells, 0);
    var st2 := st1.(strct := row.strct, structKey := row.structKey, scanIndex := row.scanIndex);
    if err.Some? then (st2, err)
    else match ParkRow(c.baseValues, c.sliceOfPtr, c.relation, st2.strct, st2.addr, st2.structKey, st2.store)
      case Failure(e) => (st2, Some(e))
      case Success(store) => (st2.(store := store), None)
  }

  /** A row only appends to slots, and only to slots listed under some key. */
  lemma RowStepAppendOnly(c: Config, columns: seq<string>, cells: seq<Src>, st: State, x: nat)
    requires |cells| == |columns| && |st.structKey| == |c.keys|
    ensures Slice(st.store.slices, x) <= Slice(RowStep(c, columns, cells, st).0.store.slices, x)
    ensures (forall k :: k in c.baseValues ==> x !in c.baseValues[k]) ==>
      Slice(RowStep(c, columns, cells, st).0.store.slices, x) == Slice(st.store.slices, x)
  {
    var st1 := BeginRow(st, c.sliceOfPtr);
    var (row, err) := ScanCells(c.table, c.keys, columns, RowState(st1.strct, st1.structKey, 0), cells, 0);
    var st2 := st1.(strct := row.strct, structKey := row.structKey, scanIndex := row.scanIndex);
    if err.None? {
      var k := KeyOf(st2.structKey);
      if k in c.baseValues {
        var slots := c.baseValues[k];
        ParkedGrowth(st2.store.slices, slots, |slots|, c.sliceOfPtr, st2.strct, st2.addr, st2.store.nextAddr, x);
        if forall k :: k in c.baseValues ==> x !in c.baseValues[k] {
          assert slots[..|slots|] == slots;
          ParkedOther(st2.store.slices, slots, |slots|, c.sliceOfPtr, st2.strct, st2.addr, st2.store.nextAddr, x);
        }
      }
    }
  }

  /**
    A row keeps the store's pointers distinct and below the allocation
    counter: each row is a new struct, and each later slot a new clone.
  */
  lemma RowStepFresh(c: Config, columns: seq<string>, cells: seq<Src>, st: State)
    requires |cells| == |columns| && |st.structKey| == |c.keys|
    requires AddrsBelow(st.store.slices, st.store.nextAddr) && DistinctAddrs(st.store.slices)
    ensures AddrsBelow(RowStep(c, columns, cells, st).0.store.slices, RowStep(c, columns, cells, st).0.store.nextAddr)
    ensures DistinctAddrs(RowStep(c, columns, cells, st).0.store.slices)
  {
    var st1 := BeginRow(st, c.sliceOfPtr);
    var (row, err) := ScanCells(c.table, c.keys, columns, RowState(st1.strct, st1.structKey, 0), cells, 0);
    var st2 := st1.(strct := row.strct, structKey := row.structKey, scanIndex := row.scanIndex);
    if err.None? {
      var k := KeyOf(st2.structKey);
      if k in c.baseValues {
        var slots := c.baseValues[k];
        ParkedFresh(st2.store.slices, slots, |slots|, c.sliceOfPtr, st2.strct, st2.addr, st2.store.nextAddr, st.store.nextAddr);
      }
    }
  }

  /** The outcome of scanning rows: the final state, the rows parked, and the error that stopped it. */
  datatype Outcome = Outcome(st: State, parked: nat, err: Option<ScanError>)

  /** The row loop from row `i` on, until a row fails or none is left. */
  function ScanAll(c: Config, columns: seq<string>, rows: seq<seq<Src>>, i: nat, st: State, parked: nat): (r: Outcome)
    requires i <= |rows| && Arity(rows, columns) && |st.structKey| == |c.keys|
    decreases |rows| - i
  {
    if i == |rows| then Outcome(st, parked, None)
    else
      var (st1, err) := RowStep(c, columns, rows[i], st);
      if err.Some? then Outcome(st1, parked, err)
      else ScanAll(c, columns, rows, i + 1, st1, parked + 1)
  }

  /** One turn of the row loop, as the loop sees it. */
  lemma ScanAllUnfold(c: Config, columns: seq<string>, rows: seq<seq<Src>>, i: nat, st: State, parked: nat)
    requires i < |rows| && Arity(rows, columns) && |st.structKey| == |c.keys|
    ensures var (st1, err) := RowStep(c, columns, rows[i], st);
      ScanAll(c, columns, rows, i, st, parked)
        == if err.Some? then Outcome(st1, parked, err) else ScanAll(c, columns, rows, i + 1, st1, parked + 1)
  {
  }

  /** Without an error every row is parked; in any case no more rows than were left. */
  lemma {:induction false} ScanAllCount(c: Config, columns: seq<string>, rows: seq<seq<Src>>, i: nat, st: State, parked: nat)
    requires i <= |rows| && Arity(rows, columns) && |st.structKey| == |c.keys|
    ensures ScanAll(c, columns, rows, i, st, parked).err.None? ==> ScanAll(c, columns, rows, i, st, parked).parked == parked + |rows| - i
    ensures ScanAll(c, columns, rows, i, st, parked).parked <= parked + |rows| - i
    decreases |rows| - i
  {
    if i < |rows| {
      var (st1, err) := RowStep(c, columns, rows[i], st);
      if err.None? {
        ScanAllCount(c, columns, rows, i + 1, st1, parked + 1);
      }
    }
  }

  /**
    No rollback: whatever happens, every slot keeps what it held before and
    only grows, and a slot listed under no key is never touched.
  */
  lemma {:induction false} ScanAllAppendOnly(c: Config, columns: seq<string>, rows: seq<seq<Src>>, i: nat, st: State, parked: nat, x: nat)
    requires i <= |rows| && Arity(rows, columns) && |st.structKey| == |c.keys|
    ensures Slice(st.store.slices, x) <= Slice(ScanAll(c, columns, rows, i, st, parked).st.store.slices, x)
    ensures (forall k :: k in c.baseValues ==> x !in c.baseValues[k]) ==>
      Slice(ScanAll(c, columns, rows, i, st, parked).st.store.slices, x) == Slice(st.store.slices, x)
    decreases |rows| - i
  {
    if i < |rows| {
      var (st1, err) := RowStep(c, columns, rows[i], st);
      RowStepAppendOnly(c, columns, rows[i], st, x);
      if err.None? {
        ScanAllAppendOnly(c, columns, rows, i + 1, st1, parked + 1, x);
      }
    }
  }

  /**
    Across the whole row loop, whatever stops it, the stored pointers stay
    pairwise distinct and below the allocation counter.
  */
  lemma {:induction false} ScanAllFresh(c: Config, columns: seq<string>, rows: seq<seq<Src>>, i: nat, st: State, parked: nat)
    requires i <= |rows| && Arity(rows, columns) && |st.structKey| == |c.keys|
    requires AddrsBelow(st.store.slices, st.store.nextAddr) && DistinctAddrs(st.store.slices)
    ensures var out := ScanAll(c, columns, rows, i, st, parked);
      AddrsBelow(out.st.store.slices, out.st.store.nextAddr) && DistinctAddrs(out.st.store.slices)
    decreases |rows| - i
  {
    if i < |rows| {
      var (st1, err) := RowStep(c, columns, rows[i], st);
      RowStepFresh(c, columns, rows[i], st);
      if err.None? {
        ScanAllFresh(c, columns, rows, i + 1, st1, parked + 1);
      }
    }
  }

  /** The struct key each row is filed under, row by row, until a row fails. */
  function FiledKeys(c: Config, columns: seq<string>, rows: seq<seq<Src>>, i: nat, st: State): (r: seq<seq<string>>)
    requires i <= |rows| && Arity(rows, columns) && |st.structKey| == |c.keys|
    ensures |r| <= |rows| - i
    decreases |rows| - i
  {
    if i == |rows| then []
    else
      var (st1, err) := RowStep(c, columns, rows[i], st);
      if err.Some? then [] else [st1.structKey] + FiledKeys(c, columns, rows, i + 1, st1)
  }

  /** How many times slot `x` is listed under the given keys, all told. */
  function Listings(x: nat, baseValues: Index, keys: seq<seq<string>>): nat
    decreases |keys|
  {
    if keys == [] then 0 else Count(x, Lookup(baseValues, KeyOf(keys[0]))) + Listings(x, baseValues, keys[1..])
  }

  /** A parked row grows each slot by the times the slot is listed under the row's key. */
  lemma RowStepGrowth(c: Config, columns: seq<string>, cells: seq<Src>, st: State, x: nat)
    requires |cells| == |columns| && |st.structKey| == |c.keys|
    ensures var (st1, err) := RowStep(c, columns, cells, st);
      err.None? ==> |Slice(st1.store.slices, x)| == |Slice(st.store.slices, x)| + Count(x, Lookup(c.baseValues, KeyOf(st1.structKey)))
  {
    var st1 := BeginRow(st, c.sliceOfPtr);
    var (row, err) := ScanCells(c.table, c.keys, columns, RowState(st1.strct, st1.structKey, 0), cells, 0);
    var st2 := st1.(strct := row.strct, structKey := row.structKey, scanIndex := row.scanIndex);
    if err.None? {
      var k := KeyOf(st2.structKey);
      if k in c.baseValues {
        var slots := c.baseValues[k];
        assert slots[..|slots|] == slots;
        ParkedGrowth(st2.store.slices, slots, |slots|, c.sliceOfPtr, st2.strct, st2.addr, st2.store.nextAddr, x);
      }
    }
  }

  /**
    A clean scan grows every slot by exactly the times it is listed under
    the keys the rows were filed under: one element per listing per row.
  */
  lemma {:induction false} ScanAllGrowth(c: Config, columns: seq<string>, rows: seq<seq<Src>>, i: nat, st: State, parked: nat, x: nat)
    requires i <= |rows| && Arity(rows, columns) && |st.structKey| == |c.keys|
    ensures var out := ScanAll(c, columns, rows, i, st, parked);
      out.err.None? ==>
        (|FiledKeys(c, columns, rows, i, st)| == |rows| - i &&
         |Slice(out.st.store.slices, x)| == |Slice(st.store.slices, x)| + Listings(x, c.baseValues, FiledKeys(c, columns, rows, i, st)))
    decreases |rows| - i
  {
    if i < |rows| {
      var (st1, err) := RowStep(c, columns, rows[i], st);
      if err.None? {
        RowStepGrowth(c, columns, rows[i], st, x);
        ScanAllGrowth(c, columns, rows, i + 1, st1, parked + 1, x);
        var ks := FiledKeys(c, columns, rows, i + 1, st1);
        assert ([st1.structKey] + ks)[1..] == ks;
      }
    }
  }

  /** A slot no owner holds is listed under no key. */
  lemma {:induction false} SlotsUnderAbsent(owners: seq<Owner>, fields: seq<Field>, rootID: string, k: MapKey, x: nat)
    requires forall o :: 0 <= o < |owners| ==> owners[o].slot != x
    ensures Count(x, SlotsUnder(owners, fields, rootID, k)) == 0
    decreases |owners|
  {
    if owners != [] {
      var pre := owners[..|owners| - 1];
      var tail := if KeyOf(OwnerKey(owners[|owners| - 1], fields, rootID)) == k then [owners[|owners| - 1].slot] else [];
      SlotsUnderAbsent(pre, fields, rootID, k, x);
      CountAppend(x, SlotsUnder(pre, fields, rootID, k), tail);
    }
  }

  /** Every owner the walk visits has a relation slice of its own. */
  predicate DistinctSlots(owners: seq<Owner>) {
    forall i, j :: 0 <= i < j < |owners| ==> owners[i].slot != owners[j].slot
  }

  /** With one slot per owner, an owner's slot is listed once under its own key and never under another. */
  lemma {:induction false} SlotsUnderOwner(owners: seq<Owner>, fields: seq<Field>, rootID: string, k: MapKey, o: nat)
    requires o < |owners| && DistinctSlots(owners)
    ensures Count(owners[o].slot, SlotsUnder(owners, fields, rootID, k))
      == if KeyOf(OwnerKey(owners[o], fields, rootID)) == k then 1 else 0
    decreases |owners|
  {
    var n := |owners|;
    var x := owners[o].slot;
    var pre := owners[..n - 1];
    var tail := if KeyOf(OwnerKey(owners[n - 1], fields, rootID)) == k then [owners[n - 1].slot] else [];
    var last := KeyOf(OwnerKey(owners[n - 1], fields, rootID)) == k;
    assert SlotsUnder(owners, fields, rootID, k) == SlotsUnder(pre, fields, rootID, k) + tail;
    assert Count(x, tail) == if last && owners[n - 1].slot == x then 1 else 0 by {
      if last {
        assert tail[..0] == [];
      }
    }
    CountAppend(x, SlotsUnder(pre, fields, rootID, k), tail);
    if o < n - 1 {
      assert owners[o].slot != owners[n - 1].slot;
      assert pre[o] == owners[o] && DistinctSlots(pre);
      SlotsUnderOwner(pre, fields, rootID, k, o);
    } else {
      SlotsUnderAbsent(pre, fields, rootID, k, x);
    }
  }

  /** How many of the keys are filed under the map key `k`. */
  function Matching(keys: seq<seq<string>>, k: MapKey): (r: nat)
    ensures r <= |keys|
    decreases |keys|
  {
    if keys == [] then 0 else (if KeyOf(keys[0]) == k then 1 else 0) + Matching(keys[1..], k)
  }

  /**
    Over an owner index with one slot per owner, an owner's slot is listed
    once for every row key equal to the owner's own key, and for no other.
  */
  lemma {:induction false} OwnerListings(owners: seq<Owner>, fields: seq<Field>, rootID: string, o: nat, keys: seq<seq<string>>)
    requires o < |owners| && DistinctSlots(owners)
    ensures Listings(owners[o].slot, IndexOf(owners, fields, rootID), keys)
      == Matching(keys, KeyOf(OwnerKey(owners[o], fields, rootID)))
    decreases |keys|
  {
    if keys != [] {
      IndexLookup(owners, fields, rootID, KeyOf(keys[0]));
      SlotsUnderOwner(owners, fields, rootID, KeyOf(keys[0]), o);
      OwnerListings(owners, fields, rootID, o, keys[1..]);
    }
  }

  /**
    The whole-scan count: over the owner index, with one slot per owner, a
    clean scan appends to each owner's slice exactly one element per row
    filed under the owner's own key.
  */
  lemma ScanOwnerGrowth(c: Config, columns: seq<string>, rows: seq<seq<Src>>, st: State,
                        owners: seq<Owner>, baseFields: seq<Field>, rootID: string, o: nat)
    requires Arity(rows, columns) && |st.structKey| == |c.keys|
    requires c.baseValues == IndexOf(owners, baseFields, rootID) && o < |owners| && DistinctSlots(owners)
    ensures var out := ScanAll(c, columns, rows, 0, st, 0);
      out.err.None? ==>
        |Slice(out.st.store.slices, owners[o].slot)| == |Slice(st.store.slices, owners[o].slot)|
          + Matching(FiledKeys(c, columns, rows, 0, st), KeyOf(OwnerKey(owners[o], baseFields, rootID)))
  {
    ScanAllGrowth(c, columns, rows, 0, st, 0, owners[o].slot);
    OwnerListings(owners, baseFields, rootID, o, FiledKeys(c, columns, rows, 0, st));
  }

  // ---------------------------------------------------------------------
  // The model object
  // ---------------------------------------------------------------------

  class HasManyModel {
    const baseTable: Table
    const table: Table
    const rel: Relation
    const sliceOfPtr: bool
    const baseValues: Index

    var columns: seq<string>
    var scanIndex: nat
    var strct: Struct
    var addr: nat
    var structKey: seq<string>
    var slices: Slices
    var nextAddr: nat

    ghost function Cfg(): Config {
      Config(table, rel.joinFields, baseValues, sliceOfPtr, FieldName(rel))
    }

    ghost function Current(): State
      reads this
    {
      State(strct, addr, structKey, scanIndex, Store(slices, nextAddr))
    }

    constructor (baseTable: Table, table: Table, rel: Relation, sliceOfPtr: bool, baseValues: Index, slices: Slices, nextAddr: nat)
      ensures this.baseTable == baseTable && this.table == table && this.rel == rel
      ensures this.sliceOfPtr == sliceOfPtr && this.baseValues == baseValues
      ensures columns == [] && scanIndex == 0 && strct == map[] && addr == 0 && structKey == []
      ensures this.slices == slices && this.nextAddr == nextAddr
    {
      this.baseTable := baseTable;
      this.table := table;
      this.rel := rel;
      this.sliceOfPtr := sliceOfPtr;
      this.baseValues := baseValues;
      columns := [];
      scanIndex := 0;
      strct := map[];
      addr := 0;
      structKey := [];
      this.slices := slices;
      this.nextAddr := nextAddr;
    }

    /**
      `newHasManyModel`: no model at all when the walk visits no owner;
      otherwise a model over the owner index.
    */
    static method New(baseTable: Table, table: Table, rel: Relation, sliceOfPtr: bool,
                      owners: seq<Owner>, rootID: string, slices: Slices, nextAddr: nat)
      returns (m: HasManyModel?)
      ensures m == null <==> owners == []
      ensures m != null ==> fresh(m) && m.baseValues == IndexOf(owners, rel.baseFields, rootID)
      ensures m != null ==> m.baseTable == baseTable && m.table == table && m.rel == rel && m.sliceOfPtr == sliceOfPtr
      ensures m != null ==> m.slices == slices && m.nextAddr == nextAddr && m.strct == map[]
    {
      var bv := BaseValues(owners, rel.baseFields, rootID);
      IndexEmpty(owners, rel.baseFields, rootID);
      if |bv| == 0 {
        return null;
      }
      m := new HasManyModel(baseTable, table, rel, sliceOfPtr, bv, slices, nextAddr);
    }

    /** `Scan`: one column of the current row. */
    method Scan(src: Src) returns (err: Option<ScanError>)
      requires scanIndex < |columns| && |structKey| == |rel.joinFields|
      modifies this
      ensures columns == old(columns) && addr == old(addr) && slices == old(slices) && nextAddr == old(nextAddr)
      ensures (RowState(strct, structKey, scanIndex), err)
        == ScanCell(table, rel.joinFields, columns, old(RowState(strct, structKey, scanIndex)), src)
    {
      var column := columns[scanIndex];
      scanIndex := scanIndex + 1;
      if column !in table.columnLookup {
        return Some(MissingColumn(table.typeName, column));
      }
      var field := table.columnLookup[column];
      match src {
        case Unconvertible(reason) =>
          return Some(ScanFailed(reason));
        case Convertible(v) =>
          strct := strct[field.name := v];
      }
      var keys := rel.joinFields;
      var i := 0;
      while i < |keys|
        invariant 0 <= i <= |keys|
        invariant forall k :: 0 <= k < i ==> keys[k].name != column
        invariant structKey == old(structKey)
      {
        if keys[i].name == column {
          structKey := structKey[i := ValueOf(strct, field).key];
          break;
        }
        i := i + 1;
      }
      err := None;
    }

    /** `rows.Scan` on one row: `Scan` for each column in order, stopping at the first error. */
    method ScanRow(cells: seq<Src>) returns (err: Option<ScanError>)
      requires |cells| == |columns| && scanIndex == 0 && |structKey| == |rel.joinFields|
      modifies this
      ensures columns == old(columns) && addr == old(addr) && slices == old(slices) && nextAddr == old(nextAddr)
      ensures (RowState(strct, structKey, scanIndex), err)
        == ScanCells(table, rel.joinFields, columns, old(RowState(strct, structKey, scanIndex)), cells, 0)
    {
      var i := 0;
      while i < |cells|
        invariant 0 <= i <= |cells| && scanIndex == i && |structKey| == |rel.joinFields|
        invariant columns == old(columns) && addr == old(addr) && slices == old(slices) && nextAddr == old(nextAddr)
        invariant ScanCells(table, rel.joinFields, columns, old(RowState(strct, structKey, scanIndex)), cells, 0)
          == ScanCells(table, rel.joinFields, columns, RowState(strct, structKey, scanIndex), cells, i)
      {
        err := Scan(cells[i]);
        if err.Some? {
          return;
        }
        i := i + 1;
      }
      err := None;
    }

    /** `parkStruct`: append the current row to every slot listed under its key. */
    method ParkStruct() returns (err: Option<ScanError>)
      modifies this
      ensures columns == old(columns) && scanIndex == old(scanIndex) && strct == old(strct)
      ensures addr == old(addr) && structKey == old(structKey)
      ensures var r := ParkRow(baseValues, sliceOfPtr, FieldName(rel), strct, addr, structKey, old(Store(slices, nextAddr)));
        (r.Success? ==> err == None && Store(slices, nextAddr) == r.value) &&
        (r.Failure? ==> err == Some(r.error) && slices == old(slices) && nextAddr == old(nextAddr))
    {
      var key := NewMapKey(structKey);
      if key !in baseValues {
        return Some(MissingBase(FieldName(rel), structKey));
      }
      var slots := baseValues[key];
      var base := nextAddr;
      var sl, next := slices, nextAddr;
      var i := 0;
      while i < |slots|
        invariant 0 <= i <= |slots|
        invariant sl == Parked(old(slices), slots, i, sliceOfPtr, strct, addr, base)
        invariant next == base + Clones(i, sliceOfPtr)
      {
        var v := slots[i];
        if !sliceOfPtr {
          sl := sl[v := Slice(sl, v) + [ByValue(strct)]];
        } else if i == 0 {
          sl := sl[v := Slice(sl, v) + [ByPointer(addr, strct)]];
        } else {
          var clone := next;
          next := next + 1;
          sl := sl[v := Slice(sl, v) + [ByPointer(clone, strct)]];
        }
        i := i + 1;
      }
      slices, nextAddr := sl, next;
      err := None;
    }

    /** One turn of the row loop: reset the struct and the cursor, scan the row, park it. */
    method NextRow(cells: seq<Src>) returns (err: Option<ScanError>)
      requires |cells| == |columns| && |structKey| == |rel.joinFields|
      modifies this
      ensures columns == old(columns)
      ensures (Current(), err) == RowStep(Cfg(), columns, cells, old(Current()))
    {
      if sliceOfPtr {
        strct := map[];
        addr := nextAddr;
        nextAddr := nextAddr + 1;
      } else {
        strct := map[];
      }
      scanIndex := 0;
      err := ScanRow(cells);
      if err.Some? {
        return;
      }
      err := ParkStruct();
    }

    /** The `rows.Next` loop: every row in turn until one fails. */
    method ScanEachRow(rows: seq<seq<Src>>) returns (n: nat, err: Option<ScanError>)
      requires Arity(rows, columns) && |structKey| == |rel.joinFields|
      modifies this
      ensures columns == old(columns)
      ensures var out := ScanAll(Cfg(), columns, rows, 0, old(Current()), 0);
        Current() == out.st && n == out.parked && err == out.err
    {
      ghost var st0 := Current();
      n := 0;
      err := None;
      var i := 0;
      while i < |rows|
        invariant 0 <= i <= |rows| && n == i && |structKey| == |rel.joinFields|
        invariant columns == old(columns) && err == None
        invariant ScanAll(Cfg(), columns, rows, 0, st0, 0) == ScanAll(Cfg(), columns, rows, i, Current(), n)
      {
        ScanAllUnfold(Cfg(), columns, rows, i, Current(), n);
        err := NextRow(rows[i]);
        if err.Some? {
          return;
        }
        n := n + 1;
        i := i + 1;
      }
    }

    /**
      `ScanRows`: the key buffer is allocated once, sized by the join
      fields, and kept across rows; any error returns zero rows, leaving the
      rows parked before it in place.
    */
    method ScanRows(columnsResult: Result<seq<string>, string>, rows: seq<seq<Src>>, rowsErr: Option<string>)
      returns (n: nat, err: Option<ScanError>)
      requires columnsResult.Success? ==> Arity(rows, columnsResult.value)
      modifies this
      ensures columnsResult.Failure? ==>
        n == 0 && err == Some(RowsFailed(columnsResult.error)) && columns == old(columns) && Current() == old(Current())
      ensures columnsResult.Success? ==>
        var out := ScanAll(Cfg(), columnsResult.value, rows, 0,
                           old(Current()).(structKey := seq(|rel.joinFields|, _ => NilText)), 0);
        columns == columnsResult.value && Current() == out.st &&
        (out.err.Some? ==> n == 0 && err == out.err) &&
        (out.err.None? && rowsErr.Some? ==> n == 0 && err == Some(RowsFailed(rowsErr.value))) &&
        (out.err.None? && rowsErr.None? ==> n == |rows| && err == None)
      ensures AddrsBelow(old(slices), old(nextAddr)) && DistinctAddrs(old(slices)) ==>
        AddrsBelow(slices, nextAddr) && DistinctAddrs(slices)
    {
      if columnsResult.Failure? {
        return 0, Some(RowsFailed(columnsResult.error));
      }
      columns := columnsResult.value;
      structKey := seq(|rel.joinFields|, _ => NilText);
      ghost var st0 := Current();
      if AddrsBelow(slices, nextAddr) && DistinctAddrs(slices) {
        ScanAllFresh(Cfg(), columns, rows, 0, st0, 0);
      }
      n, err := ScanEachRow(rows);
      ScanAllCount(Cfg(), columns, rows, 0, st0, 0);
      if err.Some? {
        n := 0;
      } else if rowsErr.Some? {
        n, err := 0, Some(RowsFailed(rowsErr.value));
      }
    }
  }
}
