/** The counting and lookup logic of the Cassandra test helper. The session
    is not modelled: every query the helper builds is answered by a function
    parameter that stands for the backend's reply to that query. */
module CassandraTestHelper {
  import opened Wrappers
  import opened Sums
  import opened OgmModel

  /** A Cassandra column type (the driver's DataType). */
  type DataType(==, !new)

  /** The serialized form of a cell. */
  type Bytes = seq<bv8>

  /** DataType.serialize at the session's protocol version. */
  type Serializer = (DataType, Value) -> Bytes

  /** DataType.deserialize at the session's protocol version; None on either
      side is a Java null. */
  type Deserializer = (DataType, Option<Bytes>) -> Option<Value>

  /** An array or column index past the end (the Java exceptions the helper
      lets escape). */
  datatype HelperError = IndexOutOfBounds(index: nat)

  function Min(a: nat, b: nat): nat { if a <= b then a else b }

  // ---------------------------------------------------------------------
  // Environment values

  /** Whether an environment value is usable: the build tool passes the text
      "null" for an unset variable. */
  function IsNotNull(s: Option<string>): (r: bool)
    ensures !r <==> s == None || s == Some("") || s == Some("null")
  {
    s.Some? && |s.value| > 0 && s.value != "null"
  }

  // ---------------------------------------------------------------------
  // Entities

  /** The mapping's identifier of a table (Hibernate's KeyValue). */
  type KeyValue(!new)

  /** A table of the mapping metadata; association tables have no identifier. */
  datatype Table = Table(name: string, identifierValue: Option<KeyValue>)

  /** The row-count query for a table. */
  function CountQuery(name: string): string
  {
    "SELECT COUNT(*) FROM \"" + name + "\""
  }

  /** The backend's answer to the COUNT(*) query of a table. */
  function RowCount(countOf: string -> nat, t: Table): nat
  {
    countOf(CountQuery(t.name))
  }

  /** A table's share of the entity count. */
  function EntityRowCount(countOf: string -> nat, t: Table): nat
  {
    if t.identifierValue.Some? then RowCount(countOf, t) else 0
  }

  function EntityRows(countOf: string -> nat): Table -> nat
  {
    (t: Table) => EntityRowCount(countOf, t)
  }

  function EntityCount(tables: seq<Table>, countOf: string -> nat): nat
  {
    SumOf(tables, EntityRows(countOf))
  }

  /** The tables that have an identifier, in order. */
  function IdentifiedTables(tables: seq<Table>): (r: seq<Table>)
    ensures forall t :: t in r <==> t in tables && t.identifierValue.Some?
  {
    if tables == [] then []
    else if tables[0].identifierValue.Some? then [tables[0]] + IdentifiedTables(tables[1..])
    else IdentifiedTables(tables[1..])
  }

  /** The row count of a table, whether or not it holds entities. */
  function AllRows(countOf: string -> nat): Table -> nat
  {
    (t: Table) => RowCount(countOf, t)
  }

  /** Adds up the COUNT(*) of every table that has an identifier. */
  method GetNumberOfEntities(tables: seq<Table>, countOf: string -> nat) returns (count: nat)
    ensures count == EntityCount(tables, countOf)
  {
    count := 0;
    for i := 0 to |tables|
      invariant count + EntityCount(tables[i..], countOf) == EntityCount(tables, countOf)
    {
      assert tables[i..][1..] == tables[i + 1..];
      if tables[i].identifierValue.Some? {
        count := count + countOf(CountQuery(tables[i].name));
      }
    }
  }

  /** The entity count is the sum of the row counts of exactly the tables
      that have an identifier; the others contribute nothing. */
  lemma {:induction false} EntityCountOfIdentifiedTables(tables: seq<Table>, countOf: string -> nat)
    ensures EntityCount(tables, countOf) == SumOf(IdentifiedTables(tables), AllRows(countOf))
  {
    if tables != [] {
      EntityCountOfIdentifiedTables(tables[1..], countOf);
      if tables[0].identifierValue.Some? {
        var rest := IdentifiedTables(tables[1..]);
        assert ([tables[0]] + rest)[1..] == rest;
      }
    }
  }

  /** Tables without an identifier never add to the entity count. */
  lemma EntityCountWithoutIdentifiers(tables: seq<Table>, countOf: string -> nat)
    requires forall i :: 0 <= i < |tables| ==> tables[i].identifierValue.None?
    ensures EntityCount(tables, countOf) == 0
  {
    SumOfZero(tables, EntityRows(countOf));
  }

  /** The metadata cache is a hash map whose iteration order is unspecified;
      the count does not depend on it. */
  lemma EntityCountOrderIndependent(a: seq<Table>, b: seq<Table>, countOf: string -> nat)
    requires multiset(a) == multiset(b)
    ensures EntityCount(a, countOf) == EntityCount(b, countOf)
  {
    SumOfPermutation(a, b, EntityRows(countOf));
  }

  // ---------------------------------------------------------------------
  // Associations

  /** The first column of one result row: its type and its bytes (None for
      a null cell). */
  datatype Cell = Cell(dataType: DataType, bytes: Option<Bytes>)

  /** The query that reads the first key column of an association table. */
  function FirstColumnQuery(metadata: AssociationKeyMetadata): string
    requires |metadata.columnNames| > 0
  {
    "SELECT \"" + metadata.columnNames[0] + "\" FROM \"" + metadata.table + "\""
  }

  /** The set of deserialized values of the non-null cells. */
  function DistinctValues(cells: seq<Cell>, deserialize: Deserializer): set<Option<Value>>
  {
    if cells == [] then {}
    else
      var last := cells[|cells| - 1];
      DistinctValues(cells[..|cells| - 1], deserialize)
        + (if last.bytes.None? then {} else {deserialize(last.dataType, last.bytes)})
  }

  function NonNullCount(cells: seq<Cell>): (n: nat)
    ensures n <= |cells|
  {
    if cells == [] then 0
    else NonNullCount(cells[..|cells| - 1]) + (if cells[|cells| - 1].bytes.None? then 0 else 1)
  }

  /** An association table's share of the association count, given the
      backend's answer to each first-column query. */
  function AssociationRows(execute: string -> seq<Cell>, deserialize: Deserializer): AssociationKeyMetadata -> nat
  {
    (md: AssociationKeyMetadata) => if |md.columnNames| > 0 then |DistinctValues(execute(FirstColumnQuery(md)), deserialize)| else 0
  }

  function AssociationCount(persisters: seq<AssociationKeyMetadata>, execute: string -> seq<Cell>, deserialize: Deserializer): nat
  {
    SumOf(persisters, AssociationRows(execute, deserialize))
  }

  /** The number of rows the helper reads from an association table. */
  function RowsRead(execute: string -> seq<Cell>): AssociationKeyMetadata -> nat
  {
    (md: AssociationKeyMetadata) => if |md.columnNames| > 0 then |execute(FirstColumnQuery(md))| else 0
  }

  /** Every association key has a first column to select. */
  predicate AllQueryable(persisters: seq<AssociationKeyMetadata>)
  {
    forall i :: 0 <= i < |persisters| ==> |persisters[i].columnNames| > 0
  }

  /** Adds up, over the association key metadata of every collection
      persister, the number of distinct non-null values in the first key
      column of its table. A key without columns makes the column lookup
      throw. */
  method GetNumberOfAssociations(persisters: seq<AssociationKeyMetadata>, execute: string -> seq<Cell>,
                                 deserialize: Deserializer)
    returns (r: Result<nat, HelperError>)
    ensures r.Failure? <==> !AllQueryable(persisters)
    ensures r.Failure? ==> r.error == IndexOutOfBounds(0)
    ensures r.Success? ==> r.value == AssociationCount(persisters, execute, deserialize)
  {
    var count := 0;
    for i := 0 to |persisters|
      invariant AllQueryable(persisters[..i])
      invariant count + AssociationCount(persisters[i..], execute, deserialize)
        == AssociationCount(persisters, execute, deserialize)
    {
      var md := persisters[i];
      if |md.columnNames| == 0 {
        return Failure(IndexOutOfBounds(0));
      }
      var rows := execute(FirstColumnQuery(md));
      var uniqs: set<Option<Value>> := {};
      for j := 0 to |rows|
        invariant uniqs == DistinctValues(rows[..j], deserialize)
      {
        assert rows[..j + 1][..j] == rows[..j];
        var cell := rows[j];
        if cell.bytes.Some? {
          uniqs := uniqs + {deserialize(cell.dataType, cell.bytes)};
        }
      }
      assert rows[..|rows|] == rows;
      assert persisters[i..][1..] == persisters[i + 1..];
      assert persisters[..i + 1] == persisters[..i] + [md];
      count := count + |uniqs|;
    }
    assert persisters[..|persisters|] == persisters;
    return Success(count);
  }

  /** A value is counted exactly when some non-null cell deserializes to it:
      null cells are skipped and a repeated value is one element. */
  lemma {:induction false} DistinctValuesMembership(cells: seq<Cell>, deserialize: Deserializer, v: Option<Value>)
    ensures v in DistinctValues(cells, deserialize)
      <==> exists i :: 0 <= i < |cells| && cells[i].bytes.Some? && deserialize(cells[i].dataType, cells[i].bytes) == v
  {
    if cells != [] {
      var init := cells[..|cells| - 1];
      DistinctValuesMembership(init, deserialize, v);
      if exists i :: 0 <= i < |init| && init[i].bytes.Some? && deserialize(init[i].dataType, init[i].bytes) == v {
        var i :| 0 <= i < |init| && init[i].bytes.Some? && deserialize(init[i].dataType, init[i].bytes) == v;
        assert cells[i] == init[i];
      }
      if exists i :: 0 <= i < |cells| && cells[i].bytes.Some? && deserialize(cells[i].dataType, cells[i].bytes) == v {
        var i :| 0 <= i < |cells| && cells[i].bytes.Some? && deserialize(cells[i].dataType, cells[i].bytes) == v;
        if i < |init| { assert init[i] == cells[i]; }
      }
    }
  }

  /** There are never more distinct values than non-null cells. */
  lemma {:induction false} DistinctValuesBound(cells: seq<Cell>, deserialize: Deserializer)
    ensures |DistinctValues(cells, deserialize)| <= NonNullCount(cells) <= |cells|
  {
    if cells != [] {
      DistinctValuesBound(cells[..|cells| - 1], deserialize);
    }
  }

  /** The association count never exceeds the number of rows read. */
  lemma AssociationCountBound(persisters: seq<AssociationKeyMetadata>, execute: string -> seq<Cell>,
                              deserialize: Deserializer)
    ensures AssociationCount(persisters, execute, deserialize) <= SumOf(persisters, RowsRead(execute))
  {
    forall i | 0 <= i < |persisters|
      ensures AssociationRows(execute, deserialize)(persisters[i]) <= RowsRead(execute)(persisters[i])
    {
      if |persisters[i].columnNames| > 0 {
        DistinctValuesBound(execute(FirstColumnQuery(persisters[i])), deserialize);
      }
    }
    SumOfMonotone(persisters, AssociationRows(execute, deserialize), RowsRead(execute));
  }

  /** The collection persisters come from a hash map; their order does not
      change the count. */
  lemma AssociationCountOrderIndependent(a: seq<AssociationKeyMetadata>, b: seq<AssociationKeyMetadata>,
                                         execute: string -> seq<Cell>, deserialize: Deserializer)
    requires multiset(a) == multiset(b)
    ensures AssociationCount(a, execute, deserialize) == AssociationCount(b, execute, deserialize)
  {
    SumOfPermutation(a, b, AssociationRows(execute, deserialize));
  }

  // ---------------------------------------------------------------------
  // Entity lookup

  /** A quoted CQL identifier (QueryBuilder.quote). */
  datatype Identifier = Quoted(name: string)

  /** An equality between a column and a bind marker: column = ? */
  datatype Clause = EqBindMarker(column: Identifier)

  /** SELECT * FROM from WHERE where[0] AND where[1] AND ... */
  datatype Select = Select(from: Identifier, where: seq<Clause>)

  /** One equality per key column, in the key's column order. */
  function KeyClauses(names: seq<string>): seq<Clause>
  {
    if names == [] then [] else [EqBindMarker(Quoted(names[0]))] + KeyClauses(names[1..])
  }

  /** The query that looks an entity up by its key. */
  function KeySelect(key: EntityKey): Select
  {
    Select(Quoted(key.Table()), KeyClauses(key.ColumnNames()))
  }

  /** Clause i of the key query constrains key column i, and there is one
      clause per key column. */
  lemma {:induction false} KeyClausesAt(names: seq<string>, i: nat)
    requires i < |names|
    ensures |KeyClauses(names)| == |names|
    ensures KeyClauses(names)[i] == EqBindMarker(Quoted(names[i]))
  {
    if i > 0 {
      KeyClausesAt(names[1..], i - 1);
    } else if |names| > 1 {
      KeyClausesAt(names[1..], 0);
    }
  }

  /** Builds the select-by-key query; a key without columns makes the
      lookup of column 0 throw. */
  method BuildKeySelect(key: EntityKey) returns (r: Result<Select, HelperError>)
    ensures r == if |key.ColumnNames()| == 0 then Failure(IndexOutOfBounds(0)) else Success(KeySelect(key))
    ensures r.Success? ==> r.value.from == Quoted(key.Table()) && |r.value.where| == |key.ColumnNames()|
    ensures r.Success? ==>
      forall i :: 0 <= i < |key.ColumnNames()| ==> r.value.where[i] == EqBindMarker(Quoted(key.ColumnNames()[i]))
  {
    var names := key.ColumnNames();
    if |names| == 0 {
      return Failure(IndexOutOfBounds(0));
    }
    var where := [EqBindMarker(Quoted(names[0]))];
    for i := 1 to |names|
      invariant where + KeyClauses(names[i..]) == KeyClauses(names)
    {
      assert names[i..][1..] == names[i + 1..];
      assert where + KeyClauses(names[i..])
        == (where + [EqBindMarker(Quoted(names[i]))]) + KeyClauses(names[i + 1..]);
      where := where + [EqBindMarker(Quoted(names[i]))];
    }
    assert names[|names|..] == [];
    assert where == KeyClauses(names) by {
      assert KeyClauses(names[|names|..]) == [];
      assert where + [] == where;
    }
    KeyClausesAt(names, 0);
    forall i | 0 <= i < |names| ensures where[i] == EqBindMarker(Quoted(names[i])) {
      KeyClausesAt(names, i);
    }
    return Success(Select(Quoted(key.Table()), where));
  }

  /** The values of a bound statement with one slot per prepared variable:
      slot i < n holds key value i serialized with variable i's type, the
      slots after stay unset (None). */
  function BoundValues(types: seq<DataType>, values: seq<Value>, n: nat, serialize: Serializer): seq<Option<Bytes>>
    requires n <= |types| && n <= |values|
  {
    seq(|types|, i requires 0 <= i < |types| => if i < n then Some(serialize(types[i], values[i])) else None)
  }

  /** Binds the key's values to the prepared statement's variables, one per
      key column; asking for a variable or a value that is not there throws. */
  method BindKeyValues(key: EntityKey, variableTypes: seq<DataType>, serialize: Serializer)
    returns (r: Result<seq<Option<Bytes>>, HelperError>)
    ensures var n := |key.ColumnNames()|;
      r == if |variableTypes| < n || |key.columnValues| < n
           then Failure(IndexOutOfBounds(Min(|variableTypes|, |key.columnValues|)))
           else Success(BoundValues(variableTypes, key.columnValues, n, serialize))
    ensures r.Success? ==> |r.value| == |variableTypes|
    ensures r.Success? ==> forall i :: 0 <= i < |key.ColumnNames()| ==>
      r.value[i] == Some(serialize(variableTypes[i], key.columnValues[i]))
  {
    var n := |key.ColumnNames()|;
    var bound := new Option<Bytes>[|variableTypes|](_ => None);
    for i := 0 to n
      invariant i <= |variableTypes| && i <= |key.columnValues|
      invariant forall k :: 0 <= k < bound.Length ==>
        bound[k] == if k < i then Some(serialize(variableTypes[k], key.columnValues[k])) else None
    {
      if i >= |variableTypes| || i >= |key.columnValues| {
        return Failure(IndexOutOfBounds(i));
      }
      bound[i] := Some(serialize(variableTypes[i], key.columnValues[i]));
    }
    assert bound[..] == BoundValues(variableTypes, key.columnValues, n, serialize);
    return Success(bound[..]);
  }

  /** One column of a result row: its definition and its bytes. */
  datatype Column = Column(name: string, dataType: DataType, bytes: Option<Bytes>)

  type Row = seq<Column>

  predicate HasColumn(row: Row, name: string)
  {
    exists i :: 0 <= i < |row| && row[i].name == name
  }

  function ColumnNames(row: Row): set<string>
  {
    set i | 0 <= i < |row| :: row[i].name
  }

  /** Row.getBytesUnsafe(name): the bytes of the first column with that name. */
  function BytesByName(row: Row, name: string): Option<Bytes>
    requires HasColumn(row, name)
  {
    if row[0].name == name then row[0].bytes
    else
      assert HasColumn(row[1..], name) by {
        var i :| 0 <= i < |row| && row[i].name == name;
        assert row[1..][i - 1] == row[i];
      }
      BytesByName(row[1..], name)
  }

  /** The type of the last column with that name: a later put of the same
      key overwrites an earlier one. */
  function LastTypeOf(row: Row, name: string): DataType
    requires HasColumn(row, name)
  {
    var last := row[|row| - 1];
    if last.name == name then last.dataType
    else
      assert HasColumn(row[..|row| - 1], name) by {
        var i :| 0 <= i < |row| && row[i].name == name;
        assert row[..|row| - 1][i] == row[i];
      }
      LastTypeOf(row[..|row| - 1], name)
  }

  /** The map the helper builds from a result row. */
  function TupleOfRow(row: Row, deserialize: Deserializer): map<string, Option<Value>>
  {
    map name | name in ColumnNames(row) :: deserialize(LastTypeOf(row, name), BytesByName(row, name))
  }

  /** Fills a map with every column of the row, deserialized. */
  method RowToTuple(row: Row, deserialize: Deserializer) returns (m: map<string, Option<Value>>)
    ensures m == TupleOfRow(row, deserialize)
  {
    m := map[];
    for j := 0 to |row|
      invariant m.Keys == ColumnNames(row[..j])
      invariant forall name :: name in m ==> HasColumn(row[..j], name) && HasColumn(row, name)
      invariant forall name :: name in m ==>
        m[name] == deserialize(LastTypeOf(row[..j], name), BytesByName(row, name))
    {
      var k := row[j].name;
      assert HasColumn(row, k);
      assert row[..j + 1][..j] == row[..j];
      assert row[..j + 1][j] == row[j];
      forall i | 0 <= i < j ensures row[..j + 1][i] == row[..j][i] { }
      assert ColumnNames(row[..j + 1]) == ColumnNames(row[..j]) + {k};
      m := m[k := deserialize(row[j].dataType, BytesByName(row, k))];
    }
    assert row[..|row|] == row;
  }

  /** The map's keys are exactly the column names of the row. */
  lemma TupleOfRowKeys(row: Row, deserialize: Deserializer)
    ensures forall i :: 0 <= i < |row| ==> row[i].name in TupleOfRow(row, deserialize)
    ensures forall name :: name in TupleOfRow(row, deserialize) ==> HasColumn(row, name)
  {
  }

  lemma {:induction false} BytesByNameOfFirst(row: Row, i: nat)
    requires i < |row|
    requires forall j :: 0 <= j < i ==> row[j].name != row[i].name
    ensures HasColumn(row, row[i].name)
    ensures BytesByName(row, row[i].name) == row[i].bytes
  {
    if i > 0 {
      assert row[1..][i - 1] == row[i];
      forall j | 0 <= j < i - 1 ensures row[1..][j].name != row[1..][i - 1].name {
        assert row[1..][j] == row[j + 1];
      }
      BytesByNameOfFirst(row[1..], i - 1);
    }
  }

  lemma {:induction false} LastTypeOfLast(row: Row, i: nat)
    requires i < |row|
    requires forall j :: i < j < |row| ==> row[j].name != row[i].name
    ensures HasColumn(row, row[i].name)
    ensures LastTypeOf(row, row[i].name) == row[i].dataType
  {
    if i < |row| - 1 {
      var init := row[..|row| - 1];
      assert init[i] == row[i];
      forall j | i < j < |init| ensures init[j].name != init[i].name {
        assert init[j] == row[j];
      }
      LastTypeOfLast(init, i);
    }
  }

  /** When the row's column names are distinct, each column name is mapped to
      that column's deserialized bytes. */
  lemma TupleOfRowDistinct(row: Row, deserialize: Deserializer)
    requires forall i, j :: 0 <= i < j < |row| ==> row[i].name != row[j].name
    ensures forall i :: 0 <= i < |row| ==>
      row[i].name in TupleOfRow(row, deserialize)
      && TupleOfRow(row, deserialize)[row[i].name] == deserialize(row[i].dataType, row[i].bytes)
  {
    forall i | 0 <= i < |row|
      ensures row[i].name in TupleOfRow(row, deserialize)
      ensures TupleOfRow(row, deserialize)[row[i].name] == deserialize(row[i].dataType, row[i].bytes)
    {
      BytesByNameOfFirst(row, i);
      LastTypeOfLast(row, i);
    }
  }

  /** Looks an entity up by its key: builds the query with one equality per key
      column, binds the key's values, and turns the first row found (if any)
      into a map from column name to value. prepare gives the types of the
      prepared statement's variables, execute the rows the backend returns. */
  method ExtractEntityTuple(key: EntityKey, prepare: Select -> seq<DataType>, serialize: Serializer,
                            execute: (Select, seq<Option<Bytes>>) -> seq<Row>, deserialize: Deserializer)
    returns (r: Result<Option<map<string, Option<Value>>>, HelperError>)
    ensures |key.ColumnNames()| == 0 ==> r == Failure(IndexOutOfBounds(0))
    ensures |key.ColumnNames()| > 0 ==>
      var n := |key.ColumnNames()|;
      var types := prepare(KeySelect(key));
      r == if |types| < n || |key.columnValues| < n
           then Failure(IndexOutOfBounds(Min(|types|, |key.columnValues|)))
           else
             var rows := execute(KeySelect(key), BoundValues(types, key.columnValues, n, serialize));
             Success(if rows == [] then None else Some(TupleOfRow(rows[0], deserialize)))
  {
    var built := BuildKeySelect(key);
    if built.Failure? {
      return Failure(built.error);
    }
    var select := built.value;
    var variableTypes := prepare(select);
    var bound := BindKeyValues(key, variableTypes, serialize);
    if bound.Failure? {
      return Failure(bound.error);
    }
    var rows := execute(select, bound.value);
    if rows == [] {
      return Success(None);
    }
    var tuple := RowToTuple(rows[0], deserialize);
    return Success(Some(tuple));
  }

  /** How a document store keeps associations; irrelevant to Cassandra. */
  datatype AssociationStorageType = InEntity | AssociationDocument

  function GetNumberOfAssociationsOfStorageType(storageType: AssociationStorageType): (n: nat)
    ensures n == 0
  {
    0
  }

  function BackendSupportsTransactions(): (r: bool)
    ensures !r
  {
    false
  }
}
