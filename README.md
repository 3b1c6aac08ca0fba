# Hibernate OGM: default grid-dialect behaviour and the Cassandra test helper's counting logic

This project models two pieces of Hibernate OGM in Dafny and proves properties of them.

**The base grid dialect** (`BaseGridDialect`). Every datastore adapter extends this class and inherits its defaults:

- locking strategies that refuse every lock;
- no type overrides;
- no sequence support;
- `LOOK_UP` duplicate-insert prevention;
- `forEachTuple`, which walks the supplied entity-key metadata in order. For each one it asks the protected `getTuples` hook for that type's tuples and hands each tuple to a `ModelConsumer`.

The dialect is a class. Its `getTuples` hook is a constant function field: the default constructor gives the base class's hook, which always returns null (`None`), and `Overriding` stands for a subclass that overrides it. The consumer is a class that records what it receives.

`ForEachTuple` is proved against `TuplesOf`, the concatenation of the hook's per-type lists. It also covers the error path. If the hook returns null for some metadata, the tuples of the earlier metadata have already been consumed, and the method then fails the way the Java `for` loop fails on a null list.

**The Cassandra test helper** (`CassandraTestHelper`). This covers:

- the `isNotNull` predicate;
- the entity count (a sum of `COUNT(*)` over the tables that have an identifier);
- the association count (a sum, over collection persisters, of the number of distinct non-null values in the first key column, collected in a hash set);
- `extractEntityTuple` (build a `SELECT *` with one `column = ?` per key column, bind the key values, turn the first row into a column-to-value map);
- the two constant answers.

The Cassandra session is not modelled. Each query the helper builds is passed to a function parameter that gives the backend's answer to that query:

- `countOf` takes the text of a `COUNT(*)` query;
- `execute` takes the text of a first-column query, or a `Select` with its bound values;
- `prepare` gives the types of a prepared statement's variables.

The driver's `DataType.serialize`/`deserialize` are function parameters too, with the session's protocol version folded in.

## Model

| member | source | states |
|---|---|---|
| `GridDialectSpi.BaseGridDialect.GetLockingStrategy` | core/src/main/java/org/hibernate/ogm/dialect/spi/BaseGridDialect.java:27-33 | for every lockable and lock mode, every lock request through the returned strategy fails with an unsupported-lock-mode error naming the requested mode |
| `GridDialectSpi.BaseGridDialect.OverrideType` | core/src/main/java/org/hibernate/ogm/dialect/spi/BaseGridDialect.java:35-38 | no override (null) for every type |
| `GridDialectSpi.BaseGridDialect.SupportsSequences` | core/src/main/java/org/hibernate/ogm/dialect/spi/BaseGridDialect.java:40-43 | sequences are never supported |
| `GridDialectSpi.BaseGridDialect.GetDuplicateInsertPreventionStrategy` | core/src/main/java/org/hibernate/ogm/dialect/spi/BaseGridDialect.java:45-48 | `LOOK_UP` for every entity-key metadata |
| `GridDialectSpi.BaseGridDialect.constructor` | core/src/main/java/org/hibernate/ogm/dialect/spi/BaseGridDialect.java:60-63 | a dialect that does not override the hook gets one that yields null for every metadata |
| `GridDialectSpi.BaseGridDialect.Overriding` | core/src/main/java/org/hibernate/ogm/dialect/spi/BaseGridDialect.java:60-61 | a subclass's override becomes the hook `forEachTuple` calls |
| `GridDialectSpi.ModelConsumer.Consume` | core/src/main/java/org/hibernate/ogm/dialect/spi/BaseGridDialect.java:55 | one consume call appends exactly that tuple to what the consumer has received |
| `GridDialectSpi.BaseGridDialect.ForEachTuple` | core/src/main/java/org/hibernate/ogm/dialect/spi/BaseGridDialect.java:51-58 | only the consumer's log changes. The log gains the hook's lists concatenated in metadata order, up to the first metadata whose list is null. The result is `Pass` exactly when there is no such metadata, otherwise a null-dereference failure naming the first one. With no metadata nothing is consumed |
| `GridDialectSpi.FirstWithoutTuples` | core/src/main/java/org/hibernate/ogm/dialect/spi/BaseGridDialect.java:52-54 | the position where enumeration stops: every earlier metadata has a list, and the one at that position (if any) has null |
| `GridDialectSpi.TuplesOfConcat` | core/src/main/java/org/hibernate/ogm/dialect/spi/BaseGridDialect.java:52-57 | enumerating `a + b` yields the tuples of `a` followed by those of `b` |
| `GridDialectSpi.TuplesOfLength` | core/src/main/java/org/hibernate/ogm/dialect/spi/BaseGridDialect.java:52-56 | the number of tuples consumed (consume calls) is the sum of the per-type list lengths |
| `GridDialectSpi.TuplesOfMembership` | core/src/main/java/org/hibernate/ogm/dialect/spi/BaseGridDialect.java:52-56 | a tuple is consumed exactly when the hook reports it for one of the supplied metadata; nothing from an unsupplied type appears |
| `GridDialectSpi.TuplesOfAt` | core/src/main/java/org/hibernate/ogm/dialect/spi/BaseGridDialect.java:52-56 | order is kept: tuple `j` of metadata `i` arrives at position (tuples of metadata `0..i-1`) + `j` |
| `GridDialectSpi.DefaultHookFailsAtOnce` | core/src/main/java/org/hibernate/ogm/dialect/spi/BaseGridDialect.java:53-54 | with the base class's null-returning hook, enumeration of any non-empty metadata list fails at the first metadata, before anything is consumed |
| `CassandraTestHelper.IsNotNull` | cassandra/src/test/java/org/hibernate/ogm/datastore/cassandra/utils/CassandraTestHelper.java:68-70 | false exactly for null, the empty string and the text `"null"` |
| `CassandraTestHelper.GetNumberOfEntities` | cassandra/src/test/java/org/hibernate/ogm/datastore/cassandra/utils/CassandraTestHelper.java:83-96 | the result is the sum over the tables of `COUNT(*)` for a table with an identifier and 0 for one without |
| `CassandraTestHelper.EntityCountOfIdentifiedTables` | cassandra/src/test/java/org/hibernate/ogm/datastore/cassandra/utils/CassandraTestHelper.java:86-93 | the entity count equals the plain sum of `COUNT(*)` over exactly the tables that have an identifier |
| `CassandraTestHelper.EntityCountWithoutIdentifiers` | cassandra/src/test/java/org/hibernate/ogm/datastore/cassandra/utils/CassandraTestHelper.java:87 | tables without an identifier contribute 0 |
| `CassandraTestHelper.EntityCountOrderIndependent` | cassandra/src/test/java/org/hibernate/ogm/datastore/cassandra/utils/CassandraTestHelper.java:86 | the count does not depend on the hash map's iteration order over the metadata cache |
| `CassandraTestHelper.GetNumberOfAssociations` | cassandra/src/test/java/org/hibernate/ogm/datastore/cassandra/utils/CassandraTestHelper.java:99-133 | fails (column index 0 out of bounds) exactly when some association key has no columns. Otherwise the result is the sum over the persisters of the number of distinct deserialized values among the non-null first-column cells of that table |
| `CassandraTestHelper.DistinctValuesMembership` | cassandra/src/test/java/org/hibernate/ogm/datastore/cassandra/utils/CassandraTestHelper.java:114-128 | a value is in a table's set exactly when some non-null cell deserializes to it: null cells are skipped and a repeated value counts once |
| `CassandraTestHelper.DistinctValuesBound` | cassandra/src/test/java/org/hibernate/ogm/datastore/cassandra/utils/CassandraTestHelper.java:120-129 | a table's contribution is at most its number of non-null cells, which is at most its number of rows |
| `CassandraTestHelper.AssociationCountBound` | cassandra/src/test/java/org/hibernate/ogm/datastore/cassandra/utils/CassandraTestHelper.java:104-132 | the association count is at most the total number of rows read |
| `CassandraTestHelper.AssociationCountOrderIndependent` | cassandra/src/test/java/org/hibernate/ogm/datastore/cassandra/utils/CassandraTestHelper.java:101-105 | the count does not depend on the order in which the collection persisters are visited |
| `CassandraTestHelper.GetNumberOfAssociationsOfStorageType` | cassandra/src/test/java/org/hibernate/ogm/datastore/cassandra/utils/CassandraTestHelper.java:135-138 | 0 for every association storage type |
| `CassandraTestHelper.BackendSupportsTransactions` | cassandra/src/test/java/org/hibernate/ogm/datastore/cassandra/utils/CassandraTestHelper.java:185-188 | the backend never supports transactions |
| `CassandraTestHelper.KeyClausesAt` | cassandra/src/test/java/org/hibernate/ogm/datastore/cassandra/utils/CassandraTestHelper.java:151-155 | the key query has one equality per key column, and equality `i` constrains key column `i` |
| `CassandraTestHelper.BuildKeySelect` | cassandra/src/test/java/org/hibernate/ogm/datastore/cassandra/utils/CassandraTestHelper.java:151-155 | fails (index 0 out of bounds) exactly for a key without columns. Otherwise it returns the select from the key's quoted table whose `i`-th `= ?` equality is on the key's `i`-th column name, one per column |
| `CassandraTestHelper.BindKeyValues` | cassandra/src/test/java/org/hibernate/ogm/datastore/cassandra/utils/CassandraTestHelper.java:164-168 | fails exactly when the prepared statement has fewer variables, or the key fewer values, than the key has columns, at the first missing index. Otherwise bind position `i` holds key value `i` serialized with variable `i`'s type, for every key column |
| `CassandraTestHelper.RowToTuple` | cassandra/src/test/java/org/hibernate/ogm/datastore/cassandra/utils/CassandraTestHelper.java:175-182 | the map built from a row is `TupleOfRow`: one entry per column name, as described by the two lemmas below |
| `CassandraTestHelper.TupleOfRowKeys` | cassandra/src/test/java/org/hibernate/ogm/datastore/cassandra/utils/CassandraTestHelper.java:176-181 | the map's keys are exactly the row's column names |
| `CassandraTestHelper.TupleOfRowDistinct` | cassandra/src/test/java/org/hibernate/ogm/datastore/cassandra/utils/CassandraTestHelper.java:177-181 | when the row's column names are distinct, each name maps to its own column's deserialized bytes |
| `CassandraTestHelper.BytesByNameOfFirst` | cassandra/src/test/java/org/hibernate/ogm/datastore/cassandra/utils/CassandraTestHelper.java:179 | looking bytes up by name finds the first column with that name |
| `CassandraTestHelper.LastTypeOfLast` | cassandra/src/test/java/org/hibernate/ogm/datastore/cassandra/utils/CassandraTestHelper.java:177-180 | for a repeated name, the entry that survives carries the type of the last column with that name |
| `CassandraTestHelper.ExtractEntityTuple` | cassandra/src/test/java/org/hibernate/ogm/datastore/cassandra/utils/CassandraTestHelper.java:146-183 | the error cases above propagate. Otherwise it runs the key query with the bound key values and returns null when no row comes back, or else the column-to-value map of the first row |

The supporting lemmas of module `Sums` prove the following, and the two count lemmas above rely on them:

- splitting a sum (`SumOfConcat`, `SumOfRemove`);
- independence of order (`SumOfPermutation`);
- monotonicity (`SumOfMonotone`);
- zero counts (`SumOfZero`).

## Left out

- The Cassandra session, prepared and bound statements as driver objects, result-set iteration and the protocol-version lookup are I/O through the DataStax driver. The backend's answers are function parameters keyed by the query the helper builds.
- `DataType.serialize` and `DataType.deserialize` are driver code. They are uninterpreted function parameters. Value equality in a Dafny `set` stands in for Java `equals`/`hashCode` in the deduplicating hash set.
- `QueryBuilder.quote` is shown only as an `Identifier` wrapper; its escaping of embedded quotes is driver code and is not modelled. Column lookup by name in a row is exact string matching; the driver's case-insensitive matching of unquoted names is not modelled.
- Java `long` overflow in the two counts is not modelled; counts are unbounded naturals.
- The static initializer, which copies the `CASSANDRA_HOSTNAME`/`CASSANDRA_PORT` environment variables into process-wide system properties, is global process state. Only the `isNotNull` predicate it uses is modelled.
- `getProvider` (a service-registry lookup and a cast that throws for a non-Cassandra provider), `getGridDialect`, `dropSchemaAndDatabase`, `getEnvironmentProperties` and `configureDatastore` are framework wiring and backend side effects. Their callers are modelled as if the provider were a Cassandra provider.
- `ExceptionThrowingLockingStrategy`, `GridType`, `Lockable`, `LockMode` and Hibernate's `Type` are not part of this model. The lock modes and types are abstract types. The locking strategy is a datatype whose `Lock` always fails for its mode, which is what the base class's documentation of `getLockingStrategy` promises.
- The `EntityKey` constructor and the check that a key has as many values as column names are not part of this model. The helper's code does not rely on that check: a key with fewer values than columns is modelled as the index error the bind loop would raise.
- Concurrency: the dialect is stateless, and nothing in these files coordinates threads.
