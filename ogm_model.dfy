/** The backend-agnostic tuple and key model that grid dialects work on. */
module OgmModel {
  import opened Wrappers

  /** A storage-native column value (a Java Object). */
  type Value(==, !new)

  /** One logical row: column name to value, where None is a Java null value. */
  datatype Tuple = Tuple(columns: map<string, Option<Value>>)

  /** Static description of an entity type: its table and the ordered names
      of the columns that make up its identifier. */
  datatype EntityKeyMetadata = EntityKeyMetadata(table: string, columnNames: seq<string>)

  /** The identifier of one entity instance: its metadata plus one value per
      identifier column, positionally. */
  datatype EntityKey = EntityKey(metadata: EntityKeyMetadata, columnValues: seq<Value>)
  {
    function Table(): string { metadata.table }

    function ColumnNames(): seq<string> { metadata.columnNames }
  }

  /** Static description of an association: its table and the columns of
      its grouping key. */
  datatype AssociationKeyMetadata = AssociationKeyMetadata(table: string, columnNames: seq<string>)
}
