/**
 The update-log table and its schema migration against the warehouse.

 The warehouse client is an explicit object whose only modelled effect is
 the log of table updates it has been asked to make; a table is an object
 whose column list is replaced in place by the migration.
 */
module BigQuery {
  import opened Schema

  /** One update request sent to the warehouse: which table, its new columns, which properties to change. */
  datatype SchemaUpdate = SchemaUpdate(tableId: string, schema: seq<Field>, fieldMask: seq<string>)

  /** A table handle: its fixed identifier and its current column list. */
  class Table {
    const id: string
    var schema: seq<Field>

    constructor (id: string, schema: seq<Field>)
      ensures this.id == id && this.schema == schema
    {
      this.id := id;
      this.schema := schema;
    }
  }

  /** The warehouse client, reduced to the project it is bound to and the updates it was asked to make. */
  class Client {
    const project: string
    var updates: seq<SchemaUpdate>

    constructor (project: string)
      ensures this.project == project && updates == []
    {
      this.project := project;
      updates := [];
    }

    /** Records a request to store the listed properties of `table`; the warehouse is taken to accept it. */
    method UpdateTable(table: Table, fieldMask: seq<string>) returns (updated: Table)
      modifies this
      ensures updates == old(updates) + [SchemaUpdate(table.id, table.schema, fieldMask)]
      ensures updated == table
    {
      updates := updates + [SchemaUpdate(table.id, table.schema, fieldMask)];
      updated := table;
    }
  }

  /** The initial columns of the update-log table. */
  function UpdateLogTableSchema(): (fields: seq<Field>)
    ensures Unique(Names(fields))
    ensures forall f :: f in fields ==> f.fieldType == "STRING" && f.mode == "REQUIRED"
  {
    [ Field("full_url", "STRING", "REQUIRED", "Full update url."),
      Field("url_version", "STRING", "REQUIRED", "Url version.") ]
  }

  /**
   Adds to `table` the desired columns whose name it does not have, after
   its existing ones, and asks the warehouse for exactly one schema update
   when there is something to add; otherwise changes nothing.
   */
  method MigrateSchema(client: Client, table: Table, desired: seq<Field>) returns (result: Table)
    modifies client, table
    ensures result == table
    ensures table.schema == Migrated(old(table.schema), desired)
    ensures old(table.schema) <= table.schema
    ensures Missing(Names(old(table.schema)), desired) == [] ==>
      table.schema == old(table.schema) && client.updates == old(client.updates)
    ensures Missing(Names(old(table.schema)), desired) != [] ==>
      client.updates == old(client.updates) + [SchemaUpdate(table.id, table.schema, ["schema"])]
  {
    var currentFields := Names(table.schema);
    var newFields := Missing(currentFields, desired);
    if newFields != [] {
      var newSchema := table.schema;
      newSchema := newSchema + newFields;
      table.schema := newSchema;
      result := client.UpdateTable(table, ["schema"]);
    } else {
      result := table;
    }
  }

  /** Migrating an empty table to the initial columns yields exactly those two columns, in order. */
  lemma InitialMigration()
    ensures Migrated([], UpdateLogTableSchema()) == [
      Field("full_url", "STRING", "REQUIRED", "Full update url."),
      Field("url_version", "STRING", "REQUIRED", "Url version.") ]
  {
  }

  /**
   Running the migration twice with the same desired columns writes at most
   once: the second run finds nothing missing, so it neither changes the
   table nor sends an update.
   */
  method MigrateTwice(client: Client, table: Table, desired: seq<Field>)
    modifies client, table
    ensures table.schema == Migrated(old(table.schema), desired)
    ensures client.updates == old(client.updates) +
      (if Missing(Names(old(table.schema)), desired) == [] then []
       else [SchemaUpdate(table.id, table.schema, ["schema"])])
  {
    var first := MigrateSchema(client, table, desired);
    MigrationIdempotent(old(table.schema), desired);
    var second := MigrateSchema(client, first, desired);
  }
}
