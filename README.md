# Additive schema migration of the update-log table

This project models the schema handling of a small tool for a warehouse
table, `update_log`. The tool gets or creates the dataset and the
`update_log` table, then makes sure the table has the columns of its
initial schema (`full_url` and `url_version`), by an additive migration. The names of the table's columns are collected. The desired
columns whose name is not among them are kept, in their desired order. If
any are kept, they are appended after the existing columns, the new column
list is stored on the table, and one update is sent to the warehouse.
Otherwise the table is returned as it is and nothing is sent.

Files:

- `schema.dfy`, module `Schema`: the column definition `Field` and the
  pure part of the migration. `Missing` is the name-based filter. `Migrated`
  is the column list after migration. The lemmas relate the two.
- `bigquery.dfy`, module `BigQuery`: the imperative part. `Table` is a
  class whose `schema` field the migration replaces. `Client` stands for the
  warehouse client; it records every update request in its `updates` log.
  `MigrateSchema` is the migration itself. `UpdateLogTableSchema` is the
  table's initial column list.
- `identifiers.dfy`, module `Identifiers`: the dotted dataset and table
  identifiers. `Split` cuts an identifier at its dots; it recovers the parts when no part contains a dot.

The project of the warehouse client is a parameter of the identifier
functions. The client is an explicit object passed to `MigrateSchema`,
not a module-level singleton.

The model follows the code in these points:

- The desired columns are an ordered list, not a set. Duplicates in it are
  not removed. Two desired columns with the same new name are both
  appended (`DuplicateNewNamesBothAppended`). Unique names are therefore
  only a conditional property (`MigrationKeepsNamesUnique`).
- The code reads the table once, writes once, and has no retry on a
  conflicting concurrent change.
- The code has no URL parsing, version registry or extraction pipeline.
  None is modelled.

## Model

| member | source | states |
|---|---|---|
| `Schema.Names` | bigquery.py:54 | the list of column names, one per column and in column order; its membership in both directions is `NamesMembership` |
| `Schema.Migrated` | bigquery.py:58-59 | the copy of the current columns extended by the missing ones: the current columns are a prefix, and a field is in it exactly when it is a current column or a desired field with a new name; prefix, suffix and length are `MigratedExtends`, re-migration is `MigrationIdempotent`, uniqueness is `MigrationKeepsNamesUnique`, and `MigrateSchema` stores exactly this list |
| `Identifiers.DatasetId` | bigquery.py:14-15 | the project, a dot, then the dataset name; splitting it back is `DatasetIdParts` |
| `Identifiers.TableId` | bigquery.py:18-19 | the project, a dot, the dataset id, a dot, then the table name; it takes the dataset's short id as a string where the code takes a dataset object and reads its `dataset_id`; splitting it back is `TableIdParts` |
| `Schema.Missing` | bigquery.py:54-55 | the kept fields are exactly the desired fields whose name is not a current name; none is kept exactly when every desired name is already present; never more fields than desired |
| `Schema.MissingAtNewIndices` | bigquery.py:55 | the kept fields are the desired fields at the new-name indices, one for one and in that order |
| `Schema.NewIndicesIncreasing` | bigquery.py:55 | the indices of the kept fields strictly increase, so the filter keeps the order of the desired list |
| `Schema.NewIndicesComplete` | bigquery.py:55 | an index of the desired list is kept exactly when the field there has a name not among the current names, so every such field is kept |
| `Schema.MissingAllNew` | bigquery.py:55 | when no desired name is present yet, every desired field is kept, duplicates included |
| `Schema.MigratedExtends` | bigquery.py:58-59 | the current columns are an unchanged prefix of the new list, the rest is exactly the kept fields, the length is the sum, and nothing kept means the list is unchanged |
| `Schema.RedefinitionIgnored` | bigquery.py:55-59 | a desired field whose name is taken but whose type, mode or description differ does not enter the new list, and the existing column stays as it was |
| `Schema.NamesMembership` | bigquery.py:54 | a name is among the collected names exactly when some column carries it |
| `Schema.MigrationIdempotent` | bigquery.py:54-60 | migrating the migrated list again with the same desired fields finds nothing missing and leaves the list unchanged |
| `Schema.MigrationKeepsNamesUnique` | bigquery.py:54-59 | if the current names and the desired names are each unique, the migrated names are unique |
| `Schema.DuplicateNewNamesBothAppended` | bigquery.py:55 | two desired fields sharing a new name are both appended, so the migrated names are then not unique |
| `BigQuery.MigrateSchema` | bigquery.py:53-62 | the table's new schema is the old one followed by exactly the missing fields; with nothing missing, table and update log are unchanged; otherwise exactly one update carrying the table id, the new schema and the mask `["schema"]` is logged; the table itself is returned |
| `BigQuery.Client.UpdateTable` | bigquery.py:61 | the update request (table id, its current schema, the field mask) is appended to the client's log and the table is returned |
| `BigQuery.MigrateTwice` | bigquery.py:53-62 | two migrations with the same desired fields leave the schema as after the first, and the log gains exactly one schema update when the first run finds something missing and none otherwise: the second run never writes |
| `BigQuery.UpdateLogTableSchema` | bigquery.py:44-50 | the initial columns have unique names and are all `STRING` with mode `REQUIRED` |
| `BigQuery.InitialMigration` | bigquery.py:44-60 | migrating an empty table with the initial columns yields exactly `full_url` then `url_version`, with their types, modes and descriptions |
| `Identifiers.DatasetIdParts` | bigquery.py:14-15 | when neither part contains a dot, a dataset identifier splits at its dot back into the project and the dataset name |
| `Identifiers.TableIdParts` | bigquery.py:18-19 | when no part contains a dot, a table identifier splits at its dots back into the project, the dataset id and the table name |
| `Identifiers.SplitAfter` | bigquery.py:14-19 | splitting `a.b` where `a` has no dot gives `a` followed by the parts of `b`, so joining with a dot is undone by splitting |

## Left out

- The environment settings for the dataset name and location (bigquery.py:7-8): configuration read at start-up.
- Construction of the warehouse client (bigquery.py:11): the client is a parameter; only its project and its log of updates are modelled.
- `get_dataset` and `get_table` (bigquery.py:22-41): network get-or-create calls with not-found handling against the warehouse; a `Table` is built directly instead.
- `BigQuery.Client.UpdateTable`: does not model what the warehouse does with the request; it returns the same table object, where the real client returns a fresh table read back from the warehouse, and a rejected update is not modelled.
- `run` and the main hook (bigquery.py:65-72): orchestration and printing with no logic of its own; the migration it performs on an empty table is stated by `InitialMigration`.
- The progress messages (bigquery.py:27, 39, 57): output only.
- Column types and modes are kept as the strings the code passes; no check that they are valid warehouse types.
- `Identifiers.DatasetIdParts`, `Identifiers.TableIdParts`: the round-trip is stated only for parts without a dot; a domain-scoped project id such as `example.com:proj` contains one, and its identifiers split into more parts.
- Row insertion, URL parsing and version dispatch: not present in the modelled code.
