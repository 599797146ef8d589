/** `create_or_update_tables` in `pars/main.py`: the schema is modelled as the set
    of column names of each table, keyed by table name. The script creates both
    tables when they are missing and then migrates an older `authors` table,
    which had `birth_date` and `additional_info`, to the single `birth` column. */
module Schema {

  const AuthorsTable: string := "authors"
  const QuotesTable: string := "quotes"

  /** The columns of `CREATE TABLE IF NOT EXISTS authors`. */
  const AuthorsColumns: set<string> := {"id", "name", "bio", "birth"}
  /** The columns of `CREATE TABLE IF NOT EXISTS quotes`. */
  const QuotesColumns: set<string> := {"id", "text", "author_id"}

  /** The legacy columns the migration drops. */
  const Legacy: set<string> := {"birth_date", "additional_info"}

  /** The `DO $$ ... $$` block applied to the columns of `authors`. */
  function MigrateAuthors(cols: set<string>): (r: set<string>)
    ensures "birth" in r
    ensures r !! Legacy
    ensures forall c :: c in cols && c !in Legacy ==> c in r
    ensures forall c :: c in r ==> c in cols || c == "birth"
  {
    var kept := cols - {"birth_date"} - {"additional_info"};
    if "birth" in kept then kept else kept + {"birth"}
  }

  /** The whole of `create_or_update_tables` on a schema. */
  function Migrated(db: map<string, set<string>>): map<string, set<string>>
  {
    var created := if AuthorsTable in db then db else db[AuthorsTable := AuthorsColumns];
    var both := if QuotesTable in created then created else created[QuotesTable := QuotesColumns];
    both[AuthorsTable := MigrateAuthors(both[AuthorsTable])]
  }

  /** Both tables exist afterwards; an existing `quotes` table and every other
      table are kept as they are, and `authors` has `birth` and none of the legacy
      columns while every other column it had survives. */
  lemma MigratedShape(db: map<string, set<string>>)
    ensures Migrated(db).Keys == db.Keys + {AuthorsTable, QuotesTable}
    ensures QuotesTable in db ==> Migrated(db)[QuotesTable] == db[QuotesTable]
    ensures QuotesTable !in db ==> Migrated(db)[QuotesTable] == QuotesColumns
    ensures forall t :: t in db && t != AuthorsTable && t != QuotesTable ==> Migrated(db)[t] == db[t]
    ensures "birth" in Migrated(db)[AuthorsTable] && Migrated(db)[AuthorsTable] !! Legacy
    ensures AuthorsTable in db ==>
              forall c :: c in db[AuthorsTable] && c !in Legacy ==> c in Migrated(db)[AuthorsTable]
  {
  }

  /** On an empty database the script creates exactly the two declared tables. */
  lemma MigrateFresh()
    ensures Migrated(map[]) == map[AuthorsTable := AuthorsColumns, QuotesTable := QuotesColumns]
  {
    assert MigrateAuthors(AuthorsColumns) == AuthorsColumns;
  }

  /** An `authors` table of the older layout ends up with the current columns. */
  lemma MigrateLegacyAuthors(db: map<string, set<string>>)
    requires AuthorsTable in db
    requires db[AuthorsTable] == {"id", "name", "bio", "birth_date", "additional_info"}
    ensures Migrated(db)[AuthorsTable] == AuthorsColumns
  {
    assert MigrateAuthors(db[AuthorsTable]) == AuthorsColumns;
  }

  /** Running the script a second time changes nothing. */
  lemma MigrateIdempotent(db: map<string, set<string>>)
    ensures Migrated(Migrated(db)) == Migrated(db)
  {
    var m := Migrated(db);
    MigratedShape(db);
    assert MigrateAuthors(m[AuthorsTable]) == m[AuthorsTable];
    assert m[AuthorsTable := m[AuthorsTable]] == m;
  }

  /** The database the script connects to: table name to column names. */
  class Database {
    var tables: map<string, set<string>>

    constructor (tables: map<string, set<string>>)
      ensures this.tables == tables
    {
      this.tables := tables;
    }

    /** `CREATE TABLE IF NOT EXISTS`. */
    method CreateTableIfNotExists(name: string, columns: set<string>)
      modifies this
      ensures tables == if name in old(tables) then old(tables) else old(tables)[name := columns]
    {
      if name !in tables {
        tables := tables[name := columns];
      }
    }

    /** `IF EXISTS (... column_name = c) THEN ALTER TABLE t DROP COLUMN c`. */
    method DropColumnIfExists(table: string, column: string)
      requires table in tables
      modifies this
      ensures tables == old(tables)[table := old(tables)[table] - {column}]
    {
      if column in tables[table] {
        tables := tables[table := tables[table] - {column}];
      } else {
        assert tables[table] - {column} == tables[table];
        assert tables[table := tables[table]] == tables;
      }
    }

    /** `IF NOT EXISTS (... column_name = c) THEN ALTER TABLE t ADD COLUMN c`. */
    method AddColumnIfNotExists(table: string, column: string)
      requires table in tables
      modifies this
      ensures tables == old(tables)[table := old(tables)[table] + {column}]
    {
      if column !in tables[table] {
        tables := tables[table := tables[table] + {column}];
      } else {
        assert tables[table] + {column} == tables[table];
        assert tables[table := tables[table]] == tables;
      }
    }

    /** `create_or_update_tables`: the two `CREATE TABLE IF NOT EXISTS` statements,
        then the three conditional `ALTER TABLE authors` statements, in order. */
    method CreateOrUpdateTables()
      modifies this
      ensures tables == Migrated(old(tables))
    {
      CreateTableIfNotExists(AuthorsTable, AuthorsColumns);
      CreateTableIfNotExists(QuotesTable, QuotesColumns);
      ghost var both := tables;
      DropColumnIfExists(AuthorsTable, "birth_date");
      DropColumnIfExists(AuthorsTable, "additional_info");
      AddColumnIfNotExists(AuthorsTable, "birth");
      assert tables[AuthorsTable] == MigrateAuthors(both[AuthorsTable]);
    }
  }
}
