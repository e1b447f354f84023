/** `createMigration`: one column statement per field, then the soft-delete flag and the timestamps. */
module Migration {
  import opened Strings
  import opened FieldSpec
  import opened TypeTables
  import opened Emitters

  /** The slots of the migration template. */
  datatype MigrationFile = MigrationFile(model: string, table: string, columns: seq<Column>)

  /** The column list: the fields' columns in field order, then `deleted` and `timestamps()`. */
  function Columns(fields: seq<Field>, infl: Inflector): (cols: seq<Column>)
    ensures |cols| == |fields| + 2
    ensures forall i :: 0 <= i < |fields| ==> cols[i] == ColumnFor(fields[i], infl)
    ensures cols[|fields|] == DeletedFlag && cols[|fields| + 1] == Timestamps
  {
    MapFields(fields, (f: Field) => ColumnFor(f, infl)) + [DeletedFlag, Timestamps]
  }

  /** The table of a model: its plural, lower-cased letter by letter. */
  function TableName(model: string, infl: Inflector): (r: string)
    ensures |r| == |infl.plural(model)|
    ensures forall i :: 0 <= i < |r| ==> !IsUpper(r[i])
    ensures forall i :: 0 <= i < |r| && !IsUpper(infl.plural(model)[i]) ==> r[i] == infl.plural(model)[i]
  {
    ToLower(infl.plural(model))
  }

  /** `<stamp>_create_<table>_table.php`; the clock reading is a parameter. */
  function MigrationFileName(stamp: string, model: string, infl: Inflector): (r: string)
    ensures |r| == |stamp| + |"_create_"| + |TableName(model, infl)| + |"_table.php"|
    ensures StartsWith(r, stamp)
    ensures r[|stamp|..|stamp| + |"_create_"|] == "_create_"
    ensures r[|stamp| + |"_create_"|..|r| - |"_table.php"|] == TableName(model, infl)
    ensures r[|r| - |"_table.php"|..] == "_table.php"
  {
    stamp + "_create_" + TableName(model, infl) + "_table.php"
  }

  datatype MigrationOutcome =
    | Created(fileName: string, file: MigrationFile)
    | AlreadyExists(fileName: string)   // warned about; the existing file is kept

  /** The migration is written only when no file of that name exists. */
  function CreateMigration(model: string, fields: seq<Field>, stamp: string, existing: set<string>, infl: Inflector): (r: MigrationOutcome)
    ensures r.fileName == MigrationFileName(stamp, model, infl)
    ensures r.AlreadyExists? <==> r.fileName in existing
    ensures r.Created? ==> r.file == MigrationFile(model, TableName(model, infl), Columns(fields, infl))
  {
    var name := MigrationFileName(stamp, model, infl);
    if name in existing then AlreadyExists(name)
    else Created(name, MigrationFile(model, TableName(model, infl), Columns(fields, infl)))
  }

  /**
   * Foreign fields become constrained, cascading references to the plural of
   * their related model; every other field uses a real schema-builder method
   * (never `email`, `file`, `files` or `moeda`, which the builder lacks).
   */
  lemma ColumnsAreBuilderCalls(fields: seq<Field>, infl: Inflector)
    ensures forall i :: 0 <= i < |fields| ==>
              var c := Columns(fields, infl)[i];
              (fields[i].isForeign ==> c == ForeignId(fields[i].name, ToLower(infl.plural(fields[i].relatedModel)))) &&
              (!fields[i].isForeign ==> c.Typed? && c.name == fields[i].name && c.builder in BuilderMethods)
  {
  }

  /** Two runs whose clock readings have the same length but differ name different migration files. */
  lemma DistinctStampsDistinctFiles(stamp1: string, stamp2: string, model: string, infl: Inflector)
    requires |stamp1| == |stamp2| && stamp1 != stamp2
    ensures MigrationFileName(stamp1, model, infl) != MigrationFileName(stamp2, model, infl)
  {
    assert MigrationFileName(stamp1, model, infl)[..|stamp1|] == stamp1;
  }
}
