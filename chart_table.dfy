/** The tb_chart table as the maintenance scripts update it: rows keyed by
    their primary key `id`, with the two columns the scripts rewrite.
    Both columns are nullable text in SQL, and update_state.py selects rows
    whose state IS NULL, so they are optional here. ChartService's
    `ChartEntity` is the same table as the TypeORM entity declares it, with
    non-null string columns, and the model of the services follows that
    declaration. */
module ChartTable {
  import opened Common

  datatype TableRow = TableRow(id: int, country: Option<string>, state: Option<string>)

  /** `id` is the primary key: no two rows share it. */
  predicate UniqueIds(rows: seq<TableRow>) {
    forall i, j :: 0 <= i < |rows| && 0 <= j < |rows| && rows[i].id == rows[j].id ==> i == j
  }
}
