/** Rows, keys and databases as the replicator sees them.

    A key is the faithful text form of a replication key tuple; a row carries the
    transported columns only. A database is keyed by (table, key), so a table is the
    slice of a database whose row ids carry its name. */
module Rows {

  type Table = string
  type Key = seq<string>
  type Column = string
  type DeltaId = nat
  type TargetId = string

  datatype Option<+T> = None | Some(value: T)

  datatype Cell = Null | Text(text: string)

  type Row = map<Column, Cell>

  datatype RowId = RowId(table: Table, key: Key)

  type Database = map<RowId, Row>

  function Lookup<K, V>(m: map<K, V>, k: K): Option<V> {
    if k in m then Some(m[k]) else None
  }

  /** The merge upsert of one row: omitted columns keep the prior value of an existing
      row and load NULL on a new one. */
  function UpsertRow(prior: Option<Row>, row: Row, omit: set<Column>): Row {
    map c | c in row ::
      if c !in omit then row[c]
      else if prior.Some? && c in prior.value then prior.value[c]
      else Null
  }

  /** Stage and upsert: every staged row is merged into the target. */
  function UpsertAll(rows: Database, staged: Database, omit: set<Column>): Database {
    rows + (map id | id in staged :: UpsertRow(Lookup(rows, id), staged[id], omit))
  }

  lemma UpsertAllAt(rows: Database, staged: Database, omit: set<Column>, id: RowId)
    ensures Lookup(UpsertAll(rows, staged, omit), id) ==
            if id in staged then Some(UpsertRow(Lookup(rows, id), staged[id], omit)) else Lookup(rows, id)
  {}

  /** Deletes the dirty keys that the re-read did not return. */
  function DeleteAbsent(rows: Database, dirty: set<RowId>, staged: Database): Database {
    rows - (dirty - staged.Keys)
  }

  /** Sets the given columns of every staged row from the staging. */
  function FillColumns(rows: Database, staged: Database, cols: set<Column>): Database {
    map id | id in rows ::
      if id in staged then
        map c | c in rows[id] :: if c in cols && c in staged[id] then staged[id][c] else rows[id][c]
      else rows[id]
  }

  /** Rows of `db` whose ids are among `ids`: the re-read of a dirty-key set. */
  function Restrict(db: Database, ids: set<RowId>): Database {
    map id | id in db && id in ids :: db[id]
  }
}
