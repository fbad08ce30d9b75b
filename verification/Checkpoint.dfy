/** The value types and the append-only file that every phase of a run shares. */
module Options {
  datatype Option<+T> = None | Some(value: T)
}

module Checkpoint {
  /** One `.jsonl` artifact: rows are appended one at a time and never rewritten.
      An append is flushed and synced, so it is one atomic step of a run. */
  class JsonlFile<Row> {
    var rows: seq<Row>

    constructor ()
      ensures rows == []
    {
      rows := [];
    }

    method Append(row: Row)
      modifies this
      ensures rows == old(rows) + [row]
    {
      rows := rows + [row];
    }
  }
}
