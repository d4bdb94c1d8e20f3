/** The answers of the long poll, as the server writes them and the watcher reads them. */
module Responses {
  type Rid = string

  /** A row of a /wait response: the review and its turn_updated. */
  datatype Row = Row(rid: Rid, turnUpdated: real)

  /** cursor = max([cursor] + stamps) */
  function NewestStamp(cursor: real, rows: seq<Row>): real {
    if rows == [] then cursor
    else
      var before := NewestStamp(cursor, rows[..|rows| - 1]);
      if rows[|rows| - 1].turnUpdated > before then rows[|rows| - 1].turnUpdated else before
  }

  /** The cursor never falls behind itself or any delivered stamp, and is one of them. */
  lemma {:induction false} NewestStampIsMax(cursor: real, rows: seq<Row>)
    ensures NewestStamp(cursor, rows) >= cursor
    ensures forall k :: 0 <= k < |rows| ==> NewestStamp(cursor, rows) >= rows[k].turnUpdated
    ensures NewestStamp(cursor, rows) == cursor || exists k :: 0 <= k < |rows| && NewestStamp(cursor, rows) == rows[k].turnUpdated
  {
    if rows != [] {
      NewestStampIsMax(cursor, rows[..|rows| - 1]);
    }
  }

  /** The cursor after a list of responses. */
  function CursorAfter(cursor: real, responses: seq<seq<Row>>): real {
    if responses == [] then cursor
    else NewestStamp(CursorAfter(cursor, responses[..|responses| - 1]), responses[|responses| - 1])
  }

  lemma CursorStep(cursor: real, responses: seq<seq<Row>>, rows: seq<Row>)
    ensures CursorAfter(cursor, responses + [rows]) == NewestStamp(CursorAfter(cursor, responses), rows)
  {
    assert (responses + [rows])[..|responses|] == responses;
  }
}
