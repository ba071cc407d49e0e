/** The comments table of `CommentModel`: rows `(id AUTOINCREMENT, ip,
    creation_date, user, comment)`. `creation_date` is a timestamp the caller
    supplies for `DEFAULT CURRENT_TIMESTAMP`. */
module Comments {
  import opened Common

  datatype CommentRow = CommentRow(id: int, ip: string, user: string, comment: string, creationDate: int)

  /** A dict of `get_all`: `{id, ip, user, comment, creation_date}`. */
  datatype CommentRecord = CommentRecord(id: int, ip: string, user: string, comment: string, creationDate: int)

  predicate IdsDiffer(a: CommentRow, b: CommentRow) { a.id != b.id }

  /** Ids are positive, below the next AUTOINCREMENT id and unique. */
  ghost predicate TableInvariant(rows: seq<CommentRow>, nextId: int) {
    && 1 <= nextId
    && (forall r :: r in rows ==> 1 <= r.id < nextId)
    && Pairwise(rows, IdsDiffer)
  }

  function RecordOf(r: CommentRow): CommentRecord {
    CommentRecord(r.id, r.ip, r.user, r.comment, r.creationDate)
  }

  /** `get_all`: one record per stored row, carrying that row's fields. The
      SELECT has no ORDER BY; this model lists the rows in stored order. */
  function GetAll(rows: seq<CommentRow>): (r: seq<CommentRecord>)
    ensures |r| == |rows|
    ensures forall c :: c in r <==> exists x :: x in rows && c == RecordOf(x)
  {
    if rows == [] then []
    else
      assert rows == [rows[0]] + rows[1..];
      [RecordOf(rows[0])] + GetAll(rows[1..])
  }

  /** A comment that `add` stored appears in `get_all` with its own id and
      exactly the ip, user and comment it was given, and no other record
      carries that id. */
  lemma AddedCommentListed(rows: seq<CommentRow>, nextId: int, ip: string, user: string, comment: string, now: int)
    requires TableInvariant(rows, nextId)
    ensures var all := GetAll(rows + [CommentRow(nextId, ip, user, comment, now)]);
            && CommentRecord(nextId, ip, user, comment, now) in all
            && forall c :: c in all && c.id == nextId ==> c == CommentRecord(nextId, ip, user, comment, now)
  {
    var row := CommentRow(nextId, ip, user, comment, now);
    assert row in rows + [row];
    forall c | c in GetAll(rows + [row]) && c.id == nextId ensures c == RecordOf(row) {
      var x :| x in rows + [row] && c == RecordOf(x);
      assert x !in rows;
    }
  }

  /** The comments table: its rows and the next AUTOINCREMENT id. */
  class CommentModel {
    var rows: seq<CommentRow>
    var nextId: int

    ghost predicate Valid()
      reads this
    {
      TableInvariant(rows, nextId)
    }

    /** A freshly created, empty comments table. */
    constructor ()
      ensures Valid() && rows == [] && nextId == 1
    {
      rows := [];
      nextId := 1;
    }

    /** `add`: inserts one row with the given ip, user and comment and returns
        its id, or `None` when `lastrowid` is falsy; AUTOINCREMENT ids start at
        1, so that never happens. */
    method Add(ip: string, user: string, comment: string, now: int) returns (r: Option<int>)
      requires Valid()
      modifies this
      ensures Valid()
      ensures rows == old(rows) + [CommentRow(old(nextId), ip, user, comment, now)]
      ensures nextId == old(nextId) + 1
      ensures r == Some(old(nextId))
      ensures forall x :: x in old(rows) ==> x.id != r.value
    {
      var commentId := nextId;
      rows := rows + [CommentRow(commentId, ip, user, comment, now)];
      nextId := nextId + 1;
      if commentId != 0 {
        r := Some(commentId);
      } else {
        r := None;
      }
    }
  }
}
