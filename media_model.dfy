/** The media table of `MediaModel`: content-addressed rows
    `(id, sha256 UNIQUE, rel_path UNIQUE, mime, uploaded_at)`. Hashes are
    opaque strings; `uploaded_at` is a timestamp the caller supplies for
    `DEFAULT CURRENT_TIMESTAMP`, ordered as the timestamp text is. */
module Media {
  import opened Common

  datatype MediaRow = MediaRow(id: int, sha256: string, relPath: string, mime: string, uploadedAt: int)

  /** `recent` returns at most this many rows (`LIMIT 25`). */
  const RecentLimit: nat := 25

  function PathOf(r: MediaRow): string { r.relPath }

  predicate IdsDiffer(a: MediaRow, b: MediaRow) { a.id != b.id }
  predicate HashesDiffer(a: MediaRow, b: MediaRow) { a.sha256 != b.sha256 }
  predicate PathsDiffer(a: MediaRow, b: MediaRow) { a.relPath != b.relPath }

  /** Ids are positive, below the next AUTOINCREMENT id and unique; no two
      rows share a `sha256` and no two share a `rel_path`. */
  ghost predicate TableInvariant(rows: seq<MediaRow>, nextId: int) {
    && 1 <= nextId
    && (forall r :: r in rows ==> 1 <= r.id < nextId)
    && Pairwise(rows, IdsDiffer)
    && Pairwise(rows, HashesDiffer)
    && Pairwise(rows, PathsDiffer)
  }

  /** An INSERT of this hash or path would break one of the UNIQUE constraints. */
  predicate InsertClashes(rows: seq<MediaRow>, sha256: string, relPath: string): (b: bool)
    ensures GetByHash(rows, sha256).Some? ==> b
    ensures !b ==> forall x :: x in rows ==> x.relPath != relPath
  {
    exists r :: r in rows && (r.sha256 == sha256 || r.relPath == relPath)
  }

  /** `get_by_hash`: the first row fetched `WHERE sha256=?`, or `None`. */
  function GetByHash(rows: seq<MediaRow>, sha256: string): (r: Option<MediaRow>)
    ensures r.None? <==> forall x :: x in rows ==> x.sha256 != sha256
    ensures r.Some? ==> r.value in rows && r.value.sha256 == sha256
  {
    if rows == [] then None
    else
      assert rows == [rows[0]] + rows[1..];
      if rows[0].sha256 == sha256 then Some(rows[0]) else GetByHash(rows[1..], sha256)
  }

  /** With unique hashes, `get_by_hash` finds the one row that has the hash. */
  lemma GetByHashFindsRow(rows: seq<MediaRow>, nextId: int, x: MediaRow)
    requires TableInvariant(rows, nextId)
    requires x in rows
    ensures GetByHash(rows, x.sha256) == Some(x)
  {
    PairwiseMembers(rows, HashesDiffer, x, GetByHash(rows, x.sha256).value);
  }

  /** With unique paths, a `DELETE ... WHERE rel_path=?` counts 0 or 1 rows. */
  lemma {:induction false} PathCountAtMostOne(rows: seq<MediaRow>, relPath: string)
    requires Pairwise(rows, PathsDiffer)
    ensures Count(rows, PathOf, relPath) <= 1
  {
    if rows != [] {
      assert Pairwise(rows[1..], PathsDiffer) by {
        forall i, j | 0 <= i < j < |rows[1..]| ensures PathsDiffer(rows[1..][i], rows[1..][j]) {
          assert rows[1..][i] == rows[i + 1] && rows[1..][j] == rows[j + 1];
        }
      }
      PathCountAtMostOne(rows[1..], relPath);
      if rows[0].relPath == relPath {
        forall x | x in rows[1..] ensures PathOf(x) != relPath {
          var k :| 0 <= k < |rows[1..]| && rows[1..][k] == x;
          assert rows[k + 1] == x;
          assert PathsDiffer(rows[0], rows[k + 1]);
        }
      }
    }
  }

  predicate NewerOrSame(a: MediaRow, b: MediaRow) { a.uploadedAt >= b.uploadedAt }

  /** `recent`: `ORDER BY uploaded_at DESC LIMIT 25`. The result holds
      min(25, all) stored rows, newest first, and every row left out is no
      newer than any row returned. */
  function Recent(rows: seq<MediaRow>): (r: seq<MediaRow>)
    ensures |r| == Min(|rows|, RecentLimit)
    ensures multiset(r) <= multiset(rows)
    ensures forall i, j :: 0 <= i < j < |r| ==> r[i].uploadedAt >= r[j].uploadedAt
    ensures forall x, i :: x in multiset(rows) - multiset(r) && 0 <= i < |r| ==> x.uploadedAt <= r[i].uploadedAt
  {
    SortSorted(rows, NewerOrSame);
    var s := Sort(rows, NewerOrSame);
    var k := Min(|s|, RecentLimit);
    assert |s| == |multiset(s)| == |rows|;
    SortedPrefix(s, NewerOrSame, k);
    s[..k]
  }

  /** The media table: its rows and the next AUTOINCREMENT id. */
  class MediaModel {
    var rows: seq<MediaRow>
    var nextId: int

    ghost predicate Valid()
      reads this
    {
      TableInvariant(rows, nextId)
    }

    /** A freshly created, empty media table. */
    constructor ()
      ensures Valid() && rows == [] && nextId == 1
    {
      rows := [];
      nextId := 1;
    }

    /** `insert`: one new row with a fresh id, unless the hash or the path is
        already stored; `now` is the `uploaded_at` default. */
    method Insert(sha256: string, relPath: string, mime: string, now: int) returns (r: Result<int>)
      requires Valid()
      modifies this
      ensures Valid()
      ensures r.Err? <==> InsertClashes(old(rows), sha256, relPath)
      ensures r.Err? ==> rows == old(rows) && nextId == old(nextId)
      ensures r.Ok? ==> && r.value == old(nextId) && nextId == old(nextId) + 1
                        && rows == old(rows) + [MediaRow(r.value, sha256, relPath, mime, now)]
      ensures r.Ok? ==> forall x :: x in old(rows) ==> x.id != r.value
    {
      if InsertClashes(rows, sha256, relPath) {
        return Err(UniqueViolation);
      }
      rows := rows + [MediaRow(nextId, sha256, relPath, mime, now)];
      r := Ok(nextId);
      nextId := nextId + 1;
    }

    /** `delete(rel_path)`: removes the rows with that path and returns their
        count, which uniqueness bounds by one. */
    method Delete(relPath: string) returns (count: int)
      requires Valid()
      modifies this
      ensures Valid()
      ensures rows == Reject(old(rows), PathOf, relPath) && nextId == old(nextId)
      ensures count == Count(old(rows), PathOf, relPath) && 0 <= count <= 1
      ensures count == 0 <==> forall x :: x in old(rows) ==> x.relPath != relPath
    {
      count := Count(rows, PathOf, relPath);
      PathCountAtMostOne(rows, relPath);
      RejectPairwise(rows, PathOf, relPath, IdsDiffer);
      RejectPairwise(rows, PathOf, relPath, HashesDiffer);
      RejectPairwise(rows, PathOf, relPath, PathsDiffer);
      rows := Reject(rows, PathOf, relPath);
    }
  }
}
