/** The pages table of `PageModel`: rows `(id, page, page_order, locale,
    content, position)` with `id INTEGER PRIMARY KEY AUTOINCREMENT` and
    `UNIQUE(page, locale, position)`. The class holds the rows and the next
    AUTOINCREMENT id and performs the INSERT, UPDATE and DELETE statements;
    the SELECT statements are functions over the rows. */
module Pages {
  import opened Common

  /** One stored block of a page. */
  datatype PageRow = PageRow(id: int, page: string, pageOrder: int, locale: string, content: string, position: int)

  /** A row of `get_blocks_for_page`: the dict `{id, position, content}`. */
  datatype Block = Block(id: int, position: int, content: string)

  function IdOf(r: PageRow): int { r.id }
  function PageOf(r: PageRow): string { r.page }

  predicate IdsDiffer(a: PageRow, b: PageRow) { a.id != b.id }

  /** The two rows occupy different `(page, locale, position)` slots. */
  predicate SlotsDiffer(a: PageRow, b: PageRow) {
    a.page != b.page || a.locale != b.locale || a.position != b.position
  }

  /** What the schema and AUTOINCREMENT guarantee of the stored rows: ids are
      positive, below the next id to hand out, and unique, and no two rows
      share a `(page, locale, position)` slot. */
  ghost predicate TableInvariant(rows: seq<PageRow>, nextId: int) {
    && 1 <= nextId
    && (forall r :: r in rows ==> 1 <= r.id < nextId)
    && Pairwise(rows, IdsDiffer)
    && Pairwise(rows, SlotsDiffer)
  }

  predicate HasPage(rows: seq<PageRow>, page: string) {
    exists r :: r in rows && r.page == page
  }

  /** An INSERT into this slot would break `UNIQUE(page, locale, position)`. */
  predicate SlotTaken(rows: seq<PageRow>, page: string, locale: string, position: int) {
    exists r :: r in rows && r.page == page && r.locale == locale && r.position == position
  }

  /** `SELECT MIN(page_order) FROM pages WHERE page=?`, NULL as `None`. */
  function MinOrder(rows: seq<PageRow>, page: string): (m: Option<int>)
    ensures m.None? <==> !HasPage(rows, page)
    ensures m.Some? ==> && (exists r :: r in rows && r.page == page && r.pageOrder == m.value)
                        && (forall r :: r in rows && r.page == page ==> m.value <= r.pageOrder)
  {
    if rows == [] then None
    else
      assert rows == [rows[0]] + rows[1..];
      var rest := MinOrder(rows[1..], page);
      if rows[0].page != page then rest
      else if rest.Some? && rest.value < rows[0].pageOrder then rest
      else Some(rows[0].pageOrder)
  }

  /** `SELECT MAX(page_order) FROM pages`, NULL as `None`. */
  function MaxOrder(rows: seq<PageRow>): (m: Option<int>)
    ensures m.None? <==> rows == []
    ensures m.Some? ==> && (exists r :: r in rows && r.pageOrder == m.value)
                        && (forall r :: r in rows ==> r.pageOrder <= m.value)
  {
    if rows == [] then None
    else
      assert rows == [rows[0]] + rows[1..];
      var rest := MaxOrder(rows[1..]);
      if rest.Some? && rest.value > rows[0].pageOrder then rest
      else Some(rows[0].pageOrder)
  }

  /** `_resolve_page_order`: a page that already has rows keeps the smallest
      order among them; a new page comes after every stored order
      (`COALESCE(MAX(page_order), -1) + 1`), which is 0 on an empty table. */
  function ResolvePageOrder(rows: seq<PageRow>, page: string): (po: int)
    ensures HasPage(rows, page) ==>
              && (exists r :: r in rows && r.page == page && r.pageOrder == po)
              && (forall r :: r in rows && r.page == page ==> po <= r.pageOrder)
    ensures !HasPage(rows, page) && rows != [] ==>
              && (exists r :: r in rows && po == r.pageOrder + 1)
              && (forall r :: r in rows ==> r.pageOrder < po)
    ensures rows == [] ==> po == 0
  {
    match MinOrder(rows, page)
    case Some(m) => m
    case None =>
      match MaxOrder(rows)
      case Some(m) => m + 1
      case None => 0
  }

  /** The `page_order` that `add` stores: a non-zero argument as given; for
      0, the smallest order of a stored page, or for a new page an order
      above every stored one. */
  function StoredOrder(rows: seq<PageRow>, page: string, pageOrder: int): (o: int)
    ensures pageOrder != 0 ==> o == pageOrder
    ensures pageOrder == 0 && HasPage(rows, page) ==> Some(o) == MinOrder(rows, page)
    ensures pageOrder == 0 && !HasPage(rows, page) ==> forall r :: r in rows ==> r.pageOrder < o
  {
    if pageOrder == 0 then ResolvePageOrder(rows, page) else pageOrder
  }

  /** Binding the position or the stored order of an `add` would raise
      `OverflowError`: one of them does not fit SQLite's INTEGER. */
  predicate AddOverflows(rows: seq<PageRow>, page: string, position: int, pageOrder: int) {
    !FitsInt64(position) || !FitsInt64(StoredOrder(rows, page, pageOrder))
  }

  /** `add` raises: a parameter does not fit, or the slot is taken. */
  predicate AddFails(rows: seq<PageRow>, page: string, locale: string, position: int, pageOrder: int) {
    AddOverflows(rows, page, position, pageOrder) || SlotTaken(rows, page, locale, position)
  }

  /** `UPDATE pages SET position=? WHERE id=?` would move the row `id` into a
      slot another row of its page and locale already holds. */
  predicate UpdateClashes(rows: seq<PageRow>, id: int, position: int): (b: bool)
    ensures b ==> exists t :: t in rows && t.id == id && SlotTaken(rows, t.page, t.locale, position)
  {
    exists t, x :: t in rows && x in rows && t.id == id && x.id != id
                   && x.page == t.page && x.locale == t.locale && x.position == position
  }

  /** The rows after `UPDATE pages SET position=?, content=? WHERE id=?`. */
  function Updated(rows: seq<PageRow>, id: int, position: int, content: string): (r: seq<PageRow>)
    ensures |r| == |rows|
    ensures forall i :: 0 <= i < |rows| ==>
              r[i].id == rows[i].id && r[i].page == rows[i].page
              && r[i].locale == rows[i].locale && r[i].pageOrder == rows[i].pageOrder
    ensures forall i :: 0 <= i < |rows| && rows[i].id != id ==> r[i] == rows[i]
    ensures forall i :: 0 <= i < |rows| && rows[i].id == id ==> r[i].position == position && r[i].content == content
  {
    seq(|rows|, i requires 0 <= i < |rows| =>
      if rows[i].id == id then rows[i].(position := position, content := content) else rows[i])
  }

  /** An update that does not clash keeps every table invariant. */
  lemma UpdatedKeepsInvariant(rows: seq<PageRow>, nextId: int, id: int, position: int, content: string)
    requires TableInvariant(rows, nextId)
    requires !UpdateClashes(rows, id, position)
    ensures TableInvariant(Updated(rows, id, position, content), nextId)
  {
    var r := Updated(rows, id, position, content);
    forall x | x in r ensures 1 <= x.id < nextId {
      var i :| 0 <= i < |r| && r[i] == x;
      assert rows[i] in rows;
    }
    forall i, j | 0 <= i < j < |r| ensures SlotsDiffer(r[i], r[j]) {
      assert IdsDiffer(rows[i], rows[j]) && SlotsDiffer(rows[i], rows[j]);
      assert rows[i] in rows && rows[j] in rows;
      if rows[i].id == id {
        assert !(rows[j].page == rows[i].page && rows[j].locale == rows[i].locale && rows[j].position == position);
      } else if rows[j].id == id {
        assert !(rows[i].page == rows[j].page && rows[i].locale == rows[j].locale && rows[i].position == position);
      }
    }
  }

  /** The rows `WHERE page=? AND locale=?`, in stored order. */
  function Select(rows: seq<PageRow>, page: string, locale: string): (r: seq<PageRow>)
    ensures forall x :: x in r <==> x in rows && x.page == page && x.locale == locale
    ensures multiset(r) <= multiset(rows)
  {
    if rows == [] then []
    else
      assert rows == [rows[0]] + rows[1..];
      var rest := Select(rows[1..], page, locale);
      if rows[0].page == page && rows[0].locale == locale then [rows[0]] + rest else rest
  }

  predicate PositionLe(a: PageRow, b: PageRow) { a.position <= b.position }

  predicate PositionIdLe(a: PageRow, b: PageRow) {
    a.position < b.position || (a.position == b.position && a.id <= b.id)
  }

  /** The matching rows `ORDER BY position`, the rows behind `get`: exactly the
      rows of that page and locale, each as often as it is stored, with
      positions non-decreasing. */
  function OrderedByPosition(rows: seq<PageRow>, page: string, locale: string): (r: seq<PageRow>)
    ensures multiset(r) == multiset(Select(rows, page, locale))
    ensures Sorted(r, PositionLe)
  {
    SortSorted(Select(rows, page, locale), PositionLe);
    Sort(Select(rows, page, locale), PositionLe)
  }

  /** The matching rows `ORDER BY position ASC, id ASC`, the rows behind
      `get_blocks_for_page`. */
  function OrderedByPositionAndId(rows: seq<PageRow>, page: string, locale: string): (r: seq<PageRow>)
    ensures multiset(r) == multiset(Select(rows, page, locale))
    ensures Sorted(r, PositionIdLe)
  {
    SortSorted(Select(rows, page, locale), PositionIdLe);
    Sort(Select(rows, page, locale), PositionIdLe)
  }

  /** `get(page, locale)`: the content column of the ordered matching rows,
      one entry per stored block. */
  function Get(rows: seq<PageRow>, page: string, locale: string): (r: seq<string>)
    ensures |r| == |Select(rows, page, locale)|
    ensures forall i :: 0 <= i < |r| ==> r[i] == OrderedByPosition(rows, page, locale)[i].content
  {
    var o := OrderedByPosition(rows, page, locale);
    assert |o| == |multiset(o)|;
    seq(|o|, i requires 0 <= i < |o| => o[i].content)
  }

  /** `get_blocks_for_page(page, locale)`: one `Block` per matching row, in
      `(position, id)` order. */
  function BlocksForPage(rows: seq<PageRow>, page: string, locale: string): (r: seq<Block>)
    ensures |r| == |Select(rows, page, locale)|
    ensures forall i :: 0 <= i < |r| ==>
              var x := OrderedByPositionAndId(rows, page, locale)[i];
              r[i] == Block(x.id, x.position, x.content)
  {
    var o := OrderedByPositionAndId(rows, page, locale);
    assert |o| == |multiset(o)|;
    seq(|o|, i requires 0 <= i < |o| => Block(o[i].id, o[i].position, o[i].content))
  }

  /** The page's `MIN(page_order)`, the key `get_pages_list` sorts by. */
  function Rank(rows: seq<PageRow>, page: string): (k: int)
    ensures HasPage(rows, page) ==> Some(k) == MinOrder(rows, page)
  {
    match MinOrder(rows, page)
    case Some(m) => m
    case None => 0
  }

  /** `SELECT page ... GROUP BY page`: every stored page name exactly once. */
  function DistinctPages(rows: seq<PageRow>): (r: seq<string>)
    ensures forall p :: multiset(r)[p] == if HasPage(rows, p) then 1 else 0
  {
    if rows == [] then []
    else
      assert rows == [rows[0]] + rows[1..];
      var rest := DistinctPages(rows[1..]);
      if rows[0].page in rest then rest else [rows[0].page] + rest
  }

  /** `get_pages_list`: each stored page exactly once, ordered by the page's
      smallest `page_order`. */
  function PagesList(rows: seq<PageRow>): (r: seq<string>)
    ensures forall p :: multiset(r)[p] == if HasPage(rows, p) then 1 else 0
    ensures forall i :: 0 <= i < |r| ==> HasPage(rows, r[i])
    ensures forall i, j :: 0 <= i < j < |r| ==> Rank(rows, r[i]) <= Rank(rows, r[j])
  {
    var le := (a: string, b: string) => Rank(rows, a) <= Rank(rows, b);
    SortSorted(DistinctPages(rows), le);
    var r := Sort(DistinctPages(rows), le);
    assert forall i :: 0 <= i < |r| ==> multiset(r)[r[i]] > 0;
    r
  }

  /** Two positions in stored multiset order: an element occurring at two
      indices occurs at least twice. */
  lemma TwiceInMultiset<T>(s: seq<T>, i: int, j: int)
    requires 0 <= i < j < |s| && s[i] == s[j]
    ensures multiset(s)[s[i]] >= 2
  {
    assert s == s[..j] + s[j..];
    assert s[i] in s[..j] && s[j] in s[j..];
  }

  /** Under the slot constraint every stored row occurs once. */
  lemma {:induction false} RowsOccurOnce(rows: seq<PageRow>, x: PageRow)
    requires Pairwise(rows, SlotsDiffer)
    ensures multiset(rows)[x] <= 1
  {
    if rows != [] {
      assert rows == [rows[0]] + rows[1..];
      assert Pairwise(rows[1..], SlotsDiffer) by {
        forall i, j | 0 <= i < j < |rows[1..]| ensures SlotsDiffer(rows[1..][i], rows[1..][j]) {
          assert rows[1..][i] == rows[i + 1] && rows[1..][j] == rows[j + 1];
        }
      }
      RowsOccurOnce(rows[1..], x);
    }
  }

  /** Because of `UNIQUE(page, locale, position)`, `get` lists a page's blocks
      with strictly increasing positions: ORDER BY position has no ties. */
  lemma OrderedPositionsStrict(rows: seq<PageRow>, nextId: int, page: string, locale: string)
    requires TableInvariant(rows, nextId)
    ensures var o := OrderedByPosition(rows, page, locale);
            forall i, j :: 0 <= i < j < |o| ==> o[i].position < o[j].position
  {
    var o := OrderedByPosition(rows, page, locale);
    forall i, j | 0 <= i < j < |o| ensures o[i].position < o[j].position {
      assert PositionLe(o[i], o[j]);
      assert o[i] in multiset(o) && o[j] in multiset(o);
      if o[i].position == o[j].position {
        PairwiseMembers(rows, SlotsDiffer, o[i], o[j]);
        TwiceInMultiset(o, i, j);
        RowsOccurOnce(rows, o[i]);
        assert false;
      }
    }
  }

  /** The same holds of the `(position, id)` order of `get_blocks_for_page`. */
  lemma OrderedPositionsAndIdsStrict(rows: seq<PageRow>, nextId: int, page: string, locale: string)
    requires TableInvariant(rows, nextId)
    ensures var o := OrderedByPositionAndId(rows, page, locale);
            forall i, j :: 0 <= i < j < |o| ==> o[i].position < o[j].position
  {
    var o := OrderedByPositionAndId(rows, page, locale);
    forall i, j | 0 <= i < j < |o| ensures o[i].position < o[j].position {
      assert PositionIdLe(o[i], o[j]);
      assert o[i] in multiset(o) && o[j] in multiset(o);
      if o[i].position == o[j].position {
        PairwiseMembers(rows, SlotsDiffer, o[i], o[j]);
        TwiceInMultiset(o, i, j);
        RowsOccurOnce(rows, o[i]);
        assert false;
      }
    }
  }

  ghost predicate StrictlyByPosition(s: seq<PageRow>) {
    forall i, j :: 0 <= i < j < |s| ==> s[i].position < s[j].position
  }

  /** The row with the smallest position comes first in both orderings. */
  lemma StrictOrderHeads(a: seq<PageRow>, b: seq<PageRow>)
    requires multiset(a) == multiset(b) && a != []
    requires StrictlyByPosition(a) && StrictlyByPosition(b)
    ensures b != [] && a[0] == b[0]
  {
    assert a[0] in multiset(b) && |b| == |multiset(b)| > 0;
    assert b[0] in multiset(a);
    var k :| 0 <= k < |b| && b[k] == a[0];
    var m :| 0 <= m < |a| && a[m] == b[0];
  }

  lemma MultisetTails<T>(a: seq<T>, b: seq<T>)
    requires multiset(a) == multiset(b) && a != [] && b != [] && a[0] == b[0]
    ensures multiset(a[1..]) == multiset(b[1..])
  {
    assert a == [a[0]] + a[1..] && b == [b[0]] + b[1..];
    assert multiset(a) == multiset{a[0]} + multiset(a[1..]);
    assert multiset(b) == multiset{b[0]} + multiset(b[1..]);
    forall x ensures multiset(a[1..])[x] == multiset(b[1..])[x] {
      assert multiset(a)[x] == multiset{a[0]}[x] + multiset(a[1..])[x];
      assert multiset(b)[x] == multiset{b[0]}[x] + multiset(b[1..])[x];
    }
  }

  /** Two orderings of the same rows, both strictly increasing in position,
      are the same sequence. */
  lemma {:induction false} StrictOrderUnique(a: seq<PageRow>, b: seq<PageRow>)
    requires multiset(a) == multiset(b)
    requires StrictlyByPosition(a) && StrictlyByPosition(b)
    ensures a == b
  {
    if a == [] {
      assert |b| == |multiset(b)| == 0;
    } else {
      StrictOrderHeads(a, b);
      MultisetTails(a, b);
      var a', b' := a[1..], b[1..];
      assert StrictlyByPosition(a') by {
        forall i, j | 0 <= i < j < |a'| ensures a'[i].position < a'[j].position {
          assert a'[i] == a[i + 1] && a'[j] == a[j + 1];
        }
      }
      assert StrictlyByPosition(b') by {
        forall i, j | 0 <= i < j < |b'| ensures b'[i].position < b'[j].position {
          assert b'[i] == b[i + 1] && b'[j] == b[j + 1];
        }
      }
      StrictOrderUnique(a', b');
      assert a == [a[0]] + a' && b == [b[0]] + b';
    }
  }

  /** `get` and `get_blocks_for_page` agree: for a consistent table, the
      contents `get` returns are those of the blocks, in the blocks' order. */
  lemma GetMatchesBlocks(rows: seq<PageRow>, nextId: int, page: string, locale: string)
    requires TableInvariant(rows, nextId)
    ensures var g := Get(rows, page, locale);
            var b := BlocksForPage(rows, page, locale);
            |g| == |b| && forall i :: 0 <= i < |g| ==> g[i] == b[i].content
  {
    OrderedPositionsStrict(rows, nextId, page, locale);
    OrderedPositionsAndIdsStrict(rows, nextId, page, locale);
    StrictOrderUnique(OrderedByPosition(rows, page, locale), OrderedByPositionAndId(rows, page, locale));
  }

  /** A block added with `page_order` 0 to a page that is already stored
      keeps that page's place in the menu: its smallest order is unchanged. */
  lemma ResolvedOrderKeepsRank(rows: seq<PageRow>, row: PageRow)
    requires HasPage(rows, row.page)
    requires row.pageOrder == ResolvePageOrder(rows, row.page)
    ensures MinOrder(rows + [row], row.page) == MinOrder(rows, row.page)
  {
    var page := row.page;
    var m := MinOrder(rows, page).value;
    var r0 :| r0 in rows && r0.page == page && r0.pageOrder == m;
    assert r0 in rows + [row];
    var k := MinOrder(rows + [row], page).value;
    var r1 :| r1 in rows + [row] && r1.page == page && r1.pageOrder == k;
    assert k <= m;
    if r1 in rows {
      assert m <= k;
    } else {
      assert r1 == row;
    }
  }

  /** A block added with `page_order` 0 under a new page name, to a table
      that is not empty, puts that page after every stored page in the menu. */
  lemma NewPageRanksLast(rows: seq<PageRow>, row: PageRow)
    requires !HasPage(rows, row.page) && rows != []
    requires row.pageOrder == ResolvePageOrder(rows, row.page)
    ensures forall q :: HasPage(rows, q) ==> Rank(rows + [row], q) < Rank(rows + [row], row.page)
  {
    var after := rows + [row];
    assert row in after;
    var k := MinOrder(after, row.page).value;
    var r1 :| r1 in after && r1.page == row.page && r1.pageOrder == k;
    assert r1 == row;
    forall q | HasPage(rows, q) ensures Rank(after, q) < Rank(after, row.page) {
      var x :| x in rows && x.page == q;
      assert x in after;
      assert Rank(after, q) <= x.pageOrder;
    }
  }

  /** The pages table: its rows and the next AUTOINCREMENT id. */
  class PageModel {
    var rows: seq<PageRow>
    var nextId: int

    ghost predicate Valid()
      reads this
    {
      TableInvariant(rows, nextId)
    }

    /** A freshly created, empty pages table. */
    constructor ()
      ensures Valid() && rows == [] && nextId == 1
    {
      rows := [];
      nextId := 1;
    }

    /** `add`: resolves the order when `page_order` is 0, then inserts one row
        with a fresh id, unless binding a number overflows or the slot is
        taken. */
    method Add(page: string, locale: string, position: int, pageOrder: int, content: string) returns (r: Result<int>)
      requires Valid()
      modifies this
      ensures Valid()
      ensures r.Err? <==> AddFails(old(rows), page, locale, position, pageOrder)
      ensures r == Err(IntegerOverflow) <==> AddOverflows(old(rows), page, position, pageOrder)
      ensures r == Err(UniqueViolation) <==>
                !AddOverflows(old(rows), page, position, pageOrder) && SlotTaken(old(rows), page, locale, position)
      ensures r.Err? ==> rows == old(rows) && nextId == old(nextId)
      ensures r.Ok? ==> && r.value == old(nextId) && nextId == old(nextId) + 1
                        && rows == old(rows) + [PageRow(r.value, page, StoredOrder(old(rows), page, pageOrder), locale, content, position)]
      ensures r.Ok? ==> forall x :: x in old(rows) ==> x.id != r.value
    {
      var po := if pageOrder == 0 then ResolvePageOrder(rows, page) else pageOrder;
      if !FitsInt64(po) || !FitsInt64(position) {
        return Err(IntegerOverflow);
      }
      if SlotTaken(rows, page, locale, position) {
        return Err(UniqueViolation);
      }
      rows := rows + [PageRow(nextId, page, po, locale, content, position)];
      r := Ok(nextId);
      nextId := nextId + 1;
    }

    /** `delete(page_id)`: removes the row with that id, reports the id; an
        id beyond 64 bits cannot be bound and changes nothing. */
    method Delete(pageId: int) returns (r: Result<int>)
      requires Valid()
      modifies this
      ensures Valid()
      ensures r.Err? <==> !FitsInt64(pageId)
      ensures r.Err? ==> r.error == IntegerOverflow && rows == old(rows)
      ensures r.Ok? ==> r.value == pageId && rows == Reject(old(rows), IdOf, pageId)
      ensures nextId == old(nextId)
    {
      if !FitsInt64(pageId) {
        return Err(IntegerOverflow);
      }
      RejectPairwise(rows, IdOf, pageId, IdsDiffer);
      RejectPairwise(rows, IdOf, pageId, SlotsDiffer);
      rows := Reject(rows, IdOf, pageId);
      r := Ok(pageId);
    }

    /** `delete_by_name(page_name)`: removes every row of that page, reports
        the name. */
    method DeleteByName(pageName: string) returns (deleted: string)
      requires Valid()
      modifies this
      ensures Valid()
      ensures deleted == pageName
      ensures rows == Reject(old(rows), PageOf, pageName) && nextId == old(nextId)
    {
      RejectPairwise(rows, PageOf, pageName, IdsDiffer);
      RejectPairwise(rows, PageOf, pageName, SlotsDiffer);
      rows := Reject(rows, PageOf, pageName);
      deleted := pageName;
    }

    /** `edit(page)`: the same DELETE as `delete_by_name`, returning nothing. */
    method Edit(page: string)
      requires Valid()
      modifies this
      ensures Valid()
      ensures rows == Reject(old(rows), PageOf, page) && nextId == old(nextId)
    {
      RejectPairwise(rows, PageOf, page, IdsDiffer);
      RejectPairwise(rows, PageOf, page, SlotsDiffer);
      rows := Reject(rows, PageOf, page);
    }

    /** `update_block`: sets position and content of the row with that id;
        a number beyond 64 bits, or a move into an occupied slot, raises and
        changes nothing. */
    method UpdateBlock(blockId: int, position: int, content: string) returns (r: Result<()>)
      requires Valid()
      modifies this
      ensures Valid()
      ensures r == Err(IntegerOverflow) <==> !FitsInt64(position) || !FitsInt64(blockId)
      ensures r == Err(UniqueViolation) <==>
                FitsInt64(position) && FitsInt64(blockId) && UpdateClashes(old(rows), blockId, position)
      ensures rows == (if r.Err? then old(rows) else Updated(old(rows), blockId, position, content))
      ensures nextId == old(nextId)
    {
      if !FitsInt64(position) || !FitsInt64(blockId) {
        return Err(IntegerOverflow);
      }
      if UpdateClashes(rows, blockId, position) {
        return Err(UniqueViolation);
      }
      UpdatedKeepsInvariant(rows, nextId, blockId, position, content);
      rows := Updated(rows, blockId, position, content);
      r := Ok(());
    }

    /** `delete_block_by_id`: removes the row with that id; an id beyond 64
        bits cannot be bound and changes nothing. */
    method DeleteBlockById(blockId: int) returns (r: Result<()>)
      requires Valid()
      modifies this
      ensures Valid()
      ensures r == Err(IntegerOverflow) <==> !FitsInt64(blockId)
      ensures rows == (if r.Err? then old(rows) else Reject(old(rows), IdOf, blockId))
      ensures nextId == old(nextId)
    {
      if !FitsInt64(blockId) {
        return Err(IntegerOverflow);
      }
      r := Ok(());
      RejectPairwise(rows, IdOf, blockId, IdsDiffer);
      RejectPairwise(rows, IdOf, blockId, SlotsDiffer);
      rows := Reject(rows, IdOf, blockId);
    }
  }
}
