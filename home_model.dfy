/** The params table of `HomeModel`: a key/value store
    `(id, name UNIQUE, value)` that `init_db` creates and seeds once, that
    `set_param` upserts into, and from which `get_footer_data` reads three
    keys. */
module Home {
  import opened Common

  datatype ParamRow = ParamRow(id: int, name: string, value: string)

  /** The dict `get_footer_data` returns: each key mapped to its value or `None`. */
  type Footer = map<string, Option<string>>

  const CreationDateKey: string := "creation_date"
  const ModificationDateKey: string := "modification_date"
  const VersionKey: string := "version"

  /** The value `init_db` stores under `creation_date`. */
  const SeedCreationDate: string := "17.10.2025 21:30"
  /** The value `init_db` stores under `version`. */
  const SeedVersion: string := "0.2.0"

  /** The keys `get_footer_data` reads, in its loop order. */
  const FooterNames: seq<string> := [VersionKey, CreationDateKey, ModificationDateKey]

  function NameOf(r: ParamRow): string { r.name }

  predicate IdsDiffer(a: ParamRow, b: ParamRow) { a.id != b.id }
  predicate NamesDiffer(a: ParamRow, b: ParamRow) { a.name != b.name }

  /** Ids are positive, below the next AUTOINCREMENT id and unique; names are
      unique (`name TEXT NOT NULL UNIQUE`). */
  ghost predicate TableInvariant(rows: seq<ParamRow>, nextId: int) {
    && 1 <= nextId
    && (forall r :: r in rows ==> 1 <= r.id < nextId)
    && Pairwise(rows, IdsDiffer)
    && Pairwise(rows, NamesDiffer)
  }

  predicate HasName(rows: seq<ParamRow>, name: string) {
    exists r :: r in rows && r.name == name
  }

  /** `get_param(name)`: `SELECT value FROM params WHERE name = ?`, the
      first row fetched, or `None` when there is none. */
  function Param(rows: seq<ParamRow>, name: string): (v: Option<string>)
    ensures v.None? <==> !HasName(rows, name)
    ensures v.Some? ==> exists r :: r in rows && r.name == name && r.value == v.value
  {
    if rows == [] then None
    else
      assert rows == [rows[0]] + rows[1..];
      if rows[0].name == name then Some(rows[0].value) else Param(rows[1..], name)
  }

  /** With unique names, `get_param` returns the value of the one row that
      has the name. */
  lemma ParamIsStoredValue(rows: seq<ParamRow>, nextId: int, r: ParamRow)
    requires TableInvariant(rows, nextId)
    requires r in rows
    ensures Param(rows, r.name) == Some(r.value)
  {
    var v := Param(rows, r.name);
    var x :| x in rows && x.name == r.name && x.value == v.value;
    PairwiseMembers(rows, NamesDiffer, x, r);
  }

  /** The three rows `init_db` inserts into the newly created table; `now`
      stands for `strftime('%d.%m.%Y %H:%M', 'now', 'localtime')`. */
  function SeedRows(now: string): (r: seq<ParamRow>)
    ensures |r| == 3
    ensures forall k :: k in FooterNames ==> HasName(r, k)
  {
    [ParamRow(1, CreationDateKey, SeedCreationDate),
     ParamRow(2, ModificationDateKey, now),
     ParamRow(3, VersionKey, SeedVersion)]
  }

  /** The seeded table is consistent with the next id `init_db` leaves
      behind: three rows with ids 1 to 3 and three different names. */
  lemma SeedRowsValid(now: string)
    ensures TableInvariant(SeedRows(now), 4)
  {
    var rows := SeedRows(now);
    assert rows[0].name[0] == 'c' && rows[1].name[0] == 'm' && rows[2].name[0] == 'v';
    forall i, j | 0 <= i < j < |rows| ensures NamesDiffer(rows[i], rows[j]) {
      assert rows[i].name[0] != rows[j].name[0];
    }
  }

  /** After seeding, the footer reads the seeded version, the fixed creation
      date and the modification date taken at seeding time. */
  lemma SeededFooter(now: string)
    ensures var f := FooterData(SeedRows(now));
            && f[VersionKey] == Some(SeedVersion)
            && f[CreationDateKey] == Some(SeedCreationDate)
            && f[ModificationDateKey] == Some(now)
  {
    var rows := SeedRows(now);
    SeedRowsValid(now);
    ParamIsStoredValue(rows, 4, rows[0]);
    ParamIsStoredValue(rows, 4, rows[1]);
    ParamIsStoredValue(rows, 4, rows[2]);
  }

  /** A position of `x` in `rows`. */
  function IndexOf(rows: seq<ParamRow>, x: ParamRow): (i: nat)
    requires x in rows
    ensures i < |rows| && rows[i] == x
  {
    if rows[0] == x then 0 else 1 + IndexOf(rows[1..], x)
  }

  /** The rows after `INSERT ... ON CONFLICT(name) DO UPDATE SET
      value=excluded.value`: an existing row of that name takes the new value
      in place, otherwise a row with the next id is appended. */
  function Upsert(rows: seq<ParamRow>, nextId: int, name: string, value: string): (r: seq<ParamRow>)
    ensures HasName(r, name)
    ensures forall x :: x in rows && x.name != name ==> x in r
    ensures forall x :: x in r && x.name != name ==> x in rows
  {
    if HasName(rows, name) then
      var u := seq(|rows|, i requires 0 <= i < |rows| => if rows[i].name == name then rows[i].(value := value) else rows[i]);
      var w :| w in rows && w.name == name;
      assert u[IndexOf(rows, w)] in u;
      assert forall i :: 0 <= i < |rows| && rows[i].name != name ==> u[i] in u;
      u
    else rows + [ParamRow(nextId, name, value)]
  }

  /** The next AUTOINCREMENT id after the upsert: only an inserted row uses one. */
  function NextIdAfterUpsert(rows: seq<ParamRow>, nextId: int, name: string): int {
    if HasName(rows, name) then nextId else nextId + 1
  }

  /** An upsert keeps ids and names unique: it never adds a second row with an
      existing name, and grows the table by one row exactly for a new name. */
  lemma UpsertKeepsInvariant(rows: seq<ParamRow>, nextId: int, name: string, value: string)
    requires TableInvariant(rows, nextId)
    ensures TableInvariant(Upsert(rows, nextId, name, value), NextIdAfterUpsert(rows, nextId, name))
    ensures |Upsert(rows, nextId, name, value)| == if HasName(rows, name) then |rows| else |rows| + 1
  {
    var u := Upsert(rows, nextId, name, value);
    if HasName(rows, name) {
      forall i, j | 0 <= i < j < |u| ensures IdsDiffer(u[i], u[j]) && NamesDiffer(u[i], u[j]) {
        assert IdsDiffer(rows[i], rows[j]) && NamesDiffer(rows[i], rows[j]);
      }
      forall x | x in u ensures 1 <= x.id < nextId {
        var i :| 0 <= i < |u| && u[i] == x;
        assert rows[i] in rows;
      }
    } else {
      forall i, j | 0 <= i < j < |u| ensures IdsDiffer(u[i], u[j]) && NamesDiffer(u[i], u[j]) {
        if j < |rows| {
          assert IdsDiffer(rows[i], rows[j]) && NamesDiffer(rows[i], rows[j]);
        } else {
          assert u[i] == rows[i] && rows[i] in rows;
        }
      }
    }
  }

  /** After `set_param(name, value)`, `get_param(name)` returns `value`. */
  lemma UpsertSetsValue(rows: seq<ParamRow>, nextId: int, name: string, value: string)
    requires TableInvariant(rows, nextId)
    ensures Param(Upsert(rows, nextId, name, value), name) == Some(value)
  {
    UpsertKeepsInvariant(rows, nextId, name, value);
    var u := Upsert(rows, nextId, name, value);
    if HasName(rows, name) {
      var r :| r in rows && r.name == name;
      var i :| 0 <= i < |rows| && rows[i] == r;
      ParamIsStoredValue(u, NextIdAfterUpsert(rows, nextId, name), u[i]);
    } else {
      ParamIsStoredValue(u, nextId + 1, u[|rows|]);
    }
  }

  /** `set_param(name, value)` leaves the value of every other name as it was. */
  lemma UpsertKeepsOthers(rows: seq<ParamRow>, nextId: int, name: string, value: string, other: string)
    requires TableInvariant(rows, nextId)
    requires other != name
    ensures Param(Upsert(rows, nextId, name, value), other) == Param(rows, other)
  {
    UpsertKeepsInvariant(rows, nextId, name, value);
    var u := Upsert(rows, nextId, name, value);
    var n := NextIdAfterUpsert(rows, nextId, name);
    if HasName(rows, other) {
      var r :| r in rows && r.name == other;
      var i :| 0 <= i < |rows| && rows[i] == r;
      ParamIsStoredValue(rows, nextId, r);
      assert u[i] == r;
      ParamIsStoredValue(u, n, u[i]);
    } else {
      forall x | x in u ensures x.name != other {
        var i :| 0 <= i < |u| && u[i] == x;
        if i < |rows| { assert rows[i] in rows; }
      }
    }
  }

  /** `get_footer_data` as a value: exactly the three footer keys, each
      mapped to the stored value or `None`. */
  ghost function FooterData(rows: seq<ParamRow>): (f: Footer)
    ensures f.Keys == {VersionKey, CreationDateKey, ModificationDateKey}
    ensures forall k :: k in f ==> f[k] == Param(rows, k)
  {
    map k | k in {VersionKey, CreationDateKey, ModificationDateKey} :: Param(rows, k)
  }

  /** The params table of one database file: whether it exists yet, its rows
      and the next AUTOINCREMENT id. */
  class HomeModel {
    var tableExists: bool
    var rows: seq<ParamRow>
    var nextId: int

    ghost predicate Valid()
      reads this
    {
      TableInvariant(rows, nextId) && (!tableExists ==> rows == [] && nextId == 1)
    }

    /** A database file that has no params table yet. */
    constructor ()
      ensures Valid() && !tableExists && rows == [] && nextId == 1
    {
      tableExists := false;
      rows := [];
      nextId := 1;
    }

    /** `init_db`: creates and seeds the table only when it is absent, so on
        an existing table it changes nothing. */
    method InitDb(now: string)
      requires Valid()
      modifies this
      ensures Valid() && tableExists
      ensures old(tableExists) ==> rows == old(rows) && nextId == old(nextId)
      ensures !old(tableExists) ==> rows == SeedRows(now) && nextId == 4
    {
      if !tableExists {
        tableExists := true;
        rows := SeedRows(now);
        nextId := 4;
      }
    }

    /** `set_param(name, value)`: the upsert. */
    method SetParam(name: string, value: string)
      requires Valid() && tableExists
      modifies this
      ensures Valid() && tableExists
      ensures rows == Upsert(old(rows), old(nextId), name, value)
      ensures nextId == NextIdAfterUpsert(old(rows), old(nextId), name)
      ensures Param(rows, name) == Some(value)
      ensures forall other :: other != name ==> Param(rows, other) == Param(old(rows), other)
    {
      UpsertKeepsInvariant(rows, nextId, name, value);
      UpsertSetsValue(rows, nextId, name, value);
      forall other | other != name
        ensures Param(Upsert(rows, nextId, name, value), other) == Param(rows, other)
      {
        UpsertKeepsOthers(rows, nextId, name, value, other);
      }
      rows, nextId := Upsert(rows, nextId, name, value), NextIdAfterUpsert(rows, nextId, name);
    }

    /** `get_footer_data`: fills the dict key by key; the dict is never
        empty, so `footer_data or None` is never `None`. */
    method GetFooterData() returns (r: Option<Footer>)
      requires Valid() && tableExists
      ensures r.Some?
      ensures r.value.Keys == {VersionKey, CreationDateKey, ModificationDateKey}
      ensures forall k :: k in r.value ==> r.value[k] == Param(rows, k)
      ensures r == Some(FooterData(rows))
    {
      var footer: Footer := map[];
      for i := 0 to |FooterNames|
        invariant footer.Keys == set j | 0 <= j < i :: FooterNames[j]
        invariant forall k :: k in footer ==> footer[k] == Param(rows, k)
      {
        footer := footer[FooterNames[i] := Param(rows, FooterNames[i])];
      }
      assert FooterNames[0] == VersionKey && FooterNames[1] == CreationDateKey && FooterNames[2] == ModificationDateKey;
      assert footer.Keys == {VersionKey, CreationDateKey, ModificationDateKey} by {
        assert FooterNames[0] in footer.Keys && FooterNames[1] in footer.Keys && FooterNames[2] in footer.Keys;
      }
      assert footer == FooterData(rows);
      r := if |footer| > 0 then Some(footer) else None;
    }
  }
}
