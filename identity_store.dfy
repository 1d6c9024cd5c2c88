/**
 * The `users` table of the identity store (DBManager in classes/db_manager/DBClass.py).
 *
 * The table is held as the sequence of its rows in ROWID order. Each row has the
 * auto-assigned `ID INTEGER PRIMARY KEY`, a `DiscordID` that the UNIQUE constraint keeps
 * distinct, and the two nullable columns `Ckey` and `RoleLevel`.
 * `Table(rows)` is the abstract view, from Discord id to the pair of nullable columns.
 */
module IdentityStore {
  import opened Wrappers

  type DiscordId = int
  type Ckey = string

  datatype Row = Row(rowId: int, discordId: DiscordId, ckey: Option<Ckey>, roleLevel: Option<int>)

  /** The two nullable columns of one row, as `__getitem__` returns them. */
  datatype Entry = Entry(ckey: Option<Ckey>, roleLevel: Option<int>)

  /** One element of the list `get_all_users` returns. */
  datatype UserRecord = UserRecord(discordId: DiscordId, ckey: Option<Ckey>, roleLevel: int)

  /** How an INSERT ends: it is committed, or the UNIQUE constraint raises IntegrityError. */
  datatype Outcome = Done | IntegrityError

  /** The arguments of one `add_or_update_member(discord_id, ckey, role_level)` call. */
  datatype Write = Write(id: DiscordId, ckey: Option<Ckey>, roleLevel: Option<int>)

  const NoEntry := Entry(None, None)

  function EntryOf(r: Row): Entry {
    Entry(r.ckey, r.roleLevel)
  }

  /** SQL COALESCE(a, b). */
  function Coalesce<T>(a: Option<T>, b: Option<T>): Option<T> {
    if a.Some? then a else b
  }

  /** The `SET Ckey = COALESCE(?, Ckey), RoleLevel = COALESCE(?, RoleLevel)` of update_member. */
  function Merge(e: Entry, ckey: Option<Ckey>, level: Option<int>): Entry {
    Entry(Coalesce(ckey, e.ckey), Coalesce(level, e.roleLevel))
  }

  /** What a row for `id` holds, reading a missing row as a pair of NULLs. */
  function Base(t: map<DiscordId, Entry>, id: DiscordId): Entry {
    if id in t then t[id] else NoEntry
  }

  // ---------------------------------------------------------------------------
  // The rows and their constraints

  ghost predicate UniqueIds(rows: seq<Row>) {
    forall i, j :: 0 <= i < j < |rows| ==> rows[i].discordId != rows[j].discordId
  }

  ghost predicate IncreasingRowIds(rows: seq<Row>) {
    forall i, j :: 0 <= i < j < |rows| ==> rows[i].rowId < rows[j].rowId
  }

  /** The constraints of the schema: UNIQUE DiscordID, and ID a primary key kept in ROWID order. */
  ghost predicate WellFormed(rows: seq<Row>) {
    UniqueIds(rows) && IncreasingRowIds(rows)
  }

  predicate Holds(rows: seq<Row>, id: DiscordId) {
    exists k | 0 <= k < |rows| :: rows[k].discordId == id
  }

  /** The ID SQLite gives a new row: one more than the largest, or 1 for an empty table. */
  function NextRowId(rows: seq<Row>): int {
    if rows == [] then 1 else rows[|rows| - 1].rowId + 1
  }

  ghost function Table(rows: seq<Row>): map<DiscordId, Entry> {
    if rows == [] then map[]
    else Table(rows[..|rows| - 1])[rows[|rows| - 1].discordId := EntryOf(rows[|rows| - 1])]
  }

  lemma {:induction false} TableDomain(rows: seq<Row>, id: DiscordId)
    ensures id in Table(rows) <==> Holds(rows, id)
  {
    if rows != [] {
      var p := rows[..|rows| - 1];
      TableDomain(p, id);
      if Holds(p, id) {
        var k :| 0 <= k < |p| && p[k].discordId == id;
        assert rows[k].discordId == id;
      }
      if Holds(rows, id) && rows[|rows| - 1].discordId != id {
        var k :| 0 <= k < |rows| && rows[k].discordId == id;
        assert p[k].discordId == id;
      }
    }
  }

  lemma {:induction false} TableAt(rows: seq<Row>, k: int)
    requires UniqueIds(rows)
    requires 0 <= k < |rows|
    ensures rows[k].discordId in Table(rows)
    ensures Table(rows)[rows[k].discordId] == EntryOf(rows[k])
  {
    if k < |rows| - 1 {
      var p := rows[..|rows| - 1];
      assert p[k] == rows[k];
      TableAt(p, k);
    }
  }

  // ---------------------------------------------------------------------------
  // SELECT Ckey, RoleLevel FROM users WHERE DiscordID = ?  (fetchone)

  function FetchOne(rows: seq<Row>, id: DiscordId): Entry {
    if rows == [] then NoEntry
    else if rows[0].discordId == id then EntryOf(rows[0])
    else FetchOne(rows[1..], id)
  }

  /** The first matching row is the only one, so the lookup agrees with the table view. */
  lemma {:induction false} FetchOneTable(rows: seq<Row>, id: DiscordId)
    requires UniqueIds(rows)
    ensures FetchOne(rows, id) == Base(Table(rows), id)
  {
    TableDomain(rows, id);
    if rows != [] {
      FetchOneTable(rows[1..], id);
      TableDomain(rows[1..], id);
      if rows[0].discordId == id {
        TableAt(rows, 0);
      } else if Holds(rows, id) {
        var k :| 0 <= k < |rows| && rows[k].discordId == id;
        assert rows[1..][k - 1] == rows[k];
        TableAt(rows, k);
        TableAt(rows[1..], k - 1);
      } else {
        assert !Holds(rows[1..], id) by {
          forall k | 0 <= k < |rows[1..]| ensures rows[1..][k].discordId != id {
            assert rows[1..][k] == rows[k + 1];
          }
        }
      }
    }
  }

  /**
   * The parameters `__getitem__` passes to `execute` are `(discord_id)`, the bare value rather
   * than a one-element tuple. sqlite3 reads a str as the sequence of its characters, one
   * binding each, and refuses an int, which is not a sequence.
   */
  datatype PyValue = PyInt(n: int) | PyStr(s: string)

  datatype BindingError = UnsupportedType | WrongBindingCount(supplied: nat)

  /** The value bound to the statement's one `?`, as the source's call passes its parameters. */
  function BindAsWritten(p: PyValue): Result<string, BindingError> {
    match p
    case PyInt(_) => Err(UnsupportedType)
    case PyStr(s) => if |s| == 1 then Ok(s) else Err(WrongBindingCount(|s|))
  }

  /** As written, the lookup fails for an integer id and for every id that is not one character. */
  lemma LookupBindingFails(n: int, s: string)
    requires |s| != 1
    ensures BindAsWritten(PyInt(n)) == Err(UnsupportedType)
    ensures BindAsWritten(PyStr(s)) == Err(WrongBindingCount(|s|))
    ensures BindAsWritten(PyStr("123456789012345678")).Err?
  {
  }

  // ---------------------------------------------------------------------------
  // UPDATE users SET ... WHERE DiscordID = ?

  function UpdateRow(r: Row, id: DiscordId, ckey: Option<Ckey>, level: Option<int>): Row {
    if r.discordId == id then r.(ckey := Coalesce(ckey, r.ckey), roleLevel := Coalesce(level, r.roleLevel))
    else r
  }

  function UpdateRows(rows: seq<Row>, id: DiscordId, ckey: Option<Ckey>, level: Option<int>): (u: seq<Row>)
  {
    seq(|rows|, k requires 0 <= k < |rows| => UpdateRow(rows[k], id, ckey, level))
  }

  /** What the UPDATE does to the table view. */
  ghost function UpdatedTable(t: map<DiscordId, Entry>, id: DiscordId, ckey: Option<Ckey>, level: Option<int>): map<DiscordId, Entry> {
    if id in t then t[id := Merge(t[id], ckey, level)] else t
  }

  /** The UPDATE merges into the row for `id`, if there is one, and leaves every other row as it was. */
  lemma {:induction false} TableUpdate(rows: seq<Row>, id: DiscordId, ckey: Option<Ckey>, level: Option<int>)
    requires UniqueIds(rows)
    ensures Table(UpdateRows(rows, id, ckey, level)) == UpdatedTable(Table(rows), id, ckey, level)
  {
    if rows != [] {
      var p := rows[..|rows| - 1];
      TableUpdate(p, id, ckey, level);
      if rows[|rows| - 1].discordId == id {
        TableUpdateLast(rows, id, ckey, level);
      } else {
        TableUpdateOther(rows, id, ckey, level);
      }
    }
  }

  lemma TableUpdateLast(rows: seq<Row>, id: DiscordId, ckey: Option<Ckey>, level: Option<int>)
    requires UniqueIds(rows) && rows != [] && rows[|rows| - 1].discordId == id
    requires var p := rows[..|rows| - 1];
      Table(UpdateRows(p, id, ckey, level)) == UpdatedTable(Table(p), id, ckey, level)
    ensures Table(UpdateRows(rows, id, ckey, level)) == UpdatedTable(Table(rows), id, ckey, level)
  {
    var n := |rows|;
    var p := rows[..n - 1];
    var u := UpdateRows(rows, id, ckey, level);
    assert u[..n - 1] == UpdateRows(p, id, ckey, level);
    TableDomain(p, id);
    assert !Holds(p, id) by {
      forall k | 0 <= k < |p| ensures p[k].discordId != id {
        assert p[k] == rows[k];
      }
    }
    assert EntryOf(u[n - 1]) == Merge(EntryOf(rows[n - 1]), ckey, level);
  }

  lemma TableUpdateOther(rows: seq<Row>, id: DiscordId, ckey: Option<Ckey>, level: Option<int>)
    requires rows != [] && rows[|rows| - 1].discordId != id
    requires var p := rows[..|rows| - 1];
      Table(UpdateRows(p, id, ckey, level)) == UpdatedTable(Table(p), id, ckey, level)
    ensures Table(UpdateRows(rows, id, ckey, level)) == UpdatedTable(Table(rows), id, ckey, level)
  {
    var n := |rows|;
    var p := rows[..n - 1];
    var u := UpdateRows(rows, id, ckey, level);
    assert u[..n - 1] == UpdateRows(p, id, ckey, level);
    assert u[n - 1] == rows[n - 1];
  }

  // ---------------------------------------------------------------------------
  // SELECT DiscordID, Ckey, RoleLevel FROM users WHERE RoleLevel != 0

  /** `RoleLevel != 0` under SQL's three-valued logic: a NULL level is never selected. */
  predicate Selected(r: Row) {
    r.roleLevel.Some? && r.roleLevel.value != 0
  }

  function UserOf(r: Row): UserRecord
    requires r.roleLevel.Some?
  {
    UserRecord(r.discordId, r.ckey, r.roleLevel.value)
  }

  function SelectNonZero(rows: seq<Row>): seq<UserRecord> {
    if rows == [] then []
    else
      var last := rows[|rows| - 1];
      SelectNonZero(rows[..|rows| - 1]) + if Selected(last) then [UserOf(last)] else []
  }

  lemma {:induction false} SelectNonZeroMembers(rows: seq<Row>, u: UserRecord)
    ensures u in SelectNonZero(rows) <==> exists k :: 0 <= k < |rows| && Selected(rows[k]) && UserOf(rows[k]) == u
  {
    if rows != [] {
      var p := rows[..|rows| - 1];
      SelectNonZeroMembers(p, u);
      if u in SelectNonZero(p) {
        var k :| 0 <= k < |p| && Selected(p[k]) && UserOf(p[k]) == u;
        assert rows[k] == p[k];
      }
      if exists k :: 0 <= k < |rows| && Selected(rows[k]) && UserOf(rows[k]) == u {
        var k :| 0 <= k < |rows| && Selected(rows[k]) && UserOf(rows[k]) == u;
        if k < |rows| - 1 {
          assert p[k] == rows[k];
        }
      }
    }
  }

  ghost predicate DistinctUsers(us: seq<UserRecord>) {
    forall i, j :: 0 <= i < j < |us| ==> us[i].discordId != us[j].discordId
  }

  lemma {:induction false} SelectNonZeroUnique(rows: seq<Row>)
    requires UniqueIds(rows)
    ensures DistinctUsers(SelectNonZero(rows))
  {
    if rows != [] {
      var p := rows[..|rows| - 1];
      var last := rows[|rows| - 1];
      SelectNonZeroUnique(p);
      var q := SelectNonZero(p);
      var us := SelectNonZero(rows);
      if Selected(last) {
        assert us == q + [UserOf(last)];
        forall i, j | 0 <= i < j < |us| ensures us[i].discordId != us[j].discordId {
          assert us[i] == q[i];
          if j < |q| {
            assert us[j] == q[j];
          } else {
            SelectNonZeroMembers(p, q[i]);
            var k :| 0 <= k < |p| && Selected(p[k]) && UserOf(p[k]) == q[i];
            assert rows[k] == p[k];
          }
        }
      } else {
        assert us == q;
      }
    }
  }

  /**
   * get_all_users returns one record per row whose level is non-NULL and non-zero, with that
   * row's columns, and no Discord id twice.
   */
  lemma SelectNonZeroSpec(rows: seq<Row>)
    requires UniqueIds(rows)
    ensures var us := SelectNonZero(rows);
      && (forall u :: u in us ==>
            u.roleLevel != 0 && u.discordId in Table(rows) && Table(rows)[u.discordId] == Entry(u.ckey, Some(u.roleLevel)))
      && (forall id :: id in Table(rows) && Table(rows)[id].roleLevel.Some? && Table(rows)[id].roleLevel.value != 0 ==>
            exists u :: u in us && u.discordId == id)
      && DistinctUsers(us)
  {
    var us := SelectNonZero(rows);
    SelectNonZeroUnique(rows);
    forall u | u in us
      ensures u.roleLevel != 0 && u.discordId in Table(rows) && Table(rows)[u.discordId] == Entry(u.ckey, Some(u.roleLevel))
    {
      SelectNonZeroMembers(rows, u);
      var k :| 0 <= k < |rows| && Selected(rows[k]) && UserOf(rows[k]) == u;
      TableAt(rows, k);
    }
    forall id | id in Table(rows) && Table(rows)[id].roleLevel.Some? && Table(rows)[id].roleLevel.value != 0
      ensures exists u :: u in us && u.discordId == id
    {
      TableDomain(rows, id);
      var k :| 0 <= k < |rows| && rows[k].discordId == id;
      TableAt(rows, k);
      SelectNonZeroMembers(rows, UserOf(rows[k]));
    }
  }

  // ---------------------------------------------------------------------------
  // add_or_update_member on the abstract table, and sequences of such calls

  /** One add_or_update_member: insert the given pair for a new id, merge into an existing row. */
  function Upsert(t: map<DiscordId, Entry>, w: Write): (r: map<DiscordId, Entry>)
    ensures w.id in r && r[w.id] == Merge(Base(t, w.id), w.ckey, w.roleLevel)
    ensures forall k :: k != w.id ==> (k in r <==> k in t)
    ensures forall k :: k != w.id && k in t ==> r[k] == t[k]
  {
    if w.id in t then t[w.id := Merge(t[w.id], w.ckey, w.roleLevel)]
    else t[w.id := Entry(w.ckey, w.roleLevel)]
  }

  /** The calls `ws` made one after another. */
  function ApplyAll(t: map<DiscordId, Entry>, ws: seq<Write>): map<DiscordId, Entry> {
    if ws == [] then t else Upsert(ApplyAll(t, ws[..|ws| - 1]), ws[|ws| - 1])
  }

  predicate Mentions(ws: seq<Write>, id: DiscordId) {
    exists k | 0 <= k < |ws| :: ws[k].id == id
  }

  /** The last non-NULL ckey that `ws` passes for `id`. */
  function LastCkey(ws: seq<Write>, id: DiscordId): Option<Ckey> {
    if ws == [] then None
    else if ws[|ws| - 1].id == id && ws[|ws| - 1].ckey.Some? then ws[|ws| - 1].ckey
    else LastCkey(ws[..|ws| - 1], id)
  }

  /** The last non-NULL role level that `ws` passes for `id`. */
  function LastLevel(ws: seq<Write>, id: DiscordId): Option<int> {
    if ws == [] then None
    else if ws[|ws| - 1].id == id && ws[|ws| - 1].roleLevel.Some? then ws[|ws| - 1].roleLevel
    else LastLevel(ws[..|ws| - 1], id)
  }

  /**
   * After a run of upserts, an id is present iff it was before or some call named it, and each
   * of its fields holds the last non-NULL value passed for it, or else what it held before.
   */
  lemma {:induction false} ApplyAllAt(t: map<DiscordId, Entry>, ws: seq<Write>, id: DiscordId)
    ensures id in ApplyAll(t, ws) <==> id in t || Mentions(ws, id)
    ensures !Mentions(ws, id) ==> LastCkey(ws, id).None? && LastLevel(ws, id).None?
    ensures id in ApplyAll(t, ws) ==>
      ApplyAll(t, ws)[id] == Entry(Coalesce(LastCkey(ws, id), Base(t, id).ckey), Coalesce(LastLevel(ws, id), Base(t, id).roleLevel))
  {
    if ws != [] {
      var p := ws[..|ws| - 1];
      ApplyAllAt(t, p, id);
      if Mentions(p, id) {
        var k :| 0 <= k < |p| && p[k].id == id;
        assert ws[k].id == id;
      }
      if Mentions(ws, id) && ws[|ws| - 1].id != id {
        var k :| 0 <= k < |ws| && ws[k].id == id;
        assert p[k].id == id;
      }
    }
  }

  /**
   * Merge invariant: once a field of a row is non-NULL, no later run of upserts makes it NULL,
   * whatever NULLs they pass.
   */
  lemma MergeKeepsValues(t: map<DiscordId, Entry>, ws: seq<Write>, id: DiscordId)
    requires id in t
    ensures id in ApplyAll(t, ws)
    ensures t[id].ckey.Some? ==> ApplyAll(t, ws)[id].ckey.Some?
    ensures t[id].roleLevel.Some? ==> ApplyAll(t, ws)[id].roleLevel.Some?
    ensures LastCkey(ws, id).None? ==> ApplyAll(t, ws)[id].ckey == t[id].ckey
    ensures LastLevel(ws, id).None? ==> ApplyAll(t, ws)[id].roleLevel == t[id].roleLevel
  {
    ApplyAllAt(t, ws, id);
  }

  /** Repeating a run of upserts changes nothing. */
  lemma ApplyAllTwice(t: map<DiscordId, Entry>, ws: seq<Write>)
    ensures ApplyAll(ApplyAll(t, ws), ws) == ApplyAll(t, ws)
  {
    var r1 := ApplyAll(t, ws);
    var r2 := ApplyAll(r1, ws);
    forall id
      ensures (id in r2 <==> id in r1) && (id in r1 ==> r2[id] == r1[id])
    {
      ApplyAllAt(t, ws, id);
      ApplyAllAt(r1, ws, id);
    }
    assert r2.Keys == r1.Keys;
  }

  // ---------------------------------------------------------------------------
  // The store object

  class DBManager {
    /** Whether the `users` table exists in the database file. */
    var tableCreated: bool
    var rows: seq<Row>
    /** Every add_or_update_member call this store has received, in order. */
    ghost var writes: seq<Write>

    ghost predicate Valid()
      reads this
    {
      tableCreated && WellFormed(rows)
    }

    ghost function Contents(): map<DiscordId, Entry>
      reads this
    {
      Table(rows)
    }

    /**
     * Opens a database file: `persisted` is the `users` table already in it, if any.
     * The table is then created if missing.
     */
    constructor (persisted: Option<seq<Row>>)
      requires persisted.Some? ==> WellFormed(persisted.value)
      ensures Valid()
      ensures rows == if persisted.Some? then persisted.value else []
      ensures writes == []
    {
      tableCreated := persisted.Some?;
      rows := if persisted.Some? then persisted.value else [];
      writes := [];
      new;
      CreateTable();
    }

    /** CREATE TABLE IF NOT EXISTS: an existing table keeps every row. */
    method CreateTable()
      requires WellFormed(rows)
      requires !tableCreated ==> rows == []
      modifies this
      ensures Valid()
      ensures old(tableCreated) ==> rows == old(rows)
      ensures !old(tableCreated) ==> rows == []
      ensures writes == old(writes)
    {
      if !tableCreated {
        tableCreated := true;
        rows := [];
      }
    }

    /** `__getitem__`: the stored pair for a known id, a pair of NULLs for an unknown one. */
    function Get(id: DiscordId): (e: Entry)
      reads this
      requires Valid()
      ensures id in Contents() ==> e == Contents()[id]
      ensures id !in Contents() ==> e == NoEntry
    {
      FetchOneTable(rows, id);
      FetchOne(rows, id)
    }

    /** add_member: a plain INSERT, refused by the UNIQUE constraint for a known id. */
    method AddMember(id: DiscordId, ckey: Option<Ckey>, level: Option<int>) returns (r: Outcome)
      requires Valid()
      modifies this
      ensures Valid()
      ensures r == if id in old(Contents()) then IntegrityError else Done
      ensures r == Done ==> rows == old(rows) + [Row(NextRowId(old(rows)), id, ckey, level)]
      ensures r == Done ==> Contents() == old(Contents())[id := Entry(ckey, level)]
      ensures r == IntegrityError ==> rows == old(rows)
      ensures writes == old(writes)
    {
      TableDomain(rows, id);
      if Holds(rows, id) {
        return IntegrityError;
      }
      var row := Row(NextRowId(rows), id, ckey, level);
      ghost var before := rows;
      rows := rows + [row];
      assert rows[..|rows| - 1] == before;
      return Done;
    }

    /** update_member: COALESCE-merge into the row for `id`; nothing happens for an unknown id. */
    method UpdateMember(id: DiscordId, ckey: Option<Ckey>, level: Option<int>)
      requires Valid()
      modifies this
      ensures Valid()
      ensures rows == UpdateRows(old(rows), id, ckey, level)
      ensures Contents() == UpdatedTable(old(Contents()), id, ckey, level)
      ensures writes == old(writes)
    {
      TableUpdate(rows, id, ckey, level);
      rows := UpdateRows(rows, id, ckey, level);
    }

    /** add_or_update_member: the INSERT, and on IntegrityError the merging UPDATE. */
    method AddOrUpdateMember(id: DiscordId, ckey: Option<Ckey>, level: Option<int>)
      requires Valid()
      modifies this
      ensures Valid()
      ensures Contents() == Upsert(old(Contents()), Write(id, ckey, level))
      ensures writes == old(writes) + [Write(id, ckey, level)]
    {
      var r := AddMember(id, ckey, level);
      if r == IntegrityError {
        UpdateMember(id, ckey, level);
      }
      writes := writes + [Write(id, ckey, level)];
    }

    /** get_all_users: every row with a non-NULL, non-zero level, read-only. */
    function AllUsers(): (users: seq<UserRecord>)
      reads this
      requires Valid()
      ensures forall u :: u in users ==>
        u.roleLevel != 0 && u.discordId in Contents() && Contents()[u.discordId] == Entry(u.ckey, Some(u.roleLevel))
      ensures forall id :: id in Contents() && Contents()[id].roleLevel.Some? && Contents()[id].roleLevel.value != 0 ==>
        exists u :: u in users && u.discordId == id
      ensures forall i, j :: 0 <= i < j < |users| ==> users[i].discordId != users[j].discordId
    {
      SelectNonZeroSpec(rows);
      SelectNonZero(rows)
    }
  }
}
