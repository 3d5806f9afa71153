/**
 * The reminder store over an abstract reminders table. The table is a map
 * from id to row plus the AUTOINCREMENT counter; the SQL statements the store
 * issues become the reads and updates of that map. A storage failure and the
 * wall clock are parameters of each operation.
 */
module ReminderStore {
  import opened Wrappers
  import opened GoStrings
  import opened Reminders

  /** The single error kind of a storage operation. */
  datatype StorageError = StorageError

  /** The insert parameters: nullable strings as optional values, times as Unix seconds. */
  datatype CreateParams = CreateParams(
    userId: Bytes,
    channelId: Bytes,
    guildId: Option<Bytes>,
    message: Bytes,
    schedule: Bytes,
    atTime: Option<Bytes>,
    nextRun: int,
    createdAt: int,
    updatedAt: int)

  /** A row of the reminders table. */
  datatype Row = Row(
    id: int,
    userId: Bytes,
    channelId: Bytes,
    guildId: Option<Bytes>,
    message: Bytes,
    schedule: Bytes,
    atTime: Option<Bytes>,
    nextRun: int,
    createdAt: int,
    updatedAt: int)

  /** A valid null string as a pointer to its string, an invalid one as nil. */
  function NullToPtr(n: NullString): (p: Option<Bytes>)
    ensures p.Some? <==> n.valid
    ensures p.Some? ==> p.value == n.s
  {
    if n.valid then Some(n.s) else None
  }

  /** A pointer as a null string; the inverse of NullToPtr. */
  function PtrToNull(p: Option<Bytes>): (n: NullString)
    ensures NullToPtr(n) == p
    ensures !n.valid ==> n == Null
  {
    match p
    case Some(v) => NullString(v, true)
    case None => Null
  }

  /** The insert parameters Create builds from a reminder. */
  function ParamsOf(r: Reminder): CreateParams {
    CreateParams(r.userId, r.channelId, NullToPtr(r.guildId), r.message, r.schedule,
                 NullToPtr(r.atTime), r.nextRun, r.createdAt, r.updatedAt)
  }

  /** The row the table holds after inserting p under the given id. */
  function Inserted(p: CreateParams, id: int): Row {
    Row(id, p.userId, p.channelId, p.guildId, p.message, p.schedule, p.atTime,
        p.nextRun, p.createdAt, p.updatedAt)
  }

  /** convertModel: a row as a reminder. The conversion loses nothing of the row. */
  function ConvertModel(m: Row): (r: Reminder)
    ensures r.id == m.id
    ensures Inserted(ParamsOf(r), m.id) == m
  {
    Reminder(m.id, m.userId, m.channelId, PtrToNull(m.guildId), m.message, m.schedule,
             PtrToNull(m.atTime), m.nextRun, m.createdAt, m.updatedAt)
  }

  /** A null string with its string dropped when it is not valid. */
  function Normalized(n: NullString): NullString {
    if n.valid then n else Null
  }

  /**
   * Storing a reminder and reading it back gives it back with the assigned id;
   * a null guild or time comes back as the zero null string.
   */
  lemma ConvertRoundTrip(r: Reminder, id: int)
    ensures ConvertModel(Inserted(ParamsOf(r), id))
         == r.(id := id, guildId := Normalized(r.guildId), atTime := Normalized(r.atTime))
  {
  }

  /** The two SELECTs: a user's reminders, and the reminders due at a time. */
  datatype Query = ByUser(user: Bytes) | DueBy(now: int)

  predicate Matches(q: Query, row: Row) {
    match q
    case ByUser(user) => row.userId == user
    case DueBy(now) => row.nextRun <= now
  }

  /** Every row is stored under its own id. */
  ghost predicate KeyedById(rows: map<int, Row>) {
    forall id :: id in rows ==> rows[id].id == id
  }

  /** The rows with ids in [1, hi) that match q, in ascending id order. */
  function Selected(rows: map<int, Row>, q: Query, hi: int): seq<Row>
    decreases hi
  {
    if hi <= 1 then []
    else Selected(rows, q, hi - 1)
         + (if hi - 1 in rows && Matches(q, rows[hi - 1]) then [rows[hi - 1]] else [])
  }

  /** SQL's `LIMIT n`; a negative limit means no limit in SQLite. */
  function Limit<T>(s: seq<T>, limit: int): (r: seq<T>)
    ensures limit >= 0 ==> |r| == if |s| <= limit then |s| else limit
    ensures limit < 0 ==> r == s
    ensures |r| <= |s| && r == s[..|r|]
  {
    if 0 <= limit < |s| then s[..limit] else s
  }

  /** Each row a list holds through convertModel. */
  function Converted(recs: seq<Row>): (out: seq<Reminder>)
    ensures |out| == |recs|
    ensures forall i :: 0 <= i < |recs| ==> out[i] == ConvertModel(recs[i])
  {
    seq(|recs|, i requires 0 <= i < |recs| => ConvertModel(recs[i]))
  }

  /** Every element of s is the table's row under its id, matches q and has an id in [1, hi). */
  ghost predicate RowsOfTable(rows: map<int, Row>, q: Query, hi: int, s: seq<Row>) {
    forall i :: 0 <= i < |s| ==> s[i].id in rows && rows[s[i].id] == s[i] && Matches(q, s[i]) && 1 <= s[i].id < hi
  }

  /** The ids of s strictly increase, so no reminder appears twice. */
  ghost predicate IdsIncreasing(s: seq<Row>) {
    forall i, j :: 0 <= i < j < |s| ==> s[i].id < s[j].id
  }

  /** A selection holds only matching rows of the table, with strictly increasing ids below hi. */
  lemma {:induction false} SelectedSound(rows: map<int, Row>, q: Query, hi: int)
    requires KeyedById(rows)
    ensures RowsOfTable(rows, q, hi, Selected(rows, q, hi))
    ensures IdsIncreasing(Selected(rows, q, hi))
  {
    if hi > 1 {
      SelectedSound(rows, q, hi - 1);
      var prev := Selected(rows, q, hi - 1);
      var s := Selected(rows, q, hi);
      if hi - 1 in rows && Matches(q, rows[hi - 1]) {
        var last := rows[hi - 1];
        assert last.id == hi - 1;
        assert s == prev + [last];
        forall i | 0 <= i < |s|
          ensures s[i].id in rows && rows[s[i].id] == s[i] && Matches(q, s[i]) && 1 <= s[i].id < hi
        {
          if i < |prev| { assert s[i] == prev[i]; }
        }
        forall i, j | 0 <= i < j < |s|
          ensures s[i].id < s[j].id
        {
          assert s[i] == prev[i];
          if j < |prev| { assert s[j] == prev[j]; }
        }
      } else {
        assert s == prev;
      }
    }
  }

  /** A selection holds every matching row with an id below hi. */
  lemma {:induction false} SelectedComplete(rows: map<int, Row>, q: Query, hi: int)
    ensures forall id :: 1 <= id < hi && id in rows && Matches(q, rows[id]) ==> rows[id] in Selected(rows, q, hi)
  {
    if hi > 1 {
      SelectedComplete(rows, q, hi - 1);
    }
  }

  /** A selection below hi sees only the rows with ids below hi. */
  lemma {:induction false} SelectedAgree(rows: map<int, Row>, rows': map<int, Row>, q: Query, hi: int)
    requires forall id :: 1 <= id < hi ==> (id in rows <==> id in rows') && (id in rows ==> rows[id] == rows'[id])
    ensures Selected(rows, q, hi) == Selected(rows', q, hi)
  {
    if hi > 1 {
      SelectedAgree(rows, rows', q, hi - 1);
    }
  }

  /**
   * The batch Due returns: at most `limit` rows, each of them due and present
   * in the table, in ascending id order; when fewer than `limit` come back,
   * every due row is among them.
   */
  lemma DueBatch(rows: map<int, Row>, hi: int, now: int, limit: int)
    requires KeyedById(rows)
    ensures var b := Limit(Selected(rows, DueBy(now), hi), limit);
      && (limit >= 0 ==> |b| <= limit)
      && (forall i :: 0 <= i < |b| ==> b[i].id in rows && rows[b[i].id] == b[i] && b[i].nextRun <= now)
      && (forall i, j :: 0 <= i < j < |b| ==> b[i].id < b[j].id)
      && ((limit < 0 || |b| < limit) ==>
            forall id :: 1 <= id < hi && id in rows && rows[id].nextRun <= now ==> rows[id] in b)
  {
    var s := Selected(rows, DueBy(now), hi);
    SelectedSound(rows, DueBy(now), hi);
    SelectedComplete(rows, DueBy(now), hi);
    var b := Limit(s, limit);
    assert forall i :: 0 <= i < |b| ==> b[i] == s[i];
  }

  /** Inserting a row with the next id appends it to every selection it matches. */
  lemma InsertedIsSelected(rows: map<int, Row>, lastId: int, row: Row, q: Query)
    requires lastId >= 0 && forall id :: id in rows ==> id <= lastId
    requires row.id == lastId + 1
    ensures Selected(rows[row.id := row], q, lastId + 2)
         == Selected(rows, q, lastId + 1) + (if Matches(q, row) then [row] else [])
  {
    var rows' := rows[row.id := row];
    SelectedAgree(rows, rows', q, lastId + 1);
    assert Selected(rows', q, lastId + 2)
        == Selected(rows', q, lastId + 1) + (if Matches(q, row) then [row] else []);
  }

  /** The reminders table and the id its next insert will take. */
  class Store {
    /** The table: id to row. */
    var rows: map<int, Row>
    /** The largest id assigned so far (SQLite's AUTOINCREMENT sequence). */
    var lastId: nat

    ghost predicate Valid()
      reads this
    {
      && KeyedById(rows)
      && forall id :: id in rows ==> 1 <= id <= lastId
    }

    /**
     * NewStore over a database that already holds `rows0`, with `lastId0`
     * the largest id its AUTOINCREMENT sequence has handed out (0 and an
     * empty table for a fresh file). Every stored row sits under its own id,
     * which that sequence assigned.
     */
    constructor (rows0: map<int, Row>, lastId0: nat)
      requires KeyedById(rows0)
      requires forall id :: id in rows0 ==> 1 <= id <= lastId0
      ensures Valid() && rows == rows0 && lastId == lastId0
    {
      rows := rows0;
      lastId := lastId0;
    }

    /**
     * Create: stamps the reminder's created and updated times with `now`
     * (even when the insert then fails), inserts it under a fresh non-zero id
     * and returns the stamped reminder carrying that id. On a storage failure
     * the id and the table are unchanged.
     */
    method Create(r: Reminder, now: int, fault: bool) returns (stamped: Reminder, err: Option<StorageError>)
      requires Valid()
      modifies this
      ensures Valid()
      ensures err.Some? <==> fault
      ensures fault ==> (stamped == r.(createdAt := now, updatedAt := now)
                         && rows == old(rows) && lastId == old(lastId))
      ensures !fault ==> && lastId == old(lastId) + 1
                         && stamped == r.(id := lastId, createdAt := now, updatedAt := now)
                         && stamped.id != 0 && stamped.id !in old(rows)
                         && rows == old(rows)[stamped.id := Inserted(ParamsOf(stamped), stamped.id)]
    {
      stamped := r.(createdAt := now, updatedAt := now);
      var params := ParamsOf(stamped);
      if fault {
        err := Some(StorageError);
        return;
      }
      lastId := lastId + 1;
      var created := Inserted(params, lastId);
      rows := rows[created.id := created];
      stamped := stamped.(id := created.id);
      err := None;
    }

    /** One SELECT: the rows matching q, by ascending id. */
    method Scan(q: Query) returns (recs: seq<Row>)
      requires Valid()
      ensures recs == Selected(rows, q, lastId + 1)
    {
      recs := [];
      var id := 1;
      while id <= lastId
        invariant 1 <= id <= lastId + 1
        invariant recs == Selected(rows, q, id)
      {
        if id in rows && Matches(q, rows[id]) {
          recs := recs + [rows[id]];
        }
        id := id + 1;
      }
    }

    /** The append loop that converts each fetched row with convertModel. */
    static method ConvertEach(recs: seq<Row>) returns (out: seq<Reminder>)
      ensures out == Converted(recs)
    {
      out := [];
      for i := 0 to |recs|
        invariant |out| == i
        invariant forall k :: 0 <= k < i ==> out[k] == ConvertModel(recs[k])
      {
        out := out + [ConvertModel(recs[i])];
      }
    }

    /** ListByUser: every reminder the user owns, or the storage error. */
    method ListByUser(user: Bytes, fault: bool) returns (res: Result<seq<Reminder>, StorageError>)
      requires Valid()
      ensures fault ==> res == Err(StorageError)
      ensures !fault ==> res == Ok(Converted(Selected(rows, ByUser(user), lastId + 1)))
    {
      if fault {
        return Err(StorageError);
      }
      var recs := Scan(ByUser(user));
      var out := ConvertEach(recs);
      res := Ok(out);
    }

    /**
     * Delete: removes the reminder only if it exists and belongs to `user`,
     * and reports whether it did. Another user's reminder is left untouched.
     */
    method Delete(id: int, user: Bytes, fault: bool) returns (res: Result<bool, StorageError>)
      requires Valid()
      modifies this
      ensures Valid() && lastId == old(lastId)
      ensures fault ==> res == Err(StorageError) && rows == old(rows)
      ensures !fault ==> res == Ok(id in old(rows) && old(rows)[id].userId == user)
      ensures !fault ==> rows == if res.value then old(rows) - {id} else old(rows)
    {
      if fault {
        return Err(StorageError);
      }
      var owned := id in rows && rows[id].userId == user;
      if owned {
        rows := rows - {id};
      }
      res := Ok(owned);
    }

    /**
     * Due: up to `limit` reminders whose next run is at or before `now`; it
     * changes nothing. The batch's properties are those of lemma DueBatch.
     */
    method Due(now: int, limit: int, fault: bool) returns (res: Result<seq<Reminder>, StorageError>)
      requires Valid()
      ensures fault ==> res == Err(StorageError)
      ensures !fault ==> res == Ok(Converted(Limit(Selected(rows, DueBy(now), lastId + 1), limit)))
    {
      if fault {
        return Err(StorageError);
      }
      var recs := Scan(DueBy(now));
      recs := Limit(recs, limit);
      var out := ConvertEach(recs);
      res := Ok(out);
    }

    /**
     * SetNextRun: sets one reminder's next run to t and its updated time to
     * `now`; no other field and no other reminder changes. An absent id is
     * not an error.
     */
    method SetNextRun(id: int, t: int, now: int, fault: bool) returns (err: Option<StorageError>)
      requires Valid()
      modifies this
      ensures Valid() && lastId == old(lastId)
      ensures err.Some? <==> fault
      ensures rows == if !fault && id in old(rows)
                      then old(rows)[id := old(rows)[id].(nextRun := t, updatedAt := now)]
                      else old(rows)
    {
      if fault {
        return Some(StorageError);
      }
      if id in rows {
        rows := rows[id := rows[id].(nextRun := t, updatedAt := now)];
      }
      err := None;
    }

    /** DeleteID: removes the reminder whoever owns it. */
    method DeleteID(id: int, fault: bool) returns (err: Option<StorageError>)
      requires Valid()
      modifies this
      ensures Valid() && lastId == old(lastId)
      ensures err.Some? <==> fault
      ensures rows == if fault then old(rows) else old(rows) - {id}
    {
      if fault {
        return Some(StorageError);
      }
      rows := rows - {id};
      err := None;
    }
  }

  /**
   * A reminder that Create stores is listed for its owner, after every
   * reminder the owner had before.
   */
  lemma CreatedIsListed(rows: map<int, Row>, lastId: int, stamped: Reminder)
    requires lastId >= 0 && forall id :: id in rows ==> id <= lastId
    requires stamped.id == lastId + 1
    ensures var rows' := rows[stamped.id := Inserted(ParamsOf(stamped), stamped.id)];
      Converted(Selected(rows', ByUser(stamped.userId), lastId + 2))
        == Converted(Selected(rows, ByUser(stamped.userId), lastId + 1))
           + [stamped.(guildId := Normalized(stamped.guildId), atTime := Normalized(stamped.atTime))]
  {
    var row := Inserted(ParamsOf(stamped), stamped.id);
    InsertedIsSelected(rows, lastId, row, ByUser(stamped.userId));
    ConvertRoundTrip(stamped, stamped.id);
    var before := Selected(rows, ByUser(stamped.userId), lastId + 1);
    assert Converted(before + [row]) == Converted(before) + [ConvertModel(row)];
  }
}
