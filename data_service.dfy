/** The sync coordinator of services/data.ts. Every operation branches once on the
    identity resolved for the call (`user`): without one the local store is the sole
    source of truth, with one the remote tables are. The remote store is a sequential
    in-memory pair of tables; whether a remote query or write fails is an input. */
module DataService {
  import opened Types
  import opened Storage
  import opened Lists

  /** A row of the remote `sessions` table. */
  datatype SessionRow = SessionRow(id: string, user_id: UserId, date: string, duration: int, timestamp: int)

  /** A row of the remote `notes` table (note the snake_case `updated_at`). */
  datatype NoteRow = NoteRow(id: string, user_id: UserId, title: string, content: string, updated_at: int)

  /** How a remote select answers: rows, an error, or neither an error nor data. */
  datatype Fault = Healthy | QueryError | NullData

  /** How an awaited call settles: with a value, or by throwing. */
  datatype Settled<T> = Resolved(value: T) | Rejected

  /** The insert payload built by `addSession`. */
  function SessionToRow(s: Session, uid: UserId): SessionRow {
    SessionRow(s.id, uid, s.date, s.duration, s.timestamp)
  }

  /** A selected session row as the caller sees it, through the `Session` type
      (the extra `user_id` column plays no part). */
  function RowToSession(r: SessionRow): Session {
    Session(r.id, r.date, r.duration, r.timestamp)
  }

  /** The upsert payload built by `saveNotes`: `updatedAt` goes to `updated_at`. */
  function NoteToRow(n: Note, uid: UserId): NoteRow {
    NoteRow(n.id, uid, n.title, n.content, n.updatedAt)
  }

  /** The mapping `fetchNotes` applies to each row: `updated_at` comes back as `updatedAt`. */
  function RowToNote(r: NoteRow): Note {
    Note(r.id, r.title, r.content, r.updated_at)
  }

  function RowTimestamp(r: SessionRow): int { r.timestamp }

  function RowUpdatedAt(r: NoteRow): int { r.updated_at }

  /** The two field mappings are inverse to each other on what a user writes. */
  lemma RowMappingsRoundTrip(s: Session, n: Note, uid: UserId, r: NoteRow)
    ensures RowToSession(SessionToRow(s, uid)) == s
    ensures RowToNote(NoteToRow(n, uid)) == n
    ensures r.user_id == uid ==> NoteToRow(RowToNote(r), uid) == r
  {
  }

  function SessionsOf(rows: seq<SessionRow>): seq<Session> {
    Mapped(rows, RowToSession)
  }

  function NotesOf(rows: seq<NoteRow>): seq<Note> {
    Mapped(rows, RowToNote)
  }

  /** `fetchSessions`: local list without identity; with identity, the table ordered
      by `timestamp` descending, `[]` for null data, the local list on a query error. */
  function FetchSessions(user: Option<UserId>, fault: Fault, local: Entries, table: seq<SessionRow>): (r: seq<Session>)
    ensures user.None? || fault == QueryError ==> r == GetStoredSessions(local)
    ensures user.Some? && fault == NullData ==> r == []
    ensures user.Some? && fault == Healthy ==>
      Descending(r, SessionTime) && multiset(r) == multiset(SessionsOf(table))
  {
    if user.Some? then
      if fault == QueryError then GetStoredSessions(local)
      else if fault == NullData then []
      else
        var ordered := SortBy(table, RowTimestamp);
        SortMapped(table, RowToSession, RowTimestamp, SessionTime);
        SessionsOf(ordered)
    else GetStoredSessions(local)
  }

  /** `fetchNotes`: like `fetchSessions` but ordered by `updated_at` and mapped field by
      field; null data without an error makes `data.map` throw. */
  function FetchNotes(user: Option<UserId>, fault: Fault, local: Entries, table: seq<NoteRow>): (r: Settled<seq<Note>>)
    ensures user.None? || fault == QueryError ==> r == Resolved(GetStoredNotesList(local))
    ensures user.Some? && fault == NullData ==> r == Rejected
    ensures user.Some? && fault == Healthy ==>
      r.Resolved? && Descending(r.value, NoteTime) && multiset(r.value) == multiset(NotesOf(table))
  {
    if user.Some? then
      if fault == QueryError then Resolved(GetStoredNotesList(local))
      else if fault == NullData then Rejected
      else
        var ordered := SortBy(table, RowUpdatedAt);
        SortMapped(table, RowToNote, RowUpdatedAt, NoteTime);
        Resolved(NotesOf(ordered))
    else Resolved(GetStoredNotesList(local))
  }

  /** Without identity neither fetch reads the remote tables. */
  lemma LocalFetchIgnoresRemote(fault1: Fault, fault2: Fault, local: Entries,
                                sessions1: seq<SessionRow>, sessions2: seq<SessionRow>,
                                notes1: seq<NoteRow>, notes2: seq<NoteRow>)
    ensures FetchSessions(None, fault1, local, sessions1) == FetchSessions(None, fault2, local, sessions2)
    ensures FetchNotes(None, fault1, local, notes1) == FetchNotes(None, fault2, local, notes2)
  {
  }

  predicate HasId(table: seq<SessionRow>, id: string) {
    exists i :: 0 <= i < |table| && table[i].id == id
  }

  /** The sessions table after an insert of `row`: a failed insert, or one whose id is
      already taken (a primary-key violation), leaves the table as it was. */
  function Inserted(table: seq<SessionRow>, row: SessionRow, failed: bool): seq<SessionRow> {
    if failed || HasId(table, row.id) then table else table + [row]
  }

  /** A session inserted without error is in the list the refetch returns. */
  lemma InsertedSessionIsFetched(table: seq<SessionRow>, s: Session, uid: UserId, local: Entries)
    requires !HasId(table, s.id)
    ensures s in FetchSessions(Some(uid), Healthy, local, Inserted(table, SessionToRow(s, uid), false))
  {
    var t := table + [SessionToRow(s, uid)];
    assert SessionsOf(t)[|table|] == s;
    assert s in multiset(SessionsOf(t));
  }

  /** No two rows share an id: the primary key of the notes table, and the test the
      database applies to an upsert payload. */
  predicate DistinctIds(rows: seq<NoteRow>) {
    forall i, j :: 0 <= i < j < |rows| ==> rows[i].id != rows[j].id
  }

  predicate NoteIdIn(rows: seq<NoteRow>, id: string) {
    exists i :: 0 <= i < |rows| && rows[i].id == id
  }

  /** Upsert of one row: replaces the row carrying the same id (the primary key, so
      at most one), or appends. */
  function UpsertRow(table: seq<NoteRow>, row: NoteRow): seq<NoteRow> {
    if NoteIdIn(table, row.id) then Mapped(table, Replacing(row)) else table + [row]
  }

  /** What the upsert does to each existing row: the one with the same id becomes `row`. */
  function Replacing(row: NoteRow): NoteRow -> NoteRow {
    (x: NoteRow) => if x.id == row.id then row else x
  }

  /** One upsert statement for all rows, applied row by row. */
  function UpsertEach(table: seq<NoteRow>, rows: seq<NoteRow>): seq<NoteRow>
    decreases |rows|
  {
    if rows == [] then table else UpsertEach(UpsertRow(table, rows[0]), rows[1..])
  }

  /** The notes table after the bulk upsert of `rows`. A failed statement, or one that
      names an id twice (which the database refuses to update twice in one command),
      changes nothing. */
  function Upserted(table: seq<NoteRow>, rows: seq<NoteRow>, failed: bool): seq<NoteRow> {
    if failed || !DistinctIds(rows) then table else UpsertEach(table, rows)
  }

  /** The notes table after deleting by id. */
  function DeletedRows(table: seq<NoteRow>, id: string): seq<NoteRow> {
    Filter(table, (r: NoteRow) => r.id != id)
  }

  lemma UpsertRowKeepsDistinct(table: seq<NoteRow>, row: NoteRow)
    requires DistinctIds(table)
    ensures DistinctIds(UpsertRow(table, row))
    ensures row in UpsertRow(table, row)
    ensures forall x :: x in table && x.id != row.id ==> x in UpsertRow(table, row)
    ensures forall x :: x in UpsertRow(table, row) ==> x == row || x in table
  {
    if NoteIdIn(table, row.id) {
      ReplaceRow(table, row);
    } else {
      AppendRow(table, row);
    }
  }

  lemma ReplaceRow(table: seq<NoteRow>, row: NoteRow)
    requires DistinctIds(table) && NoteIdIn(table, row.id)
    ensures var r := Mapped(table, Replacing(row));
      && DistinctIds(r) && row in r
      && (forall x :: x in table && x.id != row.id ==> x in r)
      && (forall x :: x in r ==> x == row || x in table)
  {
    var r := Mapped(table, Replacing(row));
    forall i | 0 <= i < |r| ensures r[i] == (if table[i].id == row.id then row else table[i]) {
    }
    Replaced(table, row, r);
  }

  /** The facts about a replacement, from what it does at each position. */
  lemma Replaced(table: seq<NoteRow>, row: NoteRow, r: seq<NoteRow>)
    requires DistinctIds(table) && NoteIdIn(table, row.id) && |r| == |table|
    requires forall i :: 0 <= i < |r| ==> r[i] == (if table[i].id == row.id then row else table[i])
    ensures DistinctIds(r) && row in r
    ensures forall x :: x in table && x.id != row.id ==> x in r
    ensures forall x :: x in r ==> x == row || x in table
  {
    assert row in r by {
      var k :| 0 <= k < |table| && table[k].id == row.id;
      assert r[k] == row;
    }
    assert DistinctIds(r) by {
      forall i, j | 0 <= i < j < |r| ensures r[i].id != r[j].id {
      }
    }
    forall x | x in table && x.id != row.id ensures x in r {
      var i :| 0 <= i < |table| && table[i] == x;
      assert r[i] == x;
    }
  }

  lemma AppendRow(table: seq<NoteRow>, row: NoteRow)
    requires DistinctIds(table) && !NoteIdIn(table, row.id)
    ensures var r := table + [row];
      && DistinctIds(r) && row in r
      && (forall x :: x in table ==> x in r)
      && (forall x :: x in r ==> x == row || x in table)
  {
    var r := table + [row];
    assert r[|table|] == row;
  }

  /** Bulk upsert with distinct ids: every submitted row is present afterwards, every
      row whose id was not submitted is kept, nothing else appears, and ids stay
      distinct. */
  lemma {:induction false} UpsertEachContents(table: seq<NoteRow>, rows: seq<NoteRow>)
    requires DistinctIds(table) && DistinctIds(rows)
    ensures DistinctIds(UpsertEach(table, rows))
    ensures forall x :: x in rows ==> x in UpsertEach(table, rows)
    ensures forall x :: x in table && !NoteIdIn(rows, x.id) ==> x in UpsertEach(table, rows)
    ensures forall x :: x in UpsertEach(table, rows) ==> x in rows || x in table
    decreases |rows|
  {
    if rows != [] {
      var t1 := UpsertRow(table, rows[0]);
      UpsertRowKeepsDistinct(table, rows[0]);
      var rest := rows[1..];
      assert DistinctIds(rest) by {
        forall i, j | 0 <= i < j < |rest| ensures rest[i].id != rest[j].id {
          assert rest[i] == rows[i + 1] && rest[j] == rows[j + 1];
        }
      }
      UpsertEachContents(t1, rest);
      var u := UpsertEach(t1, rest);
      assert u == UpsertEach(table, rows);
      // rows[0] survives: no later row shares its id
      assert rows[0] in u by {
        assert rows[0] in t1;
        forall i | 0 <= i < |rest| ensures rest[i].id != rows[0].id {
          assert rest[i] == rows[i + 1];
        }
        assert !NoteIdIn(rest, rows[0].id);
      }
      forall x | x in rows ensures x in u {
        if x != rows[0] {
          var i :| 0 <= i < |rows| && rows[i] == x;
          assert rest[i - 1] == x;
        }
      }
      forall x | x in table && !NoteIdIn(rows, x.id) ensures x in u {
        assert x.id != rows[0].id;
        assert x in t1;
      }
    }
  }

  /** A failed upsert, or one of a payload with a repeated id, changes nothing;
      otherwise every submitted row is present afterwards and ids stay distinct. */
  lemma UpsertedKeepsDistinct(table: seq<NoteRow>, rows: seq<NoteRow>, failed: bool)
    requires DistinctIds(table)
    ensures DistinctIds(Upserted(table, rows, failed))
    ensures failed || !DistinctIds(rows) ==> Upserted(table, rows, failed) == table
    ensures !failed && DistinctIds(rows) ==> forall x :: x in rows ==> x in Upserted(table, rows, failed)
  {
    if !failed && DistinctIds(rows) {
      UpsertEachContents(table, rows);
    }
  }

  /** Deleting by id keeps ids distinct. */
  lemma {:induction false} DeletedRowsDistinct(table: seq<NoteRow>, id: string)
    requires DistinctIds(table)
    ensures DistinctIds(DeletedRows(table, id))
    decreases |table|
  {
    if table != [] {
      var rest := table[1..];
      TailDistinct(table);
      DeletedRowsDistinct(rest, id);
      var d := DeletedRows(rest, id);
      assert DeletedRows(table, id) == (if table[0].id != id then [table[0]] else []) + d;
      if table[0].id != id {
        DrawnFromTail(table[0], rest, d);
        ConsDistinct(table[0], d);
      } else {
        assert [] + d == d;
      }
    }
  }

  lemma TailDistinct(table: seq<NoteRow>)
    requires DistinctIds(table) && table != []
    ensures DistinctIds(table[1..])
    ensures forall k :: 0 <= k < |table| - 1 ==> table[1..][k].id != table[0].id
  {
    var rest := table[1..];
    forall i, j | 0 <= i < j < |rest| ensures rest[i].id != rest[j].id {
      assert rest[i] == table[i + 1] && rest[j] == table[j + 1];
    }
  }

  lemma DrawnFromTail(x: NoteRow, rest: seq<NoteRow>, d: seq<NoteRow>)
    requires forall k :: 0 <= k < |rest| ==> rest[k].id != x.id
    requires forall i :: 0 <= i < |d| ==> d[i] in rest
    ensures forall y :: y in d ==> y.id != x.id
  {
    forall y | y in d ensures y.id != x.id {
      var i :| 0 <= i < |d| && d[i] == y;
      var k :| 0 <= k < |rest| && rest[k] == y;
    }
  }

  lemma ConsDistinct(x: NoteRow, d: seq<NoteRow>)
    requires DistinctIds(d) && forall y :: y in d ==> y.id != x.id
    ensures DistinctIds([x] + d)
  {
    var full := [x] + d;
    forall i, j | 0 <= i < j < |full| ensures full[i].id != full[j].id {
      assert full[j] == d[j - 1] && d[j - 1] in d;
      if i > 0 {
        assert full[i] == d[i - 1];
      }
    }
  }

  /** Deleting by id removes exactly the rows carrying that id and keeps the rest. */
  lemma DeletedRowsContents(table: seq<NoteRow>, id: string)
    ensures forall x :: x in DeletedRows(table, id) <==> x in table && x.id != id
  {
    var keep := (r: NoteRow) => r.id != id;
    var d := DeletedRows(table, id);
    forall x | x in table && x.id != id ensures x in d {
      var i :| 0 <= i < |table| && table[i] == x;
      assert keep(table[i]);
    }
    forall x | x in d ensures x in table && x.id != id {
      var i :| 0 <= i < |d| && d[i] == x;
      assert keep(d[i]);
    }
  }

  /** The upsert payload `saveNotes` builds for the signed-in user. */
  function NoteRows(notes: seq<Note>, uid: UserId): (rows: seq<NoteRow>)
    ensures |rows| == |notes|
    ensures forall i :: 0 <= i < |notes| ==> RowToNote(rows[i]) == notes[i] && rows[i].user_id == uid
  {
    Mapped(notes, (n: Note) => NoteToRow(n, uid))
  }

  /** The local entries after `saveNotes(notes)`: only local mode writes them. */
  function LocalAfterSaveNotes(data: Entries, notes: seq<Note>, user: Option<UserId>): Entries {
    if user.None? then data[NotesListKey := NoteList(notes)] else data
  }

  /** The remote notes table after `saveNotes(notes)`: only remote mode writes it. */
  function RemoteAfterSaveNotes(table: seq<NoteRow>, notes: seq<Note>, user: Option<UserId>, failed: bool): seq<NoteRow> {
    if user.Some? then Upserted(table, NoteRows(notes, user.value), failed) else table
  }

  /** The remote notes table after `deleteNote(id)`. */
  function RemoteAfterDeleteNote(table: seq<NoteRow>, id: string, user: Option<UserId>, failed: bool): seq<NoteRow> {
    if user.Some? && !failed then DeletedRows(table, id) else table
  }

  /** A row of the upserted table is one of the submitted rows or was there before,
      whatever the ids. */
  lemma {:induction false} UpsertedDrawsFrom(table: seq<NoteRow>, rows: seq<NoteRow>, failed: bool)
    ensures forall x :: x in Upserted(table, rows, failed) ==> x in rows || x in table
  {
    if !failed && DistinctIds(rows) {
      UpsertEachDrawsFrom(table, rows);
    }
  }

  lemma {:induction false} UpsertEachDrawsFrom(table: seq<NoteRow>, rows: seq<NoteRow>)
    ensures forall x :: x in UpsertEach(table, rows) ==> x in rows || x in table
    decreases |rows|
  {
    if rows != [] {
      var t1 := UpsertRow(table, rows[0]);
      assert forall x :: x in t1 ==> x == rows[0] || x in table by {
        if NoteIdIn(table, rows[0].id) {
          forall x | x in t1 ensures x == rows[0] || x in table {
            var i :| 0 <= i < |t1| && t1[i] == x;
            assert t1[i] == rows[0] || t1[i] == table[i];
          }
        }
      }
      UpsertEachDrawsFrom(t1, rows[1..]);
      forall x | x in rows[1..] ensures x in rows {
        var i :| 0 <= i < |rows[1..]| && rows[1..][i] == x;
        assert rows[i + 1] == x;
      }
    }
  }

  /** Every note a healthy remote fetch returns is the mapping of some row of the table. */
  lemma FetchedNotesFromTable(uid: UserId, local: Entries, table: seq<NoteRow>)
    ensures forall x :: x in FetchNotes(Some(uid), Healthy, local, table).value ==>
      exists r :: r in table && RowToNote(r) == x
  {
    var v := FetchNotes(Some(uid), Healthy, local, table).value;
    forall x | x in v ensures exists r :: r in table && RowToNote(r) == x {
      assert x in multiset(v);
      assert x in multiset(NotesOf(table));
      var i :| 0 <= i < |NotesOf(table)| && NotesOf(table)[i] == x;
      assert table[i] in table && RowToNote(table[i]) == x;
    }
  }

  /** The remote store: what queries under the signed-in identity see. */
  class RemoteStore {
    var sessions: seq<SessionRow>
    var notes: seq<NoteRow>

    /** The notes table keeps its primary key: no two rows share an id. */
    ghost predicate Valid()
      reads this
    {
      DistinctIds(notes)
    }

    constructor (sessions: seq<SessionRow>, notes: seq<NoteRow>)
      requires DistinctIds(notes)
      ensures Valid()
      ensures this.sessions == sessions && this.notes == notes
    {
      this.sessions := sessions;
      this.notes := notes;
    }
  }

  /** The coordinator over both backends. */
  class SyncCoordinator {
    const local: LocalStore
    const remote: RemoteStore

    constructor (local: LocalStore, remote: RemoteStore)
      ensures this.local == local && this.remote == remote
    {
      this.local := local;
      this.remote := remote;
    }

    /** `addSession`: without identity, `saveSession` on the local store; with one,
        insert a row tagged with the user's id (an error is only logged) and return
        the refetched list, leaving the local store alone. */
    method AddSession(session: Session, user: Option<UserId>, insertFailed: bool, fault: Fault)
      returns (updated: seq<Session>)
      modifies local, remote
      ensures user.None? ==>
        && updated == [session] + GetStoredSessions(old(local.data))
        && local.data == old(local.data)[SessionsKey := SessionList(updated)]
        && remote.sessions == old(remote.sessions)
      ensures user.Some? ==>
        && local.data == old(local.data)
        && remote.sessions == Inserted(old(remote.sessions), SessionToRow(session, user.value), insertFailed)
        && updated == FetchSessions(user, fault, local.data, remote.sessions)
      ensures remote.notes == old(remote.notes)
    {
      if user.Some? {
        var row := SessionToRow(session, user.value);
        remote.sessions := Inserted(remote.sessions, row, insertFailed);
        updated := FetchSessions(user, fault, local.data, remote.sessions);
      } else {
        updated := local.SaveSession(session);
      }
    }

    /** `saveNotes`: the whole list every time; with identity one upsert of every note
        tagged with the user's id, without identity an overwrite of the local list. */
    method SaveNotes(notes: seq<Note>, user: Option<UserId>, failed: bool)
      requires remote.Valid()
      modifies local, remote
      ensures remote.Valid()
      ensures local.data == LocalAfterSaveNotes(old(local.data), notes, user)
      ensures remote.notes == RemoteAfterSaveNotes(old(remote.notes), notes, user, failed)
      ensures remote.sessions == old(remote.sessions)
    {
      if user.Some? {
        var updates := NoteRows(notes, user.value);
        UpsertedKeepsDistinct(remote.notes, updates, failed);
        remote.notes := Upserted(remote.notes, updates, failed);
      } else {
        local.SaveStoredNotesList(notes);
      }
    }

    /** `deleteNote`: a remote delete by id; without identity it does nothing at all. */
    method DeleteNote(noteId: string, user: Option<UserId>, failed: bool)
      requires remote.Valid()
      modifies remote
      ensures remote.Valid()
      ensures remote.notes == RemoteAfterDeleteNote(old(remote.notes), noteId, user, failed)
      ensures remote.sessions == old(remote.sessions)
    {
      if user.Some? {
        if !failed {
          DeletedRowsDistinct(remote.notes, noteId);
          remote.notes := DeletedRows(remote.notes, noteId);
        }
      }
    }
  }
}
