/** The notes screen of components/Notes.tsx: the list transforms behind saving and
    deleting, and the editor state around them. `Date.now()` and the random id of a
    new note are parameters. */
module NotesView {
  import opened Types
  import opened Lists
  import opened Text
  import opened Storage
  import opened DataService

  const UntitledTitle: string := "Untitled Note"

  /** Saving an edit: the note with the edited id takes the editor's title, content
      and the time; every other note and the order stay. */
  function EditedList(notes: seq<Note>, id: string, title: string, content: string, now: int): (r: seq<Note>)
    ensures |r| == |notes|
    ensures forall i :: 0 <= i < |notes| ==> r[i].id == notes[i].id
    ensures forall i :: 0 <= i < |notes| && notes[i].id != id ==> r[i] == notes[i]
    ensures forall i :: 0 <= i < |notes| && notes[i].id == id ==> r[i] == Note(id, title, content, now)
  {
    Mapped(notes, (n: Note) => if n.id == id then n.(title := title, content := content, updatedAt := now) else n)
  }

  /** Saving a new note: it goes in front, named "Untitled Note" when the title is empty. */
  function CreatedList(notes: seq<Note>, freshId: string, title: string, content: string, now: int): (r: seq<Note>)
    ensures |r| == |notes| + 1 && r[1..] == notes
    ensures r[0].id == freshId && r[0].content == content && r[0].updatedAt == now
    ensures title != "" ==> r[0].title == title
    ensures title == "" ==> r[0].title == UntitledTitle
  {
    [Note(freshId, if title == "" then UntitledTitle else title, content, now)] + notes
  }

  /** Deleting: exactly the notes with another id remain, in their order. */
  function DeletedList(notes: seq<Note>, id: string): (r: seq<Note>)
    ensures forall i :: 0 <= i < |r| ==> r[i] in notes && r[i].id != id
    ensures forall i :: 0 <= i < |notes| && notes[i].id != id ==> notes[i] in r
  {
    Filter(notes, (n: Note) => n.id != id)
  }

  /** Deleting keeps the order of what remains: a note added at the end is still at the
      end afterwards exactly when it has another id. With `DeletedList([], id) == []`
      this fixes the whole list. */
  lemma DeletedAppend(notes: seq<Note>, n: Note, id: string)
    ensures DeletedList(notes + [n], id) == DeletedList(notes, id) + (if n.id != id then [n] else [])
  {
    FilterAppend(notes, n, (m: Note) => m.id != id);
  }

  /** Deleting keeps every note with another id as often as it occurs, and no note
      with the id. */
  lemma {:induction false} DeletedCounts(notes: seq<Note>, id: string)
    ensures DeletedList([], id) == []
    ensures forall x :: multiset(DeletedList(notes, id))[x] == if x.id != id then multiset(notes)[x] else 0
    decreases |notes|
  {
    if notes != [] {
      var init := notes[..|notes| - 1];
      var n := notes[|notes| - 1];
      assert notes == init + [n];
      DeletedAppend(init, n, id);
      DeletedCounts(init, id);
    }
  }

  /** The list `handleSave` stores: the edit of the open note, or a new note in front. */
  function SavedList(notes: seq<Note>, editing: Option<Note>, freshId: string, title: string, content: string, now: int): seq<Note> {
    if editing.Some? then EditedList(notes, editing.value.id, title, content, now)
    else CreatedList(notes, freshId, title, content, now)
  }

  /** The guard of `handleSave`: both fields trim to nothing, that is both are blank. */
  function BothBlank(title: string, content: string): (r: bool)
    ensures r <==> Blank(title) && Blank(content)
  {
    TrimEmptyIffBlank(title);
    TrimEmptyIffBlank(content);
    Trim(title) == "" && Trim(content) == ""
  }

  predicate IdAbsent(notes: seq<Note>, id: string) {
    forall i :: 0 <= i < |notes| ==> notes[i].id != id
  }

  /** Deleting a note that was just created under a fresh id gives back the old list. */
  lemma DeleteUndoesCreate(notes: seq<Note>, freshId: string, title: string, content: string, now: int)
    requires IdAbsent(notes, freshId)
    ensures DeletedList(CreatedList(notes, freshId, title, content, now), freshId) == notes
  {
    var keep := (n: Note) => n.id != freshId;
    var c := CreatedList(notes, freshId, title, content, now);
    assert c[1..] == notes;
    assert Filter(c, keep) == Filter(notes, keep);
    FilterAllKept(notes, keep);
  }

  /** Only the last of several saves of the same note counts. */
  lemma LastEditWins(notes: seq<Note>, id: string, t1: string, c1: string, n1: int, t2: string, c2: string, n2: int)
    ensures EditedList(EditedList(notes, id, t1, c1, n1), id, t2, c2, n2) == EditedList(notes, id, t2, c2, n2)
  {
  }

  /** Editing a note and then deleting it is the same as deleting it. */
  lemma {:induction false} DeleteAfterEdit(notes: seq<Note>, id: string, title: string, content: string, now: int)
    ensures DeletedList(EditedList(notes, id, title, content, now), id) == DeletedList(notes, id)
  {
    if notes != [] {
      var e := EditedList(notes, id, title, content, now);
      assert e[1..] == EditedList(notes[1..], id, title, content, now);
      DeleteAfterEdit(notes[1..], id, title, content, now);
      if notes[0].id != id {
        assert e[0] == notes[0];
      }
    }
  }

  /** The notes screen. `sync` is the data layer it calls. */
  class NotesEditor {
    var notes: seq<Note>
    var editingNote: Option<Note>
    var isCreating: bool
    var title: string
    var content: string
    var isLoading: bool
    const sync: SyncCoordinator

    /** While the editor is closed it edits nothing and its fields are empty. */
    ghost predicate Valid()
      reads this
    {
      !isCreating ==> editingNote.None? && title == "" && content == ""
    }

    constructor (sync: SyncCoordinator)
      ensures Valid() && this.sync == sync
      ensures notes == [] && editingNote.None? && !isCreating && title == "" && content == "" && !isLoading
    {
      this.sync := sync;
      notes := [];
      editingNote := None;
      isCreating := false;
      title := "";
      content := "";
      isLoading := false;
    }

    /** `loadNotes`: a fetch that throws leaves the list as it was and the spinner on. */
    method LoadNotes(user: Option<UserId>, fault: Fault)
      requires Valid()
      modifies this
      ensures Valid()
      ensures var r := FetchNotes(user, fault, sync.local.data, sync.remote.notes);
        if r.Resolved? then notes == r.value && !isLoading else notes == old(notes) && isLoading
      ensures editingNote == old(editingNote) && isCreating == old(isCreating)
      ensures title == old(title) && content == old(content)
    {
      isLoading := true;
      var r := FetchNotes(user, fault, sync.local.data, sync.remote.notes);
      if r.Resolved? {
        notes := r.value;
        isLoading := false;
      }
    }

    /** `openEditor(note)` for an existing note, `openEditor()` for a new one. */
    method OpenEditor(note: Option<Note>)
      requires Valid()
      modifies this
      ensures Valid()
      ensures isCreating && editingNote == note
      ensures note.Some? ==> title == note.value.title && content == note.value.content
      ensures note.None? ==> title == "" && content == ""
      ensures notes == old(notes) && isLoading == old(isLoading)
    {
      if note.Some? {
        editingNote := note;
        title := note.value.title;
        content := note.value.content;
      } else {
        editingNote := None;
        title := "";
        content := "";
      }
      isCreating := true;
    }

    method CloseEditor()
      modifies this
      ensures Valid()
      ensures !isCreating && editingNote.None? && title == "" && content == ""
      ensures notes == old(notes) && isLoading == old(isLoading)
    {
      isCreating := false;
      editingNote := None;
      title := "";
      content := "";
    }

    /** Typing into the title field, which is on screen only while the editor is open. */
    method SetTitle(text: string)
      requires Valid() && isCreating
      modifies this
      ensures Valid()
      ensures title == text && content == old(content) && isCreating && editingNote == old(editingNote)
      ensures notes == old(notes) && isLoading == old(isLoading)
    {
      title := text;
    }

    method SetContent(text: string)
      requires Valid() && isCreating
      modifies this
      ensures Valid()
      ensures content == text && title == old(title) && isCreating && editingNote == old(editingNote)
      ensures notes == old(notes) && isLoading == old(isLoading)
    {
      content := text;
    }

    /** `saveNotesToStorage`: the whole list goes both into memory and to `saveNotes`. */
    method SaveNotesToStorage(updated: seq<Note>, user: Option<UserId>, failed: bool)
      requires sync.remote.Valid()
      modifies this`notes, sync.local, sync.remote
      ensures sync.remote.Valid()
      ensures notes == updated
      ensures sync.local.data == LocalAfterSaveNotes(old(sync.local.data), updated, user)
      ensures sync.remote.notes == RemoteAfterSaveNotes(old(sync.remote.notes), updated, user, failed)
      ensures sync.remote.sessions == old(sync.remote.sessions)
    {
      notes := updated;
      sync.SaveNotes(updated, user, failed);
    }

    /** `handleSave`: nothing happens when title and content are both blank; otherwise
        the edited or extended list is stored and the editor closes. */
    method HandleSave(user: Option<UserId>, now: int, freshId: string, failed: bool)
      requires Valid() && sync.remote.Valid()
      modifies this, sync.local, sync.remote
      ensures Valid() && sync.remote.Valid()
      ensures Blank(old(title)) && Blank(old(content)) ==>
        && notes == old(notes) && editingNote == old(editingNote) && isCreating == old(isCreating)
        && title == old(title) && content == old(content)
        && sync.local.data == old(sync.local.data) && sync.remote.notes == old(sync.remote.notes)
      ensures !(Blank(old(title)) && Blank(old(content))) ==>
        && notes == SavedList(old(notes), old(editingNote), freshId, old(title), old(content), now)
        && sync.local.data == LocalAfterSaveNotes(old(sync.local.data), notes, user)
        && sync.remote.notes == RemoteAfterSaveNotes(old(sync.remote.notes), notes, user, failed)
        && !isCreating && editingNote.None? && title == "" && content == ""
      ensures sync.remote.sessions == old(sync.remote.sessions) && isLoading == old(isLoading)
    {
      if BothBlank(title, content) {
        return;
      }
      var updated := SavedList(notes, editingNote, freshId, title, content, now);
      SaveNotesToStorage(updated, user, failed);
      CloseEditor();
    }

    /** `handleDelete` as written: the note leaves the list in memory and `deleteNote`
        runs, but `saveNotes` is never called, so without identity no store changes. */
    method HandleDelete(id: string, user: Option<UserId>, failed: bool)
      requires Valid() && sync.remote.Valid()
      modifies this, sync.remote
      ensures Valid() && sync.remote.Valid()
      ensures notes == DeletedList(old(notes), id)
      ensures sync.local.data == old(sync.local.data)
      ensures sync.remote.notes == RemoteAfterDeleteNote(old(sync.remote.notes), id, user, failed)
      ensures old(editingNote).Some? && old(editingNote).value.id == id ==>
        !isCreating && editingNote.None? && title == "" && content == ""
      ensures !(old(editingNote).Some? && old(editingNote).value.id == id) ==>
        isCreating == old(isCreating) && editingNote == old(editingNote) && title == old(title) && content == old(content)
    {
      var updated := DeletedList(notes, id);
      notes := updated;
      sync.DeleteNote(id, user, failed);
      if editingNote.Some? && editingNote.value.id == id {
        CloseEditor();
      }
    }

    /** `handleDelete` with the remaining list also handed to `saveNotes`, as the data
        layer relies on in local mode. */
    method HandleDeleteCorrected(id: string, user: Option<UserId>, deleteFailed: bool, saveFailed: bool)
      requires Valid() && sync.remote.Valid()
      modifies this, sync.local, sync.remote
      ensures Valid() && sync.remote.Valid()
      ensures notes == DeletedList(old(notes), id)
      ensures sync.local.data == LocalAfterSaveNotes(old(sync.local.data), notes, user)
      ensures sync.remote.notes ==
        RemoteAfterSaveNotes(RemoteAfterDeleteNote(old(sync.remote.notes), id, user, deleteFailed), notes, user, saveFailed)
      ensures old(editingNote).Some? && old(editingNote).value.id == id ==>
        !isCreating && editingNote.None? && title == "" && content == ""
      ensures !(old(editingNote).Some? && old(editingNote).value.id == id) ==>
        isCreating == old(isCreating) && editingNote == old(editingNote) && title == old(title) && content == old(content)
    {
      var updated := DeletedList(notes, id);
      notes := updated;
      sync.DeleteNote(id, user, deleteFailed);
      sync.SaveNotes(updated, user, saveFailed);
      if editingNote.Some? && editingNote.value.id == id {
        CloseEditor();
      }
    }
  }

  /** Without identity the as-written delete leaves the local list alone, so the next
      load brings a deleted note back: one stored note, deleted, then reloaded. */
  lemma DeletedNoteReturnsOnReload()
    ensures var n := Note("n1", "Plan", "", 1);
      var data: Entries := map[NotesListKey := NoteList([n])];
      DeletedList([n], "n1") == [] && FetchNotes(None, Healthy, data, []) == Resolved([n])
  {
    var n := Note("n1", "Plan", "", 1);
    var keep := (m: Note) => m.id != "n1";
    assert Filter([n], keep) == [];
  }

  /** With the corrected delete, and no remote failure, the next load of either mode
      returns no note with the deleted id. */
  lemma CorrectedDeleteSticks(data: Entries, table: seq<NoteRow>, notes: seq<Note>, id: string, user: Option<UserId>)
    ensures var remaining := DeletedList(notes, id);
      var r := FetchNotes(user, Healthy, LocalAfterSaveNotes(data, remaining, user),
                          RemoteAfterSaveNotes(RemoteAfterDeleteNote(table, id, user, false), remaining, user, false));
      r.Resolved? && IdAbsent(r.value, id)
  {
    var remaining := DeletedList(notes, id);
    if user.Some? {
      var uid := user.value;
      var t1 := DeletedRows(table, id);
      var rows := NoteRows(remaining, uid);
      var t2 := Upserted(t1, rows, false);
      DeletedRowsContents(table, id);
      UpsertedDrawsFrom(t1, rows, false);
      forall x | x in t2 ensures x.id != id {
        if x in rows {
          var i :| 0 <= i < |rows| && rows[i] == x;
          assert RowToNote(rows[i]) == remaining[i];
        }
      }
      FetchedNotesFromTable(uid, LocalAfterSaveNotes(data, remaining, user), t2);
      var v := FetchNotes(user, Healthy, LocalAfterSaveNotes(data, remaining, user), t2).value;
      forall i | 0 <= i < |v| ensures v[i].id != id {
        assert v[i] in v;
        var r :| r in t2 && RowToNote(r) == v[i];
      }
    }
  }
}
