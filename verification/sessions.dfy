/**
 * Runs of the `App` handlers in the order the browser delivers them, and
 * what they add up to.
 */
module Sessions {
  import opened JsTrim
  import opened Notes
  import opened TransparentNotes

  /** Mounting the component. The load effect runs first, but the list it
      restores only reaches the state at the next render, so the persist
      effect of the first render still sees the initial empty list and writes
      nothing. The re-render with the restored list runs the persist effect
      again, and this time it writes the list if that is not empty. Running
      the first persist before the load, as below, has the same outcome.
      Startup never removes a stored key. */
  method Startup(storage: map<string, string>, parse: string -> Option<seq<Note>>,
                 stringify: seq<Note> -> string)
    returns (app: App)
    ensures fresh(app) && app.armedTracks == {}
    ensures app.savedNotes ==
      if StoredNotes(storage, parse).Some? then StoredNotes(storage, parse).value else []
    ensures app.notes == if Truthy(storage, LastNoteKey) then storage[LastNoteKey] else ""
    ensures app.store ==
      if |app.savedNotes| > 0 then storage[SavedNotesKey := stringify(app.savedNotes)] else storage
    ensures app.store.Keys >= storage.Keys
    ensures !app.isSharingScreen && app.isVisibleToUser
  {
    app := new App(storage);
    app.PersistSavedNotes(stringify);
    app.LoadFromStorage(parse);
    app.PersistSavedNotes(stringify);
  }

  /** Closing the tab after the saved list has been persisted and opening it
      again restores the same list, in the same order, and the stored draft,
      provided `parse` undoes `stringify` and a non-empty list never
      serialises to the empty string. */
  method Reopen(app: App, parse: string -> Option<seq<Note>>, stringify: seq<Note> -> string)
    returns (reopened: App)
    requires |app.savedNotes| > 0
    requires forall l :: parse(stringify(l)) == Some(l)
    requires forall l: seq<Note> :: |l| > 0 ==> stringify(l) != ""
    modifies app
    ensures reopened.savedNotes == old(app.savedNotes)
    ensures reopened.notes ==
      if Truthy(old(app.store), LastNoteKey) then old(app.store)[LastNoteKey] else ""
  {
    app.PersistSavedNotes(stringify);
    reopened := Startup(app.store, parse, stringify);
  }

  /** Type "meeting agenda", save, empty the text area and save again: the
      second save is rejected, so exactly one note is kept. */
  method MeetingAgenda(now: int, timestamp: string, later: int, laterStamp: string)
    returns (saved: seq<Note>)
    ensures saved == [Note(now, "meeting agenda", timestamp)]
  {
    var app := new App(map[]);
    app.EditDraft("meeting agenda");
    assert !IsTrimmable("meeting agenda"[0]);
    app.SaveNote(now, timestamp);
    app.EditDraft("");
    app.SaveNote(later, laterStamp);
    saved := app.savedNotes;
  }

  /** A save followed by the persist effect it triggers. The effect runs only
      when the list changed, that is, after a save of a non-blank draft; then
      the stored list is the serialisation of the new list. */
  method SaveAndPersist(app: App, now: int, timestamp: string, stringify: seq<Note> -> string)
    modifies app
    ensures IsBlank(old(app.notes)) ==> app.State() == old(app.State())
    ensures !IsBlank(old(app.notes)) ==>
      var saved := Prepend(Note(now, old(app.notes), timestamp), old(app.savedNotes));
      app.State() == old(app.State()).(
        savedNotes := saved,
        store := old(app.store)[LastNoteKey := old(app.notes)][SavedNotesKey := stringify(saved)])
  {
    app.SaveNote(now, timestamp);
    if !IsBlank(app.notes) {
      app.PersistSavedNotes(stringify);
    }
  }

  /** A confirmed "Clear All" followed by the persist effect: the effect sees
      the empty list and writes nothing, so the saved-notes key stays
      removed while the draft's key is untouched. */
  method ClearAllAndPersist(app: App, stringify: seq<Note> -> string)
    modifies app
    ensures app.savedNotes == [] && SavedNotesKey !in app.store
    ensures app.State() == old(app.State()).(savedNotes := [], store := old(app.store) - {SavedNotesKey})
  {
    app.ClearAllSaved(true);
    app.PersistSavedNotes(stringify);
  }

  /** What can happen to the sharing flag: the startup probe, the "Detect"
      button, and a track ending. */
  datatype SharingEvent =
    | Probe(granted: bool, tracks: seq<TrackId>)
    | Detect(granted: bool, tracks: seq<TrackId>)
    | Ended(track: TrackId)

  /** Any run of sharing events leaves the notes exactly as visible or hidden
      as they were, and leaves the draft, the list and storage alone. */
  method SharingEventsNeverHide(app: App, events: seq<SharingEvent>)
    modifies app
    ensures IsHidden(app.State()) == IsHidden(old(app.State()))
    ensures app.notes == old(app.notes) && app.savedNotes == old(app.savedNotes)
    ensures app.store == old(app.store)
  {
    for i := 0 to |events|
      invariant app.isVisibleToUser == old(app.isVisibleToUser)
      invariant app.notes == old(app.notes) && app.savedNotes == old(app.savedNotes)
      invariant app.store == old(app.store)
    {
      match events[i]
      case Probe(granted, tracks) => app.CheckScreenSharing(granted, tracks);
      case Detect(granted, tracks) => app.StartScreenShareDetection(granted, tracks);
      case Ended(track) => app.TrackEnded(track);
    }
  }

  /** The `ended` event firing twice on the same track acts as firing once. */
  method TrackEndedTwice(app: App, track: TrackId)
    modifies app
    ensures app.State() == old(app.State()).(
      isSharingScreen := if track in old(app.armedTracks) then false else old(app.isSharingScreen))
  {
    app.TrackEnded(track);
    app.TrackEnded(track);
  }

  /** Pressing hide/show twice restores every part of the state. */
  method ToggleTwice(app: App)
    modifies app
    ensures app.State() == old(app.State())
  {
    app.ToggleVisibility();
    app.ToggleVisibility();
  }
}
