/**
 * The note-keeping state of the `App` component (src/App.js): the draft, the
 * saved notes, the screen-sharing and visibility flags, and the browser's
 * key-value storage, together with the event handlers that change them.
 * React runs one handler to completion before the next, so each handler is
 * a method that updates the object in place.
 */
module TransparentNotes {
  import opened JsTrim
  import opened Notes

  /** Identifies one track of a granted screen-capture stream. */
  type TrackId = int

  /** Everything a handler can change, as one value. */
  datatype AppState = AppState(
    notes: string,
    savedNotes: seq<Note>,
    isSharingScreen: bool,
    isVisibleToUser: bool,
    store: map<string, string>,
    armedTracks: set<TrackId>)

  /** `localStorage.getItem(key)` is truthy: present and not empty. */
  predicate Truthy(store: map<string, string>, key: string)
  {
    key in store && store[key] != ""
  }

  /** What startup restores the saved list from: the parse of the stored
      text when that text is truthy and parses, nothing otherwise. */
  function StoredNotes(store: map<string, string>, parse: string -> Option<seq<Note>>): (r: Option<seq<Note>>)
    ensures r.Some? ==>
      SavedNotesKey in store && store[SavedNotesKey] != "" && parse(store[SavedNotesKey]) == r
    ensures (SavedNotesKey !in store || store[SavedNotesKey] == "") ==> r == None
    ensures SavedNotesKey in store && store[SavedNotesKey] != "" && parse(store[SavedNotesKey]).Some? ==>
      r == parse(store[SavedNotesKey])
  {
    if Truthy(store, SavedNotesKey) then parse(store[SavedNotesKey]) else None
  }

  /** The rendered note area carries the `hidden` class exactly when the user
      has hidden it; the sharing flag only changes a status label and an
      extra `sharing` class. */
  predicate IsHidden(s: AppState)
  {
    !s.isVisibleToUser
  }

  class App {
    /** The draft being typed. */
    var notes: string
    /** Saved notes, newest first. */
    var savedNotes: seq<Note>
    var isSharingScreen: bool
    var isVisibleToUser: bool
    /** The browser's local storage for this origin. */
    var store: map<string, string>
    /** Tracks on which a handler for the `ended` event is installed. */
    var armedTracks: set<TrackId>

    function State(): AppState
      reads this
    {
      AppState(notes, savedNotes, isSharingScreen, isVisibleToUser, store, armedTracks)
    }

    /** The component's first render over whatever storage already holds. */
    constructor (storage: map<string, string>)
      ensures State() == AppState("", [], false, true, storage, {})
    {
      notes := "";
      savedNotes := [];
      isSharingScreen := false;
      isVisibleToUser := true;
      store := storage;
      armedTracks := {};
    }

    /** The mount effect: restores the saved list when the stored text is
        truthy and `parse` (JSON.parse, `None` when it throws) accepts it,
        and the draft when its stored text is truthy. Storage is only read. */
    method LoadFromStorage(parse: string -> Option<seq<Note>>)
      modifies this
      ensures State() == old(State()).(
        savedNotes := if StoredNotes(store, parse).Some? then StoredNotes(store, parse).value
                      else old(savedNotes),
        notes := if Truthy(store, LastNoteKey) then store[LastNoteKey] else old(notes))
    {
      if Truthy(store, SavedNotesKey) {
        var parsed := parse(store[SavedNotesKey]);
        if parsed.Some? {
          savedNotes := parsed.value;
        }
      }
      if Truthy(store, LastNoteKey) {
        notes := store[LastNoteKey];
      }
    }

    /** The effect that runs whenever the saved list changes: writes the
        list's serialisation (`stringify`, JSON.stringify) under the list's
        key, but only when the list is not empty. An empty list neither
        overwrites nor removes what is stored. */
    method PersistSavedNotes(stringify: seq<Note> -> string)
      modifies this
      ensures |savedNotes| > 0 ==>
        State() == old(State()).(store := old(store)[SavedNotesKey := stringify(savedNotes)])
      ensures |savedNotes| == 0 ==> State() == old(State())
    {
      if |savedNotes| > 0 {
        store := store[SavedNotesKey := stringify(savedNotes)];
      }
    }

    /** Typing in the text area: the draft becomes `text` and is written
        through to storage at once. */
    method EditDraft(text: string)
      modifies this
      ensures State() == old(State()).(notes := text, store := old(store)[LastNoteKey := text])
    {
      notes := text;
      store := store[LastNoteKey := text];
    }

    /** `saveNote`, with `now` for Date.now() and `timestamp` for the
        formatted date. A blank draft changes nothing. Otherwise the draft,
        untrimmed, is saved at the front of the list, the list is cut to
        `Capacity`, and the draft is written to storage; the draft stays. */
    method SaveNote(now: int, timestamp: string)
      modifies this
      ensures IsBlank(notes) ==> State() == old(State())
      ensures notes == old(notes) && isSharingScreen == old(isSharingScreen)
      ensures isVisibleToUser == old(isVisibleToUser) && armedTracks == old(armedTracks)
      ensures !IsBlank(notes) ==> savedNotes == Prepend(Note(now, notes, timestamp), old(savedNotes))
      ensures !IsBlank(notes) ==> store == old(store)[LastNoteKey := notes]
      ensures !IsBlank(notes) ==>
        |savedNotes| == Min(|old(savedNotes)| + 1, Capacity) && |savedNotes| <= Capacity
        && savedNotes[0] == Note(now, notes, timestamp) && !IsBlank(savedNotes[0].content)
    {
      if !IsBlank(notes) {
        var newNote := Note(now, notes, timestamp);
        savedNotes := Prepend(newNote, savedNotes);
        store := store[LastNoteKey := notes];
      }
    }

    /** `loadNote`: a saved note's content becomes the draft. Neither the
        saved list nor storage changes. */
    method LoadNote(content: string)
      modifies this
      ensures State() == old(State()).(notes := content)
    {
      notes := content;
    }

    /** `clearNotes`, with `confirmed` for the user's answer to the prompt.
        Confirmed, the draft is emptied and its stored copy removed; the
        saved list and its key stay. Declined, nothing changes. */
    method ClearNotes(confirmed: bool)
      modifies this
      ensures !confirmed ==> State() == old(State())
      ensures confirmed ==> State() == old(State()).(notes := "", store := old(store) - {LastNoteKey})
      ensures SavedNotesKey in old(store) ==>
        SavedNotesKey in store && store[SavedNotesKey] == old(store)[SavedNotesKey]
    {
      if confirmed {
        notes := "";
        store := store - {LastNoteKey};
      }
    }

    /** `clearAllSaved`, with `confirmed` for the user's answer. Confirmed,
        the list is emptied and its key removed; the draft and its key stay.
        Declined, nothing changes. */
    method ClearAllSaved(confirmed: bool)
      modifies this
      ensures !confirmed ==> State() == old(State())
      ensures confirmed ==> State() == old(State()).(savedNotes := [], store := old(store) - {SavedNotesKey})
      ensures LastNoteKey in old(store) ==>
        LastNoteKey in store && store[LastNoteKey] == old(store)[LastNoteKey]
    {
      if confirmed {
        savedNotes := [];
        store := store - {SavedNotesKey};
      }
    }

    /** The hide/show button flips visibility and nothing else; in
        particular the sharing flag stays. */
    method ToggleVisibility()
      modifies this
      ensures State() == old(State()).(isVisibleToUser := !old(isVisibleToUser))
    {
      isVisibleToUser := !isVisibleToUser;
    }

    /** Installs the `ended` handler on every track of a granted stream. */
    method ArmTracks(tracks: seq<TrackId>)
      modifies this
      ensures State() == old(State()).(armedTracks := old(armedTracks) + set t | t in tracks)
    {
      var i := 0;
      while i < |tracks|
        invariant 0 <= i <= |tracks|
        invariant State() == old(State()).(armedTracks := old(armedTracks) + set t | t in tracks[..i])
      {
        assert tracks[..i + 1] == tracks[..i] + [tracks[i]];
        armedTracks := armedTracks + {tracks[i]};
        i := i + 1;
      }
      assert tracks[..i] == tracks;
    }

    /** The silent probe at startup (`checkScreenSharing`), with `granted`
        for whether capture was granted and `tracks` for the stream's tracks.
        Granted, the flag is set and every track armed; refused or failed,
        the flag is cleared. Visibility never changes. */
    method CheckScreenSharing(granted: bool, tracks: seq<TrackId>)
      modifies this
      ensures granted ==> State() == old(State()).(
        isSharingScreen := true, armedTracks := old(armedTracks) + set t | t in tracks)
      ensures !granted ==> State() == old(State()).(isSharingScreen := false)
    {
      if granted {
        isSharingScreen := true;
        ArmTracks(tracks);
      } else {
        isSharingScreen := false;
      }
    }

    /** The "Detect Screen Share" button. Granted, the flag is set and every
        track armed; refused or failed, only an alert is shown and the flag
        keeps its value. Visibility never changes. */
    method StartScreenShareDetection(granted: bool, tracks: seq<TrackId>)
      modifies this
      ensures granted ==> State() == old(State()).(
        isSharingScreen := true, armedTracks := old(armedTracks) + set t | t in tracks)
      ensures !granted ==> State() == old(State())
    {
      if granted {
        isSharingScreen := true;
        ArmTracks(tracks);
      }
    }

    /** A track ends (the user stopped sharing from the browser's controls).
        On an armed track the flag is cleared; a track without a handler
        changes nothing. */
    method TrackEnded(track: TrackId)
      modifies this
      ensures track in armedTracks ==> State() == old(State()).(isSharingScreen := false)
      ensures track !in armedTracks ==> State() == old(State())
    {
      if track in armedTracks {
        isSharingScreen := false;
      }
    }
  }
}
