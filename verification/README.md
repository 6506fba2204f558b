# Transparent Notes — the note-keeping state machine

Transparent Notes is a one-page React application for keeping private
notes in a browser tab. This project models its `App` component
(`src/App.js`). The component's state is:

- the **draft** (`notes`): the text being typed;
- the **saved notes** (`savedNotes`): at most ten notes after any save,
  newest first;
- two flags: `isSharingScreen` and `isVisibleToUser`;
- the browser's **local storage**, which holds the draft under `lastNote`
  and the serialised list under `transparentNotes`.

Each event handler becomes a method of the class `TransparentNotes.App`.
React runs one handler to completion before the next, so each method
updates the object in place. Its postcondition gives the whole new state,
either as `State()` of the old state with some fields replaced, or field
by field.

Files:

- `trim.dfy`, module `JsTrim`: ECMAScript's `String.prototype.trim` and the
  blank-draft test `IsBlank`. `IsBlank(s)` holds exactly when `s` consists
  only of the characters `trim` strips.
- `notes.dfy`, module `Notes`: the `Note` record, the storage keys, and the
  list computation `[newNote, ...savedNotes.slice(0, 9)]` (`Prepend`).
  It also has lemmas on the shape of the list after one save and after many
  (`SaveAll`).
- `app.dfy`, module `TransparentNotes`: the `App` class and its handlers.
- `sessions.dfy`, module `Sessions`: runs of handlers in the order the
  browser delivers them. These cover startup, reopening the tab, the
  "meeting agenda" session, a save or a clear-all followed by the persist
  effect, runs of sharing events, a repeated `ended` event and a double
  toggle.

Inputs the program takes from the browser are parameters:

- `Date.now()` and `toLocaleString()` are `now` and `timestamp`.
- The answer to `window.confirm` is `confirmed`.
- Whether `getDisplayMedia` granted a stream is `granted`, and the
  stream's tracks are `tracks`.
- `JSON.parse` is `parse: string -> Option<seq<Note>>`, with `None` when it
  throws.
- `JSON.stringify` is `stringify: seq<Note> -> string`.

Where the application's own texts promise more than its code does, the
model follows the code:

- **The sharing flag never hides anything.** The placeholder, the alert and
  the instructions say notes are hidden while the screen is shared
  (`src/App.js:143`, `src/App.js:170`, `src/App.js:226`). In the code the
  flag only selects a CSS class and a status label (`src/App.js:148`,
  `src/App.js:152-153`). Only
  `isVisibleToUser` decides the `hidden` class. No handler for the sharing
  flag changes `isVisibleToUser`, and the toggle never changes the sharing
  flag.
- **A failed "Detect" leaves the flag alone.** When the explicit detection
  is refused or fails, the code only shows an alert (`src/App.js:142-144`).
  The flag keeps its value; it is not reset to "not sharing". Only the
  silent startup probe clears it on failure (`src/App.js:55-58`).
- **A note is loaded by content, not by id.** `loadNote` receives the
  note's content (`src/App.js:94`, `src/App.js:202`).
- **Startup can restore more than ten notes, and notes with blank
  content.** The list is restored from storage as parsed, with no cap and
  no check of the contents. The ten-note bound and "every saved note has
  non-blank content" therefore hold per save, not as standing invariants.
  `SaveNote` guarantees both for the note it adds, and
  `PrependKeepsNonBlank` shows a save keeps an all-non-blank list
  all-non-blank.

## Model

| member | source | states |
|---|---|---|
| `JsTrim.TrimStart` | src/App.js:73 | the result is a suffix of the input, everything dropped is trimmable, and it starts with a character `trim` keeps |
| `JsTrim.TrimEnd` | src/App.js:73 | the result is a prefix of the input, everything dropped is trimmable, and it ends with a character `trim` keeps |
| `JsTrim.Trim` | src/App.js:73 | `notes.trim()` is empty exactly when every character is whitespace or a line terminator; otherwise it starts and ends with a kept character |
| `JsTrim.IsBlank` | src/App.js:73 | `notes.trim()` is falsy exactly when the draft is made only of whitespace and line terminators (through `Trim`'s `r == [] <==> AllTrimmable(s)`) |
| `JsTrim.TrimIsFramed` | src/App.js:73 | `trim()` returns the slice of its input left after a whitespace prefix and a whitespace suffix are cut off |
| `Notes.Prepend` | src/App.js:80 | `[newNote, ...savedNotes.slice(0, 9)]` has length min(old length + 1, 10), never more than 10, with the new note at index 0 |
| `Notes.PrependShape` | src/App.js:80 | after a save the earlier notes follow the new one in their old order: index k holds old index k - 1 |
| `Notes.PrependBelowCapacity` | src/App.js:80 | with fewer than 10 saved notes a save drops nothing |
| `Notes.PrependEvictsOldest` | src/App.js:80 | with 10 saved notes a save drops exactly the oldest (last) one |
| `Notes.PrependIsNewest` | src/App.js:80 | a save keeps the 10 newest of the new note followed by the old list |
| `Notes.PrependKeepsNonBlank` | src/App.js:72-81 | a save of a non-blank draft onto a list of non-blank notes leaves only non-blank notes |
| `Notes.SaveAllKeepsNewest` | src/App.js:72-83 | after one or more saves the list holds the 10 newest notes, the latest first, and its length is min(saves + earlier notes, 10) |
| `Notes.ElevenSaves` | src/App.js:80 | eleven saves from an empty list leave saves two to eleven, the latest first; the first save is evicted |
| `TransparentNotes.Truthy` | src/App.js:13-24 | `if (saved)` / `if (lastNote)`: the stored value is present and not the empty string |
| `TransparentNotes.StoredNotes` | src/App.js:13-20 | a list is restored exactly when the stored text is present, non-empty and parses, and is then that parse; otherwise nothing is restored |
| `TransparentNotes.IsHidden` | src/App.js:148 | the `hidden` class depends on `isVisibleToUser` alone, never on the sharing flag (see `Sessions.SharingEventsNeverHide`) |
| `TransparentNotes.App.constructor` | src/App.js:5-8 | the initial state has an empty draft and an empty list, is not sharing and is visible, over the existing storage |
| `TransparentNotes.App.LoadFromStorage` | src/App.js:12-26 | the list comes from the stored text only when that text is non-empty and parses; the draft comes from the stored draft only when it is non-empty; storage is unchanged |
| `TransparentNotes.App.PersistSavedNotes` | src/App.js:29-33 | a non-empty list is written under `transparentNotes`; an empty list leaves storage exactly as it was |
| `TransparentNotes.App.EditDraft` | src/App.js:166-169 | the draft becomes the new text and the same text is stored under `lastNote`; nothing else changes |
| `TransparentNotes.App.SaveNote` | src/App.js:72-83 | a blank draft changes nothing; otherwise the untrimmed draft with the given id and timestamp goes to the front of a list of at most 10, `lastNote` is set to the draft, and the draft is kept |
| `TransparentNotes.App.LoadNote` | src/App.js:94-99 | the draft becomes the given content; the list and storage are unchanged |
| `TransparentNotes.App.ClearNotes` | src/App.js:101-106 | declined: no change; confirmed: the draft is empty and `lastNote` is removed, while the list and `transparentNotes` are untouched |
| `TransparentNotes.App.ClearAllSaved` | src/App.js:108-113 | declined: no change; confirmed: the list is empty and `transparentNotes` is removed, while the draft and `lastNote` are untouched |
| `TransparentNotes.App.ToggleVisibility` | src/App.js:126-128 | flips `isVisibleToUser` and changes nothing else, the sharing flag included |
| `TransparentNotes.App.ArmTracks` | src/App.js:49-54 | after the `forEach` every track of the stream has an `ended` handler, and nothing else changes |
| `TransparentNotes.App.CheckScreenSharing` | src/App.js:39-59 | granted: sharing is set and the tracks armed; refused or failed: sharing is cleared; visibility is never touched |
| `TransparentNotes.App.StartScreenShareDetection` | src/App.js:130-145 | granted: sharing is set and the tracks armed; refused or failed: nothing changes (only an alert) |
| `TransparentNotes.App.TrackEnded` | src/App.js:137-141 | an `ended` event on an armed track clears the sharing flag; one on a track without a handler changes nothing |
| `Sessions.Startup` | src/App.js:12-33 | after mounting, the list and the draft are those restored from storage; storage gains at most a re-serialised list, and no stored key is lost; the result is a new component, not sharing, visible, with no track armed |
| `Sessions.Reopen` | src/App.js:12-33 | if the list is persisted and the tab reopened, the same list comes back in the same order, given that parse undoes stringify |
| `Sessions.MeetingAgenda` | src/App.js:72-92 | saving "meeting agenda" and then an emptied draft keeps exactly the one note |
| `Sessions.SaveAndPersist` | src/App.js:29-33 | after a non-blank save and the effect it triggers, `transparentNotes` holds the serialisation of the new list and `lastNote` the draft, while the draft, both flags and the armed tracks are unchanged; a blank save changes nothing |
| `Sessions.ClearAllAndPersist` | src/App.js:108-113 | after a confirmed clear-all and the effect it triggers, the list is empty, `transparentNotes` stays removed and nothing else changed |
| `Sessions.SharingEventsNeverHide` | src/App.js:147-153 | any run of probe, detect and ended events leaves `IsHidden`, the draft, the list and storage unchanged |
| `Sessions.TrackEndedTwice` | src/App.js:137-141 | a second `ended` event on the same track changes nothing more than the first |
| `Sessions.ToggleTwice` | src/App.js:126-128 | toggling visibility twice restores the whole state |

## Left out

- `exportNotes` (`src/App.js:115-124`) is left out. It pretty-prints JSON, URI-encodes it and clicks a synthetic download link. All of that is browser I/O.
- The "✅ Saved!" label change and its two-second timer (`src/App.js:84-90`) are left out. They are a DOM side channel.
- Focusing the text area in `loadNote` is left out.
- The JSX rendering, the CSS classes and the instruction text are left out. The one exception is the `hidden` class decision in `IsHidden`.
- `getDisplayMedia` and its permission prompt are not modelled. Only their outcome (`granted`, `tracks`) enters the model.
- The probe's `stream` variable, its reset in the `ended` handler, and `track.stop()` at unmount (`src/App.js:37`, `src/App.js:52`, `src/App.js:64-69`) are left out. No state in the model observes them.
- JSON serialisation is not modelled: `parse` and `stringify` are parameters. `Reopen` states the round trip under the assumption that `parse(stringify(l)) == Some(l)`.
- A stored text that parses to something other than an array of notes is outside the model. `parse` yields a list of notes or `None`.
- React scheduling is not modelled. The persist effect is a separate method, `PersistSavedNotes`, which the caller runs after each change to the list, as `Startup` and `Reopen` do.
- `console.error` logging of a parse failure and `alert` messages are left out. They are output only.
- Exceptions from `localStorage.setItem`, such as a full quota, are left out. The model's storage always accepts a write.
- Note ids are taken as given. Two saves in the same millisecond get the same id in the program too, so uniqueness is not claimed.
- Drafts holding lone UTF-16 surrogates cannot be represented. JavaScript strings are sequences of UTF-16 code units, while the model's `string` is a sequence of Unicode scalar values. `trim` itself is unaffected, because every character it strips lies in the Basic Multilingual Plane and none is a surrogate.
