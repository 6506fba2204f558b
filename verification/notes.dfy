/**
 * Saved notes and the rule that keeps their list short: a new note goes to
 * the front, and the list keeps at most ten notes, newest first.
 */
module Notes {
  import opened JsTrim

  datatype Option<T> = None | Some(value: T)

  /** A saved note: `id` is the save time in milliseconds, `content` the
      draft as typed, `timestamp` the save time formatted for display. */
  datatype Note = Note(id: int, content: string, timestamp: string)

  /** The most notes the saved list holds after a save. */
  const Capacity: nat := 10

  /** The browser-storage key of the draft. */
  const LastNoteKey: string := "lastNote"

  /** The browser-storage key of the serialised saved-notes list. */
  const SavedNotesKey: string := "transparentNotes"

  function Min(a: int, b: int): int
  {
    if a < b then a else b
  }

  /** The list after a save: `[newNote, ...saved.slice(0, 9)]`. The new note
      comes first and the list grows by one up to `Capacity`; `PrependShape`
      adds that the earlier notes follow in their order. */
  function Prepend(newNote: Note, saved: seq<Note>): (r: seq<Note>)
    ensures |r| == Min(|saved| + 1, Capacity) && |r| <= Capacity
    ensures r[0] == newNote
  {
    [newNote] + saved[..Min(|saved|, Capacity - 1)]
  }

  /** After a save the notes behind the new one are the earlier notes, in
      their order, up to the ninth. */
  lemma PrependShape(newNote: Note, saved: seq<Note>)
    ensures forall k :: 1 <= k < |Prepend(newNote, saved)| ==>
      Prepend(newNote, saved)[k] == saved[k - 1]
  {
  }

  /** The first `Capacity` notes of `notes`, all of them if there are fewer. */
  function Newest(notes: seq<Note>): seq<Note>
  {
    notes[..Min(|notes|, Capacity)]
  }

  /** Below capacity nothing is dropped. */
  lemma PrependBelowCapacity(newNote: Note, saved: seq<Note>)
    requires |saved| < Capacity
    ensures Prepend(newNote, saved) == [newNote] + saved
  {
    assert saved[..|saved|] == saved;
  }

  /** At capacity exactly the oldest (last) note is dropped: putting it back
      at the end gives the new note followed by the whole old list. */
  lemma PrependEvictsOldest(newNote: Note, saved: seq<Note>)
    requires |saved| == Capacity
    ensures |Prepend(newNote, saved)| == Capacity
    ensures Prepend(newNote, saved) + [saved[Capacity - 1]] == [newNote] + saved
  {
    assert saved[..Capacity - 1] + [saved[Capacity - 1]] == saved;
  }

  /** A save keeps the `Capacity` newest notes of the new note followed by
      the old list. */
  lemma PrependIsNewest(newNote: Note, saved: seq<Note>)
    ensures Prepend(newNote, saved) == Newest([newNote] + saved)
  {
    assert ([newNote] + saved)[..Min(|saved| + 1, Capacity)]
      == [newNote] + saved[..Min(|saved|, Capacity - 1)];
  }

  /** Every note a save leaves in the list has non-blank content, provided
      the new note and all earlier ones had. */
  lemma PrependKeepsNonBlank(newNote: Note, saved: seq<Note>)
    requires !IsBlank(newNote.content)
    requires forall k :: 0 <= k < |saved| ==> !IsBlank(saved[k].content)
    ensures forall k :: 0 <= k < |Prepend(newNote, saved)| ==>
      !IsBlank(Prepend(newNote, saved)[k].content)
  {
    var r := Prepend(newNote, saved);
    PrependShape(newNote, saved);
    forall k | 0 <= k < |r|
      ensures !IsBlank(r[k].content)
    {
      if k > 0 { assert r[k] == saved[k - 1]; }
    }
  }

  /** Cutting the tail to `Capacity` before or after putting notes in front
      of it gives the same newest notes. */
  lemma NewestAbsorbs(front: seq<Note>, tail: seq<Note>)
    ensures Newest(front + Newest(tail)) == Newest(front + tail)
  {
    var n := Min(|front| + |tail|, Capacity);
    assert |front + Newest(tail)| >= n;
    forall k | 0 <= k < n
      ensures (front + Newest(tail))[k] == (front + tail)[k]
    {
    }
  }

  /** The list after saving each note of `batch` in turn, first to last. */
  function SaveAll(saved: seq<Note>, batch: seq<Note>): seq<Note>
    decreases |batch|
  {
    if batch == [] then saved else SaveAll(Prepend(batch[0], saved), batch[1..])
  }

  function Reversed(s: seq<Note>): (r: seq<Note>)
    ensures |r| == |s|
    ensures forall k :: 0 <= k < |s| ==> r[k] == s[|s| - 1 - k]
  {
    if s == [] then [] else Reversed(s[1..]) + [s[0]]
  }

  /** After one or more saves the list holds the `Capacity` most recently
      saved notes, latest first, then what was there before. */
  lemma {:induction false} SaveAllKeepsNewest(saved: seq<Note>, batch: seq<Note>)
    requires batch != []
    ensures SaveAll(saved, batch) == Newest(Reversed(batch) + saved)
    ensures |SaveAll(saved, batch)| == Min(|batch| + |saved|, Capacity)
    decreases |batch|
  {
    var rest := batch[1..];
    PrependIsNewest(batch[0], saved);
    if rest == [] {
      assert Reversed(batch) == [batch[0]];
    } else {
      SaveAllKeepsNewest(Prepend(batch[0], saved), rest);
      NewestAbsorbs(Reversed(rest), [batch[0]] + saved);
      assert Reversed(batch) == Reversed(rest) + [batch[0]];
      assert Reversed(rest) + ([batch[0]] + saved) == Reversed(batch) + saved;
    }
  }

  /** Eleven saves in a row from an empty list leave ten notes: saves two to
      eleven, latest first; the first save has been evicted. */
  lemma ElevenSaves(batch: seq<Note>)
    requires |batch| == Capacity + 1
    ensures |SaveAll([], batch)| == Capacity
    ensures SaveAll([], batch) == Reversed(batch[1..])
  {
    SaveAllKeepsNewest([], batch);
    assert Reversed(batch) + [] == Reversed(batch);
    assert Reversed(batch)[..Capacity] == Reversed(batch[1..]);
  }
}
