/** The mood tracker of the frontend/ tree: a date-keyed mood map mirrored to
    the browser's key-value store under "moodHistory", and date-keyed notes
    kept only in the store under "moodNotes", with an inline editor for past
    notes. The store is modelled as two maps. */
module FrontendMood {
  import opened Wrappers
  import opened Moods
  import Text
  import Sorting

  /** A stored note as Object.entries lists it: (date key, text). */
  type Note = (string, string)

  function NoteDate(n: Note): string {
    n.0
  }

  /** The entries list exactly the stored notes. */
  predicate Lists(notes: map<string, string>, entries: seq<Note>) {
    && (forall n :: n in entries ==> n.0 in notes && notes[n.0] == n.1)
    && (forall d :: d in notes ==> (d, notes[d]) in entries)
  }

  /** The past-notes list: the stored entries sorted by descending date
      key. */
  function PastNotes(entries: seq<Note>): (r: seq<Note>)
    ensures multiset(r) == multiset(entries)
    ensures Sorting.Sorted(r, NoteDate, true)
  {
    Sorting.SortBy(entries, NoteDate, true)
  }

  /** The past-notes list shows every stored note and nothing else, newest
      date first. */
  lemma PastNotesNewestFirst(notes: map<string, string>, entries: seq<Note>)
    requires Lists(notes, entries)
    ensures Lists(notes, PastNotes(entries))
    ensures forall i :: 0 < i < |PastNotes(entries)| ==>
      Text.Leq(PastNotes(entries)[i].0, PastNotes(entries)[i - 1].0)
  {
    var r := PastNotes(entries);
    forall n | n in r
      ensures n in entries
    {
      assert n in multiset(r);
    }
    forall n | n in entries
      ensures n in r
    {
      assert n in multiset(entries);
    }
    forall i | 0 < i < |r|
      ensures Text.Leq(r[i].0, r[i - 1].0)
    {
      assert Sorting.InOrder(r[i - 1], r[i], NoteDate, true);
    }
  }

  /** A descending list is descending between any two positions, not only
      neighbouring ones. */
  lemma {:induction false} DescendingEverywhere(r: seq<Note>, i: nat, j: nat)
    requires Sorting.Sorted(r, NoteDate, true)
    requires i <= j < |r|
    ensures Text.Leq(r[j].0, r[i].0)
    decreases j - i
  {
    if i == j {
      Text.LeqRefl(r[i].0);
    } else {
      DescendingEverywhere(r, i + 1, j);
      assert Sorting.InOrder(r[i], r[i + 1], NoteDate, true);
      Text.LeqTrans(r[j].0, r[i + 1].0, r[i].0);
    }
  }

  class MoodTracker {
    var selectedMood: Option<Mood>
    var moodHistory: map<string, Mood>
    /** The date key of the selected day. */
    var selectedDate: string
    var moodNote: string
    var showMoodNote: bool
    var editingEntry: Option<string>
    var editingText: string
    /** The store's "moodHistory" and "moodNotes" items. */
    var storedMoods: map<string, Mood>
    var storedNotes: map<string, string>

    /** The in-memory mood map is the stored one. */
    ghost predicate Valid()
      reads this
    {
      moodHistory == storedMoods
    }

    /** Mounting on `today` with whatever the store holds, followed by the
        load effect for that day. */
    constructor (today: string, savedMoods: map<string, Mood>, savedNotes: map<string, string>)
      ensures Valid() && storedMoods == savedMoods && storedNotes == savedNotes
      ensures selectedDate == today
      ensures selectedMood == (if today in savedMoods then Some(savedMoods[today]) else None)
      ensures moodNote == (if today in savedNotes && savedNotes[today] != "" then savedNotes[today] else "")
      ensures !showMoodNote && editingEntry == None && editingText == ""
    {
      selectedMood := None;
      selectedDate := today;
      moodNote := "";
      showMoodNote := false;
      editingEntry := None;
      editingText := "";
      storedMoods := savedMoods;
      storedNotes := savedNotes;
      moodHistory := savedMoods;
      new;
      Load();
    }

    /** The load effect, run whenever the selected date key changes: take
        the stored mood map; select the stored mood of the day and show the
        stored note of the day, when there is one (an empty note counts as
        none); otherwise keep what was shown before. */
    method Load()
      modifies this`moodHistory, this`selectedMood, this`moodNote
      ensures Valid()
      ensures selectedDate in storedMoods ==> selectedMood == Some(storedMoods[selectedDate])
      ensures selectedDate !in storedMoods ==> selectedMood == old(selectedMood)
      ensures selectedDate in storedNotes && storedNotes[selectedDate] != "" ==> moodNote == storedNotes[selectedDate]
      ensures !(selectedDate in storedNotes && storedNotes[selectedDate] != "") ==> moodNote == old(moodNote)
    {
      moodHistory := storedMoods;
      if selectedDate in storedMoods {
        selectedMood := Some(storedMoods[selectedDate]);
      }
      if selectedDate in storedNotes && storedNotes[selectedDate] != "" {
        moodNote := storedNotes[selectedDate];
      }
    }

    /** A click on a calendar day; the load effect runs only when the date
        key changes. */
    method SelectDate(dateKey: string)
      requires Valid()
      modifies this`selectedDate, this`moodHistory, this`selectedMood, this`moodNote
      ensures Valid() && selectedDate == dateKey
      ensures dateKey == old(selectedDate) ==>
        selectedMood == old(selectedMood) && moodNote == old(moodNote) && moodHistory == old(moodHistory)
      ensures dateKey != old(selectedDate) && dateKey in storedMoods ==> selectedMood == Some(storedMoods[dateKey])
      ensures dateKey != old(selectedDate) && dateKey !in storedMoods ==> selectedMood == old(selectedMood)
      ensures dateKey != old(selectedDate) && dateKey in storedNotes && storedNotes[dateKey] != "" ==>
        moodNote == storedNotes[dateKey]
      ensures dateKey != old(selectedDate) && !(dateKey in storedNotes && storedNotes[dateKey] != "") ==>
        moodNote == old(moodNote)
    {
      if dateKey != selectedDate {
        selectedDate := dateKey;
        Load();
      }
    }

    /** handleMoodSelect: select the mood, record it for the selected day and
        write the whole map to the store. */
    method HandleMoodSelect(mood: Mood)
      requires Valid()
      modifies this`selectedMood, this`moodHistory, this`storedMoods
      ensures Valid()
      ensures selectedMood == Some(mood)
      ensures moodHistory == Record(old(moodHistory), selectedDate, mood)
    {
      selectedMood := Some(mood);
      var updatedHistory := Record(moodHistory, selectedDate, mood);
      moodHistory := updatedHistory;
      storedMoods := updatedHistory;
    }

    /** The "add note" toggle and the note textarea. */
    method ToggleMoodNote()
      modifies this`showMoodNote
      ensures showMoodNote == !old(showMoodNote)
    {
      showMoodNote := !showMoodNote;
    }

    method SetMoodNote(text: string)
      modifies this`moodNote
      ensures moodNote == text
    {
      moodNote := text;
    }

    /** handleMoodNoteSave: store the note under the selected day and close
        the editor. */
    method HandleMoodNoteSave()
      modifies this`storedNotes, this`showMoodNote
      ensures storedNotes == Record(old(storedNotes), selectedDate, moodNote)
      ensures !showMoodNote
    {
      storedNotes := Record(storedNotes, selectedDate, moodNote);
      showMoodNote := false;
    }

    /** handleDeleteMoodNote: only when the confirmation dialog returns true,
        remove that date's note and flip the editor toggle. */
    method HandleDeleteMoodNote(date: string, confirmed: bool)
      modifies this`storedNotes, this`showMoodNote
      ensures confirmed ==> storedNotes == old(storedNotes) - {date} && showMoodNote == !old(showMoodNote)
      ensures !confirmed ==> storedNotes == old(storedNotes) && showMoodNote == old(showMoodNote)
    {
      if confirmed {
        storedNotes := storedNotes - {date};
        showMoodNote := !showMoodNote;
      }
    }

    /** handleEditMoodNote: open the inline editor on a past note. */
    method HandleEditMoodNote(date: string, text: string)
      modifies this`editingEntry, this`editingText
      ensures editingEntry == Some(date) && editingText == text
    {
      editingEntry := Some(date);
      editingText := text;
    }

    method SetEditingText(text: string)
      modifies this`editingText
      ensures editingText == text
    {
      editingText := text;
    }

    /** handleSaveEdit: store the edited text under that date, close the
        inline editor and flip the editor toggle. */
    method HandleSaveEdit(date: string)
      modifies this`storedNotes, this`editingEntry, this`editingText, this`showMoodNote
      ensures storedNotes == Record(old(storedNotes), date, old(editingText))
      ensures editingEntry == None && editingText == ""
      ensures showMoodNote == !old(showMoodNote)
    {
      storedNotes := Record(storedNotes, date, editingText);
      editingEntry := None;
      editingText := "";
      showMoodNote := !showMoodNote;
    }

    /** handleCancelEdit: close the inline editor; the store is untouched. */
    method HandleCancelEdit()
      modifies this`editingEntry, this`editingText
      ensures editingEntry == None && editingText == ""
    {
      editingEntry := None;
      editingText := "";
    }
  }
}
