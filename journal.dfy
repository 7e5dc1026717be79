/** The journal page: a list of entries, newest first, an entry form used
    both to write a new entry and to edit an existing one, and the
    selection state (the entry being edited or viewed). */
module Journal {
  import opened Wrappers
  import opened Text

  datatype Entry = Entry(id: int, date: string, title: string, content: string, mood: string)

  /** The form state `newEntry`. */
  datatype EntryForm = EntryForm(title: string, content: string, mood: string)

  /** The smiling-face emoji every new form starts with. */
  const DefaultMood: string := "\U{1F60A}"

  const BlankForm: EntryForm := EntryForm("", "", DefaultMood)

  /** `{ ...entry, ...newEntry, date: today }`: the entry keeps its id and
      takes the form's fields and today's date. */
  function Edited(e: Entry, f: EntryForm, today: string): Entry {
    Entry(e.id, today, f.title, f.content, f.mood)
  }

  /** journalEntries.map(entry => entry.id === id ? Edited(entry) : entry). */
  function ApplyEdit(entries: seq<Entry>, id: int, f: EntryForm, today: string): (r: seq<Entry>)
    ensures |r| == |entries|
    ensures forall i :: 0 <= i < |r| ==> r[i].id == entries[i].id
    ensures forall i :: 0 <= i < |r| && entries[i].id == id ==> r[i] == Edited(entries[i], f, today)
    ensures forall i :: 0 <= i < |r| && entries[i].id != id ==> r[i] == entries[i]
    decreases |entries|
  {
    if entries == [] then []
    else
      var head := if entries[0].id == id then Edited(entries[0], f, today) else entries[0];
      [head] + ApplyEdit(entries[1..], id, f, today)
  }

  /** An edit whose id is not in the list changes nothing; applying the same
      edit twice is applying it once. */
  lemma EditProperties(entries: seq<Entry>, id: int, f: EntryForm, today: string)
    ensures (forall i :: 0 <= i < |entries| ==> entries[i].id != id) ==> ApplyEdit(entries, id, f, today) == entries
    ensures ApplyEdit(ApplyEdit(entries, id, f, today), id, f, today) == ApplyEdit(entries, id, f, today)
  {
  }

  /** journalEntries.filter(entry => entry.id !== id). */
  function Without(entries: seq<Entry>, id: int): (r: seq<Entry>)
    ensures |r| <= |entries|
    decreases |entries|
  {
    if entries == [] then []
    else (if entries[0].id != id then [entries[0]] else []) + Without(entries[1..], id)
  }

  /** The delete keeps exactly the entries with another id. */
  lemma {:induction false} WithoutMembers(entries: seq<Entry>, id: int, e: Entry)
    ensures e in Without(entries, id) <==> e in entries && e.id != id
    decreases |entries|
  {
    if entries != [] {
      assert entries == [entries[0]] + entries[1..];
      WithoutMembers(entries[1..], id, e);
    }
  }

  /** The delete keeps the survivors in their order: it works piece by
      piece, and leaves a list without the id as it was. */
  lemma {:induction false} WithoutConcat(a: seq<Entry>, b: seq<Entry>, id: int)
    ensures Without(a + b, id) == Without(a, id) + Without(b, id)
    decreases |a|
  {
    if a == [] {
      assert a + b == b;
    } else {
      assert (a + b)[0] == a[0];
      assert (a + b)[1..] == a[1..] + b;
      WithoutConcat(a[1..], b, id);
    }
  }

  lemma {:induction false} WithoutAbsent(entries: seq<Entry>, id: int)
    requires forall i :: 0 <= i < |entries| ==> entries[i].id != id
    ensures Without(entries, id) == entries
    decreases |entries|
  {
    if entries != [] {
      WithoutAbsent(entries[1..], id);
      assert entries == [entries[0]] + entries[1..];
    }
  }

  /** The Save button's gate: both fields hold a non-whitespace character. */
  predicate Savable(f: EntryForm) {
    Trim(f.title) != [] && Trim(f.content) != []
  }

  lemma SavableIffNotBlank(f: EntryForm)
    ensures Savable(f) <==> !Blank(f.title) && !Blank(f.content)
  {
    TrimEmptyIffBlank(f.title);
    TrimEmptyIffBlank(f.content);
  }

  /** The entry list after saveEntry: unchanged when the form is not
      savable; otherwise the selected entry is edited in place, or, with
      nothing selected, a new entry with a fresh id and today's date is put
      in front. */
  function SavedEntries(entries: seq<Entry>, current: Option<Entry>, f: EntryForm, today: string, now: int): seq<Entry> {
    if !Savable(f) then entries
    else if current.Some? then ApplyEdit(entries, current.value.id, f, today)
    else [Entry(now, today, f.title, f.content, f.mood)] + entries
  }

  /** A blank form saves nothing; an edit keeps the list's length and ids
      and rewrites exactly the entries with the selected id; a new entry
      goes in front of the unchanged list. */
  lemma SavedEntriesCases(entries: seq<Entry>, current: Option<Entry>, f: EntryForm, today: string, now: int)
    ensures Blank(f.title) || Blank(f.content) ==> SavedEntries(entries, current, f, today, now) == entries
    ensures !Blank(f.title) && !Blank(f.content) && current.Some? ==>
      var r := SavedEntries(entries, current, f, today, now);
      && |r| == |entries|
      && (forall i :: 0 <= i < |r| ==> r[i].id == entries[i].id)
      && (forall i :: 0 <= i < |r| && entries[i].id == current.value.id ==> r[i] == Edited(entries[i], f, today))
      && (forall i :: 0 <= i < |r| && entries[i].id != current.value.id ==> r[i] == entries[i])
    ensures !Blank(f.title) && !Blank(f.content) && current.None? ==>
      SavedEntries(entries, current, f, today, now) == [Entry(now, today, f.title, f.content, f.mood)] + entries
  {
    SavableIffNotBlank(f);
  }

  class Journal {
    var journalEntries: seq<Entry>
    var isAddingEntry: bool
    var isViewingEntry: bool
    var currentEntry: Option<Entry>
    var newEntry: EntryForm

    /** The component starts with its sample entries, nothing selected and
        a blank form. */
    constructor (initial: seq<Entry>)
      ensures journalEntries == initial
      ensures !isAddingEntry && !isViewingEntry && currentEntry == None && newEntry == BlankForm
    {
      journalEntries := initial;
      isAddingEntry, isViewingEntry := false, false;
      currentEntry := None;
      newEntry := BlankForm;
    }

    /** createNewEntry: open a blank form for a new entry; view mode is left
        as it was. */
    method CreateNewEntry()
      modifies this
      ensures isAddingEntry && currentEntry == None && newEntry == BlankForm
      ensures journalEntries == old(journalEntries) && isViewingEntry == old(isViewingEntry)
    {
      isAddingEntry := true;
      currentEntry := None;
      newEntry := BlankForm;
    }

    /** The Save button is disabled exactly when saveEntry would do
        nothing. */
    function CanSave(): (b: bool)
      reads this
      ensures b <==> !Blank(newEntry.title) && !Blank(newEntry.content)
    {
      SavableIffNotBlank(newEntry);
      !(Trim(newEntry.title) == [] || Trim(newEntry.content) == [])
    }

    /** saveEntry: with a blank title or content nothing happens; otherwise
        the list becomes SavedEntries and the form closes. */
    method SaveEntry(today: string, now: int)
      modifies this`journalEntries, this`isAddingEntry, this`currentEntry
      ensures journalEntries == SavedEntries(old(journalEntries), old(currentEntry), newEntry, today, now)
      ensures Savable(newEntry) ==> !isAddingEntry && currentEntry == None
      ensures !Savable(newEntry) ==> isAddingEntry == old(isAddingEntry) && currentEntry == old(currentEntry)
    {
      var ok := Savable(newEntry);
      journalEntries := SavedEntries(journalEntries, currentEntry, newEntry, today, now);
      if ok {
        isAddingEntry := false;
        currentEntry := None;
      }
    }

    /** editEntry: select the entry, load it into the form (an empty mood
        becomes the default one), open the form and leave view mode. */
    method EditEntry(e: Entry)
      modifies this
      ensures currentEntry == Some(e) && isAddingEntry && !isViewingEntry
      ensures newEntry.title == e.title && newEntry.content == e.content
      ensures newEntry.mood == (if e.mood == "" then DefaultMood else e.mood)
      ensures journalEntries == old(journalEntries)
    {
      currentEntry := Some(e);
      newEntry := EntryForm(e.title, e.content, if e.mood != "" then e.mood else DefaultMood);
      isAddingEntry := true;
      isViewingEntry := false;
    }

    /** viewEntry: select the entry and show it. */
    method ViewEntry(e: Entry)
      modifies this`currentEntry, this`isViewingEntry
      ensures currentEntry == Some(e) && isViewingEntry
    {
      currentEntry := Some(e);
      isViewingEntry := true;
    }

    /** deleteEntry: drop every entry with the id; when that is the selected
        entry, clear the selection and leave view mode. */
    method DeleteEntry(id: int)
      modifies this
      ensures journalEntries == Without(old(journalEntries), id)
      ensures old(currentEntry).Some? && old(currentEntry).value.id == id ==> currentEntry == None && !isViewingEntry
      ensures !(old(currentEntry).Some? && old(currentEntry).value.id == id) ==>
        currentEntry == old(currentEntry) && isViewingEntry == old(isViewingEntry)
      ensures isAddingEntry == old(isAddingEntry) && newEntry == old(newEntry)
    {
      journalEntries := Without(journalEntries, id);
      if currentEntry.Some? && currentEntry.value.id == id {
        currentEntry := None;
        isViewingEntry := false;
      }
    }

    /** The form's back arrow: close the form, keep its contents. */
    method CloseForm()
      modifies this`isAddingEntry
      ensures !isAddingEntry
    {
      isAddingEntry := false;
    }

    /** The title input, the content textarea and the mood buttons. */
    method SetTitle(title: string)
      modifies this`newEntry
      ensures newEntry == old(newEntry).(title := title)
    {
      newEntry := newEntry.(title := title);
    }

    method SetContent(content: string)
      modifies this`newEntry
      ensures newEntry == old(newEntry).(content := content)
    {
      newEntry := newEntry.(content := content);
    }

    method SetMood(mood: string)
      modifies this`newEntry
      ensures newEntry == old(newEntry).(mood := mood)
    {
      newEntry := newEntry.(mood := mood);
    }
  }
}
