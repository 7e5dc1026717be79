/** The mood tracker of the top-level src/ tree: the mood chosen for the
    selected day is recorded in an in-memory date-keyed map that the week
    calendar reads. */
module RootMood {
  import opened Wrappers
  import opened Moods

  class MoodTracker {
    var selectedMood: Option<Mood>
    var moodHistory: map<string, Mood>
    /** The date key of the selected day. */
    var selectedDate: string

    constructor (today: string)
      ensures selectedMood == None && moodHistory == map[] && selectedDate == today
      ensures forall m :: !IsHighlighted(m)
    {
      selectedMood := None;
      moodHistory := map[];
      selectedDate := today;
    }

    /** handleMoodSelect: the chosen mood becomes the selected one, and so
        the only ringed button is the one with its label; it is recorded
        under the selected key, and the selected key itself stays. */
    method HandleMoodSelect(mood: Mood)
      modifies this`selectedMood, this`moodHistory
      ensures selectedMood == Some(mood)
      ensures moodHistory == Record(old(moodHistory), selectedDate, mood)
      ensures CalendarCell(selectedDate) == Some(mood.emoji)
      ensures forall d :: d != selectedDate ==> CalendarCell(d) == old(CalendarCell(d))
      ensures forall m :: IsHighlighted(m) <==> m.moodLabel == mood.moodLabel
    {
      selectedMood := Some(mood);
      moodHistory := Record(moodHistory, selectedDate, mood);
    }

    /** A click on a calendar day. */
    method SelectDate(dateKey: string)
      modifies this`selectedDate
      ensures selectedDate == dateKey
    {
      selectedDate := dateKey;
    }

    /** What a calendar cell shows under its date: the emoji of the mood
        recorded for it, or nothing. */
    function CalendarCell(dateKey: string): (r: Option<string>)
      reads this
      ensures r.Some? <==> dateKey in moodHistory
      ensures r.Some? ==> r.value == moodHistory[dateKey].emoji
    {
      if dateKey in moodHistory then Some(moodHistory[dateKey].emoji) else None
    }

    /** The ring around a mood button: its label is the selected mood's. */
    function IsHighlighted(mood: Mood): (b: bool)
      reads this
      ensures b <==> selectedMood.Some? && selectedMood.value.moodLabel == mood.moodLabel
    {
      match selectedMood
      case Some(m) => m.moodLabel == mood.moodLabel
      case None => false
    }
  }
}
