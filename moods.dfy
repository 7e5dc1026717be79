/** The mood catalog both mood trackers offer, and the date-keyed map
    update they both perform. */
module Moods {

  /** A mood button: its emoji and its label (the colour classes are
      presentation only). */
  datatype Mood = Mood(emoji: string, moodLabel: string)

  const Catalog: seq<Mood> := [
    Mood("\U{1F60A}", "Happy"),
    Mood("\U{1F610}", "Neutral"),
    Mood("\U{1F614}", "Sad"),
    Mood("\U{1F621}", "Angry"),
    Mood("\U{1F628}", "Anxious")
  ]

  /** `{ ...history, [dateKey]: value }`: the date gains or replaces its
      entry and every other date keeps its own. */
  function Record<V>(history: map<string, V>, dateKey: string, value: V): (r: map<string, V>)
    ensures r.Keys == history.Keys + {dateKey}
    ensures r[dateKey] == value
    ensures forall d :: d in history && d != dateKey ==> r[d] == history[d]
  {
    history[dateKey := value]
  }

  /** The last selection for a date wins, and selecting the same mood again
      changes nothing. */
  lemma RecordLastWins<V>(history: map<string, V>, dateKey: string, a: V, b: V)
    ensures Record(Record(history, dateKey, a), dateKey, b) == Record(history, dateKey, b)
    ensures Record(Record(history, dateKey, a), dateKey, a) == Record(history, dateKey, a)
  {
  }

  /** Recording under two different dates commutes. */
  lemma RecordCommutes<V>(history: map<string, V>, d1: string, d2: string, a: V, b: V)
    requires d1 != d2
    ensures Record(Record(history, d1, a), d2, b) == Record(Record(history, d2, b), d1, a)
  {
  }
}
