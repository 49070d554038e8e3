/**
 * The records of the mood service (backend/server.py): the stored entry, the
 * request payload, and the HTTP errors its handlers raise.
 */
module Entries {
  import opened Wrappers
  import Decimal

  /**
   * A stored mood entry. `timestamp` is the ISO-8601 text the collection keeps;
   * the datetime values on either side of it are taken as that text.
   */
  datatype MoodEntry = MoodEntry(
    id: string,
    mood: int,
    moodEmoji: string,
    notes: string,
    date: string,
    timestamp: string)

  /** The create/update payload; `notes` is None when the client leaves it out. */
  datatype MoodEntryCreate = MoodEntryCreate(
    mood: int,
    moodEmoji: string,
    notes: Option<string>,
    date: string)

  /** The notes a payload carries: the empty string when it has none. */
  function NotesOf(p: MoodEntryCreate): string
  {
    if p.notes.Some? then p.notes.value else ""
  }

  /** The `$set` of an update: the four payload fields and the new timestamp; the id stays. */
  function SetFields(e: MoodEntry, p: MoodEntryCreate, now: string): MoodEntry
  {
    e.(mood := p.mood, moodEmoji := p.moodEmoji, notes := NotesOf(p), date := p.date, timestamp := now)
  }

  /** An HTTP error response: its status code and the detail text it carries. */
  datatype HttpError = HttpError(status: int, detail: string)

  const NotFoundDetail: string := "Mood entry not found"

  /** The error raised when no entry has the requested id. */
  const NotFoundError: HttpError := HttpError(404, NotFoundDetail)

  const DeletedMessage: string := "Mood entry deleted successfully"

  /** str() of a raised HTTP error: "<status>: <detail>". */
  function ExceptionText(e: HttpError): string
  {
    Decimal.IntToDecimal(e.status) + ": " + e.detail
  }

  /**
   * What a handler's `except Exception` clause makes of an error raised inside
   * its `try`: a 500 whose detail is the error's text.
   */
  function Caught(e: HttpError): HttpError
  {
    HttpError(500, ExceptionText(e))
  }

  /** The not-found error of update and delete reaches the client as this 500. */
  lemma NotFoundReachesClientAs500()
    ensures Caught(NotFoundError) == HttpError(500, "404: Mood entry not found")
  {
    var text := ExceptionText(NotFoundError);
    assert Decimal.IntToDecimal(404) == "404" by {
      assert Decimal.NatToDigits(4) == "4";
      assert Decimal.NatToDigits(40) == "40";
    }
    assert text == "404" + ": " + "Mood entry not found";
  }
}
