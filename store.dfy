/**
 * The request handlers of backend/server.py over an in-memory collection.
 * The id a new entry gets (uuid4) and the clock's "now" are parameters.
 */
module MoodStore {
  import opened Wrappers
  import opened Entries
  import opened Table
  import opened LexOrder
  import Csv

  class Store {
    /** The mood_entries collection, in insertion order. */
    var entries: seq<MoodEntry>

    ghost predicate Valid()
      reads this
    {
      IdsDistinct(entries)
    }

    constructor ()
      ensures Valid() && entries == []
    {
      entries := [];
    }

    /**
     * POST /moods: stores a new entry with the given fresh id and timestamp and
     * returns it. The mood is stored whatever its value.
     */
    method Create(p: MoodEntryCreate, freshId: string, now: string) returns (e: MoodEntry)
      requires Valid() && IdUnused(entries, freshId)
      modifies this
      ensures Valid()
      ensures e.id == freshId && e.timestamp == now
      ensures e.mood == p.mood && e.moodEmoji == p.moodEmoji && e.date == p.date
      ensures e.notes == (if p.notes.Some? then p.notes.value else "")
      ensures entries == old(entries) + [e]
    {
      e := MoodEntry(freshId, p.mood, p.moodEmoji, NotesOf(p), p.date, now);
      entries := entries + [e];
    }

    /** GET /moods: every entry, newest timestamp first. */
    method ListAll() returns (r: seq<MoodEntry>)
      ensures multiset(r) == multiset(entries)
      ensures entries == [] ==> r == []
      ensures forall i, j :: 0 <= i < j < |r| ==> LexLe(r[j].timestamp, r[i].timestamp)
    {
      r := SortBy(entries, ByTimestampDesc);
      SortedPairwise(r, ByTimestampDesc);
      assert |r| == |multiset(r)| == |multiset(entries)| == |entries|;
    }

    /** GET /moods/{date}: the first entry, in collection order, whose date is exactly d; None if there is none. */
    method GetByDate(d: string) returns (r: Option<MoodEntry>)
      ensures r.None? <==> forall i :: 0 <= i < |entries| ==> entries[i].date != d
      ensures r.Some? ==> exists i :: 0 <= i < |entries| && entries[i] == r.value && entries[i].date == d
                              && forall j :: 0 <= j < i ==> entries[j].date != d
    {
      r := FindOne(entries, DateIs(d));
      if r.Some? {
        var i := FindFirst(entries, DateIs(d)).value;
        assert entries[i] == r.value;
      }
    }

    /**
     * PUT /moods/{id}: sets the payload fields and the timestamp of the entry
     * with that id. It succeeds when that entry exists and the update changed
     * it; otherwise the 404 raised inside the try reaches the client as a 500.
     */
    method Update(id: string, p: MoodEntryCreate, now: string) returns (r: Result<MoodEntry, HttpError>)
      requires Valid()
      modifies this
      ensures Valid()
      ensures entries == UpdateOne(old(entries), IdIs(id), p, now).0
      ensures r.Ok? <==> UpdateOne(old(entries), IdIs(id), p, now).1 == 1
      ensures r.Ok? ==> FindFirst(old(entries), IdIs(id)).Some?
      ensures r.Ok? ==> r.value == SetFields(old(entries)[FindFirst(old(entries), IdIs(id)).value], p, now)
      ensures r.Ok? ==> r.value.id == id && r.value.timestamp == now && r.value in entries
      ensures r.Err? ==> entries == old(entries) && r.error == Caught(NotFoundError)
    {
      var result := UpdateOne(entries, IdIs(id), p, now);
      UpdateKeepsIds(entries, IdIs(id), p, now);
      ghost var before := entries;
      entries := result.0;
      if result.1 == 1 {
        UpdateThenFind(before, IdIs(id), p, now);
        var updated := FindOne(entries, IdIs(id));
        if updated.Some? {
          r := Ok(updated.value);
          return;
        }
      }
      r := Err(Caught(NotFoundError));
    }

    /**
     * DELETE /moods/{id}: removes the entry with that id, keeping the others in
     * order. With no such entry the 404 raised inside the try reaches the
     * client as a 500 and nothing changes.
     */
    method Delete(id: string) returns (r: Result<string, HttpError>)
      requires Valid()
      modifies this
      ensures Valid()
      ensures entries == DeleteOne(old(entries), IdIs(id)).0
      ensures r.Ok? <==> !IdUnused(old(entries), id)
      ensures r.Ok? ==> r.value == DeletedMessage && IdUnused(entries, id)
      ensures r.Err? ==> entries == old(entries) && r.error == Caught(NotFoundError)
    {
      var result := DeleteOne(entries, IdIs(id));
      DeleteRemovesId(entries, id);
      entries := result.0;
      if result.1 == 1 {
        r := Ok(DeletedMessage);
      } else {
        r := Err(Caught(NotFoundError));
      }
    }

    /**
     * GET /moods/export/csv: the entries sorted by date, rendered line by line
     * after the header, and the file name for the given day.
     */
    method ExportCsv(today: Csv.CalendarDate) returns (content: string, filename: string)
      requires Csv.ValidCalendarDate(today)
      ensures content == Csv.RenderCsv(SortBy(entries, ByDateAsc))
      ensures entries == [] ==> content == Csv.Header
      ensures filename == Csv.ExportFilename(today)
    {
      var moods := SortBy(entries, ByDateAsc);
      content := Csv.Header;
      var i := 0;
      Csv.RenderCsvStep(moods, 0, content);
      while i < |moods|
        invariant 0 <= i <= |moods|
        invariant content == Csv.RenderCsv(moods[..i])
      {
        Csv.RenderCsvStep(moods, i + 1, content + Csv.RenderLine(moods[i]));
        content := content + Csv.RenderLine(moods[i]);
        i := i + 1;
      }
      assert moods[..i] == moods;
      if entries == [] {
        Csv.RenderCsvEmpty();
      }
      filename := Csv.ExportFilename(today);
    }
  }

  /**
   * The export, read back, is the header row and then one row per stored
   * entry, in non-decreasing date order, with each entry's notes as stored.
   */
  lemma ExportReadsBack(s: seq<MoodEntry>)
    requires forall i :: 0 <= i < |s| ==> Csv.Exportable(s[i])
    ensures var sorted := SortBy(s, ByDateAsc);
      && Csv.ParseCsv(Csv.RenderCsv(sorted)) == Some([Csv.HeaderRow] + Csv.Rows(sorted))
      && multiset(sorted) == multiset(s)
      && forall i, j :: 0 <= i < j < |sorted| ==> LexLe(sorted[i].date, sorted[j].date)
  {
    var sorted := SortBy(s, ByDateAsc);
    SortedPairwise(sorted, ByDateAsc);
    forall i | 0 <= i < |sorted|
      ensures Csv.Exportable(sorted[i])
    {
      assert sorted[i] in multiset(s);
    }
    Csv.CsvRoundTrip(sorted);
  }

  /**
   * Create an entry, find it by its date, delete it, and find nothing by that
   * date any more.
   */
  method CreateFindDelete(id: string, now: string, today: string)
    returns (found: Option<MoodEntry>, deleted: Result<string, HttpError>, after: Option<MoodEntry>)
    ensures found.Some? && found.value.mood == 4 && found.value.moodEmoji == "\U{1F60A}"
    ensures found.Some? && found.value.notes == "This entry will be deleted" && found.value.id == id
    ensures found.Some? && found.value.date == today
    ensures deleted == Ok(DeletedMessage)
    ensures after == None
  {
    var store := new Store();
    var created := store.Create(MoodEntryCreate(4, "\U{1F60A}", Some("This entry will be deleted"), today), id, now);
    found := store.GetByDate(today);
    assert store.entries == [created];
    deleted := store.Delete(created.id);
    after := store.GetByDate(today);
  }
}
