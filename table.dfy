/**
 * The mood_entries collection as a sequence of entries in insertion order (the
 * collection's natural order), with the queries the handlers of
 * backend/server.py issue against it: find_one, update_one with $set,
 * delete_one, and find().sort(...).
 */
module Table {
  import opened Wrappers
  import opened Entries
  import opened LexOrder

  /** The query filters the handlers use: {"id": ...} and {"date": ...}, exact string matches. */
  datatype Filter = IdIs(id: string) | DateIs(date: string)

  predicate Matches(f: Filter, e: MoodEntry)
  {
    match f
    case IdIs(id) => e.id == id
    case DateIs(d) => e.date == d
  }

  /** No two entries share an id. */
  ghost predicate IdsDistinct(s: seq<MoodEntry>)
  {
    forall i, j :: 0 <= i < j < |s| ==> s[i].id != s[j].id
  }

  predicate IdUnused(s: seq<MoodEntry>, id: string)
  {
    forall i :: 0 <= i < |s| ==> s[i].id != id
  }

  /** The position of the first entry matching f, or None when none does. */
  function FindFirst(s: seq<MoodEntry>, f: Filter): (r: Option<nat>)
    ensures r.None? <==> forall i :: 0 <= i < |s| ==> !Matches(f, s[i])
    ensures r.Some? ==> r.value < |s| && Matches(f, s[r.value])
    ensures r.Some? ==> forall j :: 0 <= j < r.value ==> !Matches(f, s[j])
  {
    if s == [] then None
    else if Matches(f, s[0]) then Some(0)
    else
      var rest := FindFirst(s[1..], f);
      if rest.None? then None else Some(rest.value + 1)
  }

  /** find_one(f): the first matching entry. */
  function FindOne(s: seq<MoodEntry>, f: Filter): (r: Option<MoodEntry>)
  {
    var i := FindFirst(s, f);
    if i.None? then None else Some(s[i.value])
  }

  /**
   * update_one(f, {"$set": payload + timestamp}): the new table and the
   * modified count.
   */
  function UpdateOne(s: seq<MoodEntry>, f: Filter, p: MoodEntryCreate, now: string): (r: (seq<MoodEntry>, nat))
    ensures |r.0| == |s| && r.1 <= 1
    ensures r.1 == 0 <==> r.0 == s
    ensures r.1 == 1 ==> FindFirst(s, f).Some?
    ensures forall j :: 0 <= j < |s| && r.0[j] != s[j] ==> FindFirst(s, f) == Some(j)
    ensures FindFirst(s, f).Some? ==> r.0[FindFirst(s, f).value] == SetFields(s[FindFirst(s, f).value], p, now)
  {
    var i := FindFirst(s, f);
    if i.None? then (s, 0)
    else
      var updated := SetFields(s[i.value], p, now);
      if updated == s[i.value] then (s, 0)
      else
        assert s[i.value := updated][i.value] != s[i.value];
        (s[i.value := updated], 1)
  }

  /** delete_one(f): the new table and the deleted count. */
  function DeleteOne(s: seq<MoodEntry>, f: Filter): (r: (seq<MoodEntry>, nat))
    ensures r.1 == 1 <==> FindFirst(s, f).Some?
    ensures r.1 == 0 ==> r.0 == s
    ensures r.1 == 1 ==> |r.0| == |s| - 1
    ensures r.1 == 1 ==> multiset(r.0) == multiset(s) - multiset{s[FindFirst(s, f).value]}
    ensures r.1 == 1 ==> forall j :: 0 <= j < FindFirst(s, f).value ==> r.0[j] == s[j]
    ensures r.1 == 1 ==> forall j :: FindFirst(s, f).value <= j < |r.0| ==> r.0[j] == s[j + 1]
  {
    var i := FindFirst(s, f);
    if i.None? then (s, 0)
    else
      RemoveAtFacts(s, i.value);
      (RemoveAt(s, i.value), 1)
  }

  /** s without its entry at position i. */
  function RemoveAt(s: seq<MoodEntry>, i: nat): seq<MoodEntry>
    requires i < |s|
  {
    s[..i] + s[i + 1..]
  }

  lemma RemoveAtFacts(s: seq<MoodEntry>, i: nat)
    requires i < |s|
    ensures |RemoveAt(s, i)| == |s| - 1
    ensures multiset(RemoveAt(s, i)) == multiset(s) - multiset{s[i]}
    ensures forall j :: 0 <= j < i ==> RemoveAt(s, i)[j] == s[j]
    ensures forall j :: i <= j < |s| - 1 ==> RemoveAt(s, i)[j] == s[j + 1]
  {
    assert s == s[..i] + [s[i]] + s[i + 1..];
  }

  // ---------------------------------------------------------------------------
  // Sorting

  /** The two sort orders the handlers ask for: timestamp descending, date ascending. */
  datatype SortKey = ByTimestampDesc | ByDateAsc

  /** a may come before b in a result sorted by k. */
  predicate Precedes(k: SortKey, a: MoodEntry, b: MoodEntry)
  {
    match k
    case ByTimestampDesc => LexLe(b.timestamp, a.timestamp)
    case ByDateAsc => LexLe(a.date, b.date)
  }

  lemma PrecedesTotal(k: SortKey, a: MoodEntry, b: MoodEntry)
    ensures Precedes(k, a, b) || Precedes(k, b, a)
  {
    match k
    case ByTimestampDesc => LexLeTotal(a.timestamp, b.timestamp);
    case ByDateAsc => LexLeTotal(a.date, b.date);
  }

  lemma PrecedesTransitive(k: SortKey, a: MoodEntry, b: MoodEntry, c: MoodEntry)
    requires Precedes(k, a, b) && Precedes(k, b, c)
    ensures Precedes(k, a, c)
  {
    match k
    case ByTimestampDesc => LexLeTransitive(c.timestamp, b.timestamp, a.timestamp);
    case ByDateAsc => LexLeTransitive(a.date, b.date, c.date);
  }

  /** Each entry may come before the next. */
  predicate Sorted(s: seq<MoodEntry>, k: SortKey)
  {
    forall i :: 0 < i < |s| ==> Precedes(k, s[i - 1], s[i])
  }

  /** Places e before the first entry it may precede. */
  function Insert(e: MoodEntry, s: seq<MoodEntry>, k: SortKey): (r: seq<MoodEntry>)
    requires Sorted(s, k)
    ensures Sorted(r, k)
    ensures multiset(r) == multiset(s) + multiset{e}
    ensures |r| == |s| + 1 && (r[0] == e || (s != [] && r[0] == s[0]))
  {
    if s == [] then [e]
    else if Precedes(k, e, s[0]) then [e] + s
    else
      PrecedesTotal(k, e, s[0]);
      assert s == [s[0]] + s[1..];
      [s[0]] + Insert(e, s[1..], k)
  }

  /** The entries of s sorted by k; entries that tie keep their order in s. */
  function SortBy(s: seq<MoodEntry>, k: SortKey): (r: seq<MoodEntry>)
    ensures Sorted(r, k)
    ensures multiset(r) == multiset(s)
  {
    if s == [] then []
    else
      assert s == [s[0]] + s[1..];
      Insert(s[0], SortBy(s[1..], k), k)
  }

  lemma {:induction false} SortedChain(s: seq<MoodEntry>, k: SortKey, i: nat, j: nat)
    requires Sorted(s, k) && i < j < |s|
    ensures Precedes(k, s[i], s[j])
    decreases j - i
  {
    if j > i + 1 {
      SortedChain(s, k, i, j - 1);
      PrecedesTransitive(k, s[i], s[j - 1], s[j]);
    }
  }

  /** In a sorted sequence every entry may come before every later one. */
  lemma SortedPairwise(s: seq<MoodEntry>, k: SortKey)
    requires Sorted(s, k)
    ensures forall i, j :: 0 <= i < j < |s| ==> Precedes(k, s[i], s[j])
  {
    forall i, j | 0 <= i < j < |s|
      ensures Precedes(k, s[i], s[j])
    {
      SortedChain(s, k, i, j);
    }
  }

  // ---------------------------------------------------------------------------
  // What one operation means for the next

  /** After an insert, find_one by date still returns the earlier match, or else the new entry. */
  lemma {:induction false} FindByDateAfterInsert(s: seq<MoodEntry>, e: MoodEntry, d: string)
    ensures FindOne(s + [e], DateIs(d)) ==
      if FindOne(s, DateIs(d)).Some? then FindOne(s, DateIs(d))
      else if e.date == d then Some(e)
      else None
  {
    var t := s + [e];
    assert forall i :: 0 <= i < |s| ==> t[i] == s[i];
    var i := FindFirst(s, DateIs(d));
    if i.Some? {
      assert FindFirst(t, DateIs(d)) == i;
    } else if e.date == d {
      assert Matches(DateIs(d), t[|s|]);
      assert FindFirst(t, DateIs(d)) == Some(|s|);
    } else {
      assert forall j :: 0 <= j < |t| ==> !Matches(DateIs(d), t[j]);
    }
  }

  /** After a successful update, find_one by the same filter returns the updated entry. */
  lemma UpdateThenFind(s: seq<MoodEntry>, f: Filter, p: MoodEntryCreate, now: string)
    requires UpdateOne(s, f, p, now).1 == 1
    requires f.IdIs?
    ensures FindOne(UpdateOne(s, f, p, now).0, f) == Some(SetFields(s[FindFirst(s, f).value], p, now))
  {
    var i := FindFirst(s, f).value;
    var t := UpdateOne(s, f, p, now).0;
    assert Matches(f, t[i]);
    assert forall j :: 0 <= j < i ==> t[j] == s[j];
    assert FindFirst(t, f) == Some(i);
  }

  /** An update keeps every id where it was. */
  lemma UpdateKeepsIds(s: seq<MoodEntry>, f: Filter, p: MoodEntryCreate, now: string)
    ensures forall j :: 0 <= j < |s| ==> UpdateOne(s, f, p, now).0[j].id == s[j].id
  {
  }

  /** Once the entry with an id is deleted, no entry has that id: a second delete finds nothing. */
  lemma DeleteRemovesId(s: seq<MoodEntry>, id: string)
    requires IdsDistinct(s)
    ensures IdsDistinct(DeleteOne(s, IdIs(id)).0)
    ensures FindFirst(DeleteOne(s, IdIs(id)).0, IdIs(id)).None?
  {
    var r := DeleteOne(s, IdIs(id));
    if r.1 == 1 {
      var i := FindFirst(s, IdIs(id)).value;
      assert forall j :: 0 <= j < |r.0| ==> r.0[j] == (if j < i then s[j] else s[j + 1]);
    }
  }

  /** Deleting the only entry of a date makes find_one by that date return nothing. */
  lemma DeleteThenFindByDate(s: seq<MoodEntry>, id: string, i: nat)
    requires FindFirst(s, IdIs(id)) == Some(i)
    requires forall j :: 0 <= j < |s| && j != i ==> s[j].date != s[i].date
    ensures FindOne(DeleteOne(s, IdIs(id)).0, DateIs(s[i].date)) == None
  {
    var r := DeleteOne(s, IdIs(id)).0;
    forall j | 0 <= j < |r|
      ensures !Matches(DateIs(s[i].date), r[j])
    {
      if j < i { assert r[j] == s[j]; } else { assert r[j] == s[j + 1]; }
    }
  }
}
