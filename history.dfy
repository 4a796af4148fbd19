/** The viewing history: one `(date, episode)` entry per day the viewer
    confirmed progress, kept in insertion order, and the daily series derived
    from it. Dates are day numbers; fixed-format `YYYY-MM-DD` strings compare
    the same way. */
module History {

  /** One history entry: the last episode confirmed on `date`. */
  datatype Entry = Entry(date: int, episode: int)

  /** One displayed day: episodes watched that day and the running total. */
  datatype DailyDelta = DailyDelta(date: int, watched: int, total: int)

  /** The upsert-by-date invariant: no two entries share a date. */
  ghost predicate DatesUnique(h: seq<Entry>)
  {
    forall i, j :: 0 <= i < j < |h| ==> h[i].date != h[j].date
  }

  ghost function EntryDates(h: seq<Entry>): set<int>
  {
    set e | e in h :: e.date
  }

  ghost function DeltaDates(ds: seq<DailyDelta>): set<int>
  {
    set d | d in ds :: d.date
  }

  ghost predicate SortedByDate(s: seq<Entry>)
  {
    forall i, j :: 0 <= i < j < |s| ==> s[i].date <= s[j].date
  }

  // ---------------------------------------------------------------------
  // Upsert by date

  /** Reference definition of the upsert: the first entry dated `date` gets
      episode `ep`; with no such entry, `(date, ep)` goes at the end. */
  function Upsert(h: seq<Entry>, date: int, ep: int): seq<Entry>
  {
    if h == [] then [Entry(date, ep)]
    else if h[0].date == date then [Entry(date, ep)] + h[1..]
    else [h[0]] + Upsert(h[1..], date, ep)
  }

  /** `findIndex` over the history: the first index dated `date`, or -1. */
  method FindIndex(h: seq<Entry>, date: int) returns (idx: int)
    ensures idx == -1 <==> forall j :: 0 <= j < |h| ==> h[j].date != date
    ensures idx != -1 ==> 0 <= idx < |h| && h[idx].date == date
    ensures forall j :: 0 <= j < idx ==> h[j].date != date
  {
    var i := 0;
    while i < |h|
      invariant 0 <= i <= |h|
      invariant forall j :: 0 <= j < i ==> h[j].date != date
    {
      if h[i].date == date {
        return i;
      }
      i := i + 1;
    }
    return -1;
  }

  /** When an entry for `date` exists, the upsert changes only the first
      such entry's episode and keeps the length. */
  lemma {:induction false} UpsertReplaces(h: seq<Entry>, date: int, ep: int, k: int)
    requires 0 <= k < |h| && h[k].date == date
    requires forall j :: 0 <= j < k ==> h[j].date != date
    ensures Upsert(h, date, ep) == h[k := Entry(date, ep)]
  {
    if k > 0 {
      UpsertReplaces(h[1..], date, ep, k - 1);
      assert [h[0]] + h[1..][k - 1 := Entry(date, ep)] == h[k := Entry(date, ep)];
    }
  }

  /** When no entry for `date` exists, the upsert appends `(date, ep)`. */
  lemma {:induction false} UpsertAppends(h: seq<Entry>, date: int, ep: int)
    requires forall j :: 0 <= j < |h| ==> h[j].date != date
    ensures Upsert(h, date, ep) == h + [Entry(date, ep)]
  {
    if h != [] {
      UpsertAppends(h[1..], date, ep);
      assert [h[0]] + (h[1..] + [Entry(date, ep)]) == h + [Entry(date, ep)];
    }
  }

  /** The upsert keeps at most one entry per date, and the entry for `date`
      afterwards is `(date, ep)`. */
  lemma {:induction false} UpsertKeepsDatesUnique(h: seq<Entry>, date: int, ep: int)
    requires DatesUnique(h)
    ensures DatesUnique(Upsert(h, date, ep))
    ensures Entry(date, ep) in Upsert(h, date, ep)
    ensures forall e :: e in Upsert(h, date, ep) && e.date == date ==> e.episode == ep
  {
    var r := Upsert(h, date, ep);
    if h == [] {
    } else if h[0].date == date {
      forall e | e in h[1..]
        ensures e.date != date
      {
        var j :| 0 <= j < |h[1..]| && h[1..][j] == e;
        assert h[j + 1] == e;
      }
    } else {
      var t := h[1..];
      assert DatesUnique(t);
      UpsertKeepsDatesUnique(t, date, ep);
      var rt := Upsert(t, date, ep);
      assert r == [h[0]] + rt;
      UpsertDates(t, date, ep);
      forall i, j | 0 <= i < j < |r|
        ensures r[i].date != r[j].date
      {
        if i == 0 {
          assert r[j] == rt[j - 1];
          assert rt[j - 1] in rt;
          if rt[j - 1].date != date {
            var m :| 0 <= m < |t| && t[m] == rt[j - 1];
            assert h[m + 1] == t[m];
          }
        }
      }
    }
  }

  /** Every entry after an upsert was already in the history or is `(date, ep)`. */
  lemma {:induction false} UpsertDates(h: seq<Entry>, date: int, ep: int)
    ensures forall e :: e in Upsert(h, date, ep) ==> e in h || e == Entry(date, ep)
  {
    if h != [] && h[0].date != date {
      UpsertDates(h[1..], date, ep);
    }
  }

  // ---------------------------------------------------------------------
  // Has the viewer watched today?

  /** The episode of the first entry at or after index `i` whose predecessor
      is dated `today`, or 0 when there is none (`find(...)?.episode || 0`). */
  function EpisodeAfterToday(h: seq<Entry>, today: int, i: nat): int
    decreases |h| - i
  {
    if i >= |h| then 0
    else if i >= 1 && h[i - 1].date == today then h[i].episode
    else EpisodeAfterToday(h, today, i + 1)
  }

  /** Some entry dated today is above the episode found by the lookup above. */
  predicate WatchedToday(h: seq<Entry>, today: int)
  {
    exists k :: 0 <= k < |h| && h[k].date == today && h[k].episode > EpisodeAfterToday(h, today, 0)
  }

  /** With no entry before the last one dated `today`, the lookup finds nothing. */
  lemma {:induction false} NothingAfterToday(h: seq<Entry>, today: int, i: nat)
    requires forall j :: 0 <= j < |h| - 1 ==> h[j].date != today
    ensures EpisodeAfterToday(h, today, i) == 0
    decreases |h| - i
  {
    if i < |h| {
      NothingAfterToday(h, today, i + 1);
    }
  }

  /** Right after today's first entry is appended, the viewer counts as having
      watched today exactly when that episode is positive. */
  lemma WatchedTodayAfterAppend(h: seq<Entry>, today: int, ep: int)
    requires forall j :: 0 <= j < |h| ==> h[j].date != today
    ensures WatchedToday(h + [Entry(today, ep)], today) <==> ep > 0
  {
    var h' := h + [Entry(today, ep)];
    NothingAfterToday(h', today, 0);
    if ep > 0 {
      assert h'[|h|] == Entry(today, ep);
    }
  }

  // ---------------------------------------------------------------------
  // The daily series

  /** Inserts `e` after every entry dated on or before it. */
  function Insert(e: Entry, s: seq<Entry>): (r: seq<Entry>)
    ensures multiset(r) == multiset(s) + multiset{e}
  {
    if s == [] then [e]
    else if e.date < s[0].date then [e] + s
    else
      assert s == [s[0]] + s[1..];
      [s[0]] + Insert(e, s[1..])
  }

  /** Every entry after an insertion was already there or is `e`. */
  lemma {:induction false} InsertMembers(e: Entry, s: seq<Entry>)
    ensures forall x :: x in Insert(e, s) ==> x in s || x == e
  {
    if s != [] && e.date >= s[0].date {
      InsertMembers(e, s[1..]);
    }
  }

  /** Inserting into a date-sorted sequence keeps it sorted. */
  lemma {:induction false} InsertSorted(e: Entry, s: seq<Entry>)
    requires SortedByDate(s)
    ensures SortedByDate(Insert(e, s))
  {
    if s == [] {
    } else if e.date < s[0].date {
      var r := [e] + s;
      forall i, j | 0 <= i < j < |r|
        ensures r[i].date <= r[j].date
      {
        if i == 0 {
          assert r[j] == s[j - 1];
        } else {
          assert r[i] == s[i - 1] && r[j] == s[j - 1];
        }
      }
    } else {
      var t := s[1..];
      assert SortedByDate(t);
      InsertSorted(e, t);
      InsertMembers(e, t);
      var rest := Insert(e, t);
      var r := [s[0]] + rest;
      forall i, j | 0 <= i < j < |r|
        ensures r[i].date <= r[j].date
      {
        if i == 0 {
          var x := rest[j - 1];
          assert x in rest;
          if x != e {
            var m :| 0 <= m < |t| && t[m] == x;
            assert s[m + 1] == x;
          }
        } else {
          assert r[i] == rest[i - 1] && r[j] == rest[j - 1];
        }
      }
    }
  }

  /** A copy of the history sorted by date, ascending (an insertion sort,
      stable like the comparison sort it stands for). */
  function SortByDate(h: seq<Entry>): (r: seq<Entry>)
    ensures SortedByDate(r)
    ensures multiset(r) == multiset(h)
  {
    if h == [] then []
    else
      assert h == h[..|h| - 1] + [h[|h| - 1]];
      var sortedPrefix := SortByDate(h[..|h| - 1]);
      InsertSorted(h[|h| - 1], sortedPrefix);
      Insert(h[|h| - 1], sortedPrefix)
  }

  /** Newest-first order: `.reverse()`. */
  function Reverse<T>(s: seq<T>): (r: seq<T>)
    ensures |r| == |s|
    ensures forall k :: 0 <= k < |s| ==> r[k] == s[|s| - 1 - k]
    ensures multiset(r) == multiset(s)
  {
    if s == [] then []
    else
      assert s == [s[0]] + s[1..];
      Reverse(s[1..]) + [s[0]]
  }

  /** The chronological series: each day's episode minus the previous day's,
      with 0 before the first day. */
  function Deltas(s: seq<Entry>): seq<DailyDelta>
  {
    seq(|s|, i requires 0 <= i < |s| =>
      DailyDelta(s[i].date, s[i].episode - (if i == 0 then 0 else s[i - 1].episode), s[i].episode))
  }

  /** The history shown day by day, newest first. */
  function DailyProgress(h: seq<Entry>): seq<DailyDelta>
  {
    if |h| > 0 then Reverse(Deltas(SortByDate(h))) else []
  }

  /** The `(date, total)` pairs of a series, read back as history entries. */
  function Snapshots(ds: seq<DailyDelta>): seq<Entry>
  {
    seq(|ds|, i requires 0 <= i < |ds| => Entry(ds[i].date, ds[i].total))
  }

  function SumWatched(ds: seq<DailyDelta>): int
  {
    if ds == [] then 0 else ds[0].watched + SumWatched(ds[1..])
  }

  /** Newest first, each day's count is its total minus the next (older)
      day's total, and the oldest day counts its whole total. */
  ghost predicate Chained(ds: seq<DailyDelta>)
  {
    && (forall k :: 0 <= k < |ds| - 1 ==> ds[k].watched == ds[k].total - ds[k + 1].total)
    && (|ds| > 0 ==> ds[|ds| - 1].watched == ds[|ds| - 1].total)
  }

  /** Reversing the chronological series of any sequence gives a chained
      series. */
  lemma NewestFirst(s: seq<Entry>)
    ensures Chained(Reverse(Deltas(s)))
  {
    var d := Deltas(s);
    var r := Reverse(d);
    var n := |s|;
    forall k | 0 <= k < n - 1
      ensures r[k].watched == r[k].total - r[k + 1].total
    {
      assert r[k] == d[n - 1 - k];
      assert r[k + 1] == d[n - 2 - k];
    }
    if n > 0 {
      assert r[n - 1] == d[0];
    }
  }

  /** The `(date, total)` pairs of the reversed series are the sequence reversed. */
  lemma NewestFirstSnapshots(s: seq<Entry>)
    ensures Snapshots(Reverse(Deltas(s))) == Reverse(s)
  {
    var d := Deltas(s);
    var r := Reverse(d);
    var rs := Reverse(s);
    var snaps := Snapshots(r);
    var n := |s|;
    assert |snaps| == |r| == n == |rs|;
    forall k | 0 <= k < n
      ensures snaps[k] == rs[k]
    {
      var m := n - 1 - k;
      assert snaps[k] == Entry(r[k].date, r[k].total);
      assert r[k] == d[m];
      assert d[m].date == s[m].date && d[m].total == s[m].episode;
      assert rs[k] == s[m];
    }
  }

  /** Reversing the chronological series of a date-sorted sequence puts
      the dates in non-increasing order. */
  lemma NewestFirstOrder(s: seq<Entry>)
    requires SortedByDate(s)
    ensures var r := Reverse(Deltas(s));
      forall i, j :: 0 <= i < j < |r| ==> r[i].date >= r[j].date
  {
    var d := Deltas(s);
    var r := Reverse(d);
    forall i, j | 0 <= i < j < |r|
      ensures r[i].date >= r[j].date
    {
      assert r[i] == d[|s| - 1 - i];
      assert r[j] == d[|s| - 1 - j];
    }
  }

  /** The series has one day per history entry, in non-increasing date
      order, and reads back as exactly the history's entries. */
  lemma DailyProgressShape(h: seq<Entry>)
    ensures var r := DailyProgress(h);
      && |r| == |h|
      && (forall i, j :: 0 <= i < j < |r| ==> r[i].date >= r[j].date)
      && multiset(Snapshots(r)) == multiset(h)
  {
    if |h| > 0 {
      var sorted := SortByDate(h);
      assert |sorted| == |h| by {
        assert |multiset(sorted)| == |multiset(h)|;
      }
      NewestFirstSnapshots(sorted);
      NewestFirstOrder(sorted);
    }
  }

  /** Each day counts its episode minus the chronologically previous one's,
      and the earliest day counts from zero. */
  lemma DailyProgressWatched(h: seq<Entry>)
    ensures Chained(DailyProgress(h))
  {
    if |h| > 0 {
      NewestFirst(SortByDate(h));
    }
  }

  /** Summed over a chained series, the daily counts telescope to the
      newest total. */
  lemma {:induction false} ChainedSum(ds: seq<DailyDelta>)
    requires |ds| > 0 && Chained(ds)
    ensures SumWatched(ds) == ds[0].total
  {
    if |ds| > 1 {
      assert Chained(ds[1..]);
      ChainedSum(ds[1..]);
    }
  }

  /** The episodes watched, summed over all days, equal the newest entry's
      episode: the entry with the latest date in the history. */
  lemma WatchedTelescopes(h: seq<Entry>)
    requires |h| > 0
    ensures var r := DailyProgress(h);
      && SumWatched(r) == r[0].total
      && Entry(r[0].date, r[0].total) in h
      && forall e :: e in h ==> e.date <= r[0].date
  {
    var r := DailyProgress(h);
    DailyProgressWatched(h);
    DailyProgressShape(h);
    ChainedSum(r);
    var snaps := Snapshots(r);
    assert snaps[0] in multiset(snaps);
    forall e | e in h
      ensures e.date <= r[0].date
    {
      assert e in multiset(snaps);
      var k :| 0 <= k < |snaps| && snaps[k] == e;
      if k > 0 {
        assert r[0].date >= r[k].date;
      }
    }
  }

  /** The series has exactly the history's distinct dates. */
  lemma DailyProgressDates(h: seq<Entry>)
    ensures DeltaDates(DailyProgress(h)) == EntryDates(h)
  {
    DailyProgressShape(h);
    SnapshotDates(DailyProgress(h));
    SameDates(Snapshots(DailyProgress(h)), h);
  }

  /** A series and its `(date, total)` pairs have the same dates. */
  lemma SnapshotDates(r: seq<DailyDelta>)
    ensures DeltaDates(r) == EntryDates(Snapshots(r))
  {
    var snaps := Snapshots(r);
    forall x | x in DeltaDates(r)
      ensures x in EntryDates(snaps)
    {
      var d :| d in r && d.date == x;
      var k :| 0 <= k < |r| && r[k] == d;
      assert snaps[k] in snaps;
    }
    forall x | x in EntryDates(snaps)
      ensures x in DeltaDates(r)
    {
      var e :| e in snaps && e.date == x;
      var k :| 0 <= k < |snaps| && snaps[k] == e;
      assert r[k] in r;
    }
  }

  /** Sequences with the same entries, counted, have the same dates. */
  lemma SameDates(a: seq<Entry>, b: seq<Entry>)
    requires multiset(a) == multiset(b)
    ensures EntryDates(a) == EntryDates(b)
  {
    forall e | e in a ensures e in b {
      assert e in multiset(a);
    }
    forall e | e in b ensures e in a {
      assert e in multiset(b);
    }
  }

  /** Two days, five then nine episodes in, show newest first as +4 and +5. */
  lemma DailyProgressExample()
    ensures DailyProgress([Entry(20089, 5), Entry(20090, 9)])
      == [DailyDelta(20090, 4, 9), DailyDelta(20089, 5, 5)]
  {
    var h := [Entry(20089, 5), Entry(20090, 9)];
    assert h[..1] == [Entry(20089, 5)];
    assert SortByDate(h) == h;
  }

  /** Confirming episode 8 on a day that already has an entry replaces it. */
  lemma UpsertExample()
    ensures Upsert([Entry(20089, 5)], 20089, 8) == [Entry(20089, 8)]
  {
  }
}
