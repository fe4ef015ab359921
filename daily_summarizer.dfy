/** The daily summary of the time-sheet service: group the entries by the day
    key of their start instant, accumulating each day's hours and entry count
    in a dictionary, then emit one record per key in the order the keys were
    first inserted.

    The day key (`toDateString()` of the start, which depends on the process's
    time zone) is the parameter `dayOf`; the presentation rounding to two
    decimals is the parameter `roundHours`. */
module DailySummarizer {
  import opened TimeSheetModel

  /** The accumulator kept per day in the dictionary. */
  datatype DailyTally = DailyTally(hoursWorked: real, numEntries: nat, flags: string)

  /** One emitted record: the day key spread with that day's tally. */
  datatype Summary = Summary(date: string, hoursWorked: real, numEntries: nat, flags: string)

  // ---------------------------------------------------------------------
  // The specification: what one day's record holds, and which days appear.
  // ---------------------------------------------------------------------

  /** Some entry starts on day `d`. */
  predicate OccursOn(data: seq<Entry>, dayOf: int -> string, d: string)
  {
    exists i :: 0 <= i < |data| && dayOf(data[i].startDateTime) == d
  }

  /** The entries whose start falls on day `d`, in input order. */
  function EntriesOn(data: seq<Entry>, dayOf: int -> string, d: string): (es: seq<Entry>)
    ensures |es| <= |data|
  {
    if |data| == 0 then []
    else
      var init, e := data[..|data| - 1], data[|data| - 1];
      EntriesOn(init, dayOf, d) + (if dayOf(e.startDateTime) == d then [e] else [])
  }

  /** The sum of the entries' durations in hours, zero and negative
      durations included. */
  function SumHours(es: seq<Entry>): real
  {
    if |es| == 0 then 0.0 else SumHours(es[..|es| - 1]) + Hours(es[|es| - 1])
  }

  /** Hours worked on day `d`, before rounding. */
  function DayHours(data: seq<Entry>, dayOf: int -> string, d: string): real
  {
    SumHours(EntriesOn(data, dayOf, d))
  }

  /** Number of entries on day `d`. */
  function DayCount(data: seq<Entry>, dayOf: int -> string, d: string): nat
  {
    |EntriesOn(data, dayOf, d)|
  }

  /** The distinct day keys, each once, in the order of the entry that first
      has it; exactly the days some entry starts on. */
  function DayKeys(data: seq<Entry>, dayOf: int -> string): (ks: seq<string>)
    ensures forall m, m' :: 0 <= m < m' < |ks| ==> ks[m] != ks[m']
  {
    if |data| == 0 then []
    else
      var ks := DayKeys(data[..|data| - 1], dayOf);
      var d := dayOf(data[|data| - 1].startDateTime);
      if d in ks then ks else ks + [d]
  }

  /** The record emitted for day `d`. `flags` stays empty: nothing sets it. */
  function SummaryOf(data: seq<Entry>, dayOf: int -> string, roundHours: real -> real, d: string): Summary
  {
    Summary(d, roundHours(DayHours(data, dayOf, d)), DayCount(data, dayOf, d), "")
  }

  /** The records for the keys `ks`, in the order of `ks`. */
  function SummariesFor(data: seq<Entry>, dayOf: int -> string, roundHours: real -> real, ks: seq<string>): seq<Summary>
  {
    seq(|ks|, m requires 0 <= m < |ks| => SummaryOf(data, dayOf, roundHours, ks[m]))
  }

  /** What `summarizeDailyHours` returns. */
  function Summaries(data: seq<Entry>, dayOf: int -> string, roundHours: real -> real): (r: seq<Summary>)
    ensures |r| == |DayKeys(data, dayOf)|
  {
    SummariesFor(data, dayOf, roundHours, DayKeys(data, dayOf))
  }

  /** The position of the first entry that starts on day `d`, or `|data|`
      if none does. */
  function FirstIndexOn(data: seq<Entry>, dayOf: int -> string, d: string): (r: nat)
    ensures r <= |data|
    ensures forall i :: 0 <= i < r ==> dayOf(data[i].startDateTime) != d
    ensures r < |data| ==> dayOf(data[r].startDateTime) == d
  {
    if |data| == 0 then 0
    else if dayOf(data[0].startDateTime) == d then 0
    else 1 + FirstIndexOn(data[1..], dayOf, d)
  }

  /** The sum of `numEntries` over the records. */
  function TotalEntries(ss: seq<Summary>): nat
  {
    if |ss| == 0 then 0 else TotalEntries(ss[..|ss| - 1]) + ss[|ss| - 1].numEntries
  }

  /** The sum of `hoursWorked` over the records. */
  function TotalHoursWorked(ss: seq<Summary>): real
  {
    if |ss| == 0 then 0.0 else TotalHoursWorked(ss[..|ss| - 1]) + ss[|ss| - 1].hoursWorked
  }

  // ---------------------------------------------------------------------
  // Steps: what one more entry does to the specification.
  // ---------------------------------------------------------------------

  /** One more entry: the keys of `data[..i + 1]` are those of `data[..i]`,
      with the day of `data[i]` appended if it is new. */
  lemma KeysStep(data: seq<Entry>, dayOf: int -> string, i: nat)
    requires i < |data|
    ensures var d := dayOf(data[i].startDateTime);
      DayKeys(data[..i + 1], dayOf) ==
        if d in DayKeys(data[..i], dayOf) then DayKeys(data[..i], dayOf) else DayKeys(data[..i], dayOf) + [d]
  {
    assert data[..i + 1][..i] == data[..i];
  }

  /** One more entry: day `d` gains one entry and its hours exactly when
      `data[i]` starts on `d`, and is unchanged otherwise. */
  lemma TallyStep(data: seq<Entry>, dayOf: int -> string, i: nat, d: string)
    requires i < |data|
    ensures DayCount(data[..i + 1], dayOf, d) ==
      DayCount(data[..i], dayOf, d) + if dayOf(data[i].startDateTime) == d then 1 else 0
    ensures DayHours(data[..i + 1], dayOf, d) ==
      DayHours(data[..i], dayOf, d) + if dayOf(data[i].startDateTime) == d then Hours(data[i]) else 0.0
  {
    var pre, next := data[..i], data[..i + 1];
    assert next[..|next| - 1] == pre && next[|next| - 1] == data[i];
    var es := EntriesOn(pre, dayOf, d);
    if dayOf(data[i].startDateTime) == d {
      assert EntriesOn(next, dayOf, d) == es + [data[i]];
      SumHoursAppend(es, data[i]);
    } else {
      assert EntriesOn(next, dayOf, d) == es;
    }
  }

  lemma SumHoursAppend(es: seq<Entry>, e: Entry)
    ensures SumHours(es + [e]) == SumHours(es) + Hours(e)
  {
    assert (es + [e])[..|es|] == es;
  }

  // ---------------------------------------------------------------------
  // The operation.
  // ---------------------------------------------------------------------

  /** The dictionary the loop has built after the entries `data`: the
      previous dictionary with a zero tally inserted for a new day, then that
      day's tally bumped by the last entry. */
  ghost function Tallies(data: seq<Entry>, dayOf: int -> string): map<string, DailyTally>
  {
    if |data| == 0 then map[]
    else Bump(Tallies(data[..|data| - 1], dayOf), dayOf(data[|data| - 1].startDateTime), Hours(data[|data| - 1]))
  }

  /** The dictionary after one entry of `h` hours on `date`. */
  ghost function Bump(m: map<string, DailyTally>, date: string, h: real): map<string, DailyTally>
  {
    var m0 := if date in m then m else m[date := DailyTally(0.0, 0, "")];
    m0[date := m0[date].(hoursWorked := m0[date].hoursWorked + h, numEntries := m0[date].numEntries + 1)]
  }

  /** One entry changes the dictionary only at its own day: that day becomes
      a key if it was not one, its count grows by one and its hours by the
      entry's hours, and every other day's tally stays as it was. */
  lemma BumpUpdatesOneDay(m: map<string, DailyTally>, date: string, h: real)
    ensures Bump(m, date, h).Keys == m.Keys + {date}
    ensures Bump(m, date, h) - {date} == m - {date}
    ensures date in m ==>
      Bump(m, date, h)[date] == DailyTally(m[date].hoursWorked + h, m[date].numEntries + 1, m[date].flags)
    ensures date !in m ==> Bump(m, date, h)[date] == DailyTally(0.0 + h, 0 + 1, "")
  {
  }

  /** A day is a key of the dictionary exactly when it is among the keys in
      insertion order. */
  lemma {:induction false} TalliesDomain(data: seq<Entry>, dayOf: int -> string, d: string)
    ensures d in Tallies(data, dayOf) <==> d in DayKeys(data, dayOf)
  {
    if |data| > 0 {
      var n := |data| - 1;
      TalliesDomain(data[..n], dayOf, d);
      KeysStep(data, dayOf, n);
      assert data[..n + 1] == data;
    }
  }

  /** A key's tally in the dictionary is that day's total hours and entry
      count, with empty flags. */
  lemma {:induction false} TalliesValue(data: seq<Entry>, dayOf: int -> string, d: string)
    requires d in Tallies(data, dayOf)
    ensures Tallies(data, dayOf)[d] == DailyTally(DayHours(data, dayOf, d), DayCount(data, dayOf, d), "")
  {
    var n := |data| - 1;
    var pre := data[..n];
    assert data[..n + 1] == data;
    TallyStep(data, dayOf, n, d);
    if d in Tallies(pre, dayOf) {
      TalliesValue(pre, dayOf, d);
    } else {
      TalliesDomain(pre, dayOf, d);
      NewDayHasOnlyTheLastEntry(data, dayOf);
    }
  }

  /** The dictionary holds, for exactly the days some entry starts on, that
      day's total hours and entry count, with empty flags. */
  lemma TalliesAreDayTotals(data: seq<Entry>, dayOf: int -> string)
    ensures forall d :: d in Tallies(data, dayOf) <==> d in DayKeys(data, dayOf)
    ensures forall d :: d in Tallies(data, dayOf) ==>
      Tallies(data, dayOf)[d] == DailyTally(DayHours(data, dayOf, d), DayCount(data, dayOf, d), "")
  {
    forall d
      ensures d in Tallies(data, dayOf) <==> d in DayKeys(data, dayOf)
      ensures d in Tallies(data, dayOf) ==>
        Tallies(data, dayOf)[d] == DailyTally(DayHours(data, dayOf, d), DayCount(data, dayOf, d), "")
    {
      TalliesDomain(data, dayOf, d);
      if d in Tallies(data, dayOf) {
        TalliesValue(data, dayOf, d);
      }
    }
  }

  /** Every key of the dictionary has at least one entry and empty flags. */
  lemma {:induction false} TalliesAreNonEmpty(data: seq<Entry>, dayOf: int -> string)
    ensures forall d :: d in Tallies(data, dayOf) ==>
      Tallies(data, dayOf)[d].numEntries >= 1 && Tallies(data, dayOf)[d].flags == ""
  {
    if |data| > 0 {
      var n := |data| - 1;
      var m, date := Tallies(data[..n], dayOf), dayOf(data[n].startDateTime);
      TalliesAreNonEmpty(data[..n], dayOf);
      BumpUpdatesOneDay(m, date, Hours(data[n]));
      forall d | d in Tallies(data, dayOf) && d != date
        ensures Tallies(data, dayOf)[d] == m[d]
      {
        assert (Tallies(data, dayOf) - {date})[d] == (m - {date})[d];
      }
    }
  }

  /** `summarizeDailyHours`: the `forEach` over the entries with lazy key
      insertion into the dictionary `summary` (whose key order `keys`
      records, as `Object.keys` reports it), then one record per key. */
  method SummarizeDailyHours(data: seq<Entry>, dayOf: int -> string, roundHours: real -> real)
    returns (result: seq<Summary>)
    ensures result == Summaries(data, dayOf, roundHours)
  {
    var summary: map<string, DailyTally> := map[];
    var keys: seq<string> := [];
    for i := 0 to |data|
      invariant keys == DayKeys(data[..i], dayOf)
      invariant summary == Tallies(data[..i], dayOf)
    {
      assert data[..i + 1][..i] == data[..i];
      KeysStep(data, dayOf, i);
      ghost var before := summary;
      var date := dayOf(data[i].startDateTime);
      TalliesDomain(data[..i], dayOf, date);
      var hoursWorked := Hours(data[i]);
      if date !in summary {
        summary := summary[date := DailyTally(0.0, 0, "")];
        keys := keys + [date];
      }
      var tally := summary[date];
      summary := summary[date := tally.(hoursWorked := tally.hoursWorked + hoursWorked,
                                        numEntries := tally.numEntries + 1)];
      assert summary == Bump(before, date, hoursWorked);
    }
    assert data[..|data|] == data;
    TalliesAreDayTotals(data, dayOf);
    result := seq(|keys|, m requires 0 <= m < |keys| =>
      Summary(keys[m], roundHours(summary[keys[m]].hoursWorked), summary[keys[m]].numEntries, summary[keys[m]].flags));
  }

  // ---------------------------------------------------------------------
  // Which days appear, and in what order.
  // ---------------------------------------------------------------------

  /** A day has entries exactly when some entry starts on it. */
  lemma {:induction false} EntriesOnEmptyIffAbsent(data: seq<Entry>, dayOf: int -> string, d: string)
    ensures EntriesOn(data, dayOf, d) == [] <==> !OccursOn(data, dayOf, d)
  {
    if |data| > 0 {
      var n := |data| - 1;
      var pre := data[..n];
      EntriesOnEmptyIffAbsent(pre, dayOf, d);
      if OccursOn(pre, dayOf, d) {
        var i :| 0 <= i < |pre| && dayOf(pre[i].startDateTime) == d;
        assert data[i] == pre[i];
      }
    }
  }

  /** The keys are exactly the days some entry starts on. */
  lemma {:induction false} DayKeysAreTheOccurringDays(data: seq<Entry>, dayOf: int -> string)
    ensures forall d :: d in DayKeys(data, dayOf) <==> OccursOn(data, dayOf, d)
  {
    if |data| > 0 {
      var n := |data| - 1;
      var pre := data[..n];
      DayKeysAreTheOccurringDays(pre, dayOf);
      KeysStep(data, dayOf, n);
      assert data[..n + 1] == data;
      forall d
        ensures d in DayKeys(data, dayOf) <==> OccursOn(data, dayOf, d)
      {
        if OccursOn(pre, dayOf, d) {
          var i :| 0 <= i < |pre| && dayOf(pre[i].startDateTime) == d;
          assert data[i] == pre[i];
        }
      }
    }
  }

  /** `r` is where day `d` first occurs (or `|data|`): the first index is
      the only position with that description. */
  lemma FirstIndexIs(data: seq<Entry>, dayOf: int -> string, d: string, r: nat)
    requires r <= |data|
    requires forall i :: 0 <= i < r ==> dayOf(data[i].startDateTime) != d
    requires r < |data| ==> dayOf(data[r].startDateTime) == d
    ensures FirstIndexOn(data, dayOf, d) == r
  {
  }

  /** The keys come in the order in which their days first occur in the
      input, and each of them does occur. */
  lemma {:induction false} DayKeysInFirstAppearanceOrder(data: seq<Entry>, dayOf: int -> string)
    ensures forall m :: 0 <= m < |DayKeys(data, dayOf)| ==> FirstIndexOn(data, dayOf, DayKeys(data, dayOf)[m]) < |data|
    ensures forall m, m' :: 0 <= m < m' < |DayKeys(data, dayOf)| ==>
      FirstIndexOn(data, dayOf, DayKeys(data, dayOf)[m]) < FirstIndexOn(data, dayOf, DayKeys(data, dayOf)[m'])
  {
    if |data| > 0 {
      var n := |data| - 1;
      var pre := data[..n];
      var ks0 := DayKeys(pre, dayOf);
      DayKeysInFirstAppearanceOrder(pre, dayOf);
      KeysStep(data, dayOf, n);
      assert data[..n + 1] == data;
      forall m | 0 <= m < |ks0|
        ensures FirstIndexOn(data, dayOf, ks0[m]) == FirstIndexOn(pre, dayOf, ks0[m])
      {
        var f := FirstIndexOn(pre, dayOf, ks0[m]);
        assert forall i :: 0 <= i < f ==> data[i] == pre[i];
        FirstIndexIs(data, dayOf, ks0[m], f);
      }
      var d := dayOf(data[n].startDateTime);
      if d !in ks0 {
        DayKeysAreTheOccurringDays(pre, dayOf);
        forall i | 0 <= i < n
          ensures dayOf(data[i].startDateTime) != d
        {
          assert data[i] == pre[i];
        }
        FirstIndexIs(data, dayOf, d, n);
      }
    }
  }

  /** `summarizeDailyHours` emits one record per day some entry starts on:
      no day twice, no day without entries, and no records for no
      entries. */
  lemma SummariesOnePerDay(data: seq<Entry>, dayOf: int -> string, roundHours: real -> real)
    ensures var r := Summaries(data, dayOf, roundHours);
      && (forall m, m' :: 0 <= m < m' < |r| ==> r[m].date != r[m'].date)
      && (forall d :: (exists m :: 0 <= m < |r| && r[m].date == d) <==> OccursOn(data, dayOf, d))
      && (forall m :: 0 <= m < |r| ==> r[m].numEntries >= 1)
      && (|data| == 0 ==> r == [])
  {
    var ks := DayKeys(data, dayOf);
    var r := Summaries(data, dayOf, roundHours);
    DayKeysAreTheOccurringDays(data, dayOf);
    forall d
      ensures (exists m :: 0 <= m < |r| && r[m].date == d) <==> OccursOn(data, dayOf, d)
    {
      if OccursOn(data, dayOf, d) {
        var m :| 0 <= m < |ks| && ks[m] == d;
        assert r[m].date == d;
      }
    }
    forall m | 0 <= m < |r|
      ensures r[m].numEntries >= 1
    {
      assert ks[m] in ks;
      EntriesOnEmptyIffAbsent(data, dayOf, ks[m]);
    }
  }

  /** The records come in the order in which their days first occur in the
      input (the insertion order of the dictionary's keys). */
  lemma SummariesInFirstAppearanceOrder(data: seq<Entry>, dayOf: int -> string, roundHours: real -> real)
    ensures var r := Summaries(data, dayOf, roundHours);
      forall m, m' :: 0 <= m < m' < |r| ==>
        FirstIndexOn(data, dayOf, r[m].date) < FirstIndexOn(data, dayOf, r[m'].date) < |data|
  {
    var r := Summaries(data, dayOf, roundHours);
    DayKeysInFirstAppearanceOrder(data, dayOf);
    forall m, m' | 0 <= m < m' < |r|
      ensures FirstIndexOn(data, dayOf, r[m].date) < FirstIndexOn(data, dayOf, r[m'].date) < |data|
    {
      assert r[m].date == DayKeys(data, dayOf)[m] && r[m'].date == DayKeys(data, dayOf)[m'];
    }
  }

  /** Each record counts exactly the input entries that start on its day,
      holds the rounded sum of their durations in hours (zero and negative
      ones included) and empty `flags`. */
  lemma SummaryRecordsItsDay(data: seq<Entry>, dayOf: int -> string, roundHours: real -> real, m: nat)
    requires m < |Summaries(data, dayOf, roundHours)|
    ensures var r := Summaries(data, dayOf, roundHours)[m];
      && (forall e :: e in EntriesOn(data, dayOf, r.date) <==> e in data && dayOf(e.startDateTime) == r.date)
      && r.numEntries == |EntriesOn(data, dayOf, r.date)|
      && r.hoursWorked == roundHours(SumHours(EntriesOn(data, dayOf, r.date)))
      && r.flags == ""
  {
    EntriesOnSelectsTheDay(data, dayOf, Summaries(data, dayOf, roundHours)[m].date);
  }

  /** A day's entries are exactly the input entries that start on it. */
  lemma {:induction false} EntriesOnSelectsTheDay(data: seq<Entry>, dayOf: int -> string, d: string)
    ensures forall e :: e in EntriesOn(data, dayOf, d) <==> e in data && dayOf(e.startDateTime) == d
  {
    if |data| > 0 {
      var pre := data[..|data| - 1];
      EntriesOnSelectsTheDay(pre, dayOf, d);
      assert data == pre + [data[|data| - 1]];
    }
  }

  // ---------------------------------------------------------------------
  // The order of the input does not matter, apart from the record order.
  // ---------------------------------------------------------------------

  lemma {:induction false} EntriesOnConcat(a: seq<Entry>, b: seq<Entry>, dayOf: int -> string, d: string)
    ensures EntriesOn(a + b, dayOf, d) == EntriesOn(a, dayOf, d) + EntriesOn(b, dayOf, d)
  {
    if |b| == 0 {
      assert a + b == a;
    } else {
      var b0 := b[..|b| - 1];
      EntriesOnConcat(a, b0, dayOf, d);
      assert (a + b)[..|a + b| - 1] == a + b0;
    }
  }

  lemma {:induction false} SumHoursConcat(x: seq<Entry>, y: seq<Entry>)
    ensures SumHours(x + y) == SumHours(x) + SumHours(y)
  {
    if |y| == 0 {
      assert x + y == x;
    } else {
      var y0 := y[..|y| - 1];
      SumHoursConcat(x, y0);
      assert (x + y)[..|x + y| - 1] == x + y0;
    }
  }

  /** Reordering the entries leaves every day's count and hours unchanged. */
  lemma {:induction false} DayTotalsIgnoreOrder(data: seq<Entry>, data': seq<Entry>, dayOf: int -> string, d: string)
    requires multiset(data) == multiset(data')
    ensures DayCount(data, dayOf, d) == DayCount(data', dayOf, d)
    ensures DayHours(data, dayOf, d) == DayHours(data', dayOf, d)
    decreases |data|
  {
    if |data| == 0 {
      assert |data'| == |multiset(data')| == 0;
    } else {
      var n := |data| - 1;
      assert data[n] in multiset(data');
      var k :| 0 <= k < |data'| && data'[k] == data[n];
      MultisetWithout(data, n);
      MultisetWithout(data', k);
      DayTotalsIgnoreOrder(data[..n] + data[n + 1..], data'[..k] + data'[k + 1..], dayOf, d);
      DayTotalsOfRemoval(data, n, dayOf, d);
      DayTotalsOfRemoval(data', k, dayOf, d);
    }
  }

  lemma MultisetWithout(s: seq<Entry>, k: nat)
    requires k < |s|
    ensures multiset(s[..k] + s[k + 1..]) == multiset(s) - multiset{s[k]}
  {
    assert s == s[..k] + [s[k]] + s[k + 1..];
  }

  /** Taking out the entry at position `k` takes away its own contribution
      to day `d` and nothing else. */
  lemma DayTotalsOfRemoval(s: seq<Entry>, k: nat, dayOf: int -> string, d: string)
    requires k < |s|
    ensures DayCount(s, dayOf, d) == DayCount(s[..k] + s[k + 1..], dayOf, d) + DayCount([s[k]], dayOf, d)
    ensures DayHours(s, dayOf, d) == DayHours(s[..k] + s[k + 1..], dayOf, d) + DayHours([s[k]], dayOf, d)
  {
    assert s == s[..k] + [s[k]] + s[k + 1..];
    DayTotalsOfInsert(s[..k], s[k], s[k + 1..], dayOf, d);
  }

  /** Inserting entry `e` between `a` and `b` adds its own contribution to
      day `d` and nothing else. */
  lemma DayTotalsOfInsert(a: seq<Entry>, e: Entry, b: seq<Entry>, dayOf: int -> string, d: string)
    ensures DayCount(a + [e] + b, dayOf, d) == DayCount(a + b, dayOf, d) + DayCount([e], dayOf, d)
    ensures DayHours(a + [e] + b, dayOf, d) == DayHours(a + b, dayOf, d) + DayHours([e], dayOf, d)
  {
    var ea, eb, ee := EntriesOn(a, dayOf, d), EntriesOn(b, dayOf, d), EntriesOn([e], dayOf, d);
    EntriesOnConcat(a + [e], b, dayOf, d);
    EntriesOnConcat(a, [e], dayOf, d);
    EntriesOnConcat(a, b, dayOf, d);
    SumHoursConcat(ea + ee, eb);
    SumHoursConcat(ea, ee);
    SumHoursConcat(ea, eb);
  }

  /** `summarizeDailyHours` of a reordering of the entries reports the same
      days, with the same counts and hours. */
  lemma DaysIgnoreInputOrder(data: seq<Entry>, data': seq<Entry>, dayOf: int -> string)
    requires multiset(data) == multiset(data')
    ensures forall d :: OccursOn(data, dayOf, d) <==> OccursOn(data', dayOf, d)
    ensures forall d :: DayCount(data, dayOf, d) == DayCount(data', dayOf, d)
    ensures forall d :: DayHours(data, dayOf, d) == DayHours(data', dayOf, d)
  {
    forall d
      ensures OccursOn(data, dayOf, d) <==> OccursOn(data', dayOf, d)
      ensures DayCount(data, dayOf, d) == DayCount(data', dayOf, d)
      ensures DayHours(data, dayOf, d) == DayHours(data', dayOf, d)
    {
      DayTotalsIgnoreOrder(data, data', dayOf, d);
      EntriesOnEmptyIffAbsent(data, dayOf, d);
      EntriesOnEmptyIffAbsent(data', dayOf, d);
    }
  }

  /** A record is among the summaries exactly when its date occurs in the
      input and it is that date's record. */
  lemma RecordsAreDayRecords(data: seq<Entry>, dayOf: int -> string, roundHours: real -> real, r: Summary)
    ensures r in Summaries(data, dayOf, roundHours) <==>
      OccursOn(data, dayOf, r.date) && r == SummaryOf(data, dayOf, roundHours, r.date)
  {
    var ks := DayKeys(data, dayOf);
    DayKeysAreTheOccurringDays(data, dayOf);
    if OccursOn(data, dayOf, r.date) && r == SummaryOf(data, dayOf, roundHours, r.date) {
      var m :| 0 <= m < |ks| && ks[m] == r.date;
      assert Summaries(data, dayOf, roundHours)[m] == r;
    }
  }

  /** Reordering the entries yields the same records, possibly in another
      order. */
  lemma SummariesIgnoreInputOrder(data: seq<Entry>, data': seq<Entry>, dayOf: int -> string, roundHours: real -> real)
    requires multiset(data) == multiset(data')
    ensures forall r :: r in Summaries(data, dayOf, roundHours) <==> r in Summaries(data', dayOf, roundHours)
  {
    DaysIgnoreInputOrder(data, data', dayOf);
    forall r
      ensures r in Summaries(data, dayOf, roundHours) <==> r in Summaries(data', dayOf, roundHours)
    {
      RecordsAreDayRecords(data, dayOf, roundHours, r);
      RecordsAreDayRecords(data', dayOf, roundHours, r);
    }
  }

  // ---------------------------------------------------------------------
  // The totals across days.
  // ---------------------------------------------------------------------

  lemma TotalsAppend(ss: seq<Summary>, x: Summary)
    ensures TotalEntries(ss + [x]) == TotalEntries(ss) + x.numEntries
    ensures TotalHoursWorked(ss + [x]) == TotalHoursWorked(ss) + x.hoursWorked
  {
    assert (ss + [x])[..|ss|] == ss;
  }

  /** One more key adds that day's record to the totals. */
  lemma TotalsAppendKey(data: seq<Entry>, dayOf: int -> string, roundHours: real -> real, ks: seq<string>, k: string)
    ensures TotalEntries(SummariesFor(data, dayOf, roundHours, ks + [k])) ==
      TotalEntries(SummariesFor(data, dayOf, roundHours, ks)) + DayCount(data, dayOf, k)
    ensures TotalHoursWorked(SummariesFor(data, dayOf, roundHours, ks + [k])) ==
      TotalHoursWorked(SummariesFor(data, dayOf, roundHours, ks)) + roundHours(DayHours(data, dayOf, k))
  {
    assert SummariesFor(data, dayOf, roundHours, ks + [k]) ==
      SummariesFor(data, dayOf, roundHours, ks) + [SummaryOf(data, dayOf, roundHours, k)];
    TotalsAppend(SummariesFor(data, dayOf, roundHours, ks), SummaryOf(data, dayOf, roundHours, k));
  }

  /** Adding the last entry adds one to the total count over distinct keys
      `ks` when its day is among them, and its hours too (before rounding). */
  lemma {:induction false} TotalsShift(data: seq<Entry>, dayOf: int -> string, roundHours: real -> real, ks: seq<string>)
    requires |data| > 0
    requires forall m, m' :: 0 <= m < m' < |ks| ==> ks[m] != ks[m']
    ensures var pre, e := data[..|data| - 1], data[|data| - 1];
      TotalEntries(SummariesFor(data, dayOf, roundHours, ks)) ==
        TotalEntries(SummariesFor(pre, dayOf, roundHours, ks)) + if dayOf(e.startDateTime) in ks then 1 else 0
    ensures var pre, e := data[..|data| - 1], data[|data| - 1];
      (forall x :: roundHours(x) == x) ==>
      TotalHoursWorked(SummariesFor(data, dayOf, roundHours, ks)) ==
        TotalHoursWorked(SummariesFor(pre, dayOf, roundHours, ks)) + if dayOf(e.startDateTime) in ks then Hours(e) else 0.0
  {
    if |ks| > 0 {
      var n := |data| - 1;
      var pre := data[..n];
      var ks0, k := ks[..|ks| - 1], ks[|ks| - 1];
      assert ks == ks0 + [k];
      TotalsShift(data, dayOf, roundHours, ks0);
      TotalsAppendKey(data, dayOf, roundHours, ks0, k);
      TotalsAppendKey(pre, dayOf, roundHours, ks0, k);
      assert data[..n + 1] == data;
      TallyStep(data, dayOf, n, k);
    }
  }

  /** The last entry of `data` starts on a day no earlier entry starts on:
      that day's record counts just that entry and its hours. */
  lemma NewDayHasOnlyTheLastEntry(data: seq<Entry>, dayOf: int -> string)
    requires |data| > 0
    requires dayOf(data[|data| - 1].startDateTime) !in DayKeys(data[..|data| - 1], dayOf)
    ensures var e := data[|data| - 1];
      DayCount(data, dayOf, dayOf(e.startDateTime)) == 1 && DayHours(data, dayOf, dayOf(e.startDateTime)) == Hours(e)
  {
    var n := |data| - 1;
    var pre, d := data[..n], dayOf(data[n].startDateTime);
    DayKeysAreTheOccurringDays(pre, dayOf);
    EntriesOnEmptyIffAbsent(pre, dayOf, d);
    assert data[..n + 1] == data;
    TallyStep(data, dayOf, n, d);
  }

  /** Every entry is counted in exactly one record: the `numEntries` of the
      records add up to the number of entries. */
  lemma {:induction false} EntryCountsSumToLength(data: seq<Entry>, dayOf: int -> string, roundHours: real -> real)
    ensures TotalEntries(Summaries(data, dayOf, roundHours)) == |data|
  {
    if |data| > 0 {
      var n := |data| - 1;
      var pre, e := data[..n], data[n];
      var ks := DayKeys(pre, dayOf);
      var d := dayOf(e.startDateTime);
      EntryCountsSumToLength(pre, dayOf, roundHours);
      assert DayKeys(data, dayOf) == if d in ks then ks else ks + [d] by {
        KeysStep(data, dayOf, n);
        assert data[..n + 1] == data;
      }
      assert TotalEntries(SummariesFor(data, dayOf, roundHours, ks)) == n + if d in ks then 1 else 0 by {
        TotalsShift(data, dayOf, roundHours, ks);
      }
      if d !in ks {
        NewDayHasOnlyTheLastEntry(data, dayOf);
        TotalsAppendKey(data, dayOf, roundHours, ks, d);
      }
    }
  }

  /** Without rounding, the hours of the records add up to the hours of all
      entries: every entry's duration, zero or negative included, lands in
      exactly one day. */
  lemma {:induction false} HoursSumToTotal(data: seq<Entry>, dayOf: int -> string, roundHours: real -> real)
    requires forall x :: roundHours(x) == x
    ensures TotalHoursWorked(Summaries(data, dayOf, roundHours)) == SumHours(data)
  {
    if |data| > 0 {
      var n := |data| - 1;
      var pre, e := data[..n], data[n];
      var ks := DayKeys(pre, dayOf);
      var d := dayOf(e.startDateTime);
      HoursSumToTotal(pre, dayOf, roundHours);
      assert DayKeys(data, dayOf) == if d in ks then ks else ks + [d] by {
        KeysStep(data, dayOf, n);
        assert data[..n + 1] == data;
      }
      assert TotalHoursWorked(SummariesFor(data, dayOf, roundHours, ks)) ==
        SumHours(pre) + if d in ks then Hours(e) else 0.0 by {
        TotalsShift(data, dayOf, roundHours, ks);
      }
      if d !in ks {
        NewDayHasOnlyTheLastEntry(data, dayOf);
        TotalsAppendKey(data, dayOf, roundHours, ks, d);
      }
    }
  }

  /** Two entries on one day, 09:00-12:00 and 13:00-22:00: one record with
      12 hours and 2 entries, and `flags` empty although the second entry
      lasts 9 hours, since nothing in the operation sets a flag. */
  lemma NoOvertimeFlag(dayOf: int -> string)
    requires dayOf(9 * 3600000) == dayOf(13 * 3600000)
    ensures Summaries([Entry(9 * 3600000, 12 * 3600000, None), Entry(13 * 3600000, 22 * 3600000, None)], dayOf, x => x)
      == [Summary(dayOf(9 * 3600000), 12.0, 2, "")]
  {
    var a, b := Entry(9 * 3600000, 12 * 3600000, None), Entry(13 * 3600000, 22 * 3600000, None);
    var d := dayOf(9 * 3600000);
    assert [a, b][..1] == [a] && [a][..0] == [];
    assert DayKeys([a], dayOf) == [d];
    assert DayKeys([a, b], dayOf) == [d];
    assert EntriesOn([a], dayOf, d) == [a];
    assert EntriesOn([a, b], dayOf, d) == [a, b];
    assert SumHours([a]) == 3.0;
    assert SumHours([a, b]) == 12.0;
  }
}
