/** The overlap check of the time-sheet service: sort the caller's entries in
    place by start instant, then, for each sorted position but the last, look
    for the first later entry that starts strictly before this one ends and
    record that one pair. */
module OverlapValidator {
  import opened TimeSheetModel

  datatype OverlapPair = OverlapPair(first: Entry, second: Entry)

  datatype OverlapReport = OverlapReport(isValid: bool, overlaps: seq<OverlapPair>)

  /** Ascending by start instant, the order the sort comparator asks for.
      Nothing is said about the order of entries with equal starts. */
  predicate SortedByStart(s: seq<Entry>)
  {
    forall k, l :: 0 <= k < l < |s| ==> s[k].startDateTime <= s[l].startDateTime
  }

  /** The inner loop for outer position `i`, resumed at `j`: the first
      position at or after `j` whose entry starts strictly before `s[i]`
      ends, if there is one. */
  function FirstOverlap(s: seq<Entry>, i: nat, j: nat): (r: Option<nat>)
    requires i < |s|
    ensures r.Some? ==> j <= r.value < |s| && s[r.value].startDateTime < s[i].endDateTime
    ensures r.Some? ==> forall k :: j <= k < r.value ==> s[i].endDateTime <= s[k].startDateTime
    ensures r.None? ==> forall k :: j <= k < |s| ==> s[i].endDateTime <= s[k].startDateTime
    decreases |s| - j
  {
    if j >= |s| then None
    else if s[i].endDateTime > s[j].startDateTime then Some(j)
    else FirstOverlap(s, i, j + 1)
  }

  /** What the outer iteration at `i` pushes: nothing, or `s[i]` paired with
      its first later overlap. */
  function RecordedAt(s: seq<Entry>, i: nat): (r: seq<OverlapPair>)
    requires i < |s|
    ensures |r| <= 1
    ensures |r| == 1 <==> FirstOverlap(s, i, i + 1).Some?
    ensures |r| == 1 ==> r[0].first == s[i] && r[0].second.startDateTime < s[i].endDateTime
  {
    match FirstOverlap(s, i, i + 1)
    case None => []
    case Some(j) => [OverlapPair(s[i], s[j])]
  }

  /** How many times the outer loop runs: while `i < length - 1`. */
  function OuterIterations(s: seq<Entry>): (r: nat)
    ensures r <= |s| <= r + 1
    ensures r == 0 <==> |s| < 2
  {
    if |s| == 0 then 0 else |s| - 1
  }

  /** The pairs pushed by the outer iterations `0 .. k-1`, in push order. */
  function OverlapsBefore(s: seq<Entry>, k: nat): (r: seq<OverlapPair>)
    requires k <= |s|
    ensures |r| <= k
  {
    if k == 0 then [] else OverlapsBefore(s, k - 1) + RecordedAt(s, k - 1)
  }

  /** The `overlaps` list the scan builds over the (already sorted) entries. */
  function Overlaps(s: seq<Entry>): (r: seq<OverlapPair>)
    ensures |r| <= OuterIterations(s)
    ensures |s| < 2 ==> r == []
  {
    OverlapsBefore(s, OuterIterations(s))
  }

  /** The outer positions `< k` at which a pair is pushed, in push order. */
  function RecordedPositions(s: seq<Entry>, k: nat): (ps: seq<nat>)
    requires k <= |s|
    ensures |ps| <= k
    ensures forall m :: 0 <= m < |ps| ==> ps[m] < k
    ensures forall m, m' :: 0 <= m < m' < |ps| ==> ps[m] < ps[m']
    ensures forall i :: 0 <= i < k ==> (i in ps <==> FirstOverlap(s, i, i + 1).Some?)
  {
    if k == 0 then []
    else RecordedPositions(s, k - 1) + (if FirstOverlap(s, k - 1, k).Some? then [k - 1] else [])
  }

  /** `pair` is what the outer iteration at position `p` pushes. */
  predicate PushedAt(s: seq<Entry>, p: int, pair: OverlapPair)
  {
    0 <= p < |s| && RecordedAt(s, p) == [pair]
  }

  /** The positions at which the whole scan pushes a pair. */
  function ReportedPositions(s: seq<Entry>): seq<nat>
  {
    RecordedPositions(s, OuterIterations(s))
  }

  /** The pushed pairs, one per recorded position: the `m`-th pair is what
      the outer iteration at the `m`-th recorded position pushes. */
  lemma {:induction false} OverlapsBeforeAtPositions(s: seq<Entry>, k: nat)
    requires k <= |s|
    ensures |OverlapsBefore(s, k)| == |RecordedPositions(s, k)|
    ensures forall m :: 0 <= m < |OverlapsBefore(s, k)| ==>
      PushedAt(s, RecordedPositions(s, k)[m], OverlapsBefore(s, k)[m])
  {
    if k > 0 {
      OverlapsBeforeAtPositions(s, k - 1);
      var prev, ps := OverlapsBefore(s, k - 1), RecordedPositions(s, k - 1);
      var os, qs := OverlapsBefore(s, k), RecordedPositions(s, k);
      assert os == prev + RecordedAt(s, k - 1);
      assert qs == ps + (if FirstOverlap(s, k - 1, k).Some? then [k - 1] else []);
      forall m | 0 <= m < |os|
        ensures PushedAt(s, qs[m], os[m])
      {
        if m < |prev| {
          assert os[m] == prev[m] && qs[m] == ps[m];
        } else {
          assert qs[m] == k - 1 && os[m] == RecordedAt(s, k - 1)[0];
        }
      }
    }
  }

  // ---------------------------------------------------------------------
  // What the scan reports, for any order of the entries.
  // ---------------------------------------------------------------------

  /** `s[j]` is the first entry after position `i` that starts strictly
      before `s[i]` ends. */
  predicate IsFirstLaterOverlap(s: seq<Entry>, i: int, j: int)
  {
    && 0 <= i < j < |s|
    && s[j].startDateTime < s[i].endDateTime
    && forall k :: i < k < j ==> s[i].endDateTime <= s[k].startDateTime
  }

  /** At most one pair per outer position, pushed in increasing order of that
      position; each pair is `s[i]` with the FIRST later `s[j]` that starts
      strictly before `s[i]` ends. In particular fewer than two entries give
      no pair, and entries that only touch are never paired. */
  lemma ReportedPairs(s: seq<Entry>)
    ensures |Overlaps(s)| == |ReportedPositions(s)| <= OuterIterations(s)
    ensures forall m, m' :: 0 <= m < m' < |ReportedPositions(s)| ==> ReportedPositions(s)[m] < ReportedPositions(s)[m']
    ensures forall m :: 0 <= m < |Overlaps(s)| ==> exists j ::
      IsFirstLaterOverlap(s, ReportedPositions(s)[m], j) && Overlaps(s)[m] == OverlapPair(s[ReportedPositions(s)[m]], s[j])
  {
    OverlapsBeforeAtPositions(s, OuterIterations(s));
    forall m | 0 <= m < |Overlaps(s)|
      ensures exists j ::
        IsFirstLaterOverlap(s, ReportedPositions(s)[m], j) && Overlaps(s)[m] == OverlapPair(s[ReportedPositions(s)[m]], s[j])
    {
      var p := ReportedPositions(s)[m];
      assert PushedAt(s, p, Overlaps(s)[m]);
      var j := FirstOverlap(s, p, p + 1).value;
      assert IsFirstLaterOverlap(s, p, j) && Overlaps(s)[m] == OverlapPair(s[p], s[j]);
    }
  }

  /** Every reported pair overlaps strictly: the second entry starts before
      the first one ends, so a pair that only touches (end equal to start)
      is never reported. */
  lemma ReportedPairsOverlapStrictly(s: seq<Entry>)
    ensures forall p :: p in Overlaps(s) ==> p.second.startDateTime < p.first.endDateTime
  {
    ReportedPairs(s);
  }

  /** The report is empty exactly when no entry starts strictly before an
      earlier-placed entry ends: the scan runs through all later entries of
      a position before giving up on it. */
  lemma ValidIffNoLaterStartBeforeEnd(s: seq<Entry>)
    ensures Overlaps(s) == [] <==>
      forall i, j :: 0 <= i < j < |s| ==> s[i].endDateTime <= s[j].startDateTime
  {
    var n := OuterIterations(s);
    var ps := RecordedPositions(s, n);
    OverlapsBeforeAtPositions(s, n);
    if Overlaps(s) == [] {
      forall i, j | 0 <= i < j < |s|
        ensures s[i].endDateTime <= s[j].startDateTime
      {
        assert i < n;
        assert i !in ps;
        assert FirstOverlap(s, i, i + 1).None?;
      }
    } else {
      var i := ps[0];
      assert PushedAt(s, i, Overlaps(s)[0]);
      var j := FirstOverlap(s, i, i + 1).value;
      assert i < j < |s| && s[j].startDateTime < s[i].endDateTime;
    }
  }

  // ---------------------------------------------------------------------
  // What the scan reports once the entries are ascending by start.
  // ---------------------------------------------------------------------

  /** With starts ascending, the inner loop can only stop at the very next
      position: if `s[i+1]` does not start before `s[i]` ends, no later
      entry does either. */
  lemma SortedFirstOverlapIsNext(s: seq<Entry>, i: nat)
    requires SortedByStart(s)
    requires i + 1 < |s|
    ensures FirstOverlap(s, i, i + 1) ==
      if s[i + 1].startDateTime < s[i].endDateTime then Some(i + 1) else None
  {
  }

  /** On sorted entries a pushed pair is the entry with its successor. */
  lemma SortedPushIsAdjacent(s: seq<Entry>, p: int, pair: OverlapPair)
    requires SortedByStart(s)
    requires PushedAt(s, p, pair)
    ensures p + 1 < |s|
    ensures pair == OverlapPair(s[p], s[p + 1])
    ensures s[p].startDateTime <= s[p + 1].startDateTime < s[p].endDateTime
  {
    if p + 1 < |s| {
      SortedFirstOverlapIsNext(s, p);
    }
  }

  /** On sorted entries a pair is pushed for position `i` exactly when
      `s[i+1]` starts before `s[i]` ends. */
  lemma SortedPositionsAreOverlapsWithNext(s: seq<Entry>)
    requires SortedByStart(s)
    ensures forall i :: 0 <= i < |s| - 1 ==>
      (i in ReportedPositions(s) <==> s[i + 1].startDateTime < s[i].endDateTime)
  {
    forall i | 0 <= i < |s| - 1
      ensures FirstOverlap(s, i, i + 1) ==
        if s[i + 1].startDateTime < s[i].endDateTime then Some(i + 1) else None
    {
      SortedFirstOverlapIsNext(s, i);
    }
  }

  /** On sorted entries every reported pair is an adjacent pair
      `(s[i], s[i+1])` with `s[i].start <= s[i+1].start < s[i].end`, and a
      pair is reported for position `i` exactly when `s[i+1]` starts before
      `s[i]` ends; pairs come in increasing order of `i`. */
  lemma SortedOverlapsAreAdjacent(s: seq<Entry>)
    requires SortedByStart(s)
    ensures |Overlaps(s)| == |ReportedPositions(s)|
    ensures forall m, m' :: 0 <= m < m' < |ReportedPositions(s)| ==> ReportedPositions(s)[m] < ReportedPositions(s)[m']
    ensures forall m :: 0 <= m < |Overlaps(s)| ==>
      var p := ReportedPositions(s)[m];
      && p + 1 < |s|
      && Overlaps(s)[m] == OverlapPair(s[p], s[p + 1])
      && s[p].startDateTime <= s[p + 1].startDateTime < s[p].endDateTime
    ensures forall i :: 0 <= i < |s| - 1 ==>
      (i in ReportedPositions(s) <==> s[i + 1].startDateTime < s[i].endDateTime)
  {
    OverlapsBeforeAtPositions(s, OuterIterations(s));
    SortedPositionsAreOverlapsWithNext(s);
    forall m | 0 <= m < |Overlaps(s)|
      ensures var p := ReportedPositions(s)[m];
        p + 1 < |s| && Overlaps(s)[m] == OverlapPair(s[p], s[p + 1]) &&
        s[p].startDateTime <= s[p + 1].startDateTime < s[p].endDateTime
    {
      SortedPushIsAdjacent(s, ReportedPositions(s)[m], Overlaps(s)[m]);
    }
  }

  /** The per-position policy on a concrete input: a long entry that
      overlaps both later entries is reported once, with the next entry
      only; the third entry, which it also overlaps, appears in no pair. */
  lemma OnlyFirstLaterOverlapIsReported()
    ensures var a, b, c := Entry(0, 10, None), Entry(2, 3, None), Entry(5, 6, None);
      && SortedByStart([a, b, c])
      && c.startDateTime < a.endDateTime
      && Overlaps([a, b, c]) == [OverlapPair(a, b)]
  {
    var a, b, c := Entry(0, 10, None), Entry(2, 3, None), Entry(5, 6, None);
    var s := [a, b, c];
    assert FirstOverlap(s, 0, 1) == Some(1);
    assert FirstOverlap(s, 1, 2) == None;
    assert RecordedAt(s, 0) == [OverlapPair(a, b)];
    assert RecordedAt(s, 1) == [];
    assert OverlapsBefore(s, 1) == [OverlapPair(a, b)];
  }

  // ---------------------------------------------------------------------
  // The operation: an in-place sort followed by the nested scan.
  // ---------------------------------------------------------------------

  /** `data.sort(...)` by ascending start instant. The engine's sort is not
      specified beyond its comparator, so the contract states only what any
      such sort guarantees: the array ends up ascending by start and holds
      the same entries, each unaltered. */
  method SortByStart(a: array<Entry>)
    modifies a
    ensures SortedByStart(a[..])
    ensures multiset(a[..]) == old(multiset(a[..]))
  {
    var i := 0;
    while i < a.Length
      invariant 0 <= i <= a.Length
      invariant SortedByStart(a[..i])
      invariant multiset(a[..]) == old(multiset(a[..]))
    {
      var j := i;
      while 0 < j && a[j].startDateTime < a[j - 1].startDateTime
        invariant 0 <= j <= i
        invariant SortedExceptAt(a[..i + 1], j)
        invariant multiset(a[..]) == old(multiset(a[..]))
      {
        SwapDown(a, i, j);
        j := j - 1;
      }
      i := i + 1;
    }
  }

  /** `s` is ascending by start once position `j` is set aside, and the entry
      at `j` starts no later than any entry after it: the state of one
      insertion step while the new entry moves towards the front. */
  ghost predicate SortedExceptAt(s: seq<Entry>, j: int)
  {
    && 0 <= j < |s|
    && (forall k, l :: 0 <= k < l < |s| && k != j && l != j ==> s[k].startDateTime <= s[l].startDateTime)
    && (forall l :: j < l < |s| ==> s[j].startDateTime <= s[l].startDateTime)
  }

  /** One step of the insertion: swaps `a[j - 1]` and `a[j]` when `a[j]`
      starts earlier, keeping the prefix `a[..i + 1]` sorted apart from the
      moving entry. */
  method SwapDown(a: array<Entry>, i: int, j: int)
    requires 0 < j <= i < a.Length
    requires SortedExceptAt(a[..i + 1], j)
    requires a[j].startDateTime < a[j - 1].startDateTime
    modifies a
    ensures a[..] == old(a[..])[j - 1 := old(a[j])][j := old(a[j - 1])]
    ensures SortedExceptAt(a[..i + 1], j - 1)
    ensures multiset(a[..]) == old(multiset(a[..]))
  {
    a[j - 1], a[j] := a[j], a[j - 1];
  }

  /** The inner loop for outer position `i`: scans `j` from `i + 1` and stops
      at the first entry that starts strictly before `a[i]` ends, which is
      where the source's `break` leaves the inner loop. */
  method FindFirstOverlap(a: array<Entry>, i: nat) returns (r: Option<nat>)
    requires i < a.Length
    ensures r == FirstOverlap(a[..], i, i + 1)
  {
    var j := i + 1;
    while j < a.Length
      invariant i + 1 <= j <= a.Length
      invariant FirstOverlap(a[..], i, j) == FirstOverlap(a[..], i, i + 1)
    {
      if a[i].endDateTime > a[j].startDateTime {
        return Some(j);
      }
      j := j + 1;
    }
    return None;
  }

  /** The outer index loop over the sorted array: for each `i` but the last,
      the inner loop's first hit, if any, is pushed paired with `a[i]` and
      clears `isValid`; after a hit the outer loop carries on with `i + 1`. */
  method ScanOverlaps(a: array<Entry>) returns (report: OverlapReport)
    ensures report.overlaps == Overlaps(a[..])
    ensures report.isValid <==> report.overlaps == []
    ensures a.Length < 2 ==> report.isValid && report.overlaps == []
  {
    var isValid := true;
    var overlaps: seq<OverlapPair> := [];
    ghost var s := a[..];
    var i := 0;
    while i < a.Length - 1
      invariant 0 <= i <= OuterIterations(s)
      invariant overlaps == OverlapsBefore(s, i)
      invariant isValid <==> overlaps == []
    {
      var found := FindFirstOverlap(a, i);
      if found.Some? {
        isValid := false;
        overlaps := overlaps + [OverlapPair(a[i], a[found.value])];
      }
      i := i + 1;
    }
    report := OverlapReport(isValid, overlaps);
  }

  /** `validateDataForOverlaps`: reorders the caller's array in place and
      reports the overlaps found in the sorted order. */
  method ValidateDataForOverlaps(data: array<Entry>) returns (report: OverlapReport)
    modifies data
    ensures SortedByStart(data[..])
    ensures multiset(data[..]) == old(multiset(data[..]))
    ensures report.overlaps == Overlaps(data[..])
    ensures report.isValid <==> report.overlaps == []
  {
    SortByStart(data);
    report := ScanOverlaps(data);
  }
}
