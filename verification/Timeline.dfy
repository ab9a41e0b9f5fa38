/** Binary searches over timelines: `TimelineDataRange` and `TimelineEvent` of utils/grid.py. */
module Timeline {

  datatype DataRange = DataRange(start: int, end: int, value: string)

  datatype Event = Event(at: int, value: string)

  /** Python's `s[lo:hi]` for non-negative bounds. */
  function Slice<T>(s: seq<T>, lo: nat, hi: nat): seq<T> {
    if lo >= |s| || hi <= lo then [] else s[lo..if hi < |s| then hi else |s|]
  }

  function Filter<T>(s: seq<T>, keep: T -> bool): seq<T> {
    if s == [] then [] else (if keep(s[0]) then [s[0]] else []) + Filter(s[1..], keep)
  }

  lemma SliceAt<T>(s: seq<T>, lo: nat, hi: nat)
    ensures |Slice(s, lo, hi)| == if lo >= |s| || hi <= lo then 0 else (if hi < |s| then hi else |s|) - lo
    ensures forall k :: 0 <= k < |Slice(s, lo, hi)| ==> Slice(s, lo, hi)[k] == s[lo + k]
  {
  }

  /** The slice of a list is its first element, if the slice starts there, and a slice of the rest. */
  lemma SliceTail<T>(s: seq<T>, lo: nat, hi: nat)
    requires s != []
    ensures Slice(s, lo, hi)
      == (if lo == 0 < hi then [s[0]] else [])
        + Slice(s[1..], if lo == 0 then 0 else lo - 1, if hi == 0 then 0 else hi - 1)
  {
    SliceAt(s, lo, hi);
    SliceAt(s[1..], if lo == 0 then 0 else lo - 1, if hi == 0 then 0 else hi - 1);
    hide Slice;
  }

  /** Keeping exactly an index interval is slicing. */
  lemma {:induction false} FilterIsSlice<T>(s: seq<T>, keep: T -> bool, lo: nat, hi: nat)
    requires forall i :: 0 <= i < |s| ==> (keep(s[i]) <==> lo <= i < hi)
    ensures Filter(s, keep) == Slice(s, lo, hi)
    decreases |s|
  {
    if s != [] {
      var lo', hi' := if lo == 0 then 0 else lo - 1, if hi == 0 then 0 else hi - 1;
      assert forall i :: 0 <= i < |s[1..]| ==> s[1..][i] == s[i+1];
      FilterIsSlice(s[1..], keep, lo', hi');
      SliceTail(s, lo, hi);
      hide Slice;
    }
  }

  /** If the elements kept form an interval, only that interval gives the filtered list. */
  lemma SliceIsFilter<T>(s: seq<T>, keep: T -> bool, a: nat, b: nat, lo: nat, hi: nat)
    requires forall i :: 0 <= i < |s| ==> (keep(s[i]) <==> a <= i < b)
    ensures Slice(s, lo, hi) == Filter(s, keep) <==> forall i :: 0 <= i < |s| ==> (keep(s[i]) <==> lo <= i < hi)
  {
    FilterIsSlice(s, keep, a, b);
    SliceAt(s, a, b);
    SliceAt(s, lo, hi);
    if Slice(s, lo, hi) == Filter(s, keep) {
      hide Slice, Filter;
      forall i | 0 <= i < |s| && lo <= i < hi ensures keep(s[i]) {
        assert s[i] == Slice(s, lo, hi)[i - lo] == Slice(s, a, b)[i - lo] == s[a + (i - lo)];
      }
      assert lo < |s| && lo < hi ==> keep(s[lo]) && keep(s[(if hi < |s| then hi else |s|) - 1]);
    } else if forall i :: 0 <= i < |s| ==> (keep(s[i]) <==> lo <= i < hi) {
      FilterIsSlice(s, keep, lo, hi);
      assert false;
    }
  }

  // ----- ranges

  /** Sorted and not overlapping, but neighbours may touch in a point. */
  predicate OrderedRanges(ranges: seq<DataRange>) {
    && (forall i :: 0 <= i < |ranges| ==> ranges[i].start <= ranges[i].end)
    && (forall i, j :: 0 <= i < j < |ranges| ==> ranges[i].end <= ranges[j].start)
  }

  predicate Covers(r: DataRange, key: int) {
    r.start <= key <= r.end
  }

  function Overlaps(start: int, end: int): DataRange -> bool {
    (r: DataRange) => r.start <= end && start <= r.end
  }

  predicate Covered(ranges: seq<DataRange>, key: int) {
    exists i :: 0 <= i < |ranges| && Covers(ranges[i], key)
  }

  /** The binary search between `l` and `u`. */
  function ProbeRange(ranges: seq<DataRange>, key: int, l: nat, u: int): (i: int)
    requires u < |ranges|
    ensures i == -1 || (l <= i <= u && Covers(ranges[i], key))
    decreases u - l + 1
  {
    if l > u then -1
    else
      var i := (l + u) / 2;
      if Covers(ranges[i], key) then i
      else if key < ranges[i].start then ProbeRange(ranges, key, l, i - 1)
      else ProbeRange(ranges, key, i + 1, u)
  }

  function RangeIndex(ranges: seq<DataRange>, key: int): (i: int)
    ensures i == -1 || (0 <= i < |ranges| && Covers(ranges[i], key))
  {
    ProbeRange(ranges, key, 0, |ranges| - 1)
  }

  function RangeBounds(ranges: seq<DataRange>, start: int, end: int): (nat, nat) {
    var s, e := RangeIndex(ranges, start), RangeIndex(ranges, end);
    if s == -1 && e == -1 then (0, 0) else (if s == -1 then 0 else s, if e == -1 then |ranges| else e + 1)
  }

  function RangesFound(ranges: seq<DataRange>, start: int, end: int): seq<DataRange> {
    var (lo, hi) := RangeBounds(ranges, start, end);
    Slice(ranges, lo, hi)
  }

  /** Exactly the overlapping ranges are found. */
  predicate RangesRight(ranges: seq<DataRange>, start: int, end: int) {
    RangesFound(ranges, start, end) == Filter(ranges, Overlaps(start, end))
  }

  class TimelineDataRange {
    var ranges: seq<DataRange>

    constructor ()
      ensures ranges == []
    {
      ranges := [];
    }

    /** Lines 62-63. */
    method AddRange(r: DataRange)
      modifies this
      ensures ranges == old(ranges) + [r]
    {
      ranges := ranges + [r];
    }

    /** Lines 49-61. On ordered ranges a covering range is found if there is one. */
    method Search(key: int) returns (i: int)
      ensures i == RangeIndex(ranges, key)
      ensures -1 <= i < |ranges| && (i >= 0 ==> Covers(ranges[i], key))
      ensures OrderedRanges(ranges) ==> (i == -1 <==> !Covered(ranges, key))
    {
      var l, u := 0, |ranges| - 1;
      RangeIndexFinds(ranges, key);
      hide OrderedRanges, Covered;
      while l <= u
        invariant 0 <= l <= |ranges| && -1 <= u < |ranges|
        invariant ProbeRange(ranges, key, l, u) == RangeIndex(ranges, key)
      {
        i := (l + u) / 2;
        if key >= ranges[i].start && key <= ranges[i].end {
          return;
        } else if key < ranges[i].start {
          u := i - 1;
        } else {
          l := i + 1;
        }
      }
      return -1;
    }

    /** Lines 77-87. */
    method GetRangesBounds(start: int, end: int) returns (lo: nat, hi: nat)
      ensures (lo, hi) == RangeBounds(ranges, start, end)
    {
      var s := Search(start);
      var e := Search(end);
      if s == -1 && e == -1 {
        return 0, 0;
      } else if s == -1 {
        return 0, e + 1;
      } else if e == -1 {
        return s, |ranges|;
      } else {
        return s, e + 1;
      }
    }

    /** Lines 66-76. */
    method GetRanges(start: int, end: int) returns (found: seq<DataRange>)
      ensures found == RangesFound(ranges, start, end)
    {
      var lo, hi := GetRangesBounds(start, end);
      found := Slice(ranges, lo, hi);
    }
  }

  lemma {:induction false} ProbeRangeFinds(ranges: seq<DataRange>, key: int, l: nat, u: int)
    requires OrderedRanges(ranges) && l <= u + 1 <= |ranges|
    requires forall j :: 0 <= j < l ==> ranges[j].end < key
    requires forall j :: u < j < |ranges| ==> key < ranges[j].start
    ensures ProbeRange(ranges, key, l, u) == -1 ==> !Covered(ranges, key)
    decreases u - l + 1
  {
    if l <= u {
      var i := (l + u) / 2;
      if key < ranges[i].start {
        ProbeRangeFinds(ranges, key, l, i - 1);
      } else if key > ranges[i].end {
        ProbeRangeFinds(ranges, key, i + 1, u);
      }
    }
  }

  lemma RangeIndexFinds(ranges: seq<DataRange>, key: int)
    ensures OrderedRanges(ranges) ==> (RangeIndex(ranges, key) == -1 <==> !Covered(ranges, key))
  {
    if OrderedRanges(ranges) {
      ProbeRangeFinds(ranges, key, 0, |ranges| - 1);
    }
  }

  /** When the query meets nothing it does not cover: an uncovered start lies before all ranges, an
      uncovered end after all of them; if both are uncovered, no range lies between them. */
  predicate QueryFits(ranges: seq<DataRange>, start: int, end: int) {
    if !Covered(ranges, start) && !Covered(ranges, end) then
      forall i :: 0 <= i < |ranges| ==> !(start <= ranges[i].start && ranges[i].end <= end)
    else
      && (!Covered(ranges, start) ==> start < ranges[0].start)
      && (!Covered(ranges, end) ==> ranges[|ranges|-1].end < end)
  }

  /** Both ranges cover the key; in ordered ranges they touch there. */
  predicate Touch(ranges: seq<DataRange>, i: nat, key: int) {
    i + 1 < |ranges| && Covers(ranges[i], key) && Covers(ranges[i+1], key)
  }

  /** Where two ranges touch at an end of the query, the search found the outer one, or the outer one
      does not overlap the query. */
  predicate OuterFound(ranges: seq<DataRange>, start: int, end: int) {
    && (forall i :: 0 <= i < RangeIndex(ranges, start) && Touch(ranges, i, start) ==> !Overlaps(start, end)(ranges[i]))
    && (forall i :: 0 <= RangeIndex(ranges, end) <= i < |ranges| && Touch(ranges, i, end) ==>
      !Overlaps(start, end)(ranges[i+1]))
  }

  /** With an end covered, an overlapping range that is not returned touches another at an end of the
      query. */
  lemma NothingMissed(ranges: seq<DataRange>, start: int, end: int, i: nat)
    requires OrderedRanges(ranges) && (Covered(ranges, start) || Covered(ranges, end))
    requires i < |ranges| && Overlaps(start, end)(ranges[i])
    ensures var (lo, hi) := RangeBounds(ranges, start, end);
      || lo <= i < hi
      || (i < lo == RangeIndex(ranges, start) && Touch(ranges, i, start))
      || (0 <= RangeIndex(ranges, end) < i && Touch(ranges, i - 1, end))
  {
    RangeIndexFinds(ranges, start);
    RangeIndexFinds(ranges, end);
    hide RangeIndex;
  }

  /** `get_ranges` returns exactly the overlapping ranges if and only if the query fits and loses none of
      two touching ranges. */
  lemma RangesExact(ranges: seq<DataRange>, start: int, end: int)
    requires OrderedRanges(ranges)
    ensures RangesRight(ranges, start, end) <==> QueryFits(ranges, start, end) && OuterFound(ranges, start, end)
  {
    var keep := Overlaps(start, end);
    var (lo, hi) := RangeBounds(ranges, start, end);
    var a, b := OverlapInterval(ranges, start, end);
    SliceIsFilter(ranges, keep, a, b, lo, hi);
    hide Slice, Filter;
    if QueryFits(ranges, start, end) && OuterFound(ranges, start, end) {
      forall i | 0 <= i < |ranges| ensures keep(ranges[i]) <==> lo <= i < hi {
        FoundOverlaps(ranges, start, end, i);
      }
    } else if !QueryFits(ranges, start, end) {
      var i := Witness(ranges, start, end);
    } else {
      var i := TouchWitness(ranges, start, end);
    }
  }

  predicate NoneTouch(ranges: seq<DataRange>) {
    forall i, j :: 0 <= i < j < |ranges| ==> ranges[i].end < ranges[j].start
  }

  /** In particular when no two ranges touch. */
  lemma RangesExactApart(ranges: seq<DataRange>, start: int, end: int)
    requires OrderedRanges(ranges) && NoneTouch(ranges)
    ensures RangesRight(ranges, start, end) <==> QueryFits(ranges, start, end)
  {
    RangesExact(ranges, start, end);
    assert forall i: nat, key :: !Touch(ranges, i, key);
    hide RangesRight, QueryFits;
  }

  /** Every query that fits is answered exactly if and only if no two ranges touch: where two do, the query
      for their common point fits and gets one of them. */
  lemma FittingQueriesExact(ranges: seq<DataRange>)
    requires OrderedRanges(ranges)
    ensures (forall start, end :: QueryFits(ranges, start, end) ==> RangesRight(ranges, start, end))
      <==> NoneTouch(ranges)
  {
    hide QueryFits, RangesRight;
    if NoneTouch(ranges) {
      forall start, end | QueryFits(ranges, start, end) ensures RangesRight(ranges, start, end) {
        RangesExactApart(ranges, start, end);
      }
    } else {
      var i, j :| 0 <= i < j < |ranges| && ranges[i].end >= ranges[j].start;
      TouchingQuery(ranges, i, j);
    }
  }

  lemma TouchingQuery(ranges: seq<DataRange>, i: nat, j: nat)
    requires OrderedRanges(ranges) && i < j < |ranges| && ranges[i].end == ranges[j].start
    ensures QueryFits(ranges, ranges[j].start, ranges[j].start)
      && !RangesRight(ranges, ranges[j].start, ranges[j].start)
  {
    var at := ranges[j].start;
    assert Covers(ranges[j], at) && Overlaps(at, at)(ranges[i]);
    var a, b := OverlapInterval(ranges, at, at);
    FilterIsSlice(ranges, Overlaps(at, at), a, b);
    PointQuery(ranges, at);
    assert a <= i && j < b;
    hide Slice, Filter, RangesFound, QueryFits, Overlaps, OrderedRanges;
    SliceAt(ranges, a, b);
    assert |Filter(ranges, Overlaps(at, at))| >= 2;
  }

  /** A query for a point never returns two ranges, even if two touch there. */
  lemma PointQuery(ranges: seq<DataRange>, at: int)
    ensures |RangesFound(ranges, at, at)| <= 1
  {
  }

  /** The overlapping ranges are neighbours. */
  lemma OverlapInterval(ranges: seq<DataRange>, start: int, end: int) returns (a: nat, b: nat)
    requires OrderedRanges(ranges)
    ensures forall i :: 0 <= i < |ranges| ==> (Overlaps(start, end)(ranges[i]) <==> a <= i < b)
  {
    a, b := 0, 0;
    while a < |ranges| && ranges[a].end < start
      invariant a <= |ranges| && forall i :: 0 <= i < a ==> ranges[i].end < start
    {
      a := a + 1;
    }
    while b < |ranges| && ranges[b].start <= end
      invariant b <= |ranges| && forall i :: 0 <= i < b ==> ranges[i].start <= end
    {
      b := b + 1;
    }
    assert a < |ranges| ==> forall i :: a <= i < |ranges| ==> ranges[a].end <= ranges[i].end;
  }

  lemma FoundOverlaps(ranges: seq<DataRange>, start: int, end: int, i: nat)
    requires OrderedRanges(ranges) && QueryFits(ranges, start, end) && OuterFound(ranges, start, end) && i < |ranges|
    ensures var (lo, hi) := RangeBounds(ranges, start, end); Overlaps(start, end)(ranges[i]) <==> lo <= i < hi
  {
    RangeIndexFinds(ranges, start);
    RangeIndexFinds(ranges, end);
    assert Covered(ranges, start) || !Covers(ranges[i], start);
    assert Covered(ranges, end) || !Covers(ranges[i], end);
    if Overlaps(start, end)(ranges[i]) && (Covered(ranges, start) || Covered(ranges, end)) {
      NothingMissed(ranges, start, end, i);
    }
    hide RangeIndex;
  }

  /** A range the query gets wrong. */
  lemma Witness(ranges: seq<DataRange>, start: int, end: int) returns (i: nat)
    requires OrderedRanges(ranges) && !QueryFits(ranges, start, end)
    ensures i < |ranges|
    ensures var (lo, hi) := RangeBounds(ranges, start, end); Overlaps(start, end)(ranges[i]) != (lo <= i < hi)
  {
    RangeIndexFinds(ranges, start);
    RangeIndexFinds(ranges, end);
    hide RangeIndex;
    if !Covered(ranges, start) && !Covered(ranges, end) {
      i :| 0 <= i < |ranges| && start <= ranges[i].start && ranges[i].end <= end;
    } else if !Covered(ranges, start) && start >= ranges[0].start {
      assert !Covers(ranges[0], start);
      i := 0;
    } else {
      assert !Covers(ranges[|ranges|-1], end);
      i := |ranges| - 1;
    }
  }

  /** A range lost to one that touches it. */
  lemma TouchWitness(ranges: seq<DataRange>, start: int, end: int) returns (i: nat)
    requires !OuterFound(ranges, start, end)
    ensures i < |ranges|
    ensures var (lo, hi) := RangeBounds(ranges, start, end); Overlaps(start, end)(ranges[i]) && !(lo <= i < hi)
  {
    var s, e := RangeIndex(ranges, start), RangeIndex(ranges, end);
    hide RangeIndex;
    if j :| 0 <= j < s && Touch(ranges, j, start) && Overlaps(start, end)(ranges[j]) {
      return j;
    }
    var j :| 0 <= e <= j < |ranges| && Touch(ranges, j, end) && Overlaps(start, end)(ranges[j+1]);
    return j + 1;
  }

  // ----- events

  /** Sorted; events may be simultaneous. */
  predicate OrderedEvents(events: seq<Event>) {
    forall i, j :: 0 <= i < j < |events| ==> events[i].at <= events[j].at
  }

  function ProbeEvent(events: seq<Event>, key: int, l: nat, u: int): (i: nat)
    requires l <= u + 1 <= |events|
    ensures l <= i <= u + 1
    decreases u - l + 1
  {
    if l > u then l
    else
      var i := (l + u) / 2;
      if key == events[i].at then i
      else if key < events[i].at then ProbeEvent(events, key, l, i - 1)
      else ProbeEvent(events, key, i + 1, u)
  }

  function EventIndex(events: seq<Event>, key: int): (i: nat)
    ensures i <= |events|
  {
    ProbeEvent(events, key, 0, |events| - 1)
  }

  function EventsFound(events: seq<Event>, start: int, end: int): seq<Event> {
    Slice(events, EventIndex(events, start), EventIndex(events, end) + 1)
  }

  /** `l` separates the events before the key from those after it, and is an event at the key if there is
      one. */
  predicate Position(events: seq<Event>, key: int, l: nat) {
    && l <= |events|
    && (forall j :: 0 <= j < l ==> events[j].at <= key)
    && (forall j :: l <= j < |events| ==> key <= events[j].at)
    && (forall j :: 0 <= j < |events| && events[j].at == key ==> l < |events| && events[l].at == key)
  }

  /** The events in the window are found, and the first one after a gap. */
  predicate EventsRight(events: seq<Event>, start: int, end: int) {
    EventsFound(events, start, end) == Filter(events, Within(start, end)) + OneTooMany(events, start, end)
  }

  class TimelineEvent {
    var events: seq<Event>

    constructor ()
      ensures events == []
    {
      events := [];
    }

    /** Lines 114-115. */
    method AddEvent(e: Event)
      modifies this
      ensures events == old(events) + [e]
    {
      events := events + [e];
    }

    /** Lines 101-113. */
    method Search(key: int) returns (l: nat)
      ensures l == EventIndex(events, key)
      ensures OrderedEvents(events) ==> Position(events, key, l)
    {
      EventIndexFinds(events, key);
      hide OrderedEvents, Position;
      l := 0;
      var u := |events| - 1;
      while l <= u
        invariant 0 <= l <= u + 1 <= |events|
        invariant ProbeEvent(events, key, l, u) == EventIndex(events, key)
      {
        var i := (l + u) / 2;
        if key == events[i].at {
          return i;
        } else if key < events[i].at {
          u := i - 1;
        } else {
          l := i + 1;
        }
      }
    }

    /** Lines 116-119. */
    method GetEvents(start: int, end: int) returns (found: seq<Event>)
      ensures found == EventsFound(events, start, end)
    {
      var s := Search(start);
      var e := Search(end);
      found := Slice(events, s, e + 1);
    }
  }

  lemma {:induction false} ProbeEventFinds(events: seq<Event>, key: int, l: nat, u: int)
    requires OrderedEvents(events) && l <= u + 1 <= |events|
    requires forall j :: 0 <= j < l ==> events[j].at < key
    requires forall j :: u < j < |events| ==> key < events[j].at
    ensures var r := ProbeEvent(events, key, l, u); (r < |events| && events[r].at == key) || Between(events, key, r)
    decreases u - l + 1
  {
    if l <= u {
      var i := (l + u) / 2;
      if key < events[i].at {
        ProbeEventFinds(events, key, l, i - 1);
      } else if key > events[i].at {
        ProbeEventFinds(events, key, i + 1, u);
      }
    }
  }

  /** No event is at the key, and `l` separates those before it from those after it. */
  predicate Between(events: seq<Event>, key: int, l: nat) {
    && l <= |events|
    && (forall j :: 0 <= j < l ==> events[j].at < key)
    && (forall j :: l <= j < |events| ==> key < events[j].at)
  }

  lemma EventIndexFinds(events: seq<Event>, key: int)
    ensures OrderedEvents(events) ==> Position(events, key, EventIndex(events, key))
  {
    if OrderedEvents(events) {
      ProbeEventFinds(events, key, 0, |events| - 1);
      hide ProbeEvent;
    }
  }

  function Within(start: int, end: int): Event -> bool {
    (e: Event) => start <= e.at <= end
  }

  function After(end: int): Event -> bool {
    (e: Event) => end < e.at
  }

  /** No event is at `end` itself or lies between `end` and a later `start`. */
  predicate Gap(events: seq<Event>, start: int, end: int) {
    forall i :: 0 <= i < |events| ==> events[i].at != end && !(end <= events[i].at < start)
  }

  /** The first of the events after a gap. */
  function OneTooMany(events: seq<Event>, start: int, end: int): seq<Event> {
    var later := Filter(events, After(end));
    if later != [] && Gap(events, start, end) then later[..1] else []
  }

  /** The search for `start` found the first of simultaneous events, and the search for `end` the last. */
  predicate OuterEventsFound(events: seq<Event>, start: int, end: int) {
    && (forall i :: 0 <= i < |events| && events[i].at == start ==> EventIndex(events, start) <= i)
    && (forall i :: 0 <= i < |events| && events[i].at == end ==> i <= EventIndex(events, end))
  }

  /** `get_events` returns the events in the window and perhaps one too many behind them, if the searches
      found the outer ones of simultaneous events at `start` and `end`; for a window that is not inside
      out, only if they did. */
  lemma EventsExact(events: seq<Event>, start: int, end: int)
    requires OrderedEvents(events)
    ensures OuterEventsFound(events, start, end) ==> EventsRight(events, start, end)
    ensures start <= end && EventsRight(events, start, end) ==> OuterEventsFound(events, start, end)
  {
    var s, e := EventIndex(events, start), EventIndex(events, end);
    EventIndexFinds(events, start);
    EventIndexFinds(events, end);
    OneTooManyIs(events, start, end);
    OuterWindow(events, start, end);
    SliceOneMore(events, s, e);
    var inside, extra := Filter(events, Within(start, end)), OneTooMany(events, start, end);
    hide EventIndex, OneTooMany, OuterEventsFound, Gap, Position, Within, OrderedEvents, Slice, Filter, InWindow;
    if extra == [] {
      WindowIsSlice(events, start, end, s, e + 1);
      assert inside + extra == inside;
    } else {
      WindowIsSlice(events, start, end, s, e);
      Cancel(Slice(events, s, e), inside, events[e]);
    }
  }

  /** The events in the window are those at positions `lo` to `hi`. */
  predicate InWindow(events: seq<Event>, start: int, end: int, lo: nat, hi: nat) {
    forall i :: 0 <= i < |events| ==> (Within(start, end)(events[i]) <==> lo <= i < hi)
  }

  lemma WindowIsSlice(events: seq<Event>, start: int, end: int, lo: nat, hi: nat)
    requires OrderedEvents(events)
    ensures Slice(events, lo, hi) == Filter(events, Within(start, end)) <==> InWindow(events, start, end, lo, hi)
  {
    var a, b := WindowInterval(events, start, end);
    hide OrderedEvents;
    SliceIsFilter(events, Within(start, end), a, b, lo, hi);
  }

  lemma Cancel<T>(s: seq<T>, t: seq<T>, x: T)
    ensures s + [x] == t + [x] ==> s == t
  {
    if s + [x] == t + [x] {
      assert s == (s + [x])[..|s|] && t == (t + [x])[..|t|];
    }
  }

  lemma SliceOneMore<T>(s: seq<T>, lo: nat, hi: nat)
    ensures Slice(s, lo, hi + 1) == Slice(s, lo, hi) + if lo <= hi < |s| then [s[hi]] else []
  {
  }

  /** The events in a window are neighbours. */
  lemma WindowInterval(events: seq<Event>, start: int, end: int) returns (a: nat, b: nat)
    requires OrderedEvents(events)
    ensures forall i :: 0 <= i < |events| ==> (Within(start, end)(events[i]) <==> a <= i < b)
  {
    a, b := 0, 0;
    while a < |events| && events[a].at < start
      invariant a <= |events| && forall i :: 0 <= i < a ==> events[i].at < start
    {
      a := a + 1;
    }
    while b < |events| && events[b].at <= end
      invariant b <= |events| && forall i :: 0 <= i < b ==> events[i].at <= end
    {
      b := b + 1;
    }
  }

  lemma OneTooManyIs(events: seq<Event>, start: int, end: int)
    requires OrderedEvents(events) && Position(events, end, EventIndex(events, end))
    ensures var e := EventIndex(events, end);
      OneTooMany(events, start, end) == if e < |events| && Gap(events, start, end) then [events[e]] else []
  {
    var e := EventIndex(events, end);
    if Gap(events, start, end) {
      FilterIsSlice(events, After(end), e, |events|);
      SliceAt(events, e, |events|);
      hide Slice, Filter;
    }
  }

  lemma OuterWindow(events: seq<Event>, start: int, end: int)
    requires OrderedEvents(events)
    requires Position(events, start, EventIndex(events, start)) && Position(events, end, EventIndex(events, end))
    ensures var s, e := EventIndex(events, start), EventIndex(events, end);
      var hi := if e < |events| && Gap(events, start, end) then e else e + 1;
      && (OuterEventsFound(events, start, end) ==> InWindow(events, start, end, s, hi))
      && (start <= end && InWindow(events, start, end, s, hi) ==> OuterEventsFound(events, start, end))
      && (hi == e && (start <= end || OuterEventsFound(events, start, end)) ==> s <= e)
  {
    var s, e := EventIndex(events, start), EventIndex(events, end);
    hide EventIndex;
    if e < s {
      assert events[e].at <= start;
    }
  }

  predicate NoneSimultaneous(events: seq<Event>) {
    forall i, j :: 0 <= i < j < |events| ==> events[i].at < events[j].at
  }

  /** In particular when no events are simultaneous. */
  lemma EventsExactApart(events: seq<Event>, start: int, end: int)
    requires NoneSimultaneous(events)
    ensures EventsRight(events, start, end)
  {
    EventIndexFinds(events, start);
    EventIndexFinds(events, end);
    hide EventIndex;
    assert OuterEventsFound(events, start, end);
    EventsExact(events, start, end);
    hide EventsRight;
  }

  /** Every query gives the events in its window and the first one after a gap if and only if no events are
      simultaneous: where two are, the query for their moment gets one of them. */
  lemma AllQueriesExact(events: seq<Event>)
    requires OrderedEvents(events)
    ensures (forall start, end :: EventsRight(events, start, end)) <==> NoneSimultaneous(events)
  {
    hide EventsRight;
    if NoneSimultaneous(events) {
      forall start, end ensures EventsRight(events, start, end) {
        EventsExactApart(events, start, end);
      }
    } else {
      var i, j :| 0 <= i < j < |events| && events[i].at >= events[j].at;
      SimultaneousQuery(events, i, j);
    }
  }

  lemma SimultaneousQuery(events: seq<Event>, i: nat, j: nat)
    requires OrderedEvents(events) && i < j < |events| && events[i].at == events[j].at
    ensures !EventsRight(events, events[i].at, events[i].at)
  {
    var at := events[i].at;
    var a, b := WindowInterval(events, at, at);
    FilterIsSlice(events, Within(at, at), a, b);
    MomentQuery(events, at);
    assert Within(at, at)(events[i]) && Within(at, at)(events[j]) && a <= i && j < b;
    hide Slice, Filter, EventsFound, OneTooMany, Within, OrderedEvents;
    SliceAt(events, a, b);
    assert |Filter(events, Within(at, at))| >= 2;
  }

  /** A query for a moment never returns two events, even if two are simultaneous. */
  lemma MomentQuery(events: seq<Event>, at: int)
    ensures |EventsFound(events, at, at)| <= 1
  {
  }
}
