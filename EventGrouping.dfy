/** The events page's `groupEventsByDay`: the events sorted by date, bucketed
    by UTC calendar day, each bucket sorted by time of day, and the buckets
    ordered by day. */
module EventGrouping {
  import opened Basics
  import opened Text
  import opened Sorting
  import EventForm

  /** An event row as the page reads it. `date` is the event's date as a
      millisecond timestamp since the epoch (a JavaScript `Date`), `time` the
      free-text time of day. */
  datatype Event = Event(
    id: int,
    title: string,
    time: string,
    location: string,
    date: int,
    description: string,
    photo: string,
    externalLink: string)

  /** One entry of the result: the UTC day number (days since 1970-01-01,
      standing for the key `date.toISOString().split("T")[0]`) and its events. */
  datatype DayGroup = DayGroup(day: int, events: seq<Event>)

  const MsPerDay: int := 86400000

  /** The UTC calendar day of a timestamp. Euclidean division by a positive
      number rounds down, so timestamps before 1970 fall on the right day too. */
  function DayOf(timestamp: int): int {
    timestamp / MsPerDay
  }

  function DayKey(e: Event): int {
    DayOf(e.date)
  }

  function DateKey(e: Event): int {
    e.date
  }

  /** The comparator of the first sort: `a.date.getTime() - b.date.getTime()`. */
  function CompareDates(a: Event, b: Event): int {
    a.date - b.date
  }

  /** `const [hours, minutes] = time.split(":").map(Number)` followed by
      `hours * 60 + minutes`. `None` when there is no second piece (the
      comparator's explicit `undefined` guard) or when either piece is not a
      number (the difference is then `NaN`, which the sort reads as 0). */
  function Clock(time: string): (m: Option<int>)
    ensures ':' !in time ==> m == None
  {
    var parts := Split(time, ':');
    if |parts| < 2 then None
    else
      match (NumberValue(parts[0]), NumberValue(parts[1]))
      case (Some(h), Some(mm)) => Some(h * 60 + mm)
      case _ => None
  }

  /** The minutes past midnight of an event whose time parses (0 otherwise). */
  function TimeKey(e: Event): int {
    Clock(e.time).GetOr(0)
  }

  /** The comparator of the per-day sort. A time that has no `:`, or does not
      parse, compares equal to every other time instead of raising an error. */
  function CompareTimes(a: Event, b: Event): (r: int)
    ensures ':' !in a.time || ':' !in b.time ==> r == 0
    ensures Clock(a.time).Some? && Clock(b.time).Some? ==> (r < 0 <==> TimeKey(a) < TimeKey(b))
  {
    match (Clock(a.time), Clock(b.time))
    case (Some(x), Some(y)) => x - y
    case _ => 0
  }

  function GroupDay(g: DayGroup): int {
    g.day
  }

  /** The comparator of the final sort of the entries: the days as dates,
      `new Date(dayA).getTime() - new Date(dayB).getTime()`, where a
      `YYYY-MM-DD` string denotes UTC midnight of that day. */
  function CompareDays(a: DayGroup, b: DayGroup): (r: int)
    ensures r < 0 <==> a.day < b.day
  {
    assert a.day * MsPerDay - b.day * MsPerDay == (a.day - b.day) * MsPerDay;
    a.day * MsPerDay - b.day * MsPerDay
  }

  /** A time accepted by the new-event form parses here to the minutes past
      midnight it denotes, which fall within one day. */
  lemma FormTimeParses(time: string)
    requires EventForm.MatchesTime(time)
    ensures Clock(time) == Some(EventForm.HourOf(time) * 60 + EventForm.MinuteOf(time))
    ensures 0 <= Clock(time).value < 24 * 60
  {
    EventForm.MatchedRanges(time);
    FormHours(time);
    FormMinutes(time);
    ClockOfParts(time, time[..|time| - 3], time[|time| - 2..], EventForm.HourOf(time), EventForm.MinuteOf(time));
  }

  /** The text before the `:` of an accepted time is a number: its hour. */
  lemma FormHours(time: string)
    requires EventForm.MatchesTime(time)
    ensures time == time[..|time| - 3] + [':'] + time[|time| - 2..]
    ensures ':' !in time[..|time| - 3]
    ensures NumberValue(time[..|time| - 3]) == Some(EventForm.HourOf(time))
  {
    var hours := time[..|time| - 3];
    assert forall k :: 0 <= k < |hours| ==> IsDigit(hours[k]);
    NumberOfDigits(hours);
    DigitsValueShort(hours);
  }

  /** The two characters after the `:` of an accepted time are a number: its minutes. */
  lemma FormMinutes(time: string)
    requires EventForm.MatchesTime(time)
    ensures ':' !in time[|time| - 2..]
    ensures NumberValue(time[|time| - 2..]) == Some(EventForm.MinuteOf(time))
  {
    var minutes := time[|time| - 2..];
    assert minutes == [time[|time| - 2], time[|time| - 1]];
    NumberOfDigits(minutes);
    DigitsValueShort(minutes);
  }

  /** `h:m`, with no other `:` and both sides the numbers `h` and `m`, parses to `h * 60 + m` minutes. */
  lemma ClockOfParts(time: string, hours: string, minutes: string, h: int, m: int)
    requires time == hours + [':'] + minutes
    requires ':' !in hours && ':' !in minutes
    requires NumberValue(hours) == Some(h) && NumberValue(minutes) == Some(m)
    ensures Clock(time) == Some(h * 60 + m)
  {
    Text.SplitOnce(hours, minutes, ':');
  }

  /** Every event of `s` has a time that parses. */
  predicate AllTimed(s: seq<Event>) {
    forall e :: e in s ==> Clock(e.time).Some?
  }

  /** No time of `s` parses. */
  predicate NoneTimed(s: seq<Event>) {
    forall e :: e in s ==> Clock(e.time) == None
  }

  /** Times entered through the new-event form always parse, so a day of
      such events is sorted by time. */
  lemma FormTimesTimed(s: seq<Event>)
    requires forall e :: e in s ==> EventForm.MatchesTime(e.time)
    ensures AllTimed(s)
  {
    forall e | e in s ensures Clock(e.time).Some? {
      FormTimeParses(e.time);
    }
  }

  /** All the events of the groups, group after group. */
  function Flatten(gs: seq<DayGroup>): seq<Event> {
    if gs == [] then [] else gs[0].events + Flatten(gs[1..])
  }

  /** Later timestamps never fall on an earlier day. */
  lemma DayOfMonotone(a: int, b: int)
    requires a <= b
    ensures DayOf(a) <= DayOf(b)
  {
  }

  lemma DatesKeyed(s: seq<Event>)
    ensures KeyedBy(s, CompareDates, DateKey)
  {
  }

  lemma TimesKeyed(s: seq<Event>)
    requires AllTimed(s)
    ensures KeyedBy(s, CompareTimes, TimeKey)
  {
  }

  lemma DaysKeyed(gs: seq<DayGroup>)
    ensures KeyedBy(gs, CompareDays, GroupDay)
  {
  }

  /** The initial sort is stable: events with the same timestamp keep their input order. */
  lemma DateSortStable(events: seq<Event>, t: int)
    ensures FilterKey(SortBy(events, CompareDates), DateKey, t) == FilterKey(events, DateKey, t)
  {
    DatesKeyed(events);
    SortByStable(events, CompareDates, DateKey, t);
  }

  lemma {:induction false} FlattenPermutation(gs: seq<DayGroup>, s: seq<Event>, ks: seq<int>)
    requires |gs| == |ks|
    requires forall k :: 0 <= k < |gs| ==> multiset(gs[k].events) == multiset(FilterKey(s, DayKey, ks[k]))
    ensures multiset(Flatten(gs)) == multiset(ConcatFilter(s, DayKey, ks))
  {
    if gs != [] {
      FlattenPermutation(gs[1..], s, ks[1..]);
    }
  }

  /** What one bucket of the result is: the events of day `d` in date order,
      sorted by time of day. */
  lemma BucketFacts(sorted: seq<Event>, d: int, bucket: seq<Event>)
    requires bucket == SortBy(FilterKey(sorted, DayKey, d), CompareTimes)
    ensures forall e :: e in bucket ==> DayKey(e) == d
    ensures multiset(bucket) == multiset(FilterKey(sorted, DayKey, d))
    ensures AllTimed(bucket) ==> SortedByKey(bucket, TimeKey)
    ensures AllTimed(bucket) ==> forall m :: FilterKey(bucket, TimeKey, m) == FilterKey(FilterKey(sorted, DayKey, d), TimeKey, m)
  {
    var raw := FilterKey(sorted, DayKey, d);
    SortByMembers(raw, CompareTimes);
    FilterKeyMembers(sorted, DayKey, d);
    if AllTimed(bucket) {
      TimesKeyed(raw);
      SortBySorted(raw, CompareTimes, TimeKey);
      forall m ensures FilterKey(bucket, TimeKey, m) == FilterKey(raw, TimeKey, m) {
        SortByStable(raw, CompareTimes, TimeKey, m);
      }
    }
  }

  /** A bucket in which no time parses keeps its date order: the model's
      comparator is 0 on every pair, and the stable sort moves nothing. */
  lemma UntimedBucketKept(sorted: seq<Event>, d: int)
    requires NoneTimed(FilterKey(sorted, DayKey, d))
    ensures SortBy(FilterKey(sorted, DayKey, d), CompareTimes) == FilterKey(sorted, DayKey, d)
  {
    var raw := FilterKey(sorted, DayKey, d);
    var flat := (e: Event) => 0;
    assert KeyedBy(raw, CompareTimes, flat);
    SortBySortedIdentity(raw, CompareTimes, flat);
  }

  /** A sorted bucket none of whose times parse is that day's events in date order. */
  lemma UntimedBucket(sorted: seq<Event>, d: int, bucket: seq<Event>)
    requires bucket == SortBy(FilterKey(sorted, DayKey, d), CompareTimes)
    requires NoneTimed(bucket)
    ensures bucket == FilterKey(sorted, DayKey, d)
  {
    var raw := FilterKey(sorted, DayKey, d);
    SortByMembers(raw, CompareTimes);
    UntimedBucketKept(sorted, d);
  }

  /** The groups laid out key by key: group `k` is the day `order[k]` with
      that day's events from `sorted`, sorted by time of day. */
  ghost predicate Layout(sorted: seq<Event>, order: seq<int>, groups: seq<DayGroup>) {
    && |groups| == |order|
    && forall k :: 0 <= k < |groups| ==>
         && groups[k].day == order[k]
         && groups[k].events == SortBy(FilterKey(sorted, DayKey, order[k]), CompareTimes)
  }

  /** What the finished `for ... of` loop leaves, in the form the later steps use. */
  lemma IndexedSummary(sorted: seq<Event>, buckets: map<int, seq<Event>>, order: seq<int>)
    requires Indexed(sorted, buckets, order)
    ensures forall d :: d in buckets <==> d in order
    ensures forall k :: 0 <= k < |order| ==> order[k] in buckets
    ensures forall a, b :: 0 <= a < b < |order| ==> order[a] < order[b]
    ensures Distinct(order)
    ensures forall d :: d in buckets ==> buckets[d] == FilterKey(sorted, DayKey, d)
    ensures forall k :: 0 <= k < |order| ==> FilterKey(sorted, DayKey, order[k]) != []
    ensures forall x :: x in sorted ==> DayKey(x) in order
    ensures sorted == [] <==> order == []
  {
    forall k | 0 <= k < |order| ensures order[k] in buckets && FilterKey(sorted, DayKey, order[k]) != [] {
      assert order[k] in order;
    }
    forall x | x in sorted ensures DayKey(x) in order {
      var j :| 0 <= j < |sorted| && sorted[j] == x;
    }
  }

  /** `Object.entries` of the dictionary with every bucket sorted by time of day. */
  lemma EntriesLayout(sorted: seq<Event>, order: seq<int>, buckets: map<int, seq<Event>>,
                      days: map<int, seq<Event>>)
    requires forall k :: 0 <= k < |order| ==> order[k] in buckets
    requires forall d :: d in buckets ==> buckets[d] == FilterKey(sorted, DayKey, d)
    requires days.Keys == buckets.Keys
    requires forall d :: d in buckets ==> days[d] == SortBy(buckets[d], CompareTimes)
    ensures forall k :: 0 <= k < |order| ==> order[k] in days
    ensures Layout(sorted, order, Entries(days, order))
  {
  }

  /** Keys inserted in ascending order give groups in ascending day order. */
  lemma LayoutAscending(sorted: seq<Event>, order: seq<int>, groups: seq<DayGroup>)
    requires Layout(sorted, order, groups)
    requires forall a, b :: 0 <= a < b < |order| ==> order[a] < order[b]
    ensures forall i, j :: 0 <= i < j < |groups| ==> groups[i].day < groups[j].day
  {
  }

  /** No group is empty, since every key was inserted with an event. */
  lemma LayoutNonEmpty(sorted: seq<Event>, order: seq<int>, groups: seq<DayGroup>)
    requires Layout(sorted, order, groups)
    requires forall k :: 0 <= k < |order| ==> FilterKey(sorted, DayKey, order[k]) != []
    ensures forall g :: g in groups ==> g.events != []
  {
    forall g | g in groups ensures g.events != [] {
      var k :| 0 <= k < |groups| && groups[k] == g;
    }
  }

  /** Each group holds only its own day's events, sorted and stable by time of day. */
  lemma GroupFacts(sorted: seq<Event>, order: seq<int>, groups: seq<DayGroup>)
    requires Layout(sorted, order, groups)
    ensures forall g, e :: g in groups && e in g.events ==> DayKey(e) == g.day
    ensures forall g :: g in groups && AllTimed(g.events) ==> SortedByKey(g.events, TimeKey)
    ensures forall g, m :: g in groups && AllTimed(g.events) ==>
              FilterKey(g.events, TimeKey, m) == FilterKey(FilterKey(sorted, DayKey, g.day), TimeKey, m)
    ensures forall g :: g in groups && NoneTimed(g.events) ==> g.events == FilterKey(sorted, DayKey, g.day)
  {
    forall g | g in groups
      ensures forall e :: e in g.events ==> DayKey(e) == g.day
      ensures AllTimed(g.events) ==> SortedByKey(g.events, TimeKey)
      ensures AllTimed(g.events) ==>
                forall m :: FilterKey(g.events, TimeKey, m) == FilterKey(FilterKey(sorted, DayKey, g.day), TimeKey, m)
      ensures NoneTimed(g.events) ==> g.events == FilterKey(sorted, DayKey, g.day)
    {
      var k :| 0 <= k < |groups| && groups[k] == g;
      BucketFacts(sorted, g.day, g.events);
      if NoneTimed(g.events) {
        UntimedBucket(sorted, g.day, g.events);
      }
    }
  }

  /** Laid end to end, the groups hold exactly the events of `sorted`. */
  lemma GroupsPermutation(sorted: seq<Event>, order: seq<int>, groups: seq<DayGroup>)
    requires Layout(sorted, order, groups)
    requires Distinct(order)
    requires forall x :: x in sorted ==> DayKey(x) in order
    ensures multiset(Flatten(groups)) == multiset(sorted)
  {
    forall k | 0 <= k < |groups|
      ensures multiset(groups[k].events) == multiset(FilterKey(sorted, DayKey, order[k]))
    {
      SortByMembers(FilterKey(sorted, DayKey, order[k]), CompareTimes);
    }
    FlattenPermutation(groups, sorted, order);
    ConcatFilterPermutation(sorted, DayKey, order);
  }

  /** A day none of whose events has been seen has an empty bucket so far. */
  lemma NewDayEmpty(prefix: seq<Event>, day: int)
    requires forall j :: 0 <= j < |prefix| ==> DayKey(prefix[j]) != day
    ensures FilterKey(prefix, DayKey, day) == []
  {
    FilterKeyMembers(prefix, DayKey, day);
    if FilterKey(prefix, DayKey, day) != [] {
      assert FilterKey(prefix, DayKey, day)[0] in prefix;
    }
  }

  /** `order` lists the keys of `days`, each once, in ascending order. */
  ghost predicate KeyOrder(days: map<int, seq<Event>>, order: seq<int>) {
    && (forall d :: d in days <==> d in order)
    && (forall a, b :: 0 <= a < b < |order| ==> order[a] < order[b])
  }

  /** Each bucket holds the events of its day from `prefix`, in order, and is
      not empty; every event of `prefix` has a bucket. */
  ghost predicate Buckets(prefix: seq<Event>, days: map<int, seq<Event>>) {
    && (forall d :: d in days ==> days[d] == FilterKey(prefix, DayKey, d) && days[d] != [])
    && (forall j :: 0 <= j < |prefix| ==> DayKey(prefix[j]) in days)
  }

  /** The last key inserted is the day of the last event pushed. */
  ghost predicate LastKey(prefix: seq<Event>, order: seq<int>) {
    && (prefix == [] <==> order == [])
    && (prefix != [] ==> order[|order| - 1] == DayKey(prefix[|prefix| - 1]))
  }

  /** The state of the `days` dictionary after the events of `prefix` have been
      pushed: `order` is its keys in insertion order, which is ascending, and
      each bucket holds that day's events in order. */
  ghost predicate Indexed(prefix: seq<Event>, days: map<int, seq<Event>>, order: seq<int>) {
    KeyOrder(days, order) && Buckets(prefix, days) && LastKey(prefix, order)
  }

  lemma PushAppends(prefix: seq<Event>, e: Event)
    ensures forall d :: FilterKey(prefix + [e], DayKey, d)
                        == FilterKey(prefix, DayKey, d) + (if DayKey(e) == d then [e] else [])
  {
    forall d ensures FilterKey(prefix + [e], DayKey, d)
                     == FilterKey(prefix, DayKey, d) + (if DayKey(e) == d then [e] else []) {
      FilterKeyAppend(prefix, [e], DayKey, d);
    }
  }

  /** Appending to an existing bucket keeps every bucket the filter of its day. */
  lemma OntoDayBuckets(prefix: seq<Event>, e: Event, days: map<int, seq<Event>>)
    requires Buckets(prefix, days)
    requires DayKey(e) in days
    ensures Buckets(prefix + [e], days[DayKey(e) := days[DayKey(e)] + [e]])
  {
    PushAppends(prefix, e);
  }

  /** Opening a bucket for a day not seen before keeps every bucket the filter of its day. */
  lemma NewDayBuckets(prefix: seq<Event>, e: Event, days: map<int, seq<Event>>)
    requires Buckets(prefix, days)
    requires DayKey(e) !in days
    ensures Buckets(prefix + [e], days[DayKey(e) := [e]])
  {
    PushAppends(prefix, e);
    NewDayEmpty(prefix, DayKey(e));
  }

  /** A key larger than every key so far extends the ascending key order. */
  lemma NewDayKeyOrder(days: map<int, seq<Event>>, order: seq<int>, day: int, bucket: seq<Event>)
    requires KeyOrder(days, order)
    requires day !in days
    requires order != [] ==> order[|order| - 1] <= day
    ensures KeyOrder(days[day := bucket], order + [day])
  {
    assert forall k :: 0 <= k < |order| ==> order[k] in order;
  }

  /** Pushing an event onto a day that already has a bucket keeps the dictionary indexed. */
  lemma PushOntoDay(prefix: seq<Event>, e: Event, days: map<int, seq<Event>>, order: seq<int>)
    requires Indexed(prefix, days, order)
    requires prefix != [] ==> prefix[|prefix| - 1].date <= e.date
    requires DayKey(e) in days
    ensures Indexed(prefix + [e], days[DayKey(e) := days[DayKey(e)] + [e]], order)
  {
    OntoDayBuckets(prefix, e, days);
    assert prefix != [];
    var last := prefix[|prefix| - 1];
    DayOfMonotone(last.date, e.date);
    assert DayKey(e) == DayKey(last) by {
      var k :| 0 <= k < |order| && order[k] == DayKey(e);
      assert order[k] <= order[|order| - 1];
    }
  }

  /** Pushing the first event of a new day appends the day to the key order. */
  lemma PushNewDay(prefix: seq<Event>, e: Event, days: map<int, seq<Event>>, order: seq<int>)
    requires Indexed(prefix, days, order)
    requires prefix != [] ==> prefix[|prefix| - 1].date <= e.date
    requires DayKey(e) !in days
    ensures Indexed(prefix + [e], days[DayKey(e) := [e]], order + [DayKey(e)])
  {
    NewDayBuckets(prefix, e, days);
    if prefix != [] {
      DayOfMonotone(prefix[|prefix| - 1].date, e.date);
    }
    NewDayKeyOrder(days, order, DayKey(e), [e]);
  }

  /** One iteration of the loop below, on either branch. */
  lemma PushStep(sorted: seq<Event>, i: int, days: map<int, seq<Event>>, order: seq<int>)
    requires SortedByKey(sorted, DateKey)
    requires 0 <= i < |sorted| && Indexed(sorted[..i], days, order)
    ensures DayKey(sorted[i]) !in days ==>
              Indexed(sorted[..i + 1], days[DayKey(sorted[i]) := [sorted[i]]], order + [DayKey(sorted[i])])
    ensures DayKey(sorted[i]) in days ==>
              Indexed(sorted[..i + 1], days[DayKey(sorted[i]) := days[DayKey(sorted[i])] + [sorted[i]]], order)
  {
    var e := sorted[i];
    assert sorted[..i + 1] == sorted[..i] + [e];
    if i > 0 {
      assert sorted[..i][i - 1] == sorted[i - 1];
      assert DateKey(sorted[i - 1]) <= DateKey(e);
    }
    if DayKey(e) !in days {
      PushNewDay(sorted[..i], e, days, order);
    } else {
      PushOntoDay(sorted[..i], e, days, order);
    }
  }

  /** The `for ... of` loop of `groupEventsByDay`: push each event onto its
      day's bucket, creating the bucket (and with it the next key in insertion
      order) when the day is first seen. */
  method BucketByDay(sorted: seq<Event>) returns (days: map<int, seq<Event>>, order: seq<int>)
    requires SortedByKey(sorted, DateKey)
    ensures Indexed(sorted, days, order)
  {
    days, order := map[], [];
    for i := 0 to |sorted|
      invariant Indexed(sorted[..i], days, order)
    {
      var event := sorted[i];
      var day := DayKey(event);
      PushStep(sorted, i, days, order);
      if day !in days {
        // `days[day] = []` followed by the push: a new bucket holding the event.
        days := days[day := [event]];
        order := order + [day];
      } else {
        days := days[day := days[day] + [event]];
      }
    }
    assert sorted[..|sorted|] == sorted;
  }

  /** One step of the `forEach`: applying `f` to the bucket of key `order[j]`
      moves the boundary between done and pending keys by one. */
  lemma MapStep<V>(days: map<int, V>, f: V -> V, current: map<int, V>, order: seq<int>, j: int)
    requires Distinct(order)
    requires 0 <= j < |order|
    requires forall k :: 0 <= k < |order| ==> order[k] in days
    requires current.Keys == days.Keys
    requires forall k :: 0 <= k < j ==> current[order[k]] == f(days[order[k]])
    requires forall k :: j <= k < |order| ==> current[order[k]] == days[order[k]]
    ensures forall k :: 0 <= k <= j ==> current[order[j] := f(current[order[j]])][order[k]] == f(days[order[k]])
    ensures forall k :: j < k < |order| ==> current[order[j] := f(current[order[j]])][order[k]] == days[order[k]]
  {
    var next := current[order[j] := f(current[order[j]])];
    forall k | j < k < |order| ensures next[order[k]] == days[order[k]] {
      assert order[k] != order[j];
    }
    forall k | 0 <= k < j ensures next[order[k]] == f(days[order[k]]) {
      assert order[k] != order[j];
    }
  }

  /** Sorting the bucket of key `order[j]` moves the boundary between sorted
      and pending keys by one. */
  lemma SortStep(days: map<int, seq<Event>>, current: map<int, seq<Event>>, order: seq<int>, j: int)
    requires Distinct(order)
    requires 0 <= j < |order|
    requires forall k :: 0 <= k < |order| ==> order[k] in days
    requires current.Keys == days.Keys
    requires forall k :: 0 <= k < j ==> current[order[k]] == SortBy(days[order[k]], CompareTimes)
    requires forall k :: j <= k < |order| ==> current[order[k]] == days[order[k]]
    ensures forall k :: 0 <= k <= j ==>
              current[order[j] := SortBy(current[order[j]], CompareTimes)][order[k]]
              == SortBy(days[order[k]], CompareTimes)
    ensures forall k :: j < k < |order| ==>
              current[order[j] := SortBy(current[order[j]], CompareTimes)][order[k]] == days[order[k]]
  {
    MapStep(days, s => SortBy(s, CompareTimes), current, order, j);
  }

  /** Once every key of `order` is done, every bucket is sorted. */
  lemma SortedAll(days: map<int, seq<Event>>, current: map<int, seq<Event>>, order: seq<int>)
    requires forall d :: d in days <==> d in order
    requires current.Keys == days.Keys
    requires forall k :: 0 <= k < |order| ==> order[k] in days
    requires forall k :: 0 <= k < |order| ==> current[order[k]] == SortBy(days[order[k]], CompareTimes)
    ensures forall d :: d in days ==> current[d] == SortBy(days[d], CompareTimes)
  {
    forall d | d in days ensures current[d] == SortBy(days[d], CompareTimes) {
      var k :| 0 <= k < |order| && order[k] == d;
    }
  }

  /** The `forEach` over `Object.keys(days)`: sort each bucket in place by time of day. */
  method SortEachDay(days: map<int, seq<Event>>, order: seq<int>) returns (sorted: map<int, seq<Event>>)
    requires forall d :: d in days <==> d in order
    requires forall k :: 0 <= k < |order| ==> order[k] in days
    requires Distinct(order)
    ensures sorted.Keys == days.Keys
    ensures forall d :: d in days ==> sorted[d] == SortBy(days[d], CompareTimes)
  {
    sorted := days;
    for j := 0 to |order|
      invariant sorted.Keys == days.Keys
      invariant forall k :: 0 <= k < j ==> sorted[order[k]] == SortBy(days[order[k]], CompareTimes)
      invariant forall k :: j <= k < |order| ==> sorted[order[k]] == days[order[k]]
    {
      SortStep(days, sorted, order, j);
      sorted := sorted[order[j] := SortBy(sorted[order[j]], CompareTimes)];
    }
    SortedAll(days, sorted, order);
  }

  /** `Object.entries(days)`: the (day, bucket) pairs in key insertion order. */
  function Entries(days: map<int, seq<Event>>, order: seq<int>): (r: seq<DayGroup>)
    requires forall k :: 0 <= k < |order| ==> order[k] in days
    ensures |r| == |order|
    ensures forall k :: 0 <= k < |r| ==> r[k] == DayGroup(order[k], days[order[k]])
  {
    if order == [] then [] else [DayGroup(order[0], days[order[0]])] + Entries(days, order[1..])
  }

  /** `Object.entries(days).sort(...)` by day: a permutation of the entries in
      day order, which leaves entries already in ascending day order as they are. */
  method SortEntries(entries: seq<DayGroup>) returns (r: seq<DayGroup>)
    ensures multiset(r) == multiset(entries)
    ensures SortedByKey(r, GroupDay)
    ensures (forall a, b :: 0 <= a < b < |entries| ==> entries[a].day < entries[b].day) ==> r == entries
  {
    r := SortBy(entries, CompareDays);
    DaysKeyed(entries);
    SortBySorted(entries, CompareDays, GroupDay);
    if forall a, b :: 0 <= a < b < |entries| ==> entries[a].day < entries[b].day {
      SortBySortedIdentity(entries, CompareDays, GroupDay);
    }
  }

  /** `groupEventsByDay(events)`. The input is a value, so it is not changed:
      the source sorts a copy. */
  method GroupEventsByDay(events: seq<Event>) returns (groups: seq<DayGroup>)
    ensures events == [] <==> groups == []
    ensures multiset(Flatten(groups)) == multiset(events)
    ensures forall g :: g in groups ==> g.events != []
    ensures forall g, e :: g in groups && e in g.events ==> DayKey(e) == g.day
    ensures forall i, j :: 0 <= i < j < |groups| ==> groups[i].day < groups[j].day
    ensures forall g :: g in groups && AllTimed(g.events) ==> SortedByKey(g.events, TimeKey)
    ensures forall g, m :: g in groups && AllTimed(g.events) ==>
              FilterKey(g.events, TimeKey, m)
              == FilterKey(FilterKey(SortBy(events, CompareDates), DayKey, g.day), TimeKey, m)
    ensures forall g :: g in groups && NoneTimed(g.events) ==>
              g.events == FilterKey(SortBy(events, CompareDates), DayKey, g.day)
  {
    var sorted := SortBy(events, CompareDates);
    assert SortedByKey(sorted, DateKey) by {
      DatesKeyed(events);
      SortBySorted(events, CompareDates, DateKey);
    }
    var buckets, order := BucketByDay(sorted);
    IndexedSummary(sorted, buckets, order);
    var days := SortEachDay(buckets, order);

    // `Object.entries(days)`, in key insertion order, then sorted by day.
    EntriesLayout(sorted, order, buckets, days);
    var entries := Entries(days, order);
    LayoutAscending(sorted, order, entries);
    groups := SortEntries(entries);
    assert groups == entries;
    LayoutNonEmpty(sorted, order, groups);
    GroupFacts(sorted, order, groups);
    GroupsPermutation(sorted, order, groups);
  }
}
