/**
 * The events calendar component (src/components/events/GoogleCalendar.tsx):
 * fetched events grouped by the date part of their start, the displayed month
 * with its navigation, and a single selected day.
 */
module EventsCalendar {
  import opened Strings
  import Seqs
  import opened CalendarDates

  /** `start` or `end` of a remote event: a date-time, a date for all-day events, or neither. */
  datatype EventTime = EventTime(dateTime: Option<string>, date: Option<string>)

  datatype CalendarEvent = CalendarEvent(
    id: string,
    summary: string,
    start: EventTime,
    end: EventTime,
    location: Option<string>,
    description: Option<string>)

  // ---------------------------------------------------------------- date keys of events

  /** `event.start.dateTime || event.start.date`; `None` when neither is a non-empty string. */
  function StartString(e: CalendarEvent): (r: Option<string>)
    ensures r.Some? ==> r.value != ""
    ensures r.None? <==>
      ((e.start.dateTime.None? || e.start.dateTime.value == "") && (e.start.date.None? || e.start.date.value == ""))
  {
    if e.start.dateTime.Some? && e.start.dateTime.value != "" then e.start.dateTime
    else if e.start.date.Some? && e.start.date.value != "" then e.start.date
    else None
  }

  /** `s.split('T')[0]`: the longest prefix of `s` without a `T`. */
  function BeforeT(s: string): (r: string)
    ensures r <= s
    ensures 'T' !in r
    ensures |r| == |s| || s[|r|] == 'T'
  {
    if s == [] || s[0] == 'T' then [] else [s[0]] + BeforeT(s[1..])
  }

  /** A string made of a `T`-free part, then nothing or a `T` and anything, has that part as its key. */
  lemma {:induction false} BeforeTOf(key: string, rest: string)
    requires 'T' !in key
    requires rest == [] || rest[0] == 'T'
    ensures BeforeT(key + rest) == key
  {
    if key == [] {
      assert key + rest == rest;
    } else {
      assert (key + rest)[0] == key[0];
      assert (key + rest)[1..] == key[1..] + rest;
      BeforeTOf(key[1..], rest);
    }
  }

  /** The grouping key of an event: the date part of its start, if it has one. */
  function EventKey(e: CalendarEvent): (r: Option<string>)
    ensures r.Some? <==> StartString(e).Some?
    ensures r.Some? ==> r.value <= StartString(e).value && 'T' !in r.value
  {
    match StartString(e)
    case None => None
    case Some(s) => Some(BeforeT(s))
  }

  function HasKey(key: string): CalendarEvent -> bool
  {
    e => EventKey(e) == Some(key)
  }

  function HasStart(): CalendarEvent -> bool
  {
    e => EventKey(e).Some?
  }

  /** Two events that start on the same day at different times share their key. */
  lemma SameDaySameKey(e1: CalendarEvent, e2: CalendarEvent, day: string, t1: string, t2: string)
    requires 'T' !in day
    requires StartString(e1) == Some(day + "T" + t1) && StartString(e2) == Some(day + "T" + t2)
    ensures EventKey(e1) == EventKey(e2) == Some(day)
  {
    assert day + "T" + t1 == day + ("T" + t1);
    assert day + "T" + t2 == day + ("T" + t2);
    BeforeTOf(day, "T" + t1);
    BeforeTOf(day, "T" + t2);
  }

  // ---------------------------------------------------------------- grouping

  /** The keys that occur among the events. */
  function KeysOf(events: seq<CalendarEvent>): set<string>
  {
    set e | e in events && EventKey(e).Some? :: EventKey(e).value
  }

  /** `eventsByDate`: each key maps to the events with that key, in their original order. */
  function ByDate(events: seq<CalendarEvent>): map<string, seq<CalendarEvent>>
  {
    map key | key in KeysOf(events) :: Seqs.Filter(events, HasKey(key))
  }

  /** A key is present exactly when some event has it. */
  lemma KeysOfIff(events: seq<CalendarEvent>, key: string)
    ensures key in ByDate(events) <==> exists e :: e in events && EventKey(e) == Some(key)
  {
    if exists e :: e in events && EventKey(e) == Some(key) {
      var e :| e in events && EventKey(e) == Some(key);
      assert key in KeysOf(events);
    }
  }

  /** The keys after one more event: the old ones, plus that event's key if it has one. */
  lemma KeysOfSnoc(events: seq<CalendarEvent>, e: CalendarEvent)
    ensures KeysOf(events + [e]) == KeysOf(events) + (if EventKey(e).Some? then {EventKey(e).value} else {})
  {
    var extra := if EventKey(e).Some? then {EventKey(e).value} else {};
    forall key ensures key in KeysOf(events + [e]) <==> key in KeysOf(events) + extra {
      if key in KeysOf(events + [e]) {
        var x :| x in events + [e] && EventKey(x) == Some(key);
        if x != e {
          assert x in events;
        }
      }
      if key in KeysOf(events) {
        var x :| x in events && EventKey(x) == Some(key);
        assert x in events + [e];
      }
    }
  }

  /** The bucket of `key`, empty when the key is absent (`map[key] || []`). */
  function Bucket(m: map<string, seq<CalendarEvent>>, key: string): seq<CalendarEvent>
  {
    if key in m then m[key] else []
  }

  /** The filter that defines a bucket grows by the appended event exactly when it has that key. */
  lemma FilterSnoc(events: seq<CalendarEvent>, e: CalendarEvent, key: string)
    ensures Seqs.Filter(events + [e], HasKey(key)) ==
      Seqs.Filter(events, HasKey(key)) + (if EventKey(e) == Some(key) then [e] else [])
  {
    Seqs.FilterAppend(events, [e], HasKey(key));
    assert [e][1..] == [];
  }

  /** A key that no event has selects nothing. */
  lemma FilterAbsentKey(events: seq<CalendarEvent>, key: string)
    requires key !in KeysOf(events)
    ensures Seqs.Filter(events, HasKey(key)) == []
  {
    var r := Seqs.Filter(events, HasKey(key));
    if r != [] {
      Seqs.FilterMember(events, HasKey(key), r[0]);
      assert false;
    }
  }

  /** An event without a key leaves the grouping as it was. */
  lemma ByDateSnocUndated(events: seq<CalendarEvent>, e: CalendarEvent)
    requires EventKey(e).None?
    ensures ByDate(events + [e]) == ByDate(events)
  {
    var before, after := ByDate(events), ByDate(events + [e]);
    KeysOfSnoc(events, e);
    forall key | key in after ensures after[key] == before[key] {
      FilterSnoc(events, e, key);
    }
  }

  /** An event with key `k` is pushed at the end of the bucket of `k`, created if absent. */
  lemma ByDateSnocDated(events: seq<CalendarEvent>, e: CalendarEvent, k: string)
    requires EventKey(e) == Some(k)
    ensures ByDate(events + [e]) == ByDate(events)[k := Bucket(ByDate(events), k) + [e]]
  {
    var before, after := ByDate(events), ByDate(events + [e]);
    var expected := before[k := Bucket(before, k) + [e]];
    KeysOfSnoc(events, e);
    forall key | key in after ensures after[key] == expected[key] {
      FilterSnoc(events, e, key);
      if key == k && k !in before {
        FilterAbsentKey(events, k);
      }
    }
  }

  /** One step of the grouping loop, stated on the start string as the loop reads it. */
  lemma GroupStep(done: seq<CalendarEvent>, e: CalendarEvent, byDate: map<string, seq<CalendarEvent>>)
    requires byDate == ByDate(done)
    ensures ByDate(done + [e]) ==
      match StartString(e)
      case None => byDate
      case Some(s) => byDate[BeforeT(s) := Bucket(byDate, BeforeT(s)) + [e]]
  {
    match StartString(e)
    case None => ByDateSnocUndated(done, e);
    case Some(s) => ByDateSnocDated(done, e, BeforeT(s));
  }

  /** The imperative grouping loop of `eventsByDate`, pushing each event into its key's list. */
  method GroupByDate(events: seq<CalendarEvent>) returns (byDate: map<string, seq<CalendarEvent>>)
    ensures byDate == ByDate(events)
  {
    byDate := map[];
    var i := 0;
    while i < |events|
      invariant 0 <= i <= |events|
      invariant byDate == ByDate(events[..i])
    {
      var event := events[i];
      GroupStep(events[..i], event, byDate);
      assert events[..i + 1] == events[..i] + [event];
      var dateStr := StartString(event);
      if dateStr.Some? {
        var key := BeforeT(dateStr.value);
        var bucket := if key in byDate then byDate[key] else [];
        byDate := byDate[key := bucket + [event]];
      }
      i := i + 1;
    }
    assert events[..i] == events;
  }

  /**
   * The buckets: a key is present exactly when some event has it; each bucket is
   * non-empty, an order-preserving subsequence of the events, holds only events
   * with its key, and holds each such event as often as the input does.
   */
  lemma ByDateBuckets(events: seq<CalendarEvent>, key: string)
    ensures key in ByDate(events) <==> exists e :: e in events && EventKey(e) == Some(key)
    ensures key in ByDate(events) ==>
      && ByDate(events)[key] != []
      && Seqs.IsSubseq(ByDate(events)[key], events)
      && (forall i :: 0 <= i < |ByDate(events)[key]| ==> EventKey(ByDate(events)[key][i]) == Some(key))
      && (forall e: CalendarEvent :: EventKey(e) == Some(key) ==>
            multiset(ByDate(events)[key])[e] == multiset(events)[e])
  {
    KeysOfIff(events, key);
    if key in ByDate(events) {
      var e :| e in events && EventKey(e) == Some(key);
      Seqs.FilterMember(events, HasKey(key), e);
      FilterByKey(events, key);
    }
  }

  /** The events selected by one key, in order, each as often as in the input. */
  lemma FilterByKey(events: seq<CalendarEvent>, key: string)
    ensures Seqs.IsSubseq(Seqs.Filter(events, HasKey(key)), events)
    ensures forall i :: 0 <= i < |Seqs.Filter(events, HasKey(key))| ==>
      EventKey(Seqs.Filter(events, HasKey(key))[i]) == Some(key)
    ensures forall e: CalendarEvent :: EventKey(e) == Some(key) ==>
      multiset(Seqs.Filter(events, HasKey(key)))[e] == multiset(events)[e]
  {
    var bucket := Seqs.Filter(events, HasKey(key));
    Seqs.FilterIsSubseq(events, HasKey(key));
    assert forall i :: 0 <= i < |bucket| ==> HasKey(key)(bucket[i]);
    forall e: CalendarEvent | EventKey(e) == Some(key) ensures multiset(bucket)[e] == multiset(events)[e] {
      Seqs.FilterCount(events, HasKey(key), e);
    }
  }

  /** An event without a start string is in no bucket. */
  lemma UndatedEventsSkipped(events: seq<CalendarEvent>, e: CalendarEvent, key: string)
    requires StartString(e).None?
    requires key in ByDate(events)
    ensures e !in ByDate(events)[key]
  {
    Seqs.FilterMember(events, HasKey(key), e);
  }

  // ---------------------------------------------------------------- total count

  /** The keys in the order in which they first occur among the events. */
  function KeyOrder(events: seq<CalendarEvent>): seq<string>
  {
    if events == [] then []
    else
      var keys := KeyOrder(events[..|events| - 1]);
      match EventKey(events[|events| - 1])
      case None => keys
      case Some(k) => if k in keys then keys else keys + [k]
  }

  function Size(m: map<string, seq<CalendarEvent>>, key: string): nat
  {
    if key in m then |m[key]| else 0
  }

  /** The total length of the buckets named in `keys`. */
  function SumSizes(m: map<string, seq<CalendarEvent>>, keys: seq<string>): nat
  {
    if keys == [] then 0 else Size(m, keys[0]) + SumSizes(m, keys[1..])
  }

  lemma {:induction false} SumSizesSnoc(m: map<string, seq<CalendarEvent>>, keys: seq<string>, k: string)
    ensures SumSizes(m, keys + [k]) == SumSizes(m, keys) + Size(m, k)
  {
    if keys == [] {
      assert keys + [k] == [k];
      assert [k][1..] == [];
    } else {
      assert (keys + [k])[1..] == keys[1..] + [k];
      SumSizesSnoc(m, keys[1..], k);
    }
  }

  /** Changing one bucket named once among `keys` changes the total by the change in its length. */
  lemma {:induction false} SumSizesUpdate(m: map<string, seq<CalendarEvent>>, keys: seq<string>, k: string, v: seq<CalendarEvent>)
    requires Seqs.NoDup(keys)
    ensures SumSizes(m[k := v], keys) ==
      SumSizes(m, keys) - (if k in keys then Size(m, k) else 0) + (if k in keys then |v| else 0)
  {
    if keys != [] {
      assert Seqs.NoDup(keys[1..]) by {
        forall i, j | 0 <= i < j < |keys[1..]| ensures keys[1..][i] != keys[1..][j] {
          assert keys[1..][i] == keys[i + 1] && keys[1..][j] == keys[j + 1];
        }
      }
      SumSizesUpdate(m, keys[1..], k, v);
      if keys[0] == k {
        assert k !in keys[1..] by {
          forall i | 0 <= i < |keys[1..]| ensures keys[1..][i] != k {
            assert keys[1..][i] == keys[i + 1];
          }
        }
      } else {
        assert k in keys <==> k in keys[1..];
      }
    }
  }

  /** The keys in first-occurrence order list each key of the grouping exactly once. */
  lemma {:induction false} KeyOrderKeys(events: seq<CalendarEvent>)
    ensures Seqs.NoDup(KeyOrder(events))
    ensures forall k :: k in KeyOrder(events) <==> k in ByDate(events)
  {
    if events != [] {
      var init, e := events[..|events| - 1], events[|events| - 1];
      assert events == init + [e];
      KeyOrderKeys(init);
      KeysOfSnoc(init, e);
      match EventKey(e)
      case None =>
      case Some(k) =>
        if k !in KeyOrder(init) {
          Seqs.NoDupSnoc(KeyOrder(init), k);
        }
    }
  }

  /** The buckets named in first-occurrence order hold as many entries as there are events with a start. */
  lemma {:induction false} BucketSizesTotal(events: seq<CalendarEvent>)
    ensures SumSizes(ByDate(events), KeyOrder(events)) == |Seqs.Filter(events, HasStart())|
  {
    if events != [] {
      var init, e := events[..|events| - 1], events[|events| - 1];
      assert events == init + [e];
      BucketSizesTotal(init);
      KeyOrderKeys(init);
      Seqs.FilterAppend(init, [e], HasStart());
      assert Seqs.Filter([e], HasStart()) == (if EventKey(e).Some? then [e] else []) by {
        assert [e][1..] == [];
      }
      var keys, m := KeyOrder(init), ByDate(init);
      match EventKey(e)
      case None =>
        ByDateSnocUndated(init, e);
      case Some(k) =>
        ByDateSnocDated(init, e, k);
        var v := Bucket(m, k) + [e];
        SumSizesUpdate(m, keys, k, v);
        if k in keys {
          assert KeyOrder(events) == keys;
        } else {
          assert KeyOrder(events) == keys + [k];
          SumSizesSnoc(m[k := v], keys, k);
        }
    }
  }

  /**
   * The keys in first-occurrence order name every bucket once, and the buckets
   * together hold exactly as many entries as there are events with a start.
   */
  lemma GroupedTotal(events: seq<CalendarEvent>)
    ensures Seqs.NoDup(KeyOrder(events))
    ensures forall k :: k in KeyOrder(events) <==> k in ByDate(events)
    ensures SumSizes(ByDate(events), KeyOrder(events)) == |Seqs.Filter(events, HasStart())|
  {
    KeyOrderKeys(events);
    BucketSizesTotal(events);
  }

  // ---------------------------------------------------------------- selection

  /** The day-cell click: select the day, or clear the selection if it is that day. */
  function Toggle(selected: Option<string>, key: string): (r: Option<string>)
    ensures r == None || r == Some(key)
    ensures r == Some(key) <==> selected != Some(key)
  {
    if selected == Some(key) then None else Some(key)
  }

  /** Clicking the same day twice returns to no selection, or to that day, whichever came first. */
  lemma ToggleTwice(selected: Option<string>, key: string)
    requires selected == None || selected == Some(key)
    ensures Toggle(Toggle(selected, key), key) == selected
  {
  }

  /** `selectedDate ? eventsByDate[selectedDate] || [] : []`. */
  function SelectedEventsOf(selected: Option<string>, byDate: map<string, seq<CalendarEvent>>): (r: seq<CalendarEvent>)
    ensures selected.None? ==> r == []
    ensures selected.Some? && selected.value !in byDate ==> r == []
  {
    if selected.None? || selected.value == "" then []
    else if selected.value in byDate then byDate[selected.value]
    else []
  }

  /**
   * The events listed for a selected day are exactly the fetched events whose key
   * is that day, in their original order; none when no event has it.
   */
  lemma SelectedEventsAreThatDay(events: seq<CalendarEvent>, key: string)
    requires key != ""
    ensures SelectedEventsOf(Some(key), ByDate(events)) == Seqs.Filter(events, HasKey(key))
  {
    if key !in ByDate(events) {
      FilterAbsentKey(events, key);
    }
  }

  /** `SelectedEventsAreThatDay`, for any selection state. */
  lemma SelectionSpec(events: seq<CalendarEvent>, selected: Option<string>)
    ensures selected.Some? && selected.value != "" ==>
      SelectedEventsOf(selected, ByDate(events)) == Seqs.Filter(events, HasKey(selected.value))
  {
    if selected.Some? && selected.value != "" {
      SelectedEventsAreThatDay(events, selected.value);
    }
  }

  /** An event whose start is a cell's key, alone or followed by `T` and a time, is listed on that cell. */
  lemma EventListedOnItsDay(events: seq<CalendarEvent>, e: CalendarEvent, year: int, month: int, day: int, time: string)
    requires IsMonth(month) && 1 <= day <= DaysInMonth(year, month)
    requires e in events
    requires StartString(e) == Some(DateKey(year, month, day) + time)
    requires time == "" || time[0] == 'T'
    ensures DateKey(year, month, day) in ByDate(events)
    ensures e in ByDate(events)[DateKey(year, month, day)]
  {
    var key := DateKey(year, month, day);
    DateKeyCharacters(year, month, day);
    BeforeTOf(key, time);
    assert EventKey(e) == Some(key);
    ByDateBuckets(events, key);
    Seqs.FilterMember(events, HasKey(key), e);
  }

  // ---------------------------------------------------------------- component state

  /** The component's state; `eventsByDate` is the memoised grouping of `events`. */
  class GoogleCalendar {
    var currentMonth: int
    var currentYear: int
    var events: seq<CalendarEvent>
    var eventsByDate: map<string, seq<CalendarEvent>>
    var selectedDate: Option<string>

    ghost predicate Valid()
      reads this
    {
      IsMonth(currentMonth) && eventsByDate == ByDate(events)
    }

    /** Mounting on `today`: its month shown, no events yet, nothing selected. */
    constructor (today: YearMonth)
      requires IsMonth(today.month)
      ensures Valid()
      ensures currentYear == today.year && currentMonth == today.month
      ensures events == [] && selectedDate == None
    {
      currentYear, currentMonth := today.year, today.month;
      events := [];
      eventsByDate := map[];
      selectedDate := None;
    }

    function Shown(): YearMonth
      reads this
    {
      YearMonth(currentYear, currentMonth)
    }

    /** The fetch for the shown month resolved with `items`; the grouping is recomputed. */
    method ReceiveEvents(items: seq<CalendarEvent>)
      requires Valid()
      modifies this
      ensures Valid()
      ensures events == items
      ensures Shown() == old(Shown()) && selectedDate == old(selectedDate)
    {
      events := items;
      eventsByDate := GroupByDate(items);
    }

    /** The "Previous month" button. */
    method PrevMonth()
      requires Valid()
      modifies this
      ensures Valid()
      ensures Shown() == CalendarDates.PrevMonth(old(Shown()))
      ensures selectedDate == None && events == old(events)
    {
      if currentMonth == 0 {
        currentMonth := 11;
        currentYear := currentYear - 1;
      } else {
        currentMonth := currentMonth - 1;
      }
      selectedDate := None;
    }

    /** The "Next month" button. */
    method NextMonth()
      requires Valid()
      modifies this
      ensures Valid()
      ensures Shown() == CalendarDates.NextMonth(old(Shown()))
      ensures selectedDate == None && events == old(events)
    {
      if currentMonth == 11 {
        currentMonth := 0;
        currentYear := currentYear + 1;
      } else {
        currentMonth := currentMonth + 1;
      }
      selectedDate := None;
    }

    /** A click on the cell of `day`, one of the days of the shown month. */
    method ClickDay(day: int)
      requires Valid()
      requires 1 <= day <= DaysInMonth(currentYear, currentMonth)
      modifies this
      ensures Valid()
      ensures Shown() == old(Shown()) && events == old(events)
      ensures selectedDate == Toggle(old(selectedDate), DateKey(currentYear, currentMonth, day))
    {
      var dateKey := DateKey(currentYear, currentMonth, day);
      var isSelected := selectedDate == Some(dateKey);
      selectedDate := if isSelected then None else Some(dateKey);
    }

    /** `dayEvents` of a cell: the events whose key is that day, in their original order. */
    function DayEvents(day: int): (r: seq<CalendarEvent>)
      reads this
      requires Valid()
      requires 1 <= day <= DaysInMonth(currentYear, currentMonth)
      ensures r == Seqs.Filter(events, HasKey(DateKey(currentYear, currentMonth, day)))
    {
      var key := DateKey(currentYear, currentMonth, day);
      SelectedEventsAreThatDay(events, key);
      if key in eventsByDate then eventsByDate[key] else []
    }

    /** `selectedEvents`: nothing without a selection, else the selected day's events. */
    function SelectedEvents(): (r: seq<CalendarEvent>)
      reads this
      requires Valid()
      ensures selectedDate.None? ==> r == []
      ensures selectedDate.Some? && selectedDate.value != "" ==>
        r == Seqs.Filter(events, HasKey(selectedDate.value))
    {
      SelectionSpec(events, selectedDate);
      SelectedEventsOf(selectedDate, eventsByDate)
    }
  }
}
