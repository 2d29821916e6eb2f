/** The calendar view's rules: the events of the selected day, the marker on
    days that have events, and the day-selection callback. */
module Calendar {
  import opened Wrappers
  import opened Seqs
  import opened TaskModel

  datatype CalendarEvent = CalendarEvent(id: string, title: string, date: DateTime, category: string)

  /** `dayEvents`: nothing without a selected date, otherwise the events on
      the selected calendar day in their original order. */
  function DayEvents(events: seq<CalendarEvent>, selected: Option<DateTime>): (r: seq<CalendarEvent>)
    ensures selected.None? ==> r == []
    ensures selected.Some? ==> SubsequenceOf(r, events)
    ensures selected.Some? ==> forall i :: 0 <= i < |r| ==> SameDay(r[i].date, selected.value)
    ensures selected.Some? ==> forall e :: multiset(r)[e] == if SameDay(e.date, selected.value) then multiset(events)[e] else 0
  {
    match selected
    case None => []
    case Some(d) =>
      FilterMultiset(events, (e: CalendarEvent) => SameDay(e.date, d));
      Filter(events, (e: CalendarEvent) => SameDay(e.date, d))
  }

  /** `hasEvents` for one day: some event falls on it. */
  function HasEvents(events: seq<CalendarEvent>, day: DateTime): (r: bool)
    ensures r <==> exists i :: 0 <= i < |events| && SameDay(events[i].date, day)
  {
    if |events| == 0 then false
    else SameDay(events[0].date, day) || HasEvents(events[1..], day)
  }

  /** A day carries the marker exactly when selecting it would list events. */
  lemma MarkerIffDayEvents(events: seq<CalendarEvent>, day: DateTime)
    ensures HasEvents(events, day) <==> |DayEvents(events, Some(day))| > 0
  {
    FilterEmptyIff(events, (e: CalendarEvent) => SameDay(e.date, day));
  }

  /** Only the calendar day of the selection matters, not its time of day. */
  lemma DayEventsIgnoreTime(events: seq<CalendarEvent>, a: DateTime, b: DateTime)
    requires SameDay(a, b)
    ensures DayEvents(events, Some(a)) == DayEvents(events, Some(b))
  {
    FilterCongruent(events, (e: CalendarEvent) => SameDay(e.date, a), (e: CalendarEvent) => SameDay(e.date, b));
  }

  /** The result of `handleDaySelect`: the new selection and the argument the
      `onDateSelect` callback is invoked with, if it is invoked. */
  datatype DaySelection = DaySelection(selected: Option<DateTime>, callbackArg: Option<DateTime>)

  /** `handleDaySelect`: always store the selection; call back only with a
      defined date and only when a callback was given. */
  function HandleDaySelect(selected: Option<DateTime>, hasCallback: bool): (r: DaySelection)
    ensures r.selected == selected
    ensures r.callbackArg.Some? <==> selected.Some? && hasCallback
    ensures r.callbackArg.Some? ==> r.callbackArg == selected
  {
    DaySelection(selected, if selected.Some? && hasCallback then selected else None)
  }

  /** The list under the calendar after a selection is non-empty exactly when
      a day was picked and that day carries a marker; clearing the selection
      empties it and calls nobody back. */
  lemma SelectionDrivesDayList(events: seq<CalendarEvent>, selected: Option<DateTime>, hasCallback: bool)
    ensures var r := HandleDaySelect(selected, hasCallback);
            (|DayEvents(events, r.selected)| > 0 <==> selected.Some? && HasEvents(events, selected.value))
            && (selected.None? ==> DayEvents(events, r.selected) == [] && r.callbackArg.None?)
  {
    if selected.Some? {
      MarkerIffDayEvents(events, selected.value);
    }
  }
}
