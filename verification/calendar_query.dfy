/**
 * calendarQuery: the translation of a CALDAV:calendar-query filter into a
 * storage query. Only the time ranges of event filters are passed on (an
 * event ending after the range starts and starting before it ends); every
 * other condition is left to the DAV server's own filtering, so the result
 * is a superset of the matching objects (section 9.9 of RFC 4791).
 */
module CalendarQuery {
  import opened Options
  import opened Strings
  import opened DavCommon
  import opened Records
  import opened CalendarBackend
  import opened CalendarObjects

  /** A CALDAV:time-range: start and end as Unix times, each optional. */
  datatype TimeRange = TimeRange(start: Option<int>, end: Option<int>)

  /** A CALDAV:comp-filter below the VCALENDAR filter: the component name and its time range, if any. */
  datatype CompFilter = CompFilter(name: string, timeRange: Option<TimeRange>)

  datatype Op = AtMost | AtLeast

  /** A storage query condition: (field, operator, value). */
  datatype Cond = Cond(field: string, op: Op, value: int)

  /** The conditions one filter contributes. */
  function FilterConds(f: CompFilter): seq<Cond> {
    if f.name != "VEVENT" || f.timeRange.None? then []
    else
      (if f.timeRange.value.end.Some? then [Cond("dtstart", AtMost, f.timeRange.value.end.value)] else [])
      + (if f.timeRange.value.start.Some? then [Cond("dtend", AtLeast, f.timeRange.value.start.value)] else [])
  }

  /** The storage query built from the comp-filters, in filter order. */
  function BuildQuery(filters: seq<CompFilter>): (q: seq<Cond>)
    ensures forall c :: c in q ==> (c.field == "dtstart" && c.op == AtMost) || (c.field == "dtend" && c.op == AtLeast)
    ensures (forall i :: 0 <= i < |filters| ==> filters[i].name != "VEVENT") ==> q == []
  {
    if |filters| == 0 then []
    else FilterConds(filters[0]) + BuildQuery(filters[1..])
  }

  /** The storage's evaluation of one condition on a stored object: the field is a time and compares as asked. */
  predicate Holds(r: Record, c: Cond) {
    c.field in r && r[c.field].Num?
    && match c.op
       case AtMost => r[c.field].n <= c.value
       case AtLeast => r[c.field].n >= c.value
  }

  /** The storage's select: the objects satisfying every condition, in storage order. */
  function Select(objs: Objects, q: seq<Cond>): (r: Objects)
    ensures forall o :: o in r <==> o in objs && forall c :: c in q ==> Holds(o, c)
  {
    if |objs| == 0 then []
    else if forall c :: c in q ==> Holds(objs[0], c) then [objs[0]] + Select(objs[1..], q)
    else Select(objs[1..], q)
  }

  /** calendarQuery: the resource names of the selected objects; none without a calendar. */
  function Query(b: Backend, calendarId: string, filters: seq<CompFilter>, store: Store, sv: Services): (r: seq<string>)
    ensures GetStorageFolder(b, calendarId, sv).None? ==> r == []
    ensures GetStorageFolder(b, calendarId, sv).Some? ==>
      var sel := Select(ObjectsOf(store, GetStorageFolder(b, calendarId, sv).value), BuildQuery(filters));
      |r| == |sel| && forall i :: 0 <= i < |r| ==> r[i] == ObjUid(sel[i]) + ".ics"
  {
    match GetStorageFolder(b, calendarId, sv)
    case None => []
    case Some(f) =>
      var sel := Select(ObjectsOf(store, f), BuildQuery(filters));
      seq(|sel|, i requires 0 <= i < |sel| => ObjUid(sel[i]) + ".ics")
  }

  /** One filter's time-range test: the object starts no later than the range's end and ends no earlier than its start. */
  predicate PassesFilter(r: Record, f: CompFilter) {
    f.name == "VEVENT" && f.timeRange.Some? ==>
      (f.timeRange.value.end.Some? ==> "dtstart" in r && r["dtstart"].Num? && r["dtstart"].n <= f.timeRange.value.end.value)
      && (f.timeRange.value.start.Some? ==> "dtend" in r && r["dtend"].Num? && r["dtend"].n >= f.timeRange.value.start.value)
  }

  /** The time-range test the query stands for: every event filter's. */
  predicate PassesTimeRanges(r: Record, filters: seq<CompFilter>) {
    forall i :: 0 <= i < |filters| ==> PassesFilter(r, filters[i])
  }

  /** The built query holds of an object exactly when it passes every event filter's time range. */
  lemma {:induction false} QueryMeansTimeRanges(r: Record, filters: seq<CompFilter>)
    ensures (forall c :: c in BuildQuery(filters) ==> Holds(r, c)) <==> PassesTimeRanges(r, filters)
    decreases |filters|
  {
    if |filters| > 0 {
      QueryMeansTimeRanges(r, filters[1..]);
      assert BuildQuery(filters) == FilterConds(filters[0]) + BuildQuery(filters[1..]);
      assert forall i :: 1 <= i < |filters| ==> filters[i] == filters[1..][i - 1];
      assert PassesTimeRanges(r, filters) <==> PassesFilter(r, filters[0]) && PassesTimeRanges(r, filters[1..]);
      FilterCondsMean(r, filters[0]);
      var a := FilterConds(filters[0]);
      var rest := BuildQuery(filters[1..]);
      assert forall c :: c in a + rest <==> c in a || c in rest;
    }
  }

  /** One filter's conditions hold exactly when the object passes its time range. */
  lemma FilterCondsMean(r: Record, f: CompFilter)
    ensures (forall c :: c in FilterConds(f) ==> Holds(r, c)) <==> PassesFilter(r, f)
  {
    if f.name == "VEVENT" && f.timeRange.Some? {
      var t := f.timeRange.value;
      var e := if t.end.Some? then [Cond("dtstart", AtMost, t.end.value)] else [];
      var st := if t.start.Some? then [Cond("dtend", AtLeast, t.start.value)] else [];
      assert FilterConds(f) == e + st;
      assert forall c :: c in e + st <==> c in e || c in st;
      if t.end.Some? { assert Holds(r, Cond("dtstart", AtMost, t.end.value)) <==> "dtstart" in r && r["dtstart"].Num? && r["dtstart"].n <= t.end.value; }
      if t.start.Some? { assert Holds(r, Cond("dtend", AtLeast, t.start.value)) <==> "dtend" in r && r["dtend"].Num? && r["dtend"].n >= t.start.value; }
    }
  }

  /**
   * Every stored event whose period [dtstart, dtend) overlaps every event
   * filter's time range (section 9.9 of RFC 4791: start < dtend and
   * end > dtstart, an absent bound being unbounded) is among the results.
   */
  lemma OverlappingEventFound(b: Backend, calendarId: string, filters: seq<CompFilter>, store: Store, sv: Services,
                              o: Record)
    requires GetStorageFolder(b, calendarId, sv).Some?
    requires o in ObjectsOf(store, GetStorageFolder(b, calendarId, sv).value)
    requires "dtstart" in o && o["dtstart"].Num? && "dtend" in o && o["dtend"].Num?
    requires forall i :: 0 <= i < |filters| && filters[i].name == "VEVENT" && filters[i].timeRange.Some? ==>
      var t := filters[i].timeRange.value;
      (t.start.Some? ==> t.start.value < o["dtend"].n) && (t.end.Some? ==> o["dtstart"].n < t.end.value)
    ensures ObjUid(o) + ".ics" in Query(b, calendarId, filters, store, sv)
  {
    QueryMeansTimeRanges(o, filters);
    var sel := Select(ObjectsOf(store, GetStorageFolder(b, calendarId, sv).value), BuildQuery(filters));
    assert o in sel;
    var i :| 0 <= i < |sel| && sel[i] == o;
    assert Query(b, calendarId, filters, store, sv)[i] == ObjUid(o) + ".ics";
  }

  /** Filters on to-dos, journals or other components select every stored object. */
  lemma NonEventFiltersSelectAll(b: Backend, calendarId: string, filters: seq<CompFilter>, store: Store, sv: Services)
    requires GetStorageFolder(b, calendarId, sv).Some?
    requires forall i :: 0 <= i < |filters| ==> filters[i].name != "VEVENT"
    ensures |Query(b, calendarId, filters, store, sv)| == |ObjectsOf(store, GetStorageFolder(b, calendarId, sv).value)|
  {
    SelectAll(ObjectsOf(store, GetStorageFolder(b, calendarId, sv).value));
  }

  lemma {:induction false} SelectAll(objs: Objects)
    ensures Select(objs, []) == objs
  {
    if |objs| > 0 {
      SelectAll(objs[1..]);
      assert [objs[0]] + objs[1..] == objs;
    }
  }
}
