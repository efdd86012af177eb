/**
 * The CalDAV plugin's check of PUT bodies (section 4.1 of RFC 4791: one
 * calendar object resource holds components of one type sharing one UID,
 * plus time zones) and the parse cache it leaves for the backend.
 */
module CalDavPlugin {
  import opened Options
  import opened Strings
  import opened DavCommon

  /** A parsed iCalendar component: its name, its UID property, whether it is a recurrence exception, its sub-components. */
  datatype Component = Component(name: string, uid: Option<string>, recurrenceId: bool, children: seq<Component>)

  /** The values the plugin keeps for the rest of the request. */
  datatype ParseCache = ParseCache(vcalendar: Option<Component>, vevent: Option<Component>)

  /** (string)$component->UID: a missing property reads as the empty string. */
  function UidString(c: Component): string {
    c.uid.GetOr("")
  }

  predicate IsTimezone(c: Component) {
    c.name == "VTIMEZONE"
  }

  predicate IsObjectType(name: string) {
    name == "VEVENT" || name == "VTODO" || name == "VJOURNAL"
  }

  /** The position of the first component that is not a time zone. */
  function FirstNonTimezone(cs: seq<Component>): (r: Option<nat>)
    ensures r.None? ==> forall j :: 0 <= j < |cs| ==> IsTimezone(cs[j])
    ensures r.Some? ==> (r.value < |cs| && !IsTimezone(cs[r.value])
      && forall j :: 0 <= j < r.value ==> IsTimezone(cs[j]))
  {
    if |cs| == 0 then None
    else if !IsTimezone(cs[0]) then Some(0)
    else
      var r := FirstNonTimezone(cs[1..]);
      if r.None? then None else Some(r.value + 1)
  }

  /** The first non-time-zone component is the one every component before it is a time zone. */
  lemma FirstNonTimezoneAt(cs: seq<Component>, k: nat)
    requires k < |cs| && !IsTimezone(cs[k])
    requires forall j :: 0 <= j < k ==> IsTimezone(cs[j])
    ensures FirstNonTimezone(cs) == Some(k)
  {
    var f := FirstNonTimezone(cs);
    assert f.Some?;
    assert !(f.value < k) && !(k < f.value);
  }

  /**
   * A calendar object resource: its first non-time-zone component is an
   * event, to-do or journal of a type the calendar supports and has a UID;
   * every later non-time-zone component has the same type and UID.
   */
  predicate WellFormedObject(cs: seq<Component>, supported: seq<string>) {
    var f := FirstNonTimezone(cs);
    f.Some? && IsObjectType(cs[f.value].name) && cs[f.value].name in supported && cs[f.value].uid.Some?
    && forall j :: f.value < j < |cs| && !IsTimezone(cs[j]) ==>
      cs[j].name == cs[f.value].name && UidString(cs[j]) == cs[f.value].uid.value
  }

  /** The object's component type is one the calendar does not support. */
  predicate UnsupportedType(cs: seq<Component>, supported: seq<string>) {
    var f := FirstNonTimezone(cs);
    f.Some? && IsObjectType(cs[f.value].name) && cs[f.value].name !in supported
  }

  /** The base components: sub-components that are not recurrence exceptions. */
  function BaseComponents(c: Component): (r: seq<Component>)
    ensures forall x :: x in r <==> x in c.children && !x.recurrenceId
  {
    Filter(c.children)
  }

  function Filter(cs: seq<Component>): (r: seq<Component>)
    ensures forall x :: x in r <==> x in cs && !x.recurrenceId
  {
    if |cs| == 0 then []
    else if cs[0].recurrenceId then Filter(cs[1..])
    else [cs[0]] + Filter(cs[1..])
  }

  /** The first event or to-do in a list of components. */
  function FirstEventOrTodo(cs: seq<Component>): (r: Option<Component>)
    ensures r.Some? ==> r.value in cs && (r.value.name == "VEVENT" || r.value.name == "VTODO")
    ensures r.None? ==> forall x :: x in cs ==> x.name != "VEVENT" && x.name != "VTODO"
  {
    if |cs| == 0 then None
    else if cs[0].name == "VEVENT" || cs[0].name == "VTODO" then Some(cs[0])
    else FirstEventOrTodo(cs[1..])
  }

  /**
   * Remembers a parsed VCALENDAR and its first base event or to-do; the
   * previous event stays when the calendar has none.
   */
  function CacheParsed(cache: ParseCache, vobj: Component): (r: ParseCache)
    ensures vobj.name != "VCALENDAR" ==> r == cache
    ensures vobj.name == "VCALENDAR" ==> r.vcalendar == Some(vobj)
    ensures vobj.name == "VCALENDAR" && r.vevent != cache.vevent ==>
      r.vevent.Some? && r.vevent.value in vobj.children && !r.vevent.value.recurrenceId
      && (r.vevent.value.name == "VEVENT" || r.vevent.value.name == "VTODO")
    ensures (forall x :: x in vobj.children ==> x.recurrenceId || (x.name != "VEVENT" && x.name != "VTODO"))
      ==> r.vevent == cache.vevent
  {
    if vobj.name == "VCALENDAR" then
      var ev := FirstEventOrTodo(BaseComponents(vobj));
      ParseCache(Some(vobj), if ev.Some? then ev else cache.vevent)
    else cache
  }

  /**
   * validateICalendar: `parsed` is the reader's result (None for a parse
   * error). On success the object's UID is returned.
   */
  method ValidateICalendar(cache: ParseCache, parsed: Option<Component>, supported: seq<string>)
    returns (cache': ParseCache, r: Result<string>)
    ensures parsed.None? ==> cache' == cache
    ensures parsed.Some? ==> cache' == CacheParsed(cache, parsed.value)
    ensures r == Err(UnsupportedMedia) <==> parsed.None? || parsed.value.name != "VCALENDAR"
    ensures r.Ok? <==> parsed.Some? && parsed.value.name == "VCALENDAR" && WellFormedObject(parsed.value.children, supported)
    ensures r == Err(InvalidComponentType) <==>
      parsed.Some? && parsed.value.name == "VCALENDAR" && UnsupportedType(parsed.value.children, supported)
    ensures r.Err? ==> r.error in {UnsupportedMedia, InvalidComponentType, BadRequest}
    ensures r.Ok? ==> var cs := parsed.value.children; r.value == cs[FirstNonTimezone(cs).value].uid.value
  {
    if parsed.None? {
      return cache, Err(UnsupportedMedia);
    }
    var vobj := parsed.value;
    cache' := CacheParsed(cache, vobj);
    if vobj.name != "VCALENDAR" {
      return cache', Err(UnsupportedMedia);
    }
    r := CheckComponents(vobj.children, supported);
  }

  /**
   * The loop over the calendar's components: time zones are skipped; the
   * first event, to-do or journal fixes the type and the UID, and must be of
   * a supported type and have a UID; any other component, or one of another
   * type or UID, is a bad request, and so is a calendar without any.
   */
  method CheckComponents(cs: seq<Component>, supported: seq<string>) returns (r: Result<string>)
    ensures r.Ok? <==> WellFormedObject(cs, supported)
    ensures r == Err(InvalidComponentType) <==> UnsupportedType(cs, supported)
    ensures r.Err? ==> r.error == InvalidComponentType || r.error == BadRequest
    ensures r.Ok? ==> r.value == cs[FirstNonTimezone(cs).value].uid.value
  {
    var foundType: Option<string> := None;
    var foundUid := "";
    ghost var k := 0;
    var i := 0;
    while i < |cs|
      invariant 0 <= i <= |cs|
      invariant foundType.None? ==> forall j :: 0 <= j < i ==> IsTimezone(cs[j])
      invariant foundType.Some? ==> k < i && FirstNonTimezone(cs) == Some(k)
      invariant foundType.Some? ==> (foundType.value == cs[k].name && IsObjectType(cs[k].name)
        && cs[k].name in supported && cs[k].uid == Some(foundUid))
      invariant foundType.Some? ==> forall j :: k < j < i && !IsTimezone(cs[j]) ==>
        cs[j].name == cs[k].name && UidString(cs[j]) == foundUid
    {
      var c := cs[i];
      if c.name == "VTIMEZONE" {
      } else if IsObjectType(c.name) {
        if foundType.None? {
          FirstNonTimezoneAt(cs, i);
          if c.name !in supported {
            return Err(InvalidComponentType);
          }
          if c.uid.None? {
            return Err(BadRequest);
          }
          foundType := Some(c.name);
          foundUid := c.uid.value;
          k := i;
        } else {
          if foundType.value != c.name {
            return Err(BadRequest);
          }
          if foundUid != UidString(c) {
            return Err(BadRequest);
          }
        }
      } else {
        if foundType.None? {
          FirstNonTimezoneAt(cs, i);
        }
        return Err(BadRequest);
      }
      i := i + 1;
    }
    if foundType.None? {
      return Err(BadRequest);
    }
    return Ok(foundUid);
  }
}
