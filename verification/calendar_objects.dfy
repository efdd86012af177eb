/**
 * The calendar backend's object resources: listing, reading (including the
 * attachment links handed to Lightning), creating and updating from a PUT
 * body, deleting, the calendar-query translation of section 9.9 of RFC 4791
 * and the entity tags of stored objects. The folder store is a map from IMAP
 * folder name to the folder's objects; the request-scoped redirect name of
 * the CalDAV plugin travels with it.
 */
module CalendarObjects {
  import opened Options
  import opened Strings
  import opened DavCommon
  import opened OrderedMaps
  import opened Records
  import opened Tags
  import opened CalendarBackend
  import CalDavPlugin
  import AttachmentUris
  import DavBackend

  /** The listing entry of one object. */
  datatype ObjectInfo = ObjectInfo(
    id: string,
    uri: string,
    lastmodified: Option<int>,
    calendarid: string,
    etag: string,
    size: Value)

  function InfoOf(md5: string -> string, calendarId: string, r: Record): ObjectInfo {
    ObjectInfo(ObjUid(r), ObjUid(r) + ".ics", LastModified(r), calendarId, ETagOf(md5, r),
               if "_size" in r then r["_size"] else Null)
  }

  /** getCalendarObjects: one entry per stored object, in storage order; none without a folder. */
  function GetCalendarObjects(b: Backend, calendarId: string, store: Store, sv: Services): (r: seq<ObjectInfo>)
    ensures GetStorageFolder(b, calendarId, sv).None? ==> r == []
    ensures GetStorageFolder(b, calendarId, sv).Some? ==>
      var objs := ObjectsOf(store, GetStorageFolder(b, calendarId, sv).value);
      |r| == |objs| && forall i :: 0 <= i < |r| ==>
        r[i].uri == r[i].id + ".ics" && r[i].calendarid == calendarId && r[i].etag == ETagOf(sv.md5, objs[i])
        && ObjUid(objs[i]) == r[i].id && r[i].lastmodified == LastModified(objs[i])
  {
    match GetStorageFolder(b, calendarId, sv)
    case None => []
    case Some(f) =>
      var objs := ObjectsOf(store, f);
      seq(|objs|, i requires 0 <= i < |objs| => InfoOf(sv.md5, calendarId, objs[i]))
  }

  // ---------------------------------------------------------------- reading one object

  /** What _to_ical hands to the iCalendar exporter. */
  datatype ExportRequest = ExportRequest(
    agent: string,               // "Apple" for iCal clients
    attachUri: Option<string>,   // the link template for Lightning
    embed: bool,                 // attachments fetched and embedded
    event: Record)

  /** The answer to a GET of an object resource. */
  datatype ObjectResponse =
    | NoObject                   // the empty array: no such object
    | AttachmentContent(uid: string, part: string, mimetype: string, name: string)
    | ObjectData(id: string, uri: string, lastmodified: Option<int>, calendarid: string,
                 calendardata: ExportRequest, etag: string)

  /** The uid named by an object URI: basename(uri, '.ics'). */
  function UriUid(objectUri: string): string {
    Basename(objectUri, ".ics")
  }

  /** The attachment of a stored object with the given part number: the first match in list order. */
  function FindAttachment(slots: seq<Slot>, part: string): (r: Option<Attachment>)
    ensures r.Some? ==> Present(r.value) in slots && r.value.id == part
    ensures r.None? ==> forall s :: s in slots && s.Present? ==> s.attachment.id != part
  {
    if |slots| == 0 then None
    else if slots[0].Present? && slots[0].attachment.id == part then Some(slots[0].attachment)
    else FindAttachment(slots[1..], part)
  }

  /** The stored attachment list of an object, in list order. */
  function StoredSlots(r: Record): seq<Slot> {
    if "_attachments" in r && r["_attachments"].Attachments? && r["_attachments"].slots.Valid()
    then r["_attachments"].slots.Values()
    else []
  }

  /** The absolute URI of an object, the base of its attachment links. */
  function ObjectBaseUri(b: Backend, calendarId: string, uid: string, env: DavBackend.ServerEnv,
                         urlencode: string -> string): string {
    var owner := if b.calendars.Some? && calendarId in b.calendars.value.entries
      then b.calendars.value.entries[calendarId].principaluri else "";
    DavBackend.AbsUrlAsWritten(env, ["calendars", RemoveAll(owner, "principals/"), calendarId, uid + ".ics"], urlencode)
  }

  /** _to_ical: Apple agent for iCal, link template for Lightning, embedded attachments otherwise. */
  function ToIcal(b: Backend, event: Record, baseUri: string): (r: ExportRequest)
    ensures r.agent == "Apple" <==> b.useragent == Some(ICal)
    ensures r.attachUri.Some? <==> b.useragent == Some(Lightning)
    ensures r.embed <==> b.useragent != Some(Lightning)
    ensures r.attachUri.Some? ==> StartsWith(r.attachUri.value, baseUri)
    ensures r.event == event
  {
    ExportRequest(if b.useragent == Some(ICal) then "Apple" else "",
                  if b.useragent == Some(Lightning) then Some(baseUri + ":attachment:{{id}}:{{name}}") else None,
                  b.useragent != Some(Lightning),
                  event)
  }

  /**
   * getCalendarObject: the object named by the URI, or one of its
   * attachments when the URI is an attachment link.
   */
  function GetCalendarObject(b: Backend, calendarId: string, objectUri: string, store: Store, sv: Services,
                             env: DavBackend.ServerEnv, urlencode: string -> string): (r: ObjectResponse)
    ensures var m := AttachmentUris.ParseAttachmentUri(objectUri);
      var uid := if m.Some? then m.value.0 else UriUid(objectUri);
      var f := GetStorageFolder(b, calendarId, sv);
      (r.NoObject? <==> f.None? || GetObject(ObjectsOf(store, f.value), uid).None?)
      && (r.AttachmentContent? ==> m.Some? && r.uid == uid && r.part == m.value.1)
      && (r.ObjectData? ==>
            (r.id == uid && r.uri == uid + ".ics" && r.calendarid == calendarId
             && r.etag == ETagOf(sv.md5, GetObject(ObjectsOf(store, f.value), uid).value)))
  {
    var m := AttachmentUris.ParseAttachmentUri(objectUri);
    var uid := if m.Some? then m.value.0 else UriUid(objectUri);
    var part := if m.Some? then m.value.1 else "";
    match GetStorageFolder(b, calendarId, sv)
    case None => NoObject
    case Some(f) =>
      match GetObject(ObjectsOf(store, f), uid)
      case None => NoObject
      case Some(ev) =>
        var att := if Truthy(part) then FindAttachment(StoredSlots(ev), part) else None;
        if att.Some? then AttachmentContent(uid, part, att.value.mimetype, att.value.name)
        else
          var event := ev["attachments" := if "_attachments" in ev then ev["_attachments"] else Null];
          var baseUri := ObjectBaseUri(b, calendarId, ObjUid(ev), env, urlencode);
          ObjectData(ObjUid(ev), ObjUid(ev) + ".ics", LastModified(ev), calendarId,
                     ToIcal(b, event, baseUri), ETagOf(sv.md5, ev))
  }

  /**
   * Every listed object is read back under its listed URI with the listed
   * tag, for a uid that is non-empty, has no '/' or ':', and is not shared
   * with an earlier object.
   */
  lemma ListingThenGet(b: Backend, calendarId: string, store: Store, sv: Services,
                       env: DavBackend.ServerEnv, urlencode: string -> string, i: nat)
    requires i < |GetCalendarObjects(b, calendarId, store, sv)|
    requires var info := GetCalendarObjects(b, calendarId, store, sv)[i];
      |info.id| > 0 && '/' !in info.id && ':' !in info.id
    requires var objs := ObjectsOf(store, GetStorageFolder(b, calendarId, sv).value);
      forall j :: 0 <= j < i ==> UidOf(objs[j]) != UidOf(objs[i])
    ensures var info := GetCalendarObjects(b, calendarId, store, sv)[i];
      var r := GetCalendarObject(b, calendarId, info.uri, store, sv, env, urlencode);
      r.ObjectData? && r.id == info.id && r.uri == info.uri && r.etag == info.etag
  {
    var info := GetCalendarObjects(b, calendarId, store, sv)[i];
    var objs := ObjectsOf(store, GetStorageFolder(b, calendarId, sv).value);
    AttachmentUris.PlainNameNotAttachment(info.id);
    BasenameOfName(info.id, ".ics");
    FirstWithUid(objs, i, info.id);
  }

  /** The first object carrying a uid is the one get_object finds. */
  lemma {:induction false} FirstWithUid(objs: Objects, i: nat, uid: string)
    requires i < |objs| && UidOf(objs[i]) == Some(uid)
    requires forall j :: 0 <= j < i ==> UidOf(objs[j]) != Some(uid)
    ensures GetObject(objs, uid) == Some(objs[i])
    decreases i
  {
    if i > 0 {
      assert forall j :: 0 <= j < i - 1 ==> objs[1..][j] == objs[j + 1];
      FirstWithUid(objs[1..], i - 1, uid);
    }
  }

  /**
   * The attachment link given to Lightning is served: once the template is
   * filled in with a part number and a file name, a request for it yields the
   * attachment's content, for a uid without newlines and a name without
   * newlines or colons.
   */
  lemma AttachmentLinkServed(b: Backend, calendarId: string, store: Store, sv: Services,
                             env: DavBackend.ServerEnv, urlencode: string -> string,
                             uid: string, att: Attachment)
    requires |uid| >= 1 && AttachmentUris.NoNewline(uid)
    requires |att.id| >= 1 && AllDigits(att.id) && Truthy(att.id)
    requires |att.name| >= 1 && AttachmentUris.NoNewline(att.name) && ':' !in att.name
    requires GetStorageFolder(b, calendarId, sv).Some?
    requires var objs := ObjectsOf(store, GetStorageFolder(b, calendarId, sv).value);
      GetObject(objs, uid).Some? && FindAttachment(StoredSlots(GetObject(objs, uid).value), att.id) == Some(att)
    ensures var link := AttachmentUris.AttachmentName(uid, att.id, att.name);
      GetCalendarObject(b, calendarId, link, store, sv, env, urlencode)
        == AttachmentContent(uid, att.id, att.mimetype, att.name)
  {
    AttachmentUris.AttachmentNameRoundTrip(uid, att.id, att.name);
  }

  /**
   * Lightning's link template starts with the object's absolute URI, whose
   * path decodes to the calendar home, the calendar and `<uid>.ics`.
   */
  lemma LightningLinkNamesObject(b: Backend, calendarId: string, uid: string, event: Record,
                                 env: DavBackend.ServerEnv, urlencode: string -> string,
                                 urldecode: string -> string)
    requires b.useragent == Some(Lightning)
    requires forall s :: '/' !in urlencode(s)
    requires forall s :: urldecode(urlencode(s)) == s
    ensures var base := ObjectBaseUri(b, calendarId, uid, env, urlencode);
      var t := ToIcal(b, event, base);
      var owner := if b.calendars.Some? && calendarId in b.calendars.value.entries
        then b.calendars.value.entries[calendarId].principaluri else "";
      var parts := ["calendars", RemoveAll(owner, "principals/"), calendarId, uid + ".ics"];
      t.attachUri == Some(base + ":attachment:{{id}}:{{name}}")
      && EndsWith(base, "/" + Join(MapSeq(urlencode, parts), "/"))
      && MapSeq(urldecode, Split(Join(MapSeq(urlencode, parts), "/"), '/')) == parts
  {
    var owner := if b.calendars.Some? && calendarId in b.calendars.value.entries
      then b.calendars.value.entries[calendarId].principaluri else "";
    DavBackend.AbsUrlParts(env, ["calendars", RemoveAll(owner, "principals/"), calendarId, uid + ".ics"], urlencode, urldecode);
  }
}
