/**
 * The calendar backend's writes of object resources from PUT bodies and
 * DELETE requests: parsing (reusing the plugin's parse cache), the redirect
 * to the object's own UID when the request URI names another, the copying
 * of storage meta data from the stored version, and the replacement of
 * attachments.
 */
module CalendarWrites {
  import opened Options
  import opened Strings
  import opened DavCommon
  import opened Records
  import opened CalendarBackend
  import opened CalendarObjects
  import CalDavPlugin

  /**
   * The iCalendar import the backend calls: on text (None for a parse
   * exception) or on the VCALENDAR the plugin already parsed.
   */
  datatype Parser = Parser(
    cache: CalDavPlugin.ParseCache,
    importText: string -> Option<seq<Record>>,
    importVObject: Option<CalDavPlugin.Component> -> Option<seq<Record>>)

  /** The plugin's parse is reused exactly when its cached event has the uid of the request URI. */
  predicate UsesCache(p: Parser, uid: string) {
    p.cache.vevent.Some? && CalDavPlugin.UidString(p.cache.vevent.value) == uid
  }

  /** parse_calendar_data: the first imported object, None for a parse error or an empty import. */
  function ParseCalendarData(p: Parser, data: string, uid: string): (r: Option<Record>)
    ensures var objects := if UsesCache(p, uid) then p.importVObject(p.cache.vcalendar) else p.importText(data);
      r.Some? <==> objects.Some? && |objects.value| > 0
    ensures r.Some? ==>
      r.value == (if UsesCache(p, uid) then p.importVObject(p.cache.vcalendar) else p.importText(data)).value[0]
  {
    var objects := if UsesCache(p, uid) then p.importVObject(p.cache.vcalendar) else p.importText(data);
    if objects.Some? && |objects.value| > 0 then Some(objects.value[0]) else None
  }

  /** A cache left by a body with another UID has no effect: the request body itself is parsed. */
  lemma StaleCacheIgnored(p: Parser, data: string, uid: string)
    requires p.cache.vevent.Some? ==> CalDavPlugin.UidString(p.cache.vevent.value) != uid
    ensures ParseCalendarData(p, data, uid) == ParseCalendarData(p.(cache := CalDavPlugin.ParseCache(None, None)), data, uid)
  {
  }

  /**
   * After the plugin validated a body whose first event or to-do has the
   * URI's uid, the backend imports the plugin's parsed calendar instead of
   * the text.
   */
  lemma ValidatedBodyReused(p: Parser, vobj: CalDavPlugin.Component, data: string, uid: string)
    requires vobj.name == "VCALENDAR"
    requires var ev := CalDavPlugin.FirstEventOrTodo(CalDavPlugin.BaseComponents(vobj));
      ev.Some? && CalDavPlugin.UidString(ev.value) == uid
    ensures var p' := p.(cache := CalDavPlugin.CacheParsed(p.cache, vobj));
      UsesCache(p', uid) && p'.cache.vcalendar == Some(vobj)
  {
  }

  /** Creating moves the parsed `attachments` to `_attachments` (null when there were none). */
  function WithStoredAttachments(obj: Record): (r: Record)
    ensures "attachments" !in r && "_attachments" in r
    ensures r["_attachments"] == (if "attachments" in obj then obj["attachments"] else Null)
    ensures forall k :: k != "attachments" && k != "_attachments" ==> (k in r <==> k in obj) && (k in r ==> r[k] == obj[k])
    ensures UidOf(r) == UidOf(obj)
  {
    (obj - {"attachments"})["_attachments" := if "attachments" in obj then obj["attachments"] else Null]
  }

  /** The object an update stores: the new object with the stored meta data carried forward and attachments replaced. */
  function UpdatedObject(obj: Record, stored: Option<Record>): (r: Record)
    ensures UidOf(r) == UidOf(obj)
  {
    ProcessAttachments(CarryForward(obj, stored.GetOr(map[])), stored)
  }

  /**
   * updateCalendarObject. `saved` is the message number the server assigns
   * to the new version, None when the save fails.
   */
  function UpdateCalendarObject(b: Backend, calendarId: string, objectUri: string, data: string, p: Parser,
                                io: Io, saved: Option<nat>, sv: Services): (r: (Io, Result<string>))
    ensures var uid := UriUid(objectUri); var obj := ParseCalendarData(p, data, uid);
      var f := GetStorageFolder(b, calendarId, sv);
      && (r.1 == Err(ParseError) <==> obj.None?)
      && (r.1 == Err(UidMismatch) <==> obj.Some? && ObjUid(obj.value) != uid)
      && (r.1 == Err(NullFolder) <==> obj.Some? && ObjUid(obj.value) == uid && f.None?)
      && (r.1 == Err(SaveError) <==> obj.Some? && ObjUid(obj.value) == uid && f.Some? && saved.None?)
      && (r.1.Err? ==> r.0.store == io.store)
      && (r.1 == Err(SaveError) ==> r.0.redirect == None)
      && (r.1 != Err(SaveError) ==> r.0.redirect == io.redirect)
      && (r.1.Ok? ==>
            (saved.Some? && f.Some?
             && r.1.value == Tags.ETag(sv.md5, uid, saved.value)
             && r.0.store.Keys == io.store.Keys + {f.value.name}
             && (forall n :: n in io.store && n != f.value.name ==> r.0.store[n] == io.store[n])))
  {
    var uid := UriUid(objectUri);
    match ParseCalendarData(p, data, uid)
    case None => (io, Err(ParseError))
    case Some(obj) =>
      if ObjUid(obj) != uid then (io, Err(UidMismatch))
      else match GetStorageFolder(b, calendarId, sv)
      case None => (io, Err(NullFolder))
      case Some(f) =>
        var objs := ObjectsOf(io.store, f);
        var o := UpdatedObject(obj, GetObject(objs, uid));
        match saved
        case None => (io.(redirect := None), Err(SaveError))
        case Some(msguid) =>
          var (objs', stored) := Save(objs, o, Some(uid), msguid);
          ETagOfSaved(sv.md5, objs, o, Some(uid), msguid);
          (io.(store := io.store[f.name := objs']), Ok(ETagOf(sv.md5, stored)))
  }

  /**
   * The object an update stores keeps the new content (apart from the
   * attachment list) and every meta data key of the stored version that the
   * new content leaves unset (apart from the stored attachment list).
   */
  lemma UpdatedObjectKeeps(obj: Record, prior: Option<Record>)
    ensures var o := UpdatedObject(obj, prior);
      && (forall k :: k in obj && (IsSet(obj, k) || !IsMetaKey(k)) && k != "attachments" && k != "_attachments" ==>
            k in o && o[k] == obj[k])
      && (forall k :: prior.Some? && k in prior.value && IsMetaKey(k) && !IsSet(obj, k) && k != "_attachments" ==>
            k in o && o[k] == prior.value[k])
  {
    var o1 := CarryForward(obj, prior.GetOr(map[]));
    var o := UpdatedObject(obj, prior);
    assert forall k :: k in o1 && k != "_attachments" && k != "attachments" ==> k in o && o[k] == o1[k];
  }

  /** The same keys survive once the message number is set on the updated object. */
  lemma StoredObjectKeeps(obj: Record, prior: Option<Record>, msguid: nat)
    ensures var got := UpdatedObject(obj, prior)["_msguid" := Num(msguid)];
      && (forall k :: (k in obj && (IsSet(obj, k) || !IsMetaKey(k)) && k != "attachments" && k != "_msguid"
            && k != "_attachments") ==> k in got && got[k] == obj[k])
      && (forall k :: (prior.Some? && k in prior.value && IsMetaKey(k) && !IsSet(obj, k)
            && k != "_msguid" && k != "_attachments") ==> k in got && got[k] == prior.value[k])
  {
    UpdatedObjectKeeps(obj, prior);
  }

  /** A successful update stores the updated object in place of the stored version. */
  lemma UpdateStores(b: Backend, calendarId: string, objectUri: string, data: string, p: Parser,
                     io: Io, saved: Option<nat>, sv: Services)
    requires UpdateCalendarObject(b, calendarId, objectUri, data, p, io, saved, sv).1.Ok?
    ensures var uid := UriUid(objectUri);
      var obj := ParseCalendarData(p, data, uid).value;
      var f := GetStorageFolder(b, calendarId, sv).value;
      var objs := ObjectsOf(io.store, f);
      ObjectsOf(UpdateCalendarObject(b, calendarId, objectUri, data, p, io, saved, sv).0.store, f)
        == Save(objs, UpdatedObject(obj, GetObject(objs, uid)), Some(uid), saved.value).0
  {
  }

  /**
   * After an update the object is read back by its uid as stored: the new
   * content, every meta data key of the stored version that the new content
   * leaves unset (other than the message number and the attachment list),
   * and the new message number.
   */
  lemma UpdateThenRead(b: Backend, calendarId: string, objectUri: string, data: string, p: Parser,
                       io: Io, saved: Option<nat>, sv: Services)
    requires UpdateCalendarObject(b, calendarId, objectUri, data, p, io, saved, sv).1.Ok?
    requires |UriUid(objectUri)| > 0
    ensures var uid := UriUid(objectUri);
      var obj := ParseCalendarData(p, data, uid).value;
      var f := GetStorageFolder(b, calendarId, sv).value;
      var prior := GetObject(ObjectsOf(io.store, f), uid);
      var io' := UpdateCalendarObject(b, calendarId, objectUri, data, p, io, saved, sv).0;
      var got := GetObject(ObjectsOf(io'.store, f), uid);
      got.Some? && MsgUid(got.value) == saved.value
      && (forall k :: (k in obj && (IsSet(obj, k) || !IsMetaKey(k)) && k != "attachments" && k != "_msguid"
            && k != "_attachments") ==> k in got.value && got.value[k] == obj[k])
      && (forall k :: (prior.Some? && k in prior.value && IsMetaKey(k) && !IsSet(obj, k)
            && k != "_msguid" && k != "_attachments") ==> k in got.value && got.value[k] == prior.value[k])
  {
    var uid := UriUid(objectUri);
    var obj := ParseCalendarData(p, data, uid).value;
    var f := GetStorageFolder(b, calendarId, sv).value;
    var objs := ObjectsOf(io.store, f);
    var prior := GetObject(objs, uid);
    var o := UpdatedObject(obj, prior);
    var io' := UpdateCalendarObject(b, calendarId, objectUri, data, p, io, saved, sv).0;
    var got := o["_msguid" := Num(saved.value)];
    assert GetObject(ObjectsOf(io'.store, f), uid) == Some(got) by {
      UpdateStores(b, calendarId, objectUri, data, p, io, saved, sv);
      SaveReplaces(objs, o, uid, saved.value);
    }
    StoredObjectKeeps(obj, prior, saved.value);
  }

  /**
   * createCalendarObject. A body whose UID differs from the URI's and names
   * an existing object is an update of that object under its own name, with
   * a redirect to it; otherwise a new object is stored, with a redirect when
   * the names differ.
   */
  function CreateCalendarObject(b: Backend, calendarId: string, objectUri: string, data: string, p: Parser,
                                io: Io, saved: Option<nat>, sv: Services): (r: (Io, Result<string>))
    ensures var uid := UriUid(objectUri); var obj := ParseCalendarData(p, data, uid);
      var f := GetStorageFolder(b, calendarId, sv);
      && (obj.None? || !Truthy(ObjUid(obj.value)) ==> r == (io, Err(ParseError)))
      && (obj.Some? && Truthy(ObjUid(obj.value)) && ObjUid(obj.value) != uid && f.Some?
          && GetObject(ObjectsOf(io.store, f.value), ObjUid(obj.value)).Some? ==>
            r == UpdateCalendarObject(b, calendarId, ObjUid(obj.value) + ".ics", data, p,
                                      io.(redirect := Some(ObjUid(obj.value) + ".ics")), saved, sv))
      && (obj.Some? && Truthy(ObjUid(obj.value)) && f.None? ==> r == (io, Err(NullFolder)))
      && (obj.Some? && Truthy(ObjUid(obj.value)) && f.Some?
          && (ObjUid(obj.value) == uid || GetObject(ObjectsOf(io.store, f.value), ObjUid(obj.value)).None?) ==>
            && (saved.None? ==> r == (io, Err(SaveError)))
            && (saved.Some? ==>
                  && r.1 == Ok(Tags.ETag(sv.md5, ObjUid(obj.value), saved.value))
                  && r.0.redirect == (if ObjUid(obj.value) != uid then Some(ObjUid(obj.value) + ".ics") else io.redirect)
                  && r.0.store == io.store[f.value.name :=
                       Save(ObjectsOf(io.store, f.value), WithStoredAttachments(obj.value), None, saved.value).0]))
  {
    var uid := UriUid(objectUri);
    match ParseCalendarData(p, data, uid)
    case None => (io, Err(ParseError))
    case Some(obj) =>
      var ouid := ObjUid(obj);
      if !Truthy(ouid) then (io, Err(ParseError))
      else match GetStorageFolder(b, calendarId, sv)
      case None => (io, Err(NullFolder))
      case Some(f) =>
        var objs := ObjectsOf(io.store, f);
        if ouid != uid && GetObject(objs, ouid).Some? then
          UpdateCalendarObject(b, calendarId, ouid + ".ics", data, p, io.(redirect := Some(ouid + ".ics")), saved, sv)
        else
          var o := WithStoredAttachments(obj);
          match saved
          case None => (io, Err(SaveError))
          case Some(msguid) =>
            var (objs', stored) := Save(objs, o, None, msguid);
            ETagOfSaved(sv.md5, objs, o, None, msguid);
            assert UidOf(o) == UidOf(obj);
            (Io(io.store[f.name := objs'], if ouid != uid then Some(ouid + ".ics") else io.redirect),
             Ok(ETagOf(sv.md5, stored)))
  }

  /**
   * A new object PUT under its own name `<uid>.ics` is read back under that
   * name with the tag the PUT returned.
   */
  lemma CreateThenGet(b: Backend, calendarId: string, uid: string, data: string, p: Parser,
                      io: Io, msguid: nat, sv: Services, env: DavBackend.ServerEnv, urlencode: string -> string)
    requires Truthy(uid) && '/' !in uid && ':' !in uid
    requires var obj := ParseCalendarData(p, data, uid); obj.Some? && ObjUid(obj.value) == uid
    requires var f := GetStorageFolder(b, calendarId, sv); f.Some? && GetObject(ObjectsOf(io.store, f.value), uid).None?
    ensures var r := CreateCalendarObject(b, calendarId, uid + ".ics", data, p, io, Some(msguid), sv);
      var got := GetCalendarObject(b, calendarId, uid + ".ics", r.0.store, sv, env, urlencode);
      r.1.Ok? && got.ObjectData? && got.id == uid && got.etag == r.1.value
      && r.0.redirect == io.redirect
  {
    BasenameOfName(uid, ".ics");
    AttachmentUris.PlainNameNotAttachment(uid);
    var obj := ParseCalendarData(p, data, uid).value;
    var f := GetStorageFolder(b, calendarId, sv).value;
    var objs := ObjectsOf(io.store, f);
    var o := WithStoredAttachments(obj);
    var r := CreateCalendarObject(b, calendarId, uid + ".ics", data, p, io, Some(msguid), sv);
    var saved := Save(objs, o, None, msguid);
    CreateFresh(b, calendarId, uid + ".ics", data, p, io, msguid, sv);
    assert ObjectsOf(r.0.store, f) == saved.0;
    SaveThenGet(objs, o, uid, msguid);
    assert GetObject(saved.0, uid) == Some(saved.1);
    ETagOfSaved(sv.md5, objs, o, None, msguid);
    assert ETagOf(sv.md5, saved.1) == r.1.value;
  }

  /** A create under the body's own name stores the object as new. */
  lemma CreateFresh(b: Backend, calendarId: string, objectUri: string, data: string, p: Parser,
                    io: Io, msguid: nat, sv: Services)
    requires var obj := ParseCalendarData(p, data, UriUid(objectUri));
      obj.Some? && ObjUid(obj.value) == UriUid(objectUri) && Truthy(UriUid(objectUri))
    requires GetStorageFolder(b, calendarId, sv).Some?
    ensures var obj := ParseCalendarData(p, data, UriUid(objectUri)).value;
      var f := GetStorageFolder(b, calendarId, sv).value;
      var r := CreateCalendarObject(b, calendarId, objectUri, data, p, io, Some(msguid), sv);
      r.0.store == io.store[f.name := Save(ObjectsOf(io.store, f), WithStoredAttachments(obj), None, msguid).0]
      && r.1 == Ok(Tags.ETag(sv.md5, UriUid(objectUri), msguid))
      && r.0.redirect == io.redirect
  {
  }

  /** A PUT whose body names another object is redirected to that object's own name, which is where it is stored. */
  lemma RedirectNamesBodyUid(b: Backend, calendarId: string, objectUri: string, data: string, p: Parser,
                             io: Io, msguid: nat, sv: Services)
    requires var obj := ParseCalendarData(p, data, UriUid(objectUri));
      obj.Some? && Truthy(ObjUid(obj.value)) && ObjUid(obj.value) != UriUid(objectUri)
    requires GetStorageFolder(b, calendarId, sv).Some?
    ensures var r := CreateCalendarObject(b, calendarId, objectUri, data, p, io, Some(msguid), sv);
      var ouid := ObjUid(ParseCalendarData(p, data, UriUid(objectUri)).value);
      r.1.Ok? ==> r.0.redirect == Some(ouid + ".ics")
  {
  }

  /** A failed write leaves the store as it was. */
  lemma FailedWriteKeepsStore(b: Backend, calendarId: string, objectUri: string, data: string, p: Parser,
                              io: Io, saved: Option<nat>, sv: Services)
    ensures CreateCalendarObject(b, calendarId, objectUri, data, p, io, saved, sv).1.Err? ==>
      CreateCalendarObject(b, calendarId, objectUri, data, p, io, saved, sv).0.store == io.store
    ensures UpdateCalendarObject(b, calendarId, objectUri, data, p, io, saved, sv).1.Err? ==>
      UpdateCalendarObject(b, calendarId, objectUri, data, p, io, saved, sv).0.store == io.store
  {
  }

  /** deleteCalendarObject: removes the object named by the URI when the calendar exists. */
  function DeleteCalendarObject(b: Backend, calendarId: string, objectUri: string, store: Store, sv: Services)
    : (r: Store)
    ensures GetStorageFolder(b, calendarId, sv).None? ==> r == store
    ensures GetStorageFolder(b, calendarId, sv).Some? ==>
      var f := GetStorageFolder(b, calendarId, sv).value;
      GetObject(ObjectsOf(r, f), UriUid(objectUri)).None?
      && forall other :: other != UriUid(objectUri) ==>
           (GetObject(ObjectsOf(r, f), other).Some? <==> GetObject(ObjectsOf(store, f), other).Some?)
  {
    match GetStorageFolder(b, calendarId, sv)
    case None => store
    case Some(f) =>
      var objs := ObjectsOf(store, f);
      forall other | other != UriUid(objectUri)
        ensures GetObject(Delete(objs, UriUid(objectUri)), other).Some? <==> GetObject(objs, other).Some?
      {
        DeleteKeepsOthers(objs, UriUid(objectUri), other);
      }
      DeleteKeepsOthers(objs, UriUid(objectUri), UriUid(objectUri) + "x");
      store[f.name := Delete(objs, UriUid(objectUri))]
  }

  /** After a DELETE of `<uid>.ics`, a GET of it finds nothing. */
  lemma DeleteThenGet(b: Backend, calendarId: string, uid: string, store: Store, sv: Services,
                      env: DavBackend.ServerEnv, urlencode: string -> string)
    requires |uid| > 0 && '/' !in uid && ':' !in uid
    ensures var s := DeleteCalendarObject(b, calendarId, uid + ".ics", store, sv);
      GetCalendarObject(b, calendarId, uid + ".ics", s, sv, env, urlencode).NoObject?
  {
    BasenameOfName(uid, ".ics");
    AttachmentUris.PlainNameNotAttachment(uid);
  }
}
