/**
 * The calendar backend's collections: the calendar folders it lists (event
 * and task folders, addressed by their folder uid or by their IMAP name),
 * the properties it publishes for them, the calendar-level operations and
 * the client classification by User-Agent.
 */
module CalendarBackend {
  import opened Options
  import opened Strings
  import opened DavCommon
  import opened OrderedMaps
  import opened Tags
  import DavBackend

  /** The calendar component each Kolab folder type holds. */
  const TypeComponentMap: map<string, string> := map["event" := "VEVENT", "task" := "VTODO"]

  /** $type_component_map[$type]: null (here "") for other types. */
  function ComponentFor(ftype: string): string {
    if ftype in TypeComponentMap then TypeComponentMap[ftype] else ""
  }

  /** The properties of one calendar collection. */
  datatype CalendarInfo = CalendarInfo(
    id: string,
    uri: string,
    displayname: string,
    color: string,
    ctag: string,
    components: seq<string>,
    transp: string,
    principaluri: string)

  /** The client classes that get special treatment. */
  datatype UserAgent = ICal | Outlook | Lightning

  /**
   * The backend's memory: the calendars read (None before the first read),
   * the folders by uid, the folder uids by IMAP name, the client class.
   */
  datatype Backend = Backend(
    calendars: Option<OMap<string, CalendarInfo>>,
    folders: map<string, Folder>,
    aliases: map<string, string>,
    useragent: Option<UserAgent>)

  /**
   * The library functions the backend relies on: md5, html_entity_decode,
   * the list of all folders, and get_uid on a folder.
   */
  datatype Services = Services(
    md5: string -> string,
    htmlDecode: string -> string,
    allFolders: seq<Folder>,
    uidOf: Folder -> string)

  /** The folder uid is the one get_uid resolves. */
  ghost predicate ResolvesUids(sv: Services) {
    forall f :: sv.uidOf(f) == DavBackend.FolderUid(f, sv.md5)
  }

  /** The services with get_uid as modelled. */
  function StandardServices(md5: string -> string, htmlDecode: string -> string, allFolders: seq<Folder>): (sv: Services)
    ensures ResolvesUids(sv) && sv.md5 == md5 && sv.allFolders == allFolders
  {
    Services(md5, htmlDecode, allFolders, f => DavBackend.FolderUid(f, md5))
  }

  /** The published properties of a folder. */
  function CalendarOf(f: Folder, sv: Services): (c: CalendarInfo)
    ensures c.id == c.uri == sv.uidOf(f)
    ensures c.displayname == sv.htmlDecode(f.displayName) && c.color == f.color
    ensures f.ftype == "event" ==> c.components == ["VEVENT"]
    ensures f.ftype == "task" ==> c.components == ["VTODO"]
    ensures f.ftype != "event" && f.ftype != "task" ==> c.components == [""]
    ensures c.ctag == CTag(f.status) && c.transp == "opaque" && c.principaluri == ""
  {
    var id := sv.uidOf(f);
    CalendarInfo(id, id, sv.htmlDecode(f.displayName), f.color, CTag(f.status), [ComponentFor(f.ftype)], "opaque", "")
  }

  /** The folder uids of a list of folders. */
  function Uids(fs: seq<Folder>, sv: Services): (r: seq<string>)
    ensures |r| == |fs| && forall i :: 0 <= i < |fs| ==> r[i] == sv.uidOf(fs[i])
  {
    seq(|fs|, i requires 0 <= i < |fs| => sv.uidOf(fs[i]))
  }

  /** The IMAP names of a list of folders. */
  function Names(fs: seq<Folder>): (r: seq<string>)
    ensures |r| == |fs| && forall i :: 0 <= i < |fs| ==> r[i] == fs[i].name
  {
    seq(|fs|, i requires 0 <= i < |fs| => fs[i].name)
  }

  /** The uids of a list are those of all but its last folder, then the last folder's. */
  lemma UidsSnoc(fs: seq<Folder>, sv: Services)
    requires |fs| > 0
    ensures Uids(fs, sv) == Uids(fs[..|fs| - 1], sv) + [sv.uidOf(fs[|fs| - 1])]
  {
    var u := Uids(fs, sv);
    var u0 := Uids(fs[..|fs| - 1], sv);
    assert forall k :: 0 <= k < |u0| ==> u[k] == u0[k];
  }

  /** The names of a list are those of all but its last folder, then the last folder's. */
  lemma NamesSnoc(fs: seq<Folder>)
    requires |fs| > 0
    ensures Names(fs) == Names(fs[..|fs| - 1]) + [fs[|fs| - 1].name]
  {
    var u := Names(fs);
    var u0 := Names(fs[..|fs| - 1]);
    assert forall k :: 0 <= k < |u0| ==> u[k] == u0[k];
  }

  /** Folder i is the last one listed with its uid (later entries overwrite earlier ones). */
  predicate LastWithUid(fs: seq<Folder>, i: nat, sv: Services)
    requires i < |fs|
  {
    forall j :: i < j < |fs| ==> sv.uidOf(fs[j]) != sv.uidOf(fs[i])
  }

  /** Folder i is the last one listed with its name. */
  predicate LastWithName(fs: seq<Folder>, i: nat)
    requires i < |fs|
  {
    forall j :: i < j < |fs| ==> fs[j].name != fs[i].name
  }

  /** The triple the registration loop builds: calendars, folders by uid, uids by folder name. */
  type Registry = (OMap<string, CalendarInfo>, map<string, Folder>, map<string, string>)

  /** The registry after folder `f` is added. */
  function AddFolder(prev: Registry, f: Folder, sv: Services): Registry {
    var id := sv.uidOf(f);
    (prev.0.Put(id, CalendarOf(f, sv)), prev.1[id := f], prev.2[f.name := id])
  }

  /** The keys of the registry are the initial ones plus the uids of `fs`. */
  ghost predicate RegisteredKeys(cals: OMap<string, CalendarInfo>, folders: map<string, Folder>,
                                 fs: seq<Folder>, sv: Services, r: Registry)
  {
    && r.0.Valid()
    && (forall k :: k in r.0.entries <==> k in cals.entries || k in Uids(fs, sv))
    && (forall k :: k in r.1 <==> k in folders || k in Uids(fs, sv))
  }

  /** The last folder listed with each uid is the one published under it. */
  ghost predicate RegisteredUids(fs: seq<Folder>, sv: Services, r: Registry) {
    forall i :: 0 <= i < |fs| && LastWithUid(fs, i, sv) ==>
      var id := sv.uidOf(fs[i]);
      r.0.Get(id) == Some(CalendarOf(fs[i], sv)) && id in r.1 && r.1[id] == fs[i]
  }

  /** The last folder listed with each name gives that name's alias; no other alias appears. */
  ghost predicate RegisteredNames(aliases: map<string, string>, fs: seq<Folder>, sv: Services, r: Registry) {
    && (forall i :: 0 <= i < |fs| && LastWithName(fs, i) ==>
         fs[i].name in r.2 && r.2[fs[i].name] == sv.uidOf(fs[i]))
    && (forall n :: n in r.2 ==> n in aliases || n in Names(fs))
  }

  /** What the registration loop guarantees after the folders `fs`. */
  ghost predicate Registered(cals: OMap<string, CalendarInfo>, folders: map<string, Folder>, aliases: map<string, string>,
                             fs: seq<Folder>, sv: Services, r: Registry)
  {
    RegisteredKeys(cals, folders, fs, sv, r) && RegisteredUids(fs, sv, r) && RegisteredNames(aliases, fs, sv, r)
  }

  /**
   * The loop of _read_calendars over the sorted folders: each folder is
   * published under its uid and registered as the alias of its name.
   */
  function Register(cals: OMap<string, CalendarInfo>, folders: map<string, Folder>, aliases: map<string, string>,
                    fs: seq<Folder>, sv: Services): (r: Registry)
    requires cals.Valid()
    ensures Registered(cals, folders, aliases, fs, sv, r)
    decreases |fs|
  {
    if |fs| == 0 then (cals, folders, aliases)
    else
      var prev := Register(cals, folders, aliases, fs[..|fs| - 1], sv);
      var f := fs[|fs| - 1];
      KeysStep(cals, folders, fs, sv, prev);
      UidsStep(fs, sv, prev);
      NamesStep(aliases, fs, sv, prev);
      AddFolder(prev, f, sv)
  }

  lemma KeysStep(cals: OMap<string, CalendarInfo>, folders: map<string, Folder>, fs: seq<Folder>, sv: Services, prev: Registry)
    requires |fs| > 0 && RegisteredKeys(cals, folders, fs[..|fs| - 1], sv, prev)
    ensures RegisteredKeys(cals, folders, fs, sv, AddFolder(prev, fs[|fs| - 1], sv))
  {
    var f := fs[|fs| - 1];
    var id := sv.uidOf(f);
    PutSpec(prev.0, id, CalendarOf(f, sv));
    UidsSnoc(fs, sv);
  }

  lemma UidsStep(fs: seq<Folder>, sv: Services, prev: Registry)
    requires |fs| > 0 && prev.0.Valid() && RegisteredUids(fs[..|fs| - 1], sv, prev)
    ensures RegisteredUids(fs, sv, AddFolder(prev, fs[|fs| - 1], sv))
  {
    var n := |fs| - 1;
    var init := fs[..n];
    var f := fs[n];
    var id := sv.uidOf(f);
    var r := AddFolder(prev, f, sv);
    PutSpec(prev.0, id, CalendarOf(f, sv));
    forall i | 0 <= i < |fs| && LastWithUid(fs, i, sv)
      ensures var idi := sv.uidOf(fs[i]);
        r.0.Get(idi) == Some(CalendarOf(fs[i], sv)) && idi in r.1 && r.1[idi] == fs[i]
    {
      if i < n {
        assert LastWithUid(init, i, sv);
        assert init[i] == fs[i];
      }
    }
  }

  lemma NamesStep(aliases: map<string, string>, fs: seq<Folder>, sv: Services, prev: Registry)
    requires |fs| > 0 && RegisteredNames(aliases, fs[..|fs| - 1], sv, prev)
    ensures RegisteredNames(aliases, fs, sv, AddFolder(prev, fs[|fs| - 1], sv))
  {
    var r := AddFolder(prev, fs[|fs| - 1], sv);
    forall i | 0 <= i < |fs| && LastWithName(fs, i)
      ensures fs[i].name in r.2 && r.2[fs[i].name] == sv.uidOf(fs[i])
    {
      NameStepAt(aliases, fs, sv, prev, i);
    }
    NamesSnoc(fs);
  }

  /** One folder's alias survives the addition of a later folder with another name. */
  lemma NameStepAt(aliases: map<string, string>, fs: seq<Folder>, sv: Services, prev: Registry, i: nat)
    requires |fs| > 0 && RegisteredNames(aliases, fs[..|fs| - 1], sv, prev)
    requires i < |fs| && LastWithName(fs, i)
    ensures fs[i].name in AddFolder(prev, fs[|fs| - 1], sv).2
    ensures AddFolder(prev, fs[|fs| - 1], sv).2[fs[i].name] == sv.uidOf(fs[i])
  {
    var n := |fs| - 1;
    if i < n {
      NameBeforeStep(aliases, fs, sv, prev, i);
    }
    NameAfterStep(prev, fs[n], sv, fs[i].name, sv.uidOf(fs[i]));
  }

  /** Before the last folder is added, an earlier folder that is last with its name already has its alias. */
  lemma NameBeforeStep(aliases: map<string, string>, fs: seq<Folder>, sv: Services, prev: Registry, i: nat)
    requires |fs| > 0 && RegisteredNames(aliases, fs[..|fs| - 1], sv, prev)
    requires i < |fs| - 1 && LastWithName(fs, i)
    ensures fs[i].name in prev.2 && prev.2[fs[i].name] == sv.uidOf(fs[i])
    ensures fs[i].name != fs[|fs| - 1].name
  {
    var init := fs[..|fs| - 1];
    assert init[i] == fs[i];
    assert LastWithName(init, i);
  }

  /** Adding a folder sets its name's alias and keeps every other one. */
  lemma NameAfterStep(prev: Registry, f: Folder, sv: Services, name: string, id: string)
    requires name == f.name ==> id == sv.uidOf(f)
    requires name != f.name ==> name in prev.2 && prev.2[name] == id
    ensures name in AddFolder(prev, f, sv).2 && AddFolder(prev, f, sv).2[name] == id
  {
    assert AddFolder(prev, f, sv).2 == prev.2[f.name := sv.uidOf(f)];
  }

  /** _read_calendars: read once, then served from memory. `listed` is the sorted event and task folders. */
  function ReadCalendars(b: Backend, listed: seq<Folder>, sv: Services): (r: Backend)
    ensures b.calendars.Some? ==> r == b
    ensures r.calendars.Some? && r.useragent == b.useragent
    ensures b.calendars.None? ==> r.calendars.value.Valid()
  {
    if b.calendars.Some? then b
    else
      var (cals, folders, aliases) := Register(Empty(), map[], map[], listed, sv);
      Backend(Some(cals), folders, aliases, b.useragent)
  }

  /** Reading twice is reading once. */
  lemma ReadCalendarsOnce(b: Backend, listed: seq<Folder>, other: seq<Folder>, sv: Services)
    ensures ReadCalendars(ReadCalendars(b, listed, sv), other, sv) == ReadCalendars(b, listed, sv)
  {
  }

  /**
   * After the first read every listed folder is published under its uid,
   * with its CTag, and found again by its uid.
   */
  lemma ReadCalendarsPublishes(b: Backend, listed: seq<Folder>, sv: Services, i: nat)
    requires b.calendars.None? && i < |listed| && LastWithUid(listed, i, sv)
    ensures var r := ReadCalendars(b, listed, sv); var id := sv.uidOf(listed[i]);
      r.calendars.value.Get(id) == Some(CalendarOf(listed[i], sv)) && id in r.folders && r.folders[id] == listed[i]
      && r.calendars.value.Get(id).value.ctag == CTag(listed[i].status)
  {
  }

  /** The id after alias resolution: a truthy alias of the name wins. */
  function ResolveAlias(b: Backend, id: string): string {
    if id in b.aliases && Truthy(b.aliases[id]) then b.aliases[id] else id
  }

  /** get_storage_folder: by alias, then among the read folders, then among all folders. */
  function GetStorageFolder(b: Backend, id: string, sv: Services): (r: Option<Folder>)
    ensures ResolveAlias(b, id) in b.folders ==> r == Some(b.folders[ResolveAlias(b, id)])
    ensures ResolveAlias(b, id) !in b.folders ==>
      (r.Some? <==> exists i :: 0 <= i < |sv.allFolders| && DavBackend.FolderUid(sv.allFolders[i], sv.md5) == ResolveAlias(b, id))
  {
    var rid := ResolveAlias(b, id);
    if rid in b.folders then Some(b.folders[rid])
    else
      DavBackend.GetStorageFolder(sv.allFolders, rid, sv.md5)
  }

  /**
   * A listed folder is found by its uid once the calendars are read, as long
   * as no folder is named like that uid.
   */
  lemma StorageFolderByUid(b: Backend, listed: seq<Folder>, sv: Services, i: nat)
    requires b.calendars.None? && i < |listed| && LastWithUid(listed, i, sv)
    requires forall j :: 0 <= j < |listed| ==> listed[j].name != sv.uidOf(listed[i])
    ensures GetStorageFolder(ReadCalendars(b, listed, sv), sv.uidOf(listed[i]), sv) == Some(listed[i])
  {
    var r := ReadCalendars(b, listed, sv);
    var id := sv.uidOf(listed[i]);
    assert id in r.folders && r.folders[id] == listed[i] by {
      ReadCalendarsPublishes(b, listed, sv, i);
    }
    assert id !in r.aliases by {
      var reg := Register(Empty(), map[], map[], listed, sv);
      assert r.aliases == reg.2;
      assert forall j :: 0 <= j < |listed| ==> Names(listed)[j] != id;
    }
  }

  /** The same folder is found by its IMAP name, the alias of its uid. */
  lemma StorageFolderByName(b: Backend, listed: seq<Folder>, sv: Services, i: nat)
    requires b.calendars.None? && i < |listed| && LastWithUid(listed, i, sv) && LastWithName(listed, i)
    requires Truthy(sv.uidOf(listed[i]))
    ensures GetStorageFolder(ReadCalendars(b, listed, sv), listed[i].name, sv) == Some(listed[i])
  {
  }

  /** The calendar properties with the owner set. */
  function WithPrincipal(m: OMap<string, CalendarInfo>, p: string): (r: OMap<string, CalendarInfo>)
    requires m.Valid()
    ensures r.Valid() && r.keys == m.keys
    ensures forall k :: k in m.entries ==> r.Get(k) == Some(m.entries[k].(principaluri := p))
  {
    OMap(m.keys, map k | k in m.entries :: m.entries[k].(principaluri := p))
  }

  /** getCalendarsForUser: every calendar, in listing order, now owned by `principal`. */
  function GetCalendarsForUser(b: Backend, principal: string, listed: seq<Folder>, sv: Services)
    : (r: (Backend, seq<CalendarInfo>))
    requires b.calendars.Some? ==> b.calendars.value.Valid()
    ensures r.0.calendars.Some? && r.0.calendars.value.Valid()
    ensures var prior := ReadCalendars(b, listed, sv).calendars.value;
      |r.1| == |prior.keys| && forall i :: 0 <= i < |r.1| ==>
        prior.keys[i] in prior.entries && r.1[i] == prior.entries[prior.keys[i]].(principaluri := principal)
    ensures var prior := ReadCalendars(b, listed, sv).calendars.value;
      r.0.calendars.value.keys == prior.keys
      && forall k :: k in prior.entries ==> r.0.calendars.value.Get(k) == Some(prior.entries[k].(principaluri := principal))
    ensures r.0.folders == ReadCalendars(b, listed, sv).folders && r.0.aliases == ReadCalendars(b, listed, sv).aliases
  {
    var b1 := ReadCalendars(b, listed, sv);
    var cals := WithPrincipal(b1.calendars.value, principal);
    (b1.(calendars := Some(cals)), cals.Values())
  }

  /**
   * getCalendarByName: the calendar by id or folder name; a calendar without
   * an owner yet gets the authenticated user's principal.
   */
  function GetCalendarByName(b: Backend, uri: string, currentUser: string, listed: seq<Folder>, sv: Services)
    : (r: (Backend, Option<CalendarInfo>))
    requires b.calendars.Some? ==> b.calendars.value.Valid()
    ensures r.0.calendars.Some? && r.0.calendars.value.Valid()
    ensures r.1.Some? <==> ReadCalendars(b, listed, sv).calendars.value.Get(ResolveAlias(ReadCalendars(b, listed, sv), uri)).Some?
    ensures r.1.Some? ==> Truthy(r.1.value.principaluri)
    ensures r.1.Some? ==> var prior := ReadCalendars(b, listed, sv).calendars.value.Get(ResolveAlias(ReadCalendars(b, listed, sv), uri)).value;
      r.1.value == prior.(principaluri := if Truthy(prior.principaluri) then prior.principaluri else "principals/" + currentUser)
  {
    var b1 := ReadCalendars(b, listed, sv);
    var cals := b1.calendars.value;
    var id := ResolveAlias(b1, uri);
    match cals.Get(id)
    case None => (b1, None)
    case Some(c) =>
      if Truthy(c.principaluri) then (b1, Some(c))
      else
        var c' := c.(principaluri := "principals/" + currentUser);
        PutSpec(cals, id, c');
        (b1.(calendars := Some(cals.Put(id, c'))), Some(c'))
  }

  /** After listing the calendars for a principal, looking one up by id reports that principal as its owner. */
  lemma ForUserThenByName(b: Backend, principal: string, listed: seq<Folder>, sv: Services, id: string, user: string)
    requires b.calendars.Some? ==> b.calendars.value.Valid()
    requires Truthy(principal)
    requires var b1 := GetCalendarsForUser(b, principal, listed, sv).0; ResolveAlias(b1, id) == id && id in b1.calendars.value.entries
    ensures var b1 := GetCalendarsForUser(b, principal, listed, sv).0;
      GetCalendarByName(b1, id, user, listed, sv).1.Some?
      && GetCalendarByName(b1, id, user, listed, sv).1.value.principaluri == principal
  {
  }

  /** createCalendar: a new event folder. */
  function CreateCalendar(muts: seq<DavBackend.Mutation>, calendarUri: string, stored: bool, fetched: Option<Folder>,
                          sharedOk: bool, privateOk: bool): (r: DavBackend.CreateResult)
    ensures r.props.ftype == "event"
    ensures r.uid.Some? <==> stored
    ensures r.uid.Some? ==> r.uid.value == calendarUri
  {
    DavBackend.CreatePropertiesLastWins("event", muts);
    DavBackend.FolderCreate("event", muts, calendarUri, stored, fetched, sharedOk, privateOk)
  }

  /**
   * updateCalendar: folder_update on the resolved folder, or on null when
   * none resolves. The supported changes are stored even when another
   * property of the request is refused.
   */
  function UpdateCalendar(b: Backend, id: string, muts: seq<DavBackend.Mutation>, sv: Services,
                          fromUtf7: string -> string, storeOk: bool): (r: Result<DavBackend.FolderUpdateResult>)
    ensures r.Err? <==> GetStorageFolder(b, id, sv).None? && exists i :: 0 <= i < |muts| && muts[i].prop == DavBackend.DisplayNameProp
    ensures GetStorageFolder(b, id, sv).Some? ==> r.Ok? && (r.value.sent.Some? <==> DavBackend.SupportedProps(muts) != [])
    ensures GetStorageFolder(b, id, sv).Some? && r.Ok? && r.value.sent.Some? ==>
      var f := GetStorageFolder(b, id, sv).value;
      var (name, parent) := DavBackend.Destination(f, muts, true, fromUtf7);
      && r.value.sent.value.oldname == Some(f.name) && r.value.sent.value.name == Some(name)
      && r.value.sent.value.parent == Some(parent) && r.value.sent.value.color == DavBackend.RequestedColor(muts)
    ensures GetStorageFolder(b, id, sv).None? && r.Ok? ==>
      (r.value.sent.Some? <==> exists i :: 0 <= i < |muts| && muts[i].prop == DavBackend.CalendarColorProp)
    ensures r.Ok? ==> (r.value.outcome.StoreFailed? <==> r.value.sent.Some? && !storeOk)
    ensures r.Ok? && !r.value.outcome.StoreFailed? ==> r.value.outcome == DavBackend.Answer(muts)
  {
    match GetStorageFolder(b, id, sv)
    case Some(f) =>
      DavBackend.FolderUpdateAsWrittenSpec(f, muts, fromUtf7, storeOk);
      DavBackend.FolderUpdateSendsLocation(f, muts, fromUtf7, storeOk);
      Ok(DavBackend.FolderUpdateAsWritten(f, muts, fromUtf7, storeOk))
    case None => DavBackend.FolderUpdateNoFolder(muts, fromUtf7, storeOk)
  }

  /** deleteCalendar: the IMAP name of the folder to delete, when there is one. */
  function DeleteCalendar(b: Backend, id: string, sv: Services): (r: Option<string>)
    ensures r.Some? <==> GetStorageFolder(b, id, sv).Some?
    ensures r.Some? ==> r.value == GetStorageFolder(b, id, sv).value.name
  {
    match GetStorageFolder(b, id, sv)
    case Some(f) => Some(f.name)
    case None => None
  }

  /** After the first read, every alias is the name of a listed folder. */
  lemma AliasesAreNames(b: Backend, listed: seq<Folder>, sv: Services, n: string)
    requires b.calendars.None? && n in ReadCalendars(b, listed, sv).aliases
    ensures exists j :: 0 <= j < |listed| && listed[j].name == n
  {
    var reg := Register(Empty(), map[], map[], listed, sv);
    assert n in Names(listed);
  }

  /** Lookups by id only read the folders and aliases, which a change of calendar properties leaves alone. */
  lemma StorageFolderIgnoresCalendars(b: Backend, cals: Option<OMap<string, CalendarInfo>>, id: string, sv: Services)
    ensures GetStorageFolder(b.(calendars := cals), id, sv) == GetStorageFolder(b, id, sv)
  {
  }

  /**
   * The calendar a client finds under a listed folder's uid and the folder a
   * DELETE of that uid removes are the same folder.
   */
  lemma DeleteListedCalendar(b: Backend, listed: seq<Folder>, sv: Services, i: nat, user: string)
    requires b.calendars.None? && i < |listed| && LastWithUid(listed, i, sv)
    requires forall j :: 0 <= j < |listed| ==> listed[j].name != sv.uidOf(listed[i])
    ensures var id := sv.uidOf(listed[i]);
      var found := GetCalendarByName(b, id, user, listed, sv);
      && found.1.Some? && found.1.value.id == id
      && found.1.value.displayname == sv.htmlDecode(listed[i].displayName)
      && DeleteCalendar(found.0, id, sv) == Some(listed[i].name)
  {
    var id := sv.uidOf(listed[i]);
    var b1 := ReadCalendars(b, listed, sv);
    ReadCalendarsPublishes(b, listed, sv, i);
    assert id !in b1.aliases by {
      if id in b1.aliases {
        AliasesAreNames(b, listed, sv, id);
        assert false;
      }
    }
    assert ResolveAlias(b1, id) == id;
    assert b1.calendars.value.Get(id) == Some(CalendarOf(listed[i], sv));
    var found := GetCalendarByName(b, id, user, listed, sv);
    assert found.1 == Some(CalendarOf(listed[i], sv).(principaluri := "principals/" + user));
    assert found.0 == b1.(calendars := found.0.calendars);
    StorageFolderIgnoresCalendars(b1, found.0.calendars, id, sv);
    assert GetStorageFolder(b1, id, sv) == Some(listed[i]);
  }

  // ---------------------------------------------------------------- User-Agent classes

  /** The pattern `<token>\d` occurs in the string: the token directly followed by a digit. */
  ghost predicate HasTokenDigit(ua: string, token: string) {
    exists i :: 0 <= i && i + |token| < |ua| && OccursAt(ua, token, i) && IsDigit(ua[i + |token|])
  }

  /** Searches for `<token>\d` from position `from`. */
  function TokenDigitFrom(ua: string, token: string, from: nat): (r: bool)
    ensures r <==> exists i :: from <= i && i + |token| < |ua| && OccursAt(ua, token, i) && IsDigit(ua[i + |token|])
    decreases |ua| - from
  {
    if from + |token| >= |ua| then false
    else if OccursAt(ua, token, from) && IsDigit(ua[from + |token|]) then true
    else TokenDigitFrom(ua, token, from + 1)
  }

  /** preg_match("!<token>\d!", ua) */
  function MatchesToken(ua: string, token: string): (r: bool)
    ensures r <==> HasTokenDigit(ua, token)
  {
    TokenDigitFrom(ua, token, 0)
  }

  /** setUserAgent: the first class whose pattern matches, in the order iCal, Outlook, Lightning; otherwise no change. */
  function SetUserAgent(b: Backend, ua: string): (r: Backend)
    ensures r.calendars == b.calendars && r.folders == b.folders && r.aliases == b.aliases
    ensures r.useragent == Some(ICal) <==>
      (HasTokenDigit(ua, "iCal/") || (b.useragent == Some(ICal) && !HasTokenDigit(ua, "iCal4OL/") && !HasTokenDigit(ua, "Lightning/")))
    ensures HasTokenDigit(ua, "iCal/") ==> r.useragent == Some(ICal)
    ensures !HasTokenDigit(ua, "iCal/") && HasTokenDigit(ua, "iCal4OL/") ==> r.useragent == Some(Outlook)
    ensures !HasTokenDigit(ua, "iCal/") && !HasTokenDigit(ua, "iCal4OL/") && HasTokenDigit(ua, "Lightning/")
      ==> r.useragent == Some(Lightning)
    ensures !HasTokenDigit(ua, "iCal/") && !HasTokenDigit(ua, "iCal4OL/") && !HasTokenDigit(ua, "Lightning/")
      ==> r == b
  {
    if MatchesToken(ua, "iCal/") then b.(useragent := Some(ICal))
    else if MatchesToken(ua, "iCal4OL/") then b.(useragent := Some(Outlook))
    else if MatchesToken(ua, "Lightning/") then b.(useragent := Some(Lightning))
    else b
  }

  /** The Outlook connector's agent string does not count as Apple's: "iCal4OL/2" has no "iCal/<digit>". */
  lemma OutlookIsNotICal()
    ensures !HasTokenDigit("iCal4OL/2", "iCal/") && HasTokenDigit("iCal4OL/2", "iCal4OL/")
  {
    var ua := "iCal4OL/2";
    assert OccursAt(ua, "iCal4OL/", 0);
    assert !MatchesToken(ua, "iCal/") by {
      assert !OccursAt(ua, "iCal/", 0) by { assert ua[4] != '/'; }
    }
  }
}
