/**
 * The contacts backend's cards: listing a book (with the aggregate book
 * "__all__" listing every source), reading one card as a vCard, creating and
 * updating cards from PUT bodies (with the redirect to the card's own UID
 * and the copying of storage meta data) and deleting them.
 */
module ContactCards {
  import opened Options
  import opened Strings
  import opened DavCommon
  import opened Records
  import opened Tags
  import opened ContactsBackend
  import CB = CalendarBackend
  import VCards

  /**
   * The libkolab contact record of the fields the vCard mapping covers, and
   * the reading of those fields from a stored record.
   */
  datatype Fields = Fields(toRecord: VCards.Contact -> Record, fromRecord: Record -> VCards.Contact)

  /** The object's Kolab type, `_type`, as a string. */
  function TypeOf(r: Record): string {
    if "_type" in r && r["_type"].Str? then r["_type"].s else ""
  }

  /**
   * The record carries the contact's uid and type, and the storage's message
   * number does not change the fields read back.
   */
  ghost predicate Faithful(fl: Fields) {
    && (forall ct :: UidOf(fl.toRecord(ct)) == Some(ct.uid) && TypeOf(fl.toRecord(ct)) == ct.ctype)
    && (forall ct, n: nat :: fl.fromRecord(fl.toRecord(ct)["_msguid" := Num(n)]) == ct)
  }

  /** The uid named by a card URI: basename(uri, '.vcf'). */
  function CardUid(cardUri: string): string {
    Basename(cardUri, ".vcf")
  }

  /** A card named `<uid>.vcf` names the uid, for a plain uid. */
  lemma CardUidOfName(uid: string)
    requires |uid| > 0 && '/' !in uid
    ensures CardUid(uid + ".vcf") == uid
  {
    BasenameOfName(uid, ".vcf");
  }

  // ---------------------------------------------------------------- listing

  /** The listing entry of one card. */
  datatype CardInfo = CardInfo(id: string, uri: string, lastmodified: Option<int>, etag: string, size: Value)

  function InfoOf(md5: string -> string, r: Record): CardInfo {
    CardInfo(ObjUid(r), ObjUid(r) + ".vcf", LastModified(r), ETagOf(md5, r), if "_size" in r then r["_size"] else Null)
  }

  /** The object types a client is shown: Thunderbird gets no groups. */
  function CardTypes(b: Backend): seq<string> {
    if b.useragent != Some(Thunderbird) then ["contact", "distribution-list"] else ["contact"]
  }

  /** The storage's select on the object type: the objects of the listed types, in storage order. */
  function SelectTypes(objs: Objects, types: seq<string>): (r: Objects)
    ensures forall o :: o in r <==> o in objs && TypeOf(o) in types
    ensures |r| <= |objs|
  {
    if |objs| == 0 then []
    else if TypeOf(objs[0]) in types then [objs[0]] + SelectTypes(objs[1..], types)
    else SelectTypes(objs[1..], types)
  }

  /** The objects a book lists for the client: none without a folder. */
  function ListedObjects(b: Backend, bookId: string, store: Store, sv: CB.Services): Objects {
    match GetStorageFolder(b, bookId, sv)
    case None => []
    case Some(f) => SelectTypes(ObjectsOf(store, f), CardTypes(b))
  }

  /** getCards for one source: an entry per selected object, in storage order. */
  function FolderCards(b: Backend, bookId: string, store: Store, sv: CB.Services): (r: seq<CardInfo>)
    ensures var objs := ListedObjects(b, bookId, store, sv);
      |r| == |objs| && forall i :: 0 <= i < |r| ==>
        r[i].id == ObjUid(objs[i]) && r[i].uri == r[i].id + ".vcf" && r[i].etag == ETagOf(sv.md5, objs[i])
        && r[i].lastmodified == LastModified(objs[i])
  {
    var objs := ListedObjects(b, bookId, store, sv);
    seq(|objs|, i requires 0 <= i < |objs| => InfoOf(sv.md5, objs[i]))
  }

  /** The listings of the sources `ids`, one after the other. */
  function AllCards(b: Backend, ids: seq<string>, store: Store, sv: CB.Services): (r: seq<CardInfo>)
    ensures forall k, c :: k in ids && c in FolderCards(b, k, store, sv) ==> c in r
    ensures forall c :: c in r ==> exists k :: k in ids && c in FolderCards(b, k, store, sv)
    decreases |ids|
  {
    if |ids| == 0 then []
    else
      var rest := AllCards(b, ids[1..], store, sv);
      assert forall k :: k in ids ==> k == ids[0] || k in ids[1..];
      FolderCards(b, ids[0], store, sv) + rest
  }

  /**
   * getCards: for "__all__", the listings of every source read so far (none
   * before the sources are read); otherwise the book's own listing.
   */
  function GetCards(b: Backend, bookId: string, store: Store, sv: CB.Services): (r: seq<CardInfo>)
    ensures bookId != AllBook ==> r == FolderCards(b, bookId, store, sv)
    ensures bookId == AllBook && b.sources.None? ==> r == []
  {
    if bookId == AllBook then
      if b.sources.None? then [] else AllCards(b, b.sources.value.keys, store, sv)
    else FolderCards(b, bookId, store, sv)
  }

  /** The aggregate book lists every card of every source read, and nothing else. */
  lemma AllBookListsEverySource(b: Backend, store: Store, sv: CB.Services)
    requires b.sources.Some?
    ensures forall k, c :: k in b.sources.value.keys && c in GetCards(b, k, store, sv) ==> c in GetCards(b, AllBook, store, sv)
    ensures forall c :: c in GetCards(b, AllBook, store, sv) ==>
      exists k :: k in b.sources.value.keys && c in FolderCards(b, k, store, sv)
  {
    forall k, c | k in b.sources.value.keys && c in GetCards(b, k, store, sv)
      ensures c in GetCards(b, AllBook, store, sv)
    {
      if k == AllBook {
        assert c in AllCards(b, b.sources.value.keys, store, sv);
      } else {
        assert c in FolderCards(b, k, store, sv);
      }
    }
  }

  /** Thunderbird is shown contacts only; every other client is shown the groups as well. */
  lemma GroupsHiddenFromThunderbird(b: Backend, bookId: string, store: Store, sv: CB.Services)
    requires GetStorageFolder(b, bookId, sv).Some?
    ensures b.useragent == Some(Thunderbird) ==>
      forall o :: o in ListedObjects(b, bookId, store, sv) ==> TypeOf(o) == "contact"
    ensures b.useragent != Some(Thunderbird) ==>
      forall o :: o in ObjectsOf(store, GetStorageFolder(b, bookId, sv).value) && TypeOf(o) in {"contact", "distribution-list"}
        ==> o in ListedObjects(b, bookId, store, sv)
  {
  }

  // ---------------------------------------------------------------- reading one card

  /** get_card_by_uid: the first contact folder holding an object with the uid, and that object. */
  function GetCardByUid(store: Store, folders: seq<Folder>, uid: string): (r: Option<(Record, Folder)>)
    ensures r.Some? ==> r.value.1 in folders && GetObject(ObjectsOf(store, r.value.1), uid) == Some(r.value.0)
    ensures r.None? <==> forall f :: f in folders ==> GetObject(ObjectsOf(store, f), uid).None?
  {
    if |folders| == 0 then None
    else match GetObject(ObjectsOf(store, folders[0]), uid)
      case Some(o) => Some((o, folders[0]))
      case None =>
        var r := GetCardByUid(store, folders[1..], uid);
        assert forall f :: f in folders ==> f == folders[0] || f in folders[1..];
        r
  }

  /** The answer to a GET of a card. */
  datatype CardResponse =
    | NoCard    // the empty array: no such card
    | CardData(id: string, uri: string, lastmodified: Option<int>, carddata: VCards.Card, etag: string)

  /** The stored object a card URI names, when found; a missing folder of a named book is a fatal error. */
  function FindCard(b: Backend, bookId: string, uid: string, store: Store, sv: CB.Services): (r: Result<Option<Record>>)
    ensures bookId != AllBook ==> (r.Err? <==> GetStorageFolder(b, bookId, sv).None?)
    ensures bookId == AllBook ==> r.Ok?
    ensures r.Ok? && r.value.Some? ==> UidOf(r.value.value) == Some(uid)
  {
    if bookId == AllBook then
      match GetCardByUid(store, sv.allFolders, uid)
      case Some((o, _)) => Ok(Some(o))
      case None => Ok(None)
    else match GetStorageFolder(b, bookId, sv)
      case None => Err(NullFolder)
      case Some(f) => Ok(GetObject(ObjectsOf(store, f), uid))
  }

  /** getCard: the card as a vCard for the client (the Apple form for Apple clients), with its tag. */
  function GetCard(b: Backend, bookId: string, cardUri: string, store: Store, sv: CB.Services,
                   fl: Fields, codec: VCards.Codec): (r: Result<CardResponse>)
    ensures var found := FindCard(b, bookId, CardUid(cardUri), store, sv);
      && (r.Err? <==> found.Err?)
      && (r == Ok(NoCard) <==> found == Ok(None))
      && (r.Ok? && r.value.CardData? ==>
            found.Ok? && found.value.Some?
            && r.value.id == CardUid(cardUri) && r.value.uri == CardUid(cardUri) + ".vcf"
            && r.value.etag == ETagOf(sv.md5, found.value.value)
            && r.value.carddata == VCards.ToVcard(fl.fromRecord(found.value.value), IsApple(b), codec))
  {
    match FindCard(b, bookId, CardUid(cardUri), store, sv)
    case Err(e) => Err(e)
    case Ok(None) => Ok(NoCard)
    case Ok(Some(c)) =>
      Ok(CardData(ObjUid(c), ObjUid(c) + ".vcf", LastModified(c),
                  VCards.ToVcard(fl.fromRecord(c), IsApple(b), codec), ETagOf(sv.md5, c)))
  }

  // ---------------------------------------------------------------- parsing a PUT body

  /**
   * The vCard reader (None for a parse exception), the card the plugin may
   * have left in its static cache, the codec of the mapping and the record
   * layout.
   */
  datatype CardParser = CardParser(
    cache: Option<VCards.Card>,
    read: string -> Option<VCards.Card>,
    codec: VCards.Codec,
    fields: Fields)

  /** The cached card is reused exactly when its UID is the uid of the request URI. */
  predicate UsesCache(p: CardParser, uid: string) {
    p.cache.Some? && VCards.FirstValue(p.cache.value.props, "UID") == uid
  }

  /** The card parse_vcard works on. */
  function ParsedCard(p: CardParser, data: string, uid: string): Option<VCards.Card> {
    if UsesCache(p, uid) then p.cache else p.read(data)
  }

  /**
   * The card is a VCARD with a birthday or anniversary DateTime rejects:
   * `_to_array` throws, and parse_vcard catches only the reader's parse errors.
   */
  predicate DateFails(p: CardParser, data: string, uid: string) {
    var card := ParsedCard(p, data, uid);
    card.Some? && card.value.name == "VCARD" && VCards.ToArray(card.value, p.codec).None?
  }

  /** parse_vcard: the contact of a VCARD with a non-empty UID; None otherwise, or when a date fails. */
  function ParseVcard(p: CardParser, data: string, uid: string): (r: Option<VCards.Contact>)
    ensures var card := ParsedCard(p, data, uid);
      r.Some? <==> card.Some? && card.value.name == "VCARD" && !DateFails(p, data, uid)
                   && Truthy(VCards.FirstValue(card.value.props, "UID"))
    ensures r.Some? ==> Some(r.value) == VCards.ToArray(ParsedCard(p, data, uid).value, p.codec) && Truthy(r.value.uid)
    ensures r.Some? && UsesCache(p, uid) ==> r.value.uid == uid
  {
    var card := ParsedCard(p, data, uid);
    if card.Some? && card.value.name == "VCARD" then
      match VCards.ToArray(card.value, p.codec)
      case Some(ct) => if Truthy(ct.uid) then Some(ct) else None
      case None => None
    else None
  }

  /** A card cached for another UID has no effect: the request body itself is parsed. */
  lemma StaleCardIgnored(p: CardParser, data: string, uid: string)
    requires p.cache.Some? ==> VCards.FirstValue(p.cache.value.props, "UID") != uid
    ensures ParseVcard(p, data, uid) == ParseVcard(p.(cache := None), data, uid)
  {
  }

  /** The record a parse result is stored as: an absent object is the empty array once keys are written to it. */
  function NewRecord(p: CardParser, obj: Option<VCards.Contact>): Record {
    if obj.Some? then p.fields.toRecord(obj.value) else map[]
  }

  /** The uid of a parse result, `$object['uid']`: null compares equal to the empty string. */
  function ParsedUid(obj: Option<VCards.Contact>): string {
    if obj.Some? then obj.value.uid else ""
  }

  // ---------------------------------------------------------------- writing

  /** The folder an update writes to and the stored version it replaces. */
  function UpdateTarget(b: Backend, bookId: string, uid: string, store: Store, sv: CB.Services)
    : (r: (Option<Folder>, Option<Record>))
    ensures r.1.Some? ==> r.0.Some? && GetObject(ObjectsOf(store, r.0.value), uid) == r.1
    ensures bookId != AllBook ==> r.0 == GetStorageFolder(b, bookId, sv)
    ensures bookId == AllBook ==> (r.0.None? <==> forall f :: f in sv.allFolders ==> GetObject(ObjectsOf(store, f), uid).None?)
  {
    if bookId == AllBook then
      match GetCardByUid(store, sv.allFolders, uid)
      case Some((o, f)) => (Some(f), Some(o))
      case None => (None, None)
    else
      var f := GetStorageFolder(b, bookId, sv);
      (f, if f.Some? then GetObject(ObjectsOf(store, f.value), uid) else None)
  }

  /**
   * updateCard. The checks come in this order: a date the body's parse
   * throws on, the body's UID against the URI (NotFound), the folder
   * (NotFound), the write permission (Forbidden).
   * `saved` is the message number the server assigns, None when saving fails.
   */
  function UpdateCard(b: Backend, bookId: string, cardUri: string, data: string, p: CardParser,
                      io: Io, saved: Option<nat>, sv: CB.Services): (r: (Io, Result<string>))
    ensures var uid := CardUid(cardUri); var obj := ParseVcard(p, data, uid);
      var t := UpdateTarget(b, bookId, uid, io.store, sv); var parsed := !DateFails(p, data, uid);
      && (r.1 == Err(DateError) <==> !parsed)
      && (r.1 == Err(UidMismatch) <==> parsed && ParsedUid(obj) != uid)
      && (r.1 == Err(NotFound) <==> parsed && ParsedUid(obj) == uid && t.0.None?)
      && (r.1 == Err(Forbidden) <==> parsed && ParsedUid(obj) == uid && t.0.Some? && !IsWriteable(t.0.value))
      && (r.1 == Err(SaveError) <==> parsed && ParsedUid(obj) == uid && t.0.Some? && IsWriteable(t.0.value) && saved.None?)
      && (r.1.Err? ==> r.0.store == io.store)
      && (r.1 == Err(SaveError) ==> r.0.redirect == None)
      && (r.1 != Err(SaveError) ==> r.0.redirect == io.redirect)
      && (r.1.Ok? ==>
            saved.Some? && t.0.Some?
            && r.1.value == ETag(sv.md5, ObjUid(NewRecord(p, obj)), saved.value)
            && r.0.store.Keys == io.store.Keys + {t.0.value.name}
            && (forall n :: n in io.store && n != t.0.value.name ==> r.0.store[n] == io.store[n]))
  {
    var uid := CardUid(cardUri);
    var obj := ParseVcard(p, data, uid);
    if DateFails(p, data, uid) then (io, Err(DateError))
    else if ParsedUid(obj) != uid then (io, Err(UidMismatch))
    else
      var (storage, prior) := UpdateTarget(b, bookId, uid, io.store, sv);
      match storage
      case None => (io, Err(NotFound))
      case Some(f) =>
        if !IsWriteable(f) then (io, Err(Forbidden))
        else
          var o := UpdatedCard(NewRecord(p, obj), prior);
          match saved
          case None => (io.(redirect := None), Err(SaveError))
          case Some(msguid) =>
            var (objs', stored) := Save(ObjectsOf(io.store, f), o, Some(uid), msguid);
            ETagOfSaved(sv.md5, ObjectsOf(io.store, f), o, Some(uid), msguid);
            (io.(store := io.store[f.name := objs']), Ok(ETagOf(sv.md5, stored)))
  }

  /** The object an update stores: the new record with the stored version's meta data carried forward. */
  function UpdatedCard(rec: Record, prior: Option<Record>): (r: Record)
    ensures UidOf(r) == UidOf(rec)
  {
    CarryForward(rec, prior.GetOr(map[]))
  }

  /**
   * The updated card, once stamped with its message number, keeps the new
   * record and every meta data key of the stored version that the new record
   * leaves unset.
   */
  lemma UpdatedCardKeeps(rec: Record, prior: Option<Record>, msguid: nat)
    ensures var got := UpdatedCard(rec, prior)["_msguid" := Num(msguid)];
      && (forall k :: k in rec && (IsSet(rec, k) || !IsMetaKey(k)) && k != "_msguid" ==> k in got && got[k] == rec[k])
      && (forall k :: prior.Some? && k in prior.value && IsMetaKey(k) && !IsSet(rec, k) && k != "_msguid" ==>
            k in got && got[k] == prior.value[k])
  {
  }

  /** A successful update stores the updated card in place of the stored version. */
  lemma UpdateStores(b: Backend, bookId: string, cardUri: string, data: string, p: CardParser,
                     io: Io, saved: Option<nat>, sv: CB.Services)
    requires UpdateCard(b, bookId, cardUri, data, p, io, saved, sv).1.Ok?
    requires Faithful(p.fields) && |CardUid(cardUri)| > 0
    ensures var uid := CardUid(cardUri);
      var t := UpdateTarget(b, bookId, uid, io.store, sv);
      var objs := ObjectsOf(io.store, t.0.value);
      && UidOf(NewRecord(p, ParseVcard(p, data, uid))) == Some(uid)
      && ObjectsOf(UpdateCard(b, bookId, cardUri, data, p, io, saved, sv).0.store, t.0.value)
           == Save(objs, UpdatedCard(NewRecord(p, ParseVcard(p, data, uid)), t.1), Some(uid), saved.value).0
  {
    var obj := ParseVcard(p, data, CardUid(cardUri));
    assert obj.Some?;
    assert UidOf(p.fields.toRecord(obj.value)) == Some(obj.value.uid);
  }

  /**
   * After an update the card is read back by its uid as stored: the new
   * record, every meta data key of the stored version that the new record
   * leaves unset (other than the message number), and the new message number.
   */
  lemma UpdateThenRead(b: Backend, bookId: string, cardUri: string, data: string, p: CardParser,
                       io: Io, saved: Option<nat>, sv: CB.Services)
    requires UpdateCard(b, bookId, cardUri, data, p, io, saved, sv).1.Ok?
    requires Faithful(p.fields) && |CardUid(cardUri)| > 0
    ensures var uid := CardUid(cardUri);
      var rec := NewRecord(p, ParseVcard(p, data, uid));
      var t := UpdateTarget(b, bookId, uid, io.store, sv);
      var io' := UpdateCard(b, bookId, cardUri, data, p, io, saved, sv).0;
      var got := GetObject(ObjectsOf(io'.store, t.0.value), uid);
      got.Some? && MsgUid(got.value) == saved.value
      && (forall k :: k in rec && (IsSet(rec, k) || !IsMetaKey(k)) && k != "_msguid" ==> k in got.value && got.value[k] == rec[k])
      && (forall k :: t.1.Some? && k in t.1.value && IsMetaKey(k) && !IsSet(rec, k) && k != "_msguid" ==>
            k in got.value && got.value[k] == t.1.value[k])
  {
    var uid := CardUid(cardUri);
    var rec := NewRecord(p, ParseVcard(p, data, uid));
    var t := UpdateTarget(b, bookId, uid, io.store, sv);
    var objs := ObjectsOf(io.store, t.0.value);
    var o := UpdatedCard(rec, t.1);
    var io' := UpdateCard(b, bookId, cardUri, data, p, io, saved, sv).0;
    var got := o["_msguid" := Num(saved.value)];
    assert GetObject(ObjectsOf(io'.store, t.0.value), uid) == Some(got) by {
      UpdateStores(b, bookId, cardUri, data, p, io, saved, sv);
      SaveReplaces(objs, o, uid, saved.value);
    }
    UpdatedCardKeeps(rec, t.1, saved.value);
  }

  /**
   * createCard. A body with a date DateTime rejects fails the request
   * before anything else; a body whose UID differs from the URI's and names a card
   * that exists is an update of that card under its own name, with a
   * redirect to it; otherwise a new card is stored, with a redirect when the
   * names differ.
   */
  function CreateCard(b: Backend, bookId: string, cardUri: string, data: string, p: CardParser,
                      io: Io, saved: Option<nat>, sv: CB.Services): (r: (Io, Result<string>))
    ensures var uid := CardUid(cardUri); var obj := ParseVcard(p, data, uid);
      var f := GetStorageFolder(b, bookId, sv);
      && (DateFails(p, data, uid) ==> r == (io, Err(DateError)))
      && (obj.None? && !DateFails(p, data, uid) ==> r == (io, Err(ParseError)))
      && (obj.Some? && obj.value.uid != uid
          && GetCard(b, bookId, obj.value.uid + ".vcf", io.store, sv, p.fields, p.codec).Err? ==>
            r == (io, Err(NullFolder)))
      && (obj.Some? && obj.value.uid != uid
          && GetCard(b, bookId, obj.value.uid + ".vcf", io.store, sv, p.fields, p.codec).Ok?
          && GetCard(b, bookId, obj.value.uid + ".vcf", io.store, sv, p.fields, p.codec).value.CardData? ==>
            r == UpdateCard(b, bookId, obj.value.uid + ".vcf", data, p, io.(redirect := Some(obj.value.uid + ".vcf")), saved, sv))
      && (obj.Some? && (obj.value.uid == uid
            || GetCard(b, bookId, obj.value.uid + ".vcf", io.store, sv, p.fields, p.codec) == Ok(NoCard)) ==>
            && (f.None? ==> r == (io, Err(NullFolder)))
            && (f.Some? && saved.None? ==> r == (io, Err(SaveError)))
            && (f.Some? && saved.Some? ==>
                  && r.1 == Ok(ETag(sv.md5, ObjUid(p.fields.toRecord(obj.value)), saved.value))
                  && r.0.redirect == (if obj.value.uid != uid then Some(obj.value.uid + ".vcf") else io.redirect)
                  && r.0.store == io.store[f.value.name :=
                       Save(ObjectsOf(io.store, f.value), p.fields.toRecord(obj.value), None, saved.value).0]))
  {
    var uid := CardUid(cardUri);
    var storage := GetStorageFolder(b, bookId, sv);
    if DateFails(p, data, uid) then (io, Err(DateError))
    else match ParseVcard(p, data, uid)
    case None => (io, Err(ParseError))
    case Some(ct) =>
      var ouri := ct.uid + ".vcf";
      var existing := if ct.uid != uid then GetCard(b, bookId, ouri, io.store, sv, p.fields, p.codec) else Ok(NoCard);
      if existing.Err? then (io, Err(NullFolder))
      else if existing.value.CardData? then
        UpdateCard(b, bookId, ouri, data, p, io.(redirect := Some(ouri)), saved, sv)
      else match storage
        case None => (io, Err(NullFolder))
        case Some(f) =>
          var rec := p.fields.toRecord(ct);
          match saved
          case None => (io, Err(SaveError))
          case Some(msguid) =>
            var (objs', stored) := Save(ObjectsOf(io.store, f), rec, None, msguid);
            ETagOfSaved(sv.md5, ObjectsOf(io.store, f), rec, None, msguid);
            (Io(io.store[f.name := objs'], if ct.uid != uid then Some(ouri) else io.redirect), Ok(ETagOf(sv.md5, stored)))
  }

  /** A failed create, including one that turned into an update, leaves the store as it was. */
  lemma FailedWriteKeepsStore(b: Backend, bookId: string, cardUri: string, data: string, p: CardParser,
                              io: Io, saved: Option<nat>, sv: CB.Services)
    ensures CreateCard(b, bookId, cardUri, data, p, io, saved, sv).1.Err? ==>
      CreateCard(b, bookId, cardUri, data, p, io, saved, sv).0.store == io.store
  {
  }

  /** A body under its own name is stored as a new card of the book's folder, with no redirect. */
  lemma CreateOwnName(b: Backend, bookId: string, uid: string, data: string, p: CardParser,
                      io: Io, msguid: nat, sv: CB.Services)
    requires '/' !in uid
    requires var obj := ParseVcard(p, data, uid); obj.Some? && obj.value.uid == uid
    requires GetStorageFolder(b, bookId, sv).Some?
    ensures var r := CreateCard(b, bookId, uid + ".vcf", data, p, io, Some(msguid), sv);
      var f := GetStorageFolder(b, bookId, sv).value;
      var saved := Save(ObjectsOf(io.store, f), p.fields.toRecord(ParseVcard(p, data, uid).value), None, msguid);
      r == (Io(io.store[f.name := saved.0], io.redirect), Ok(ETagOf(sv.md5, saved.1)))
  {
    var ct := ParseVcard(p, data, uid).value;
    var f := GetStorageFolder(b, bookId, sv).value;
    CardUidOfName(uid);
    ETagOfSaved(sv.md5, ObjectsOf(io.store, f), p.fields.toRecord(ct), None, msguid);
  }

  /**
   * A new card PUT under its own name `<uid>.vcf` into a named book is read
   * back under that name, with the tag the PUT returned, as the vCard
   * written from the parsed contact.
   */
  lemma CreateThenGet(b: Backend, bookId: string, uid: string, data: string, p: CardParser,
                      io: Io, msguid: nat, sv: CB.Services)
    requires Faithful(p.fields) && bookId != AllBook
    requires Truthy(uid) && '/' !in uid
    requires var obj := ParseVcard(p, data, uid); obj.Some? && obj.value.uid == uid
    requires var f := GetStorageFolder(b, bookId, sv); f.Some? && GetObject(ObjectsOf(io.store, f.value), uid).None?
    ensures var r := CreateCard(b, bookId, uid + ".vcf", data, p, io, Some(msguid), sv);
      var got := GetCard(b, bookId, uid + ".vcf", r.0.store, sv, p.fields, p.codec);
      r.1.Ok? && r.0.redirect == io.redirect
      && got.Ok? && got.value.CardData? && got.value.id == uid && got.value.etag == r.1.value
      && got.value.carddata == VCards.ToVcard(ParseVcard(p, data, uid).value, IsApple(b), p.codec)
  {
    CardUidOfName(uid);
    CreateOwnName(b, bookId, uid, data, p, io, msguid, sv);
    var ct := ParseVcard(p, data, uid).value;
    var f := GetStorageFolder(b, bookId, sv).value;
    var objs := ObjectsOf(io.store, f);
    var rec := p.fields.toRecord(ct);
    var r := CreateCard(b, bookId, uid + ".vcf", data, p, io, Some(msguid), sv);
    var saved := Save(objs, rec, None, msguid);
    assert FindCard(b, bookId, uid, r.0.store, sv) == Ok(Some(saved.1)) by {
      assert ObjectsOf(r.0.store, f) == saved.0;
      SaveThenGet(objs, rec, uid, msguid);
    }
    assert p.fields.fromRecord(saved.1) == ct;
  }

  /**
   * The card PUT under its own name reads back, through the vCard mapping,
   * as the contact it was parsed as, whichever client reads it, except for
   * what the mapping loses: e-mail types, members without a uid and an
   * anniversary the date conversion drops.
   */
  lemma PutThenGetReadsBack(b: Backend, bookId: string, uid: string, data: string, p: CardParser,
                            io: Io, msguid: nat, sv: CB.Services)
    requires Faithful(p.fields) && bookId != AllBook
    requires Truthy(uid) && '/' !in uid
    requires var obj := ParseVcard(p, data, uid); obj.Some? && obj.value.uid == uid && VCards.RoundTrips(obj.value, p.codec)
    requires var f := GetStorageFolder(b, bookId, sv); f.Some? && GetObject(ObjectsOf(io.store, f.value), uid).None?
    ensures var r := CreateCard(b, bookId, uid + ".vcf", data, p, io, Some(msguid), sv);
      var got := GetCard(b, bookId, uid + ".vcf", r.0.store, sv, p.fields, p.codec);
      var ct := ParseVcard(p, data, uid).value;
      got.Ok? && got.value.CardData?
      && VCards.ToArray(got.value.carddata, p.codec) == Some(VCards.ReadBack(ct, p.codec))
  {
    CreateThenGet(b, bookId, uid, data, p, io, msguid, sv);
    VCards.ReadWrittenCard(ParseVcard(p, data, uid).value, IsApple(b), p.codec);
  }

  /** A PUT whose body names another card is redirected to that card's own name. */
  lemma RedirectNamesBodyUid(b: Backend, bookId: string, cardUri: string, data: string, p: CardParser,
                             io: Io, msguid: nat, sv: CB.Services)
    requires var obj := ParseVcard(p, data, CardUid(cardUri)); obj.Some? && obj.value.uid != CardUid(cardUri)
    ensures var r := CreateCard(b, bookId, cardUri, data, p, io, Some(msguid), sv);
      var ouid := ParseVcard(p, data, CardUid(cardUri)).value.uid;
      r.1.Ok? ==> r.0.redirect == Some(ouid + ".vcf")
  {
    var uid := CardUid(cardUri);
    var ouid := ParseVcard(p, data, uid).value.uid;
    var existing := GetCard(b, bookId, ouid + ".vcf", io.store, sv, p.fields, p.codec);
    if existing.Ok? && existing.value.CardData? {
      var r := UpdateCard(b, bookId, ouid + ".vcf", data, p, io.(redirect := Some(ouid + ".vcf")), Some(msguid), sv);
      assert r.1.Ok? ==> r.0.redirect == Some(ouid + ".vcf");
    }
  }

  /** deleteCard: refused without a folder or without write permission; otherwise the card is removed. */
  function DeleteCard(b: Backend, bookId: string, cardUri: string, store: Store, sv: CB.Services): (r: Result<Store>)
    ensures var t := UpdateTarget(b, bookId, CardUid(cardUri), store, sv).0;
      && (r.Err? <==> t.None? || !IsWriteable(t.value))
      && (r.Err? ==> r.error == MethodNotAllowed)
      && (r.Ok? ==>
            GetObject(ObjectsOf(r.value, t.value), CardUid(cardUri)).None?
            && r.value.Keys == store.Keys + {t.value.name}
            && (forall n :: n in store && n != t.value.name ==> r.value[n] == store[n])
            && forall other :: other != CardUid(cardUri) ==>
                 (GetObject(ObjectsOf(r.value, t.value), other).Some? <==> GetObject(ObjectsOf(store, t.value), other).Some?))
  {
    var uid := CardUid(cardUri);
    match UpdateTarget(b, bookId, uid, store, sv).0
    case None => Err(MethodNotAllowed)
    case Some(f) =>
      if !IsWriteable(f) then Err(MethodNotAllowed)
      else
        var objs := ObjectsOf(store, f);
        forall other | other != uid
          ensures GetObject(Delete(objs, uid), other).Some? <==> GetObject(objs, other).Some?
        {
          DeleteKeepsOthers(objs, uid, other);
        }
        DeleteKeepsOthers(objs, uid, uid + "x");
        Ok(store[f.name := Delete(objs, uid)])
  }

  /** After a DELETE of `<uid>.vcf` from a named book, a GET of it finds nothing. */
  lemma DeleteThenGet(b: Backend, bookId: string, uid: string, store: Store, sv: CB.Services, fl: Fields,
                      codec: VCards.Codec)
    requires bookId != AllBook && |uid| > 0 && '/' !in uid
    requires DeleteCard(b, bookId, uid + ".vcf", store, sv).Ok?
    ensures GetCard(b, bookId, uid + ".vcf", DeleteCard(b, bookId, uid + ".vcf", store, sv).value, sv, fl, codec) == Ok(NoCard)
  {
    CardUidOfName(uid);
  }
}
