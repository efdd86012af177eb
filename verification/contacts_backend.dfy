/**
 * The contacts backend's address books: the contact folders it lists
 * (addressed by folder uid or by IMAP name), the aggregate book "__all__"
 * that stands for all of them, the book-level operations, the client
 * classification by User-Agent and the write permission on a folder.
 */
module ContactsBackend {
  import opened Options
  import opened Strings
  import opened DavCommon
  import opened OrderedMaps
  import opened Tags
  import CB = CalendarBackend
  import DavBackend

  /** The name of the aggregate address book; it is also the alias of the default folder. */
  const AllBook: string := "__all__"

  /** The properties of one address book. */
  datatype BookInfo = BookInfo(
    id: string,
    uri: string,
    displayname: string,
    ctag: string,
    principaluri: string)

  /** The client classes that get special treatment. */
  datatype ContactsUa = Thunderbird | MacOsX | Ios

  /**
   * The backend's memory: the books read (None before the first read), the
   * folders by uid, the folder uids by IMAP name (and "__all__" for the
   * default folder), the client class.
   */
  datatype Backend = Backend(
    sources: Option<OMap<string, BookInfo>>,
    folders: map<string, Folder>,
    aliases: map<string, string>,
    useragent: Option<ContactsUa>)

  /** The books held are a well-formed ordered array. */
  predicate Valid(b: Backend) {
    b.sources.Some? ==> b.sources.value.Valid()
  }

  /** The published properties of a contact folder. */
  function SourceOf(f: Folder, sv: CB.Services): BookInfo {
    var id := sv.uidOf(f);
    BookInfo(id, id, sv.htmlDecode(f.displayName), CTag(f.status), "")
  }

  // ---------------------------------------------------------------- reading the folders

  /** The triple the registration loop builds: books, folders by uid, uids by alias. */
  type Registry = (OMap<string, BookInfo>, map<string, Folder>, map<string, string>)

  /** The registry after folder `f`: published under its uid, aliased by its name, and by "__all__" when it is the default. */
  function AddSource(prev: Registry, f: Folder, sv: CB.Services): Registry {
    var id := sv.uidOf(f);
    var named := prev.2[f.name := id];
    (prev.0.Put(id, SourceOf(f, sv)), prev.1[id := f], if f.isDefault then named[AllBook := id] else named)
  }

  /** Folder i is the last default folder, and no later folder is named "__all__". */
  predicate LastDefault(fs: seq<Folder>, i: nat)
    requires i < |fs|
  {
    fs[i].isDefault && forall j :: i < j < |fs| ==> !fs[j].isDefault && fs[j].name != AllBook
  }

  /** The books and folders are exactly those of the uids of `fs`. */
  ghost predicate RegisteredKeys(fs: seq<Folder>, sv: CB.Services, r: Registry) {
    && r.0.Valid()
    && (forall k :: k in r.0.entries <==> k in CB.Uids(fs, sv))
    && (forall k :: k in r.1 <==> k in CB.Uids(fs, sv))
  }

  /** The last folder listed with each uid is the one published under it. */
  ghost predicate RegisteredUids(fs: seq<Folder>, sv: CB.Services, r: Registry) {
    forall i :: 0 <= i < |fs| && CB.LastWithUid(fs, i, sv) ==>
      var id := sv.uidOf(fs[i]);
      r.0.Get(id) == Some(SourceOf(fs[i], sv)) && id in r.1 && r.1[id] == fs[i]
  }

  /**
   * The last folder listed with each name gives that name's alias, the last
   * default folder gives the alias "__all__", and no other alias appears.
   */
  ghost predicate RegisteredAliases(fs: seq<Folder>, sv: CB.Services, r: Registry) {
    && (forall i :: 0 <= i < |fs| && CB.LastWithName(fs, i) && fs[i].name != AllBook ==>
         fs[i].name in r.2 && r.2[fs[i].name] == sv.uidOf(fs[i]))
    && (forall i :: 0 <= i < |fs| && LastDefault(fs, i) ==> AllBook in r.2 && r.2[AllBook] == sv.uidOf(fs[i]))
    && (forall n :: n in r.2 ==> n in CB.Names(fs) || n == AllBook)
  }

  ghost predicate Registered(fs: seq<Folder>, sv: CB.Services, r: Registry) {
    RegisteredKeys(fs, sv, r) && RegisteredUids(fs, sv, r) && RegisteredAliases(fs, sv, r)
  }

  /** The loop of _read_sources over the sorted contact folders, from empty arrays. */
  function Register(fs: seq<Folder>, sv: CB.Services): (r: Registry)
    ensures r.0.Valid()
    decreases |fs|
  {
    if |fs| == 0 then (Empty(), map[], map[])
    else
      var prev := Register(fs[..|fs| - 1], sv);
      PutSpec(prev.0, sv.uidOf(fs[|fs| - 1]), SourceOf(fs[|fs| - 1], sv));
      AddSource(prev, fs[|fs| - 1], sv)
  }

  /** The loop publishes the last folder of each uid, and aliases the last of each name and the last default folder. */
  lemma {:induction false} RegisterSpec(fs: seq<Folder>, sv: CB.Services)
    ensures Registered(fs, sv, Register(fs, sv))
    decreases |fs|
  {
    if |fs| > 0 {
      var prev := Register(fs[..|fs| - 1], sv);
      RegisterSpec(fs[..|fs| - 1], sv);
      KeysStep(fs, sv, prev);
      UidsStep(fs, sv, prev);
      AliasesStep(fs, sv, prev);
    }
  }

  lemma KeysStep(fs: seq<Folder>, sv: CB.Services, prev: Registry)
    requires |fs| > 0 && RegisteredKeys(fs[..|fs| - 1], sv, prev)
    ensures RegisteredKeys(fs, sv, AddSource(prev, fs[|fs| - 1], sv))
  {
    var f := fs[|fs| - 1];
    PutSpec(prev.0, sv.uidOf(f), SourceOf(f, sv));
    CB.UidsSnoc(fs, sv);
  }

  lemma UidsStep(fs: seq<Folder>, sv: CB.Services, prev: Registry)
    requires |fs| > 0 && prev.0.Valid() && RegisteredUids(fs[..|fs| - 1], sv, prev)
    ensures RegisteredUids(fs, sv, AddSource(prev, fs[|fs| - 1], sv))
  {
    var n := |fs| - 1;
    var init := fs[..n];
    var f := fs[n];
    var r := AddSource(prev, f, sv);
    PutSpec(prev.0, sv.uidOf(f), SourceOf(f, sv));
    forall i | 0 <= i < |fs| && CB.LastWithUid(fs, i, sv)
      ensures var idi := sv.uidOf(fs[i]);
        r.0.Get(idi) == Some(SourceOf(fs[i], sv)) && idi in r.1 && r.1[idi] == fs[i]
    {
      if i < n {
        assert CB.LastWithUid(init, i, sv);
        assert init[i] == fs[i];
      }
    }
  }

  lemma AliasesStep(fs: seq<Folder>, sv: CB.Services, prev: Registry)
    requires |fs| > 0 && RegisteredAliases(fs[..|fs| - 1], sv, prev)
    ensures RegisteredAliases(fs, sv, AddSource(prev, fs[|fs| - 1], sv))
  {
    CB.NamesSnoc(fs);
    NamedAliasesStep(fs, sv, prev);
    DefaultAliasStep(fs, sv, prev);
  }

  lemma NamedAliasesStep(fs: seq<Folder>, sv: CB.Services, prev: Registry)
    requires |fs| > 0
    requires forall i :: 0 <= i < |fs| - 1 && CB.LastWithName(fs[..|fs| - 1], i) && fs[i].name != AllBook ==>
      fs[i].name in prev.2 && prev.2[fs[i].name] == sv.uidOf(fs[i])
    ensures var r := AddSource(prev, fs[|fs| - 1], sv);
      forall i :: 0 <= i < |fs| && CB.LastWithName(fs, i) && fs[i].name != AllBook ==>
        fs[i].name in r.2 && r.2[fs[i].name] == sv.uidOf(fs[i])
  {
    var n := |fs| - 1;
    var r := AddSource(prev, fs[n], sv);
    forall i | 0 <= i < |fs| && CB.LastWithName(fs, i) && fs[i].name != AllBook
      ensures fs[i].name in r.2 && r.2[fs[i].name] == sv.uidOf(fs[i])
    {
      if i < n {
        assert CB.LastWithName(fs[..n], i);
      }
    }
  }

  lemma DefaultAliasStep(fs: seq<Folder>, sv: CB.Services, prev: Registry)
    requires |fs| > 0
    requires forall i :: 0 <= i < |fs| - 1 && LastDefault(fs[..|fs| - 1], i) ==>
      AllBook in prev.2 && prev.2[AllBook] == sv.uidOf(fs[i])
    ensures var r := AddSource(prev, fs[|fs| - 1], sv);
      forall i :: 0 <= i < |fs| && LastDefault(fs, i) ==> AllBook in r.2 && r.2[AllBook] == sv.uidOf(fs[i])
  {
    var n := |fs| - 1;
    var r := AddSource(prev, fs[n], sv);
    forall i | 0 <= i < |fs| && LastDefault(fs, i)
      ensures AllBook in r.2 && r.2[AllBook] == sv.uidOf(fs[i])
    {
      if i < n {
        assert LastDefault(fs[..n], i);
      }
    }
  }

  /** No two folders of the list share a uid. */
  predicate DistinctUids(fs: seq<Folder>, sv: CB.Services) {
    forall i, j :: 0 <= i < j < |fs| ==> sv.uidOf(fs[i]) != sv.uidOf(fs[j])
  }

  /** With distinct uids the books are listed in folder order, one per folder. */
  lemma {:induction false} RegisterOrder(fs: seq<Folder>, sv: CB.Services)
    requires DistinctUids(fs, sv)
    ensures var r := Register(fs, sv);
      r.0.keys == CB.Uids(fs, sv) && |r.0.Values()| == |fs|
      && forall i :: 0 <= i < |fs| ==> r.0.Values()[i] == SourceOf(fs[i], sv)
    decreases |fs|
  {
    if |fs| > 0 {
      var n := |fs| - 1;
      var init := fs[..n];
      assert DistinctUids(init, sv) by {
        assert forall i :: 0 <= i < n ==> init[i] == fs[i];
      }
      RegisterOrder(init, sv);
      var prev := Register(init, sv).0;
      assert sv.uidOf(fs[n]) !in prev.entries by {
        LastUidFresh(fs, sv);
      }
      assert Register(fs, sv).0 == prev.Put(sv.uidOf(fs[n]), SourceOf(fs[n], sv));
      OrderStep(fs, sv, prev);
    }
  }

  /** One turn of the loop appends the next folder's book when its uid is new. */
  lemma OrderStep(fs: seq<Folder>, sv: CB.Services, prev: OMap<string, BookInfo>)
    requires |fs| > 0 && prev.Valid()
    requires var init := fs[..|fs| - 1];
      && prev.keys == CB.Uids(init, sv) && |prev.Values()| == |init|
      && (forall i :: 0 <= i < |init| ==> prev.Values()[i] == SourceOf(init[i], sv))
    requires sv.uidOf(fs[|fs| - 1]) !in prev.entries
    ensures var r := prev.Put(sv.uidOf(fs[|fs| - 1]), SourceOf(fs[|fs| - 1], sv));
      r.keys == CB.Uids(fs, sv) && |r.Values()| == |fs|
      && forall i :: 0 <= i < |fs| ==> r.Values()[i] == SourceOf(fs[i], sv)
  {
    var n := |fs| - 1;
    var id := sv.uidOf(fs[n]);
    var src := SourceOf(fs[n], sv);
    PutSpec(prev, id, src);
    PutNewValues(prev, id, src);
    CB.UidsSnoc(fs, sv);
    var r := prev.Put(id, src);
    forall i | 0 <= i < |fs| ensures r.Values()[i] == SourceOf(fs[i], sv) {
      if i < n {
        assert r.Values()[i] == prev.Values()[i];
        assert fs[..n][i] == fs[i];
      }
    }
  }

  /** With distinct uids, the last folder's uid is not among the earlier ones. */
  lemma LastUidFresh(fs: seq<Folder>, sv: CB.Services)
    requires |fs| > 0 && DistinctUids(fs, sv)
    ensures sv.uidOf(fs[|fs| - 1]) !in CB.Uids(fs[..|fs| - 1], sv)
  {
    var init := fs[..|fs| - 1];
    forall j | 0 <= j < |init| ensures CB.Uids(init, sv)[j] != sv.uidOf(fs[|fs| - 1]) {
      assert init[j] == fs[j];
    }
  }

  /** _read_sources: read once, then served from memory. `listed` is the sorted contact folders. */
  function ReadSources(b: Backend, listed: seq<Folder>, sv: CB.Services): (r: Backend)
    ensures b.sources.Some? ==> r == b
    ensures b.sources.None? ==> Valid(r)
    ensures r.sources.Some? && r.useragent == b.useragent
  {
    if b.sources.Some? then b
    else
      RegisterSpec(listed, sv);
      var (srcs, folders, aliases) := Register(listed, sv);
      Backend(Some(srcs), folders, aliases, b.useragent)
  }

  /**
   * After the first read every listed folder is published under its uid,
   * with its CTag; the last default folder is what "__all__" resolves to.
   */
  lemma ReadSourcesPublishes(b: Backend, listed: seq<Folder>, sv: CB.Services, i: nat)
    requires b.sources.None? && i < |listed|
    ensures var r := ReadSources(b, listed, sv); var id := sv.uidOf(listed[i]);
      (CB.LastWithUid(listed, i, sv) ==>
        r.sources.value.Get(id) == Some(SourceOf(listed[i], sv)) && id in r.folders && r.folders[id] == listed[i]
        && r.sources.value.Get(id).value.ctag == CTag(listed[i].status))
      && (LastDefault(listed, i) ==> AllBook in r.aliases && r.aliases[AllBook] == id)
  {
    var reg := Register(listed, sv);
    RegisterSpec(listed, sv);
    assert RegisteredUids(listed, sv, reg) && RegisteredAliases(listed, sv, reg);
    var r := ReadSources(b, listed, sv);
    assert r.sources.value == reg.0 && r.folders == reg.1 && r.aliases == reg.2;
  }

  /** Reading twice is reading once. */
  lemma ReadSourcesOnce(b: Backend, listed: seq<Folder>, other: seq<Folder>, sv: CB.Services)
    ensures ReadSources(ReadSources(b, listed, sv), other, sv) == ReadSources(b, listed, sv)
  {
  }

  // ---------------------------------------------------------------- folder lookup

  /** The id after alias resolution: a truthy alias wins. */
  function ResolveAlias(b: Backend, id: string): string {
    if id in b.aliases && Truthy(b.aliases[id]) then b.aliases[id] else id
  }

  /** get_storage_folder: by alias, then among the read folders, then among all contact folders. */
  function GetStorageFolder(b: Backend, id: string, sv: CB.Services): (r: Option<Folder>)
    ensures ResolveAlias(b, id) in b.folders ==> r == Some(b.folders[ResolveAlias(b, id)])
    ensures ResolveAlias(b, id) !in b.folders ==>
      (r.Some? <==> exists i :: 0 <= i < |sv.allFolders| && DavBackend.FolderUid(sv.allFolders[i], sv.md5) == ResolveAlias(b, id))
  {
    var rid := ResolveAlias(b, id);
    if rid in b.folders then Some(b.folders[rid])
    else DavBackend.GetStorageFolder(sv.allFolders, rid, sv.md5)
  }

  /**
   * Once the books are read, the aggregate book's folder is the default
   * folder: cards created in "__all__" go there.
   */
  lemma AllBookIsDefaultFolder(b: Backend, listed: seq<Folder>, sv: CB.Services, i: nat)
    requires b.sources.None? && i < |listed| && LastDefault(listed, i) && CB.LastWithUid(listed, i, sv)
    requires Truthy(sv.uidOf(listed[i]))
    ensures GetStorageFolder(ReadSources(b, listed, sv), AllBook, sv) == Some(listed[i])
  {
    ReadSourcesPublishes(b, listed, sv, i);
    var r := ReadSources(b, listed, sv);
    assert ResolveAlias(r, AllBook) == sv.uidOf(listed[i]);
  }

  // ---------------------------------------------------------------- books

  /** The CTags of a list of books, in order. */
  function CTags(books: seq<BookInfo>): (r: seq<string>)
    ensures |r| == |books| && forall i :: 0 <= i < |books| ==> r[i] == books[i].ctag
  {
    seq(|books|, i requires 0 <= i < |books| => books[i].ctag)
  }

  /** The aggregate book: all sources' CTags joined with ':'. */
  function AllBookInfo(srcs: OMap<string, BookInfo>): BookInfo
    requires srcs.Valid()
  {
    BookInfo(AllBook, AllBook, "All", Join(CTags(srcs.Values()), ":"), "")
  }

  /** The book with its owner set. */
  function Owned(s: BookInfo, principal: string): BookInfo {
    s.(principaluri := principal)
  }

  /**
   * getAddressBooksForUser: the aggregate book alone for Apple's address
   * book with more than one source; otherwise every source, in listing
   * order. Every book returned is owned by the requester.
   */
  function AddressBooksForUser(b: Backend, principal: string, listed: seq<Folder>, sv: CB.Services)
    : (r: (Backend, seq<BookInfo>))
    requires Valid(b)
    ensures r.0 == ReadSources(b, listed, sv) && Valid(r.0)
    ensures forall i :: 0 <= i < |r.1| ==> r.1[i].principaluri == principal
    ensures var srcs := r.0.sources.value;
      if b.useragent == Some(MacOsX) && |srcs.keys| > 1 then |r.1| == 1 && r.1[0].id == AllBook
      else |r.1| == |srcs.keys| && forall i :: 0 <= i < |r.1| ==> r.1[i] == Owned(srcs.entries[srcs.keys[i]], principal)
  {
    var b1 := ReadSources(b, listed, sv);
    var srcs := b1.sources.value;
    if b1.useragent == Some(MacOsX) && |srcs.keys| > 1 then
      (b1, [Owned(GetAddressBookByName(b1, AllBook, listed, sv).1.value, principal)])
    else
      var vs := srcs.Values();
      (b1, seq(|vs|, i requires 0 <= i < |vs| => Owned(vs[i], principal)))
  }

  /**
   * getAddressBookByName: the aggregate book for "__all__"; otherwise the
   * source with that id or folder name, if any.
   */
  function GetAddressBookByName(b: Backend, uri: string, listed: seq<Folder>, sv: CB.Services)
    : (r: (Backend, Option<BookInfo>))
    requires Valid(b)
    ensures r.0 == ReadSources(b, listed, sv) && Valid(r.0)
    ensures uri == AllBook ==> r.1 == Some(AllBookInfo(r.0.sources.value))
    ensures uri != AllBook ==> r.1 == r.0.sources.value.Get(ResolveAlias(r.0, uri))
  {
    var b1 := ReadSources(b, listed, sv);
    if uri == AllBook then (b1, Some(AllBookInfo(b1.sources.value)))
    else (b1, b1.sources.value.Get(ResolveAlias(b1, uri)))
  }

  /**
   * The aggregate book's CTag is the joint change tag of the listed folders:
   * their IMAP status tags joined with ':' in listing order, so any change of
   * any folder changes it.
   */
  lemma AllBookCTag(b: Backend, listed: seq<Folder>, sv: CB.Services)
    requires b.sources.None? && DistinctUids(listed, sv)
    ensures var book := GetAddressBookByName(b, AllBook, listed, sv).1.value;
      book.ctag == AggregateCTag(seq(|listed|, i requires 0 <= i < |listed| => listed[i].status))
  {
    RegisterOrder(listed, sv);
    var vs := Register(listed, sv).0.Values();
    var sts := seq(|listed|, i requires 0 <= i < |listed| => listed[i].status);
    assert CTags(vs) == MapSeq(CTag, sts);
  }

  /** Two readings of the same folders whose aggregate CTags agree saw the same IMAP status in every folder. */
  lemma AllBookCTagTracksChanges(listed: seq<Folder>, listed': seq<Folder>, sv: CB.Services)
    requires |listed| >= 1 && |listed'| >= 1 && DistinctUids(listed, sv) && DistinctUids(listed', sv)
    requires GetAddressBookByName(Backend(None, map[], map[], None), AllBook, listed, sv).1.value.ctag
          == GetAddressBookByName(Backend(None, map[], map[], None), AllBook, listed', sv).1.value.ctag
    ensures |listed| == |listed'| && forall i :: 0 <= i < |listed| ==> listed[i].status == listed'[i].status
  {
    var b := Backend(None, map[], map[], None);
    AllBookCTag(b, listed, sv);
    AllBookCTag(b, listed', sv);
    var sts := seq(|listed|, i requires 0 <= i < |listed| => listed[i].status);
    var sts' := seq(|listed'|, i requires 0 <= i < |listed'| => listed'[i].status);
    AggregateCTagInjective(sts, sts');
    assert forall i :: 0 <= i < |listed| ==> sts[i] == listed[i].status;
  }

  /**
   * Apple's address book with several sources sees exactly one book, the
   * aggregate one; every other client, or a single source, sees every
   * source and can look each up again by its id.
   */
  lemma AppleSeesOneBook(b: Backend, principal: string, listed: seq<Folder>, sv: CB.Services)
    requires Valid(b) && b.useragent == Some(MacOsX)
    requires |ReadSources(b, listed, sv).sources.value.keys| > 1
    ensures var r := AddressBooksForUser(b, principal, listed, sv).1;
      r == [Owned(AllBookInfo(ReadSources(b, listed, sv).sources.value), principal)]
  {
  }

  /** Every book listed for a client other than Apple's address book is found again by its id, unless that id is an alias. */
  lemma ListedBookFound(b: Backend, principal: string, listed: seq<Folder>, sv: CB.Services, i: nat)
    requires Valid(b) && b.useragent != Some(MacOsX)
    requires i < |AddressBooksForUser(b, principal, listed, sv).1|
    requires var b1 := ReadSources(b, listed, sv); var k := b1.sources.value.keys[i];
      k != AllBook && ResolveAlias(b1, k) == k
    ensures var r := AddressBooksForUser(b, principal, listed, sv); var k := r.0.sources.value.keys[i];
      var got := GetAddressBookByName(r.0, k, listed, sv).1;
      got.Some? && r.1[i] == Owned(got.value, principal)
  {
  }

  /**
   * updateAddressBook: refused for "__all__" and without a folder; otherwise
   * folder_update, which stores the supported changes even when another
   * property of the request is refused.
   */
  function UpdateAddressBook(b: Backend, id: string, muts: seq<DavBackend.Mutation>, sv: CB.Services,
                             fromUtf7: string -> string, storeOk: bool): (r: Option<DavBackend.FolderUpdateResult>)
    ensures id == AllBook ==> r.None?
    ensures id != AllBook ==> (r.Some? <==> GetStorageFolder(b, id, sv).Some?)
    ensures r.Some? ==> (r.value.sent.Some? <==> DavBackend.SupportedProps(muts) != [])
    ensures r.Some? ==> (r.value.outcome.StoreFailed? <==> r.value.sent.Some? && !storeOk)
    ensures r.Some? && !r.value.outcome.StoreFailed? ==> r.value.outcome == DavBackend.Answer(muts)
    ensures r.Some? && r.value.sent.Some? ==>
      var f := GetStorageFolder(b, id, sv).value;
      var (name, parent) := DavBackend.Destination(f, muts, true, fromUtf7);
      && r.value.sent.value.oldname == Some(f.name) && r.value.sent.value.name == Some(name)
      && r.value.sent.value.parent == Some(parent) && r.value.sent.value.color == DavBackend.RequestedColor(muts)
  {
    if id == AllBook then None
    else match GetStorageFolder(b, id, sv)
      case None => None
      case Some(f) =>
        DavBackend.FolderUpdateAsWrittenSpec(f, muts, fromUtf7, storeOk);
        DavBackend.FolderUpdateSendsLocation(f, muts, fromUtf7, storeOk);
        Some(DavBackend.FolderUpdateAsWritten(f, muts, fromUtf7, storeOk))
  }

  /** createAddressBook: a new contact folder. */
  function CreateAddressBook(muts: seq<DavBackend.Mutation>, url: string, stored: bool, fetched: Option<Folder>,
                             sharedOk: bool, privateOk: bool): (r: DavBackend.CreateResult)
    ensures r.props.ftype == "contact"
    ensures r.uid.Some? <==> stored
    ensures r.uid.Some? ==> r.uid.value == url
  {
    DavBackend.CreatePropertiesLastWins("contact", muts);
    DavBackend.FolderCreate("contact", muts, url, stored, fetched, sharedOk, privateOk)
  }

  /** deleteAddressBook: the IMAP name of the folder to delete; nothing for "__all__" or without a folder. */
  function DeleteAddressBook(b: Backend, id: string, sv: CB.Services): (r: Option<string>)
    ensures id == AllBook ==> r.None?
    ensures id != AllBook ==> (r.Some? <==> GetStorageFolder(b, id, sv).Some?)
    ensures r.Some? ==> r.value == GetStorageFolder(b, id, sv).value.name
  {
    if id == AllBook then None
    else match GetStorageFolder(b, id, sv)
      case Some(f) => Some(f.name)
      case None => None
  }

  /** After the first read, every alias is "__all__" or the name of a listed folder. */
  lemma AliasesAreNames(b: Backend, listed: seq<Folder>, sv: CB.Services, n: string)
    requires b.sources.None? && n in ReadSources(b, listed, sv).aliases
    ensures n == AllBook || exists j :: 0 <= j < |listed| && listed[j].name == n
  {
    RegisterSpec(listed, sv);
    var reg := Register(listed, sv);
    assert ReadSources(b, listed, sv).aliases == reg.2;
    assert n in CB.Names(listed) || n == AllBook;
  }

  /**
   * The book a client finds under a listed folder's uid and the folder a
   * DELETE of that uid removes are the same folder.
   */
  lemma DeleteListedBook(b: Backend, listed: seq<Folder>, sv: CB.Services, i: nat)
    requires b.sources.None? && i < |listed| && CB.LastWithUid(listed, i, sv)
    requires sv.uidOf(listed[i]) != AllBook
    requires forall j :: 0 <= j < |listed| ==> listed[j].name != sv.uidOf(listed[i])
    ensures var id := sv.uidOf(listed[i]);
      var found := GetAddressBookByName(b, id, listed, sv);
      && found.1 == Some(SourceOf(listed[i], sv))
      && DeleteAddressBook(found.0, id, sv) == Some(listed[i].name)
  {
    var id := sv.uidOf(listed[i]);
    var b1 := ReadSources(b, listed, sv);
    ReadSourcesPublishes(b, listed, sv, i);
    assert id !in b1.aliases by {
      if id in b1.aliases {
        AliasesAreNames(b, listed, sv, id);
        assert false;
      }
    }
    assert ResolveAlias(b1, id) == id;
    assert GetStorageFolder(b1, id, sv) == Some(listed[i]);
  }

  // ---------------------------------------------------------------- permissions and clients

  /** is_writeable: the rights include 'i' (insert), or the folder is the user's own. */
  predicate IsWriteable(f: Folder) {
    (f.rights.Some? && 'i' in f.rights.value) || f.ns == Personal
  }

  /** The Apple clients: the address book application and iOS. */
  predicate IsApple(b: Backend) {
    b.useragent == Some(MacOsX) || b.useragent == Some(Ios)
  }

  /** The four spellings `[Dd]ata[Aa]ccessd/` matches. */
  const DataAccessdTokens: seq<string> := ["dataaccessd/", "Dataaccessd/", "dataAccessd/", "DataAccessd/"]

  /** `(iOS/\d|[Dd]ata[Aa]ccessd/\d)` occurs in the string. */
  predicate IsIosAgent(ua: string) {
    CB.MatchesToken(ua, "iOS/") || exists t :: t in DataAccessdTokens && CB.MatchesToken(ua, t)
  }

  /**
   * setUserAgent: the first class whose pattern matches, in the order
   * Thunderbird, Mac OS X address book, iOS; otherwise no change. The
   * optional groups around `AddressBook/\d` do not change what matches.
   */
  function SetUserAgent(b: Backend, ua: string): (r: Backend)
    ensures r.sources == b.sources && r.folders == b.folders && r.aliases == b.aliases
    ensures CB.HasTokenDigit(ua, "Thunderbird/") ==> r.useragent == Some(Thunderbird)
    ensures !CB.HasTokenDigit(ua, "Thunderbird/") && CB.HasTokenDigit(ua, "AddressBook/") ==> r.useragent == Some(MacOsX)
    ensures !CB.HasTokenDigit(ua, "Thunderbird/") && !CB.HasTokenDigit(ua, "AddressBook/") && IsIosAgent(ua)
      ==> r.useragent == Some(Ios)
    ensures !CB.HasTokenDigit(ua, "Thunderbird/") && !CB.HasTokenDigit(ua, "AddressBook/") && !IsIosAgent(ua)
      ==> r == b
  {
    if CB.MatchesToken(ua, "Thunderbird/") then b.(useragent := Some(Thunderbird))
    else if CB.MatchesToken(ua, "AddressBook/") then b.(useragent := Some(MacOsX))
    else if IsIosAgent(ua) then b.(useragent := Some(Ios))
    else b
  }

  /** iOS's data access daemon is recognised in either capitalisation of each word. */
  lemma DataAccessdIsIos()
    ensures IsIosAgent("iOS/8.1 (12B411) dataaccessd/1.0")
  {
    var ua := "iOS/8.1 (12B411) dataaccessd/1.0";
    assert CB.MatchesToken(ua, "iOS/") by {
      assert OccursAt(ua, "iOS/", 0) && IsDigit(ua[4]);
    }
  }

  /** Every agent that starts with "iOS/" or a data access daemon token and a digit is an iOS agent. */
  lemma IosAgentByPrefix(ua: string, token: string)
    requires token == "iOS/" || token in DataAccessdTokens
    requires |token| < |ua| && ua[..|token|] == token && IsDigit(ua[|token|])
    ensures IsIosAgent(ua)
  {
    assert OccursAt(ua, token, 0);
    assert CB.MatchesToken(ua, token);
  }

  /** An agent one character longer than a token, starting differently, does not match it. */
  lemma ShortAgentMisses(ua: string, token: string)
    requires |ua| == |token| + 1 && |token| > 0 && ua[0] != token[0]
    ensures !CB.MatchesToken(ua, token)
  {
    assert !OccursAt(ua, token, 0) by {
      assert ua[..|token|][0] == ua[0];
    }
  }

  /** An agent that is only `DataAccessd/1` selects the iOS behaviour. */
  lemma DataAccessdSelectsIos(ua: string)
    requires ua == "DataAccessd/1"
    ensures SetUserAgent(Backend(None, map[], map[], None), ua).useragent == Some(Ios)
  {
    assert CB.MatchesToken(ua, "DataAccessd/") by {
      assert OccursAt(ua, "DataAccessd/", 0) && IsDigit(ua[12]);
    }
    assert "DataAccessd/" in DataAccessdTokens;
    ShortAgentMisses(ua, "Thunderbird/");
    ShortAgentMisses(ua, "AddressBook/");
  }
}
