/**
 * The calendar and address book collection nodes: whether the node has a
 * storage folder behind it, its owner principal, and its access control
 * list derived from the IMAP MYRIGHTS of the folder (section 5 of RFC 3744
 * for the DAV:acl property).
 */
module CollectionNodes {
  import opened Options
  import opened Strings
  import opened DavCommon
  import CB = CalendarBackend
  import ContactsBackend

  datatype Privilege = Read | Write

  /** One access control entry: privilege, principal, protected flag. */
  datatype Ace = Ace(privilege: Privilege, principal: string, protected: bool)

  /** A node's ACL: its own entries, or the default rules of the parent class, which are not part of this model. */
  datatype Acl = Entries(aces: seq<Ace>) | ParentDefault

  /** The ACL grants `privilege` to `principal` through one of its own entries. */
  predicate Grants(acl: Acl, principal: string, privilege: Privilege) {
    acl.Entries? && exists a :: a in acl.aces && a.principal == principal && a.privilege == privilege
  }

  /**
   * The ACL both collections build from MYRIGHTS: with usable rights, a
   * protected read entry for the collection's principal, and a protected
   * write entry when that principal owns the folder or the rights contain
   * 'i' (insert); with no or error rights, the parent's rules.
   */
  function RightsAcl(rights: Option<string>, owner: string, principaluri: string): (r: Acl)
    ensures r.ParentDefault? <==> rights.None? || !Truthy(rights.value)
    ensures r.Entries? ==> 1 <= |r.aces| <= 2 && r.aces[0] == Ace(Read, principaluri, true)
    ensures r.Entries? ==> forall a :: a in r.aces ==> a.principal == principaluri && a.protected
  {
    if rights.Some? && Truthy(rights.value) then
      var read := [Ace(Read, principaluri, true)];
      if owner == principaluri || 'i' in rights.value then Entries(read + [Ace(Write, principaluri, true)])
      else Entries(read)
    else ParentDefault
  }

  /**
   * With usable rights the collection's principal may always read, and may
   * write exactly when it owns the folder or the rights contain 'i'; nobody
   * else is named.
   */
  lemma RightsAclGrants(rights: Option<string>, owner: string, principaluri: string, who: string)
    requires rights.Some? && Truthy(rights.value)
    ensures var acl := RightsAcl(rights, owner, principaluri);
      && Grants(acl, principaluri, Read)
      && (Grants(acl, principaluri, Write) <==> owner == principaluri || 'i' in rights.value)
      && (who != principaluri ==> !Grants(acl, who, Read) && !Grants(acl, who, Write))
  {
    var acl := RightsAcl(rights, owner, principaluri);
    assert acl.aces[0] in acl.aces;
    if owner == principaluri || 'i' in rights.value {
      assert acl.aces[1] in acl.aces;
    }
  }

  // ---------------------------------------------------------------- calendars

  /** A calendar node: its properties, the folder behind it and the ready flag. */
  datatype CalendarNode = CalendarNode(info: CB.CalendarInfo, storage: Option<Folder>, ready: bool)

  /** The calendar node's constructor: ready iff the id resolves to a folder. */
  function NewCalendar(b: CB.Backend, info: CB.CalendarInfo, sv: CB.Services): (r: CalendarNode)
    ensures r.info == info && r.storage == CB.GetStorageFolder(b, info.id, sv)
    ensures r.ready <==> r.storage.Some?
  {
    var storage := CB.GetStorageFolder(b, info.id, sv);
    CalendarNode(info, storage, storage.Some?)
  }

  /**
   * getOwner: the calendar's principal for a personal folder, the folder
   * owner's principal otherwise; without a folder the call is a fatal error.
   */
  function CalendarOwner(n: CalendarNode): (r: Result<string>)
    ensures r.Err? <==> n.storage.None?
    ensures r.Ok? && n.storage.value.ns == Personal ==> r.value == n.info.principaluri
    ensures r.Ok? && n.storage.value.ns != Personal ==> r.value == "principals/" + n.storage.value.owner
  {
    match n.storage
    case None => Err(NullFolder)
    case Some(f) => Ok(if f.ns == Personal then n.info.principaluri else "principals/" + f.owner)
  }

  /** getACL of a calendar; without a folder the call is a fatal error. */
  function CalendarAcl(n: CalendarNode): (r: Result<Acl>)
    ensures r.Err? <==> n.storage.None?
    ensures r.Ok? ==> r.value == RightsAcl(n.storage.value.rights, CalendarOwner(n).value, n.info.principaluri)
  {
    match n.storage
    case None => Err(NullFolder)
    case Some(f) => Ok(RightsAcl(f.rights, CalendarOwner(n).value, n.info.principaluri))
  }

  /** A calendar in a personal folder with usable rights is always writable by its principal. */
  lemma PersonalCalendarWritable(n: CalendarNode)
    requires n.storage.Some? && n.storage.value.ns == Personal
    requires n.storage.value.rights.Some? && Truthy(n.storage.value.rights.value)
    ensures CalendarAcl(n).Ok? && Grants(CalendarAcl(n).value, n.info.principaluri, Write)
  {
    RightsAclGrants(n.storage.value.rights, CalendarOwner(n).value, n.info.principaluri, n.info.principaluri);
  }

  // ---------------------------------------------------------------- address books

  /** An address book node: its properties, the folder behind it (none for some ids) and the ready flag. */
  datatype AddressBookNode = AddressBookNode(info: ContactsBackend.BookInfo, storage: Option<Folder>, ready: bool)

  /** The address book's constructor: ready for the aggregate book or when the id resolves to a folder. */
  function NewAddressBook(b: ContactsBackend.Backend, info: ContactsBackend.BookInfo, sv: CB.Services): (r: AddressBookNode)
    ensures r.info == info && r.storage == ContactsBackend.GetStorageFolder(b, info.id, sv)
    ensures r.ready <==> info.id == ContactsBackend.AllBook || r.storage.Some?
  {
    var storage := ContactsBackend.GetStorageFolder(b, info.id, sv);
    AddressBookNode(info, storage, info.id == ContactsBackend.AllBook || storage.Some?)
  }

  /** getOwner: the book's principal without a folder or for a personal folder, the folder owner's otherwise. */
  function BookOwner(n: AddressBookNode): (r: string)
    ensures n.storage.None? || n.storage.value.ns == Personal ==> r == n.info.principaluri
    ensures n.storage.Some? && n.storage.value.ns != Personal ==> r == "principals/" + n.storage.value.owner
  {
    if n.storage.None? || n.storage.value.ns == Personal then n.info.principaluri
    else "principals/" + n.storage.value.owner
  }

  /** getACL of an address book: no folder means no rights, and the parent's rules. */
  function BookAcl(n: AddressBookNode): (r: Acl)
    ensures n.storage.None? ==> r == ParentDefault
    ensures n.storage.Some? ==> r == RightsAcl(n.storage.value.rights, BookOwner(n), n.info.principaluri)
  {
    RightsAcl(if n.storage.Some? then n.storage.value.rights else None, BookOwner(n), n.info.principaluri)
  }

  /**
   * Whenever the backend would let a card be written to the book's folder,
   * the ACL grants write to the book's principal (given usable rights).
   */
  lemma WriteableBookGrantsWrite(n: AddressBookNode)
    requires n.storage.Some? && n.storage.value.rights.Some? && Truthy(n.storage.value.rights.value)
    requires ContactsBackend.IsWriteable(n.storage.value)
    ensures Grants(BookAcl(n), n.info.principaluri, Write)
  {
    RightsAclGrants(n.storage.value.rights, BookOwner(n), n.info.principaluri, n.info.principaluri);
  }

  /** setName: renaming address books is refused. */
  function SetBookName(n: AddressBookNode, newName: string): (r: Result<AddressBookNode>)
    ensures r == Err(MethodNotAllowed)
  {
    Err(MethodNotAllowed)
  }

  /** setACL: changing an address book's ACL is refused. */
  function SetBookAcl(n: AddressBookNode, acl: seq<Ace>): (r: Result<AddressBookNode>)
    ensures r == Err(MethodNotAllowed)
  {
    Err(MethodNotAllowed)
  }
}
