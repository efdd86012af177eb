/**
 * A user's calendar home: its children (the calendars, then the scheduling
 * outbox of section 2.1 of RFC 6638), the lookup of one child by name, and
 * its fixed access control list.
 */
module UserCalendars {
  import opened Options
  import opened Strings
  import opened DavCommon
  import CB = CalendarBackend
  import CollectionNodes

  /** A child of the calendar home. */
  datatype Child =
    | CalendarChild(node: CollectionNodes.CalendarNode)
    | Outbox(principal: string)

  /** The calendar nodes for a list of calendars, in order. */
  function CalendarNodes(b: CB.Backend, cals: seq<CB.CalendarInfo>, sv: CB.Services): (r: seq<Child>)
    ensures |r| == |cals|
    ensures forall i :: 0 <= i < |r| ==> r[i] == CalendarChild(CollectionNodes.NewCalendar(b, cals[i], sv))
  {
    seq(|cals|, i requires 0 <= i < |cals| => CalendarChild(CollectionNodes.NewCalendar(b, cals[i], sv)))
  }

  /**
   * getChildren: one calendar node per calendar of the home's principal, in
   * the backend's order, followed by exactly one outbox.
   */
  function GetChildren(b: CB.Backend, principal: string, listed: seq<Folder>, sv: CB.Services)
    : (r: (CB.Backend, seq<Child>))
    requires b.calendars.Some? ==> b.calendars.value.Valid()
    ensures var cals := CB.GetCalendarsForUser(b, principal, listed, sv);
      && r.0 == cals.0
      && |r.1| == |cals.1| + 1
      && r.1[|r.1| - 1] == Outbox(principal)
      && forall i :: 0 <= i < |cals.1| ==> r.1[i] == CalendarChild(CollectionNodes.NewCalendar(cals.0, cals.1[i], sv))
  {
    var (b1, cals) := CB.GetCalendarsForUser(b, principal, listed, sv);
    (b1, CalendarNodes(b1, cals, sv) + [Outbox(principal)])
  }

  /** Every calendar child of the home names the home's principal as its principal, and only the last child is the outbox. */
  lemma ChildrenBelongToHome(b: CB.Backend, principal: string, listed: seq<Folder>, sv: CB.Services)
    requires b.calendars.Some? ==> b.calendars.value.Valid()
    ensures var kids := GetChildren(b, principal, listed, sv).1;
      forall i :: 0 <= i < |kids| ==>
        (kids[i].CalendarChild? ==> kids[i].node.info.principaluri == principal)
        && (kids[i].Outbox? <==> i == |kids| - 1)
  {
  }

  /**
   * getChild: the outbox by its name without asking the backend; otherwise
   * the calendar found by name, given the home's principal; NotFound for an
   * unknown name.
   */
  function GetChild(b: CB.Backend, principal: string, name: string, currentUser: string, listed: seq<Folder>,
                    sv: CB.Services): (r: (CB.Backend, Result<Child>))
    requires b.calendars.Some? ==> b.calendars.value.Valid()
    ensures name == "outbox" ==> r == (b, Ok(Outbox(principal)))
    ensures name != "outbox" ==>
      var found := CB.GetCalendarByName(b, name, currentUser, listed, sv);
      && r.0 == found.0
      && (r.1 == Err(NotFound) <==> found.1.None?)
      && (found.1.Some? ==>
            r.1 == Ok(CalendarChild(CollectionNodes.NewCalendar(found.0, found.1.value.(principaluri := principal), sv))))
  {
    if name == "outbox" then (b, Ok(Outbox(principal)))
    else
      var (b1, cal) := CB.GetCalendarByName(b, name, currentUser, listed, sv);
      match cal
      case None => (b1, Err(NotFound))
      case Some(c) => (b1, Ok(CalendarChild(CollectionNodes.NewCalendar(b1, c.(principaluri := principal), sv))))
  }

  /** childExists: whether the backend finds a calendar by the name. */
  function ChildExists(b: CB.Backend, name: string, currentUser: string, listed: seq<Folder>, sv: CB.Services)
    : (r: (CB.Backend, bool))
    requires b.calendars.Some? ==> b.calendars.value.Valid()
    ensures r.1 <==> CB.GetCalendarByName(b, name, currentUser, listed, sv).1.Some?
  {
    var (b1, cal) := CB.GetCalendarByName(b, name, currentUser, listed, sv);
    (b1, cal.Some?)
  }

  /**
   * childExists agrees with getChild for every name but the outbox's: the
   * outbox is served by getChild and reported absent unless a calendar has
   * that name.
   */
  lemma ChildExistsAgreesWithGetChild(b: CB.Backend, principal: string, name: string, currentUser: string,
                                      listed: seq<Folder>, sv: CB.Services)
    requires b.calendars.Some? ==> b.calendars.value.Valid()
    ensures name != "outbox" ==>
      (ChildExists(b, name, currentUser, listed, sv).1 <==> GetChild(b, principal, name, currentUser, listed, sv).1.Ok?)
    ensures name == "outbox" ==>
      GetChild(b, principal, name, currentUser, listed, sv).1.Ok?
      && (ChildExists(b, name, currentUser, listed, sv).1 <==> CB.GetCalendarByName(b, name, currentUser, listed, sv).1.Some?)
  {
  }

  /** getACL of the home: protected read and write for the home's principal. */
  function HomeAcl(principal: string): (r: seq<CollectionNodes.Ace>)
    ensures CollectionNodes.Grants(CollectionNodes.Entries(r), principal, CollectionNodes.Read)
    ensures CollectionNodes.Grants(CollectionNodes.Entries(r), principal, CollectionNodes.Write)
    ensures forall a :: a in r ==> a.principal == principal && a.protected
    ensures |r| == 2
  {
    var r := [CollectionNodes.Ace(CollectionNodes.Read, principal, true), CollectionNodes.Ace(CollectionNodes.Write, principal, true)];
    assert r[0] in r && r[1] in r;
    r
  }

  /** setACL: changing the home's ACL is refused. */
  function SetHomeAcl(principal: string, acl: seq<CollectionNodes.Ace>): (r: Result<seq<CollectionNodes.Ace>>)
    ensures r == Err(MethodNotAllowed)
  {
    Err(MethodNotAllowed)
  }
}
