/**
 * The principal backend: only the authenticated user is a principal, under
 * `principals/<user>`, with the two calendar proxy groups of the CalDAV
 * proxy extension as its groups, and a principal-property-search (section
 * 9.4 of RFC 3744) that only knows the current user.
 */
module Principals {
  import opened Options
  import opened Strings

  /** A principal record: uri, display name and e-mail address (both e-mail properties carry the same address). */
  datatype Principal = Principal(uri: string, displayname: string, email: string)

  const DisplaynameProp := "{DAV:}displayname"
  const EmailProp := "{http://sabredav.org/ns}email-address"
  const EmailSetProp := "{http://calendarserver.org/ns/}email-address-set"

  /**
   * getCurrentUser: the record of the authenticated user, None (PHP false)
   * when nobody is (the user name is empty or falsy).
   */
  function GetCurrentUser(user: string, email: string): (r: Option<Principal>)
    ensures r.Some? <==> Truthy(user)
    ensures r.Some? ==> r.value.uri == "principals/" + user && r.value.displayname == user && r.value.email == email
  {
    if Truthy(user) then Some(Principal("principals/" + user, user, email)) else None
  }

  /** getPrincipalsByPrefix: the current user under the prefix "principals", nobody elsewhere. */
  function GetPrincipalsByPrefix(prefix: string, user: string, email: string): (r: seq<Principal>)
    ensures |r| <= 1
    ensures r != [] <==> prefix == "principals" && Truthy(user)
    ensures forall p :: p in r ==> Some(p) == GetCurrentUser(user, email)
  {
    if prefix == "principals" && GetCurrentUser(user, email).Some? then [GetCurrentUser(user, email).value] else []
  }

  /**
   * getPrincipalByPath: the current user's record when the path's first two
   * '/'-pieces are "principals" and the user's name; null otherwise. A
   * missing second piece is null, which equals only an empty user name.
   */
  function GetPrincipalByPath(path: string, user: string, email: string): (r: Option<Principal>)
    ensures var parts := Split(path, '/');
      r.Some? <==> Truthy(user) && |parts| >= 2 && parts[0] == "principals" && parts[1] == user
    ensures r.Some? ==> r == GetCurrentUser(user, email)
  {
    var parts := Split(path, '/');
    var name := if |parts| >= 2 then Some(parts[1]) else None;
    var nameMatches := if name.Some? then name.value == user else user == "";
    if parts[0] == "principals" && nameMatches then GetCurrentUser(user, email) else None
  }

  /** The pieces of `a/b` for a piece `b` without '/'. */
  lemma SplitTwo(a: string, b: string)
    requires '/' !in a && '/' !in b
    ensures Split(a + "/" + b, '/') == [a, b]
  {
    SplitAfterPiece(a, '/', b);
    SplitNoDelimiter(b, '/');
  }

  /** The path `principals/<user>` names the current user. */
  lemma UserPathResolves(user: string, email: string)
    requires Truthy(user) && '/' !in user
    ensures GetPrincipalByPath("principals/" + user, user, email) == GetCurrentUser(user, email)
  {
    assert "principals/" + user == "principals" + "/" + user;
    SplitTwo("principals", user);
  }

  /**
   * Only the first two pieces of a path are compared, so a path below the
   * user's principal, such as one of its proxy groups, also yields the
   * user's record.
   */
  lemma SubPathResolves(user: string, rest: string, email: string)
    requires Truthy(user) && '/' !in user
    ensures GetPrincipalByPath("principals/" + user + "/" + rest, user, email) == GetCurrentUser(user, email)
  {
    var p := "principals/" + user + "/" + rest;
    assert p == "principals" + ['/'] + (user + ['/'] + rest);
    SplitAfterPiece("principals", '/', user + ['/'] + rest);
    SplitAfterPiece(user, '/', rest);
  }

  /**
   * getGroupMemberSet: the group's parent path, when that path is a known
   * principal; None stands for the 'Principal not found' exception.
   * `splitPath` is the library's split into parent path and last piece.
   */
  function GetGroupMemberSet(group: string, user: string, email: string, splitPath: string -> (string, string))
    : (r: Option<seq<string>>)
    ensures r.None? <==> GetPrincipalByPath(splitPath(group).0, user, email).None?
    ensures r.Some? ==> r.value == [splitPath(group).0]
  {
    var (parent, _) := splitPath(group);
    if GetPrincipalByPath(parent, user, email).None? then None else Some([parent])
  }

  /** The two calendar proxy groups of a user. */
  function ProxyGroups(name: string): seq<string> {
    ["principals/" + name + "/calendar-proxy-read", "principals/" + name + "/calendar-proxy-write"]
  }

  /**
   * getGroupMembership: for a principal directly under "principals", its
   * two proxy groups (None, the exception, for an unknown principal); for
   * any other path, no groups.
   */
  function GetGroupMembership(principal: string, user: string, email: string, splitPath: string -> (string, string))
    : (r: Option<seq<string>>)
    ensures splitPath(principal).0 != "principals" ==> r == Some([])
    ensures splitPath(principal).0 == "principals" ==>
      (r.None? <==> GetPrincipalByPath(principal, user, email).None?)
      && (r.Some? ==> r.value == ProxyGroups(splitPath(principal).1))
  {
    var (prefix, name) := splitPath(principal);
    if prefix != "principals" then Some([])
    else if GetPrincipalByPath(principal, user, email).None? then None
    else Some(ProxyGroups(name))
  }

  /**
   * Membership and member sets agree for the current user: the user belongs
   * to exactly its two proxy groups, and each of them lists the user as its
   * only member (for a split that takes a path apart at its last '/').
   */
  lemma ProxyGroupsListUser(user: string, email: string, splitPath: string -> (string, string))
    requires Truthy(user) && '/' !in user
    requires splitPath("principals/" + user) == ("principals", user)
    requires forall g :: g in ProxyGroups(user) ==> splitPath(g).0 == "principals/" + user
    ensures GetGroupMembership("principals/" + user, user, email, splitPath) == Some(ProxyGroups(user))
    ensures forall g :: g in ProxyGroups(user) ==>
      GetGroupMemberSet(g, user, email, splitPath) == Some(["principals/" + user])
  {
    UserPathResolves(user, email);
  }

  // ---------------------------------------------------------------- searchPrincipals

  /**
   * `$current_user[$property]`: the current user's value of a search
   * property; None (null) for an unknown property or when nobody is
   * authenticated.
   */
  function PropertyOf(cur: Option<Principal>, property: string): Option<string> {
    if cur.None? then None
    else if property == "uri" then Some(cur.value.uri)
    else if property == DisplaynameProp then Some(cur.value.displayname)
    else if property == EmailProp || property == EmailSetProp then Some(cur.value.email)
    else None
  }

  /** `$current_user[$property] == $value`: null equals only the empty string. */
  predicate MatchesUser(cur: Option<Principal>, property: string, value: string) {
    var v := PropertyOf(cur, property);
    if v.Some? then v.value == value else value == ""
  }

  /**
   * The loop over the search properties: None when it returns early on an
   * unsupported property, otherwise whether some property matched the
   * current user.
   */
  function ScanSearch(cur: Option<Principal>, props: seq<(string, string)>): (r: Option<bool>)
    ensures r.None? <==> exists i :: 0 <= i < |props| && !MatchesUser(cur, props[i].0, props[i].1) && props[i].0 != EmailProp
    ensures r == Some(true) <==> (
      && (forall i :: 0 <= i < |props| ==> MatchesUser(cur, props[i].0, props[i].1) || props[i].0 == EmailProp)
      && exists i :: 0 <= i < |props| && MatchesUser(cur, props[i].0, props[i].1))
  {
    if |props| == 0 then Some(false)
    else
      var rest := ScanSearch(cur, props[1..]);
      assert forall i :: 1 <= i < |props| ==> props[i] == props[1..][i - 1];
      if MatchesUser(cur, props[0].0, props[0].1) then (if rest.None? then None else Some(true))
      else if props[0].0 == EmailProp then rest
      else None
  }

  /**
   * searchPrincipals: the current user's uri (None for PHP null when nobody
   * is authenticated) once if some property matched it and every other one
   * is an e-mail search; nothing as soon as a property is neither.
   */
  function SearchPrincipals(user: string, email: string, props: seq<(string, string)>): (r: seq<Option<string>>)
    ensures var cur := GetCurrentUser(user, email);
      r == (if ScanSearch(cur, props) == Some(true) then [if cur.Some? then Some(cur.value.uri) else None] else [])
  {
    var cur := GetCurrentUser(user, email);
    match ScanSearch(cur, props)
    case Some(true) => [if cur.Some? then Some(cur.value.uri) else None]
    case _ => []
  }

  /**
   * The search result holds at most one entry, the current user's uri, and
   * an unsupported property that does not match the user empties it,
   * wherever it stands in the list.
   */
  lemma SearchFindsOnlyUser(user: string, email: string, props: seq<(string, string)>, i: nat)
    requires Truthy(user)
    ensures var r := SearchPrincipals(user, email, props);
      |r| <= 1 && (forall x :: x in r ==> x == Some("principals/" + user))
    ensures i < |props| && props[i].0 != EmailProp && !MatchesUser(GetCurrentUser(user, email), props[i].0, props[i].1)
      ==> SearchPrincipals(user, email, props) == []
  {
  }

  /** A search for the user's own display name finds the user. */
  lemma SearchByDisplayname(user: string, email: string)
    requires Truthy(user)
    ensures SearchPrincipals(user, email, [(DisplaynameProp, user)]) == [Some("principals/" + user)]
  {
    assert MatchesUser(GetCurrentUser(user, email), [(DisplaynameProp, user)][0].0, [(DisplaynameProp, user)][0].1);
  }
}
