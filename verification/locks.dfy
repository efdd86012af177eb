/**
 * The WebDAV lock backend (section 6 of RFC 4918): a per-user list of locks
 * with the lookup of the locks that apply to a URI, taking a lock with a
 * fixed timeout, and releasing one. The lock file itself is reduced to the
 * list it holds; `now` is the clock reading of the call.
 */
module Locks {
  import opened Options
  import opened Strings

  /** A lock: owner, token, timeout in seconds, creation time, depth (0 or infinity), scope and URI. */
  datatype LockInfo = LockInfo(owner: string, token: string, timeout: int, created: int, depth: int, scope: int, uri: string)

  /** The timeout every new lock gets: 30 minutes. */
  const LockTimeout := 1800

  /** A lock is expired once the clock has passed its creation time plus its timeout. */
  predicate Expired(l: LockInfo, now: int) {
    now > l.timeout + l.created
  }

  /**
   * The lock applies to `uri`: it is on the URI itself, it is a deep lock on
   * an ancestor, or (when child locks are asked for) it is on a descendant.
   * `strpos(a, b) === 0` is "a starts with b".
   */
  predicate Applies(l: LockInfo, uri: string, returnChildLocks: bool) {
    || l.uri == uri
    || (l.depth != 0 && StartsWith(uri, l.uri + "/"))
    || (returnChildLocks && StartsWith(l.uri, uri + "/"))
  }

  /** The elements of `xs` that satisfy `keep`, in order. */
  function Filter<T(!new)>(xs: seq<T>, keep: T -> bool): (r: seq<T>)
    ensures forall x :: x in r <==> x in xs && keep(x)
    ensures |r| <= |xs|
  {
    if |xs| == 0 then []
    else if keep(xs[0]) then [xs[0]] + Filter(xs[1..], keep)
    else Filter(xs[1..], keep)
  }

  /** getLocks: the stored locks that apply to the URI and have not expired, in stored order. */
  function GetLocks(locks: seq<LockInfo>, uri: string, returnChildLocks: bool, now: int): (r: seq<LockInfo>)
    ensures forall l :: l in r <==> l in locks && Applies(l, uri, returnChildLocks) && !Expired(l, now)
  {
    Filter(locks, (l: LockInfo) => Applies(l, uri, returnChildLocks) && !Expired(l, now))
  }

  /** A deep lock on a collection applies to everything below it; a depth-0 lock only to itself. */
  lemma DeepLockCoversDescendants(locks: seq<LockInfo>, l: LockInfo, child: string, now: int)
    requires l in locks && !Expired(l, now)
    ensures l.depth != 0 ==> l in GetLocks(locks, l.uri + "/" + child, false, now)
    ensures l.depth == 0 ==> l !in GetLocks(locks, l.uri + "/" + child, false, now)
  {
    var uri := l.uri + "/" + child;
    assert uri[..|l.uri + "/"|] == l.uri + "/";
    assert uri != l.uri by {
      assert |uri| > |l.uri|;
    }
  }

  /**
   * lock: the lock gets the fixed timeout, the creation time `created`, the
   * URI and its owner trimmed; every stored lock with the same token or
   * expired at `now` is dropped and the new lock is appended. The store's
   * new contents and the (always true) result.
   */
  function Lock(locks: seq<LockInfo>, uri: string, info: LockInfo, created: int, now: int)
    : (r: (seq<LockInfo>, bool))
    ensures r.1
    ensures |r.0| >= 1 && r.0[|r.0| - 1] == NewLock(uri, info, created)
    ensures forall l :: l in r.0[..|r.0| - 1] <==> l in locks && l.token != info.token && !Expired(l, now)
  {
    var kept := Filter(locks, (l: LockInfo) => !(l.token == info.token || Expired(l, now)));
    var r := kept + [NewLock(uri, info, created)];
    assert r[..|r| - 1] == kept;
    (r, true)
  }

  /** The lock as stored. */
  function NewLock(uri: string, info: LockInfo, created: int): (r: LockInfo)
    ensures r.timeout == LockTimeout && r.created == created && r.uri == uri && r.token == info.token
  {
    info.(timeout := LockTimeout, created := created, uri := uri, owner := Trim(info.owner, Whitespace))
  }

  /**
   * After a lock, the URI's lookup finds it until its 30 minutes have
   * passed, and it is the only stored lock with its token.
   */
  lemma LockThenGetLocks(locks: seq<LockInfo>, uri: string, info: LockInfo, created: int, now: int, later: int)
    requires later <= created + LockTimeout
    ensures var stored := Lock(locks, uri, info, created, now).0;
      && NewLock(uri, info, created) in GetLocks(stored, uri, false, later)
      && forall l :: l in stored && l.token == info.token ==> l == NewLock(uri, info, created)
  {
    var stored := Lock(locks, uri, info, created, now).0;
    assert stored[|stored| - 1] in stored;
    forall l | l in stored && l.token == info.token
      ensures l == NewLock(uri, info, created)
    {
      InitOrLast(stored, l);
    }
  }

  /** An element of a non-empty list is its last element or one of the others. */
  lemma InitOrLast<T>(s: seq<T>, x: T)
    requires x in s
    ensures x == s[|s| - 1] || x in s[..|s| - 1]
  {
    var k :| 0 <= k < |s| && s[k] == x;
    if k < |s| - 1 {
      assert s[..|s| - 1][k] == x;
    }
  }

  /** The first index holding a lock with the token. */
  function FirstWithToken(locks: seq<LockInfo>, token: string): (r: Option<nat>)
    ensures r.Some? ==> (r.value < |locks| && locks[r.value].token == token
                         && forall j :: 0 <= j < r.value ==> locks[j].token != token)
    ensures r.None? <==> forall l :: l in locks ==> l.token != token
  {
    if |locks| == 0 then None
    else if locks[0].token == token then Some(0)
    else
      var r := FirstWithToken(locks[1..], token);
      assert forall l :: l in locks ==> l == locks[0] || l in locks[1..];
      if r.Some? then Some(r.value + 1) else None
  }

  /**
   * unlock: the first stored lock with the token is removed and the result
   * is true; with no such lock the store is left as it was and the result is
   * false.
   */
  function Unlock(locks: seq<LockInfo>, info: LockInfo): (r: (seq<LockInfo>, bool))
    ensures r.1 <==> exists l :: l in locks && l.token == info.token
    ensures !r.1 ==> r.0 == locks
    ensures r.1 ==> |r.0| == |locks| - 1 && multiset(r.0) + multiset{locks[FirstWithToken(locks, info.token).value]} == multiset(locks)
  {
    match FirstWithToken(locks, info.token)
    case None => (locks, false)
    case Some(k) =>
      assert locks == locks[..k] + [locks[k]] + locks[k + 1..];
      (locks[..k] + locks[k + 1..], true)
  }

  /** Locking and then unlocking with the same token leaves no lock with that token. */
  lemma LockThenUnlock(locks: seq<LockInfo>, uri: string, info: LockInfo, created: int, now: int)
    ensures var stored := Lock(locks, uri, info, created, now).0;
      var r := Unlock(stored, info);
      r.1 && forall l :: l in r.0 ==> l.token != info.token
  {
    var stored := Lock(locks, uri, info, created, now).0;
    var n := |stored| - 1;
    var kept := stored[..n];
    assert forall l :: l in kept ==> l.token != info.token;
    forall j | 0 <= j < n ensures stored[j].token != info.token {
      assert kept[j] in kept;
    }
    assert stored[n] in stored && stored[n].token == info.token;
    assert FirstWithToken(stored, info.token).value == n;
    assert stored[n + 1..] == [];
    assert Unlock(stored, info).0 == kept;
  }

  // ---------------------------------------------------------------- the lock file

  /** The directory of the user's lock file, computed once per backend. */
  function DataDir(basePath: string, cached: string, user: string): (r: string)
    ensures Truthy(cached) ==> r == cached
  {
    if Truthy(cached) then cached else basePath + "/" + ReplaceChar(user, '@', '_')
  }

  /** The lock file of a user: `<base>/<user with '@' as '_'>/locks`. */
  function LocksFile(basePath: string, cached: string, user: string): (r: string)
    ensures !Truthy(cached) ==> r == basePath + "/" + ReplaceChar(user, '@', '_') + "/locks"
  {
    DataDir(basePath, cached, user) + "/locks"
  }

  /**
   * The user's part of the path holds no '@', and users without '_' in
   * their names get distinct lock files.
   */
  lemma LocksFilePerUser(basePath: string, a: string, b: string)
    requires '_' !in a && '_' !in b && a != b
    ensures '@' !in ReplaceChar(a, '@', '_')
    ensures LocksFile(basePath, "", a) != LocksFile(basePath, "", b)
  {
    var ra := ReplaceChar(a, '@', '_');
    var rb := ReplaceChar(b, '@', '_');
    if |a| == |b| {
      assert exists i :: 0 <= i < |a| && a[i] != b[i];
      var i :| 0 <= i < |a| && a[i] != b[i];
      assert a[i] in a && b[i] in b;
      assert ra[i] != rb[i];
    }
    assert ra != rb;
    var pa := basePath + "/" + ra + "/locks";
    var pb := basePath + "/" + rb + "/locks";
    assert ra == pa[|basePath| + 1..|pa| - 6];
    assert rb == pb[|basePath| + 1..|pb| - 6];
  }

  /** The directory is kept from the first call: a later user name does not change the file. */
  lemma LocksFileFixedOnceComputed(basePath: string, first: string, later: string)
    requires Truthy(DataDir(basePath, "", first))
    ensures LocksFile(basePath, DataDir(basePath, "", first), later) == LocksFile(basePath, "", first)
  {
  }
}
