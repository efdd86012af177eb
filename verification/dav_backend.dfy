/**
 * Folder identity and folder administration shared by the calendar and the
 * address-book backends: the stable uid a Kolab folder is addressed by, the
 * lookup of a folder by that uid, absolute URLs, and the translation of DAV
 * property updates and collection creation into storage folder updates.
 */
module DavBackend {
  import opened Options
  import opened Strings
  import opened DavCommon

  // ---------------------------------------------------------------- folder uid

  /** The METADATA entries that may hold a folder's uid, in lookup order. */
  const ImapUidKey: string := "/shared/vendor/kolab/uniqueid"
  const ImapUidKeyPrivate: string := "/private/vendor/kolab/uniqueid"
  const ImapUidKeyCyrus: string := "/shared/vendor/cmu/cyrus-imapd/uniqueid"
  const UidKeys: seq<string> := [ImapUidKey, ImapUidKeyPrivate, ImapUidKeyCyrus]

  /** The annotation `key` holds a usable (truthy) uid. */
  predicate HasUidAt(meta: map<string, string>, key: string) {
    key in meta && Truthy(meta[key])
  }

  /** The first truthy uid annotation among `keys`. */
  function StoredUid(meta: map<string, string>, keys: seq<string>): (r: Option<string>)
    ensures r.None? <==> forall i :: 0 <= i < |keys| ==> !HasUidAt(meta, keys[i])
    ensures r.Some? ==> exists i :: 0 <= i < |keys| && HasUidAt(meta, keys[i]) && r.value == meta[keys[i]]
                          && forall j :: 0 <= j < i ==> !HasUidAt(meta, keys[j])
    decreases |keys|
  {
    if |keys| == 0 then None
    else if HasUidAt(meta, keys[0]) then Some(meta[keys[0]])
    else
      var r := StoredUid(meta, keys[1..]);
      assert r.Some? ==> exists i :: 1 <= i < |keys| && HasUidAt(meta, keys[i]) && r.value == meta[keys[i]]
                           && forall j :: 0 <= j < i ==> !HasUidAt(meta, keys[j]) by {
        if r.Some? {
          var i :| 0 <= i < |keys[1..]| && HasUidAt(meta, keys[1..][i]) && r.value == meta[keys[1..][i]]
                   && forall j :: 0 <= j < i ==> !HasUidAt(meta, keys[1..][j]);
          assert HasUidAt(meta, keys[i + 1]) && forall j :: 0 <= j < i + 1 ==> !HasUidAt(meta, keys[j]);
        }
      }
      r
  }

  /** chunk_split(s, n, end): `end` after every `n` characters and after the rest. */
  function ChunkSplit(s: string, n: nat, end: string): string
    requires n > 0
    decreases |s|
  {
    if |s| <= n then s + end else s[..n] + end + ChunkSplit(s[n..], n, end)
  }

  /** The uid generated for a folder that has none, from the digest of its name and owner. */
  function GeneratedUid(digest: string): string {
    TrimRight(ChunkSplit(digest, 12, "-"), {'-'})
  }

  /** A generated uid is the digest in dash-separated groups of 12, 12 and 8 characters. */
  lemma GeneratedUidShape(h: string)
    requires IsHexDigest(h)
    ensures GeneratedUid(h) == h[..12] + "-" + h[12..24] + "-" + h[24..]
    ensures |GeneratedUid(h)| == 34 && Truthy(GeneratedUid(h))
  {
    var x := h[..12] + "-" + h[12..24] + "-" + h[24..];
    assert h[12..][..12] == h[12..24] && h[12..][12..] == h[24..];
    assert ChunkSplit(h[24..], 12, "-") == h[24..] + "-";
    assert ChunkSplit(h[12..], 12, "-") == h[12..24] + "-" + h[24..] + "-";
    assert ChunkSplit(h, 12, "-") == x + "-";
    assert x[|x| - 1] == h[31];
    assert (x + "-")[..|x + "-"| - 1] == x;
    assert TrimRight(x + "-", {'-'}) == TrimRight(x, {'-'});
  }

  /** set_uid: write the shared annotation, falling back to the private one; the flag reports success. */
  function SetUid(meta: map<string, string>, uid: string, sharedOk: bool, privateOk: bool): (map<string, string>, bool) {
    if sharedOk then (meta[ImapUidKey := uid], true)
    else if privateOk then (meta[ImapUidKeyPrivate := uid], true)
    else (meta, false)
  }

  datatype UidResolution = UidResolution(uid: string, folder: Folder)

  /**
   * get_uid: the stored uid, or a generated one that is then written to the
   * folder. `sharedOk` and `privateOk` are the outcomes of the two writes.
   */
  function GetUid(f: Folder, md5: string -> string, sharedOk: bool, privateOk: bool): UidResolution {
    match StoredUid(f.metadata, UidKeys)
    case Some(u) => UidResolution(u, f)
    case None =>
      var uid := GeneratedUid(md5(f.name + f.owner));
      UidResolution(uid, f.(metadata := SetUid(f.metadata, uid, sharedOk, privateOk).0))
  }

  /** The uid a folder is addressed by; the write outcomes do not affect it. */
  function FolderUid(f: Folder, md5: string -> string): string {
    GetUid(f, md5, false, false).uid
  }

  /** Resolving a uid never changes anything but the uid annotations, and never overwrites a stored uid. */
  lemma GetUidFrame(f: Folder, md5: string -> string, sharedOk: bool, privateOk: bool)
    ensures var r := GetUid(f, md5, sharedOk, privateOk);
      && r.uid == FolderUid(f, md5)
      && r.folder == f.(metadata := r.folder.metadata)
      && (StoredUid(f.metadata, UidKeys).Some? ==> r.folder == f)
      && (forall k :: k != ImapUidKey && k != ImapUidKeyPrivate ==>
            (k in f.metadata <==> k in r.folder.metadata) && (k in f.metadata ==> f.metadata[k] == r.folder.metadata[k]))
  {
  }

  /**
   * Once a generated uid has been written, resolving the folder again reads
   * the same uid back and writes nothing: the uid is stable.
   */
  lemma GetUidPersists(f: Folder, md5: string -> string, sharedOk: bool, privateOk: bool)
    requires IsHexDigest(md5(f.name + f.owner))
    requires sharedOk || privateOk
    ensures var r := GetUid(f, md5, sharedOk, privateOk);
      && StoredUid(r.folder.metadata, UidKeys) == Some(r.uid)
      && forall a: bool, b: bool :: GetUid(r.folder, md5, a, b) == r
  {
    var r := GetUid(f, md5, sharedOk, privateOk);
    if StoredUid(f.metadata, UidKeys).None? {
      GeneratedUidShape(md5(f.name + f.owner));
      var m := r.folder.metadata;
      if sharedOk {
        assert HasUidAt(m, UidKeys[0]);
        assert StoredUid(m, UidKeys) == Some(r.uid);
      } else {
        assert !HasUidAt(m, UidKeys[0]) by { assert !HasUidAt(f.metadata, UidKeys[0]); }
        assert HasUidAt(m, UidKeys[1]);
        assert StoredUid(m, UidKeys) == StoredUid(m, UidKeys[1..]);
      }
    }
  }

  /** get_storage_folder: the first of `folders` (those of the requested type) whose uid is `uid`. */
  function GetStorageFolder(folders: seq<Folder>, uid: string, md5: string -> string): (r: Option<Folder>)
    ensures r.None? <==> forall i :: 0 <= i < |folders| ==> FolderUid(folders[i], md5) != uid
    ensures r.Some? ==> exists i :: FirstWithUid(folders, i, uid, md5) && folders[i] == r.value
    decreases |folders|
  {
    if |folders| == 0 then None
    else if FolderUid(folders[0], md5) == uid then Some(folders[0])
    else
      var r := GetStorageFolder(folders[1..], uid, md5);
      if r.Some? then
        var i :| FirstWithUid(folders[1..], i, uid, md5) && folders[1..][i] == r.value;
        FirstWithUidShift(folders, i, uid, md5);
        r
      else r
  }

  /** Folder i is the first of `folders` whose uid is `uid`. */
  predicate FirstWithUid(folders: seq<Folder>, i: int, uid: string, md5: string -> string) {
    0 <= i < |folders| && FolderUid(folders[i], md5) == uid
    && forall j :: 0 <= j < i ==> FolderUid(folders[j], md5) != uid
  }

  /** The first match in the tail is the first match of the list when its head does not match. */
  lemma FirstWithUidShift(folders: seq<Folder>, i: int, uid: string, md5: string -> string)
    requires |folders| > 0 && FolderUid(folders[0], md5) != uid && FirstWithUid(folders[1..], i, uid, md5)
    ensures FirstWithUid(folders, i + 1, uid, md5) && folders[i + 1] == folders[1..][i]
  {
    var key := f => FolderUid(f, md5);
    FirstShift(folders, key, i, uid);
  }

  /** The same shift for any key of the elements. */
  lemma FirstShift<T>(xs: seq<T>, key: T -> string, i: int, uid: string)
    requires |xs| > 0 && key(xs[0]) != uid && 0 <= i < |xs| - 1 && key(xs[1..][i]) == uid
    requires forall j :: 0 <= j < i ==> key(xs[1..][j]) != uid
    ensures xs[i + 1] == xs[1..][i] && forall j :: 0 <= j < i + 1 ==> key(xs[j]) != uid
  {
    forall j | 0 < j < i + 1 ensures key(xs[j]) != uid {
      assert xs[j] == xs[1..][j - 1];
    }
  }

  /** With distinct uids, the lookup finds exactly the folder carrying the uid. */
  lemma GetStorageFolderUnique(folders: seq<Folder>, k: nat, md5: string -> string)
    requires k < |folders|
    requires forall i, j :: 0 <= i < j < |folders| ==> FolderUid(folders[i], md5) != FolderUid(folders[j], md5)
    ensures GetStorageFolder(folders, FolderUid(folders[k], md5), md5) == Some(folders[k])
  {
    var r := GetStorageFolder(folders, FolderUid(folders[k], md5), md5);
    var i :| 0 <= i < |folders| && folders[i] == r.value && FolderUid(folders[i], md5) == FolderUid(folders[k], md5)
             && forall j :: 0 <= j < i ==> FolderUid(folders[j], md5) != FolderUid(folders[k], md5);
    assert i == k;
  }

  // ---------------------------------------------------------------- absolute URLs

  /** The request environment abs_url reads from the web server. */
  datatype ServerEnv = ServerEnv(https: bool, host: string, port: nat, scriptName: string)

  function Scheme(https: bool): string {
    if https then "https" else "http"
  }

  function DefaultPort(https: bool): nat {
    if https then 443 else 80
  }

  /** The index of the last occurrence of `c` in `s`. */
  function LastIndexOf(s: string, c: char): (r: Option<nat>)
    ensures r.Some? ==> r.value < |s| && s[r.value] == c && forall j :: r.value < j < |s| ==> s[j] != c
    ensures r.None? ==> c !in s
    decreases |s|
  {
    if |s| == 0 then None
    else if s[|s| - 1] == c then Some(|s| - 1)
    else LastIndexOf(s[..|s| - 1], c)
  }

  /** PHP's dirname(): the path without its last component and the slashes before it. */
  function Dirname(p: string): string {
    if p == "" then ""
    else
      var t := TrimRight(p, {'/'});
      if t == "" then "/"
      else match LastIndexOf(t, '/')
        case None => "."
        case Some(k) =>
          var head := TrimRight(t[..k], {'/'});
          if head == "" then "/" else head
  }

  /** The directory of an absolute script path is absolute. */
  lemma DirnameAbsolute(p: string)
    requires StartsWith(p, "/")
    ensures |Dirname(p)| > 0 && Dirname(p)[0] == '/'
  {
    var t := TrimRight(p, {'/'});
    if t != "" {
      assert t[0] == '/';
      var k := LastIndexOf(t, '/');
      if k.Some? {
        var head := TrimRight(t[..k.value], {'/'});
        if head != "" {
          assert head[0] == t[..k.value][0] == p[0];
        }
      }
    }
  }

  /** The host and port part of the URL, as written. */
  function AuthorityAsWritten(env: ServerEnv): string {
    env.host + (if env.port != DefaultPort(env.https) then ":" + NatToString(env.port) else "")
  }

  /** The Host header already names a port: a ':' after any IPv6 literal. */
  predicate HostHasPort(host: string) {
    match LastIndexOf(host, ':')
    case None => false
    case Some(k) => forall j :: k < j < |host| ==> host[j] != ']'
  }

  /** The host and port part of the URL, appending the server port only when the host lacks one. */
  function Authority(env: ServerEnv): string {
    env.host + (if env.port != DefaultPort(env.https) && !HostHasPort(env.host) then ":" + NatToString(env.port) else "")
  }

  /** The directory the server script is installed in, as a URL path prefix. */
  function BasePath(scriptName: string): string {
    if Dirname(scriptName) != "/" then Dirname(scriptName) else ""
  }

  /** abs_url as written: scheme, Host header, non-default server port, script directory, encoded parts. */
  function AbsUrlAsWritten(env: ServerEnv, parts: seq<string>, urlencode: string -> string): string {
    Scheme(env.https) + "://" + AuthorityAsWritten(env) + BasePath(env.scriptName)
      + "/" + Join(MapSeq(urlencode, parts), "/")
  }

  /** abs_url with the server port appended only to a Host header without one. */
  function AbsUrl(env: ServerEnv, parts: seq<string>, urlencode: string -> string): string {
    Scheme(env.https) + "://" + Authority(env) + BasePath(env.scriptName)
      + "/" + Join(MapSeq(urlencode, parts), "/")
  }

  lemma PrintedPort()
    ensures NatToString(8080) == "8080"
  {
    assert NatToString(8) == "8";
    assert NatToString(80) == "80";
    assert NatToString(808) == "808";
  }

  /**
   * A Host header carrying the non-default port gets the port appended a
   * second time.
   */
  lemma AbsUrlAsWrittenDoublesPort()
    ensures AbsUrlAsWritten(ServerEnv(false, "h:8080", 8080, "/x"), [], s => s) == "http://h:8080:8080/"
  {
    ScriptAtRoot();
    PortNamedTwice();
    assert Join(MapSeq(s => s, []), "/") == "";
  }

  /** A script directly under the root adds no base path. */
  lemma ScriptAtRoot()
    ensures BasePath("/x") == ""
  {
    assert LastIndexOf("/x", '/') == Some(0) by {
      assert "/x"[..1] == "/";
    }
    assert TrimRight("/x", {'/'}) == "/x";
    assert "/x"[..0] == "";
  }

  /** Every script directly under the root, whatever its name, adds no base path. */
  lemma TopLevelScriptNoBase(name: string)
    requires |name| > 0 && '/' !in name
    ensures BasePath("/" + name) == ""
  {
    var p := "/" + name;
    assert p[|p| - 1] != '/';
    assert TrimRight(p, {'/'}) == p;
    assert LastIndexOf(p, '/') == Some(0) by {
      assert p[0] == '/';
      assert forall j :: 0 < j < |p| ==> p[j] == name[j - 1];
    }
    assert p[..0] == "";
  }

  /** As written, a Host header with port 8080 on a server port 8080 names the port twice. */
  lemma PortNamedTwice()
    ensures AuthorityAsWritten(ServerEnv(false, "h:8080", 8080, "/x")) == "h:8080:8080"
  {
    PrintedPort();
  }

  /**
   * The authority names a port exactly when one is needed: a host without a
   * port gets the server port iff it is not the scheme's default, and a host
   * with a port is kept as it is.
   */
  lemma AuthorityPort(env: ServerEnv)
    ensures !HostHasPort(env.host) ==>
      (env.port != DefaultPort(env.https) <==> Authority(env) == env.host + ":" + NatToString(env.port))
    ensures HostHasPort(env.host) ==> Authority(env) == env.host
  {
    if !HostHasPort(env.host) && env.port == DefaultPort(env.https) {
      assert |Authority(env)| < |env.host + ":" + NatToString(env.port)|;
    }
  }

  /**
   * The path of an absolute URL ends in the url-encoded parts, and splitting
   * it at '/' and decoding gives the parts back.
   */
  lemma AbsUrlParts(env: ServerEnv, parts: seq<string>, urlencode: string -> string, urldecode: string -> string)
    requires |parts| >= 1
    requires forall s :: '/' !in urlencode(s)
    requires forall s :: urldecode(urlencode(s)) == s
    ensures EndsWith(AbsUrlAsWritten(env, parts, urlencode), "/" + Join(MapSeq(urlencode, parts), "/"))
    ensures EndsWith(AbsUrl(env, parts, urlencode), "/" + Join(MapSeq(urlencode, parts), "/"))
    ensures MapSeq(urldecode, Split(Join(MapSeq(urlencode, parts), "/"), '/')) == parts
  {
    AbsUrlEndsWithPath(env, parts, urlencode);
    EncodedPartsRoundTrip(parts, urlencode, urldecode);
  }

  /** The absolute URL, as written and corrected, ends with a slash and the joined url-encoded parts. */
  lemma AbsUrlEndsWithPath(env: ServerEnv, parts: seq<string>, urlencode: string -> string)
    ensures EndsWith(AbsUrlAsWritten(env, parts, urlencode), "/" + Join(MapSeq(urlencode, parts), "/"))
    ensures EndsWith(AbsUrl(env, parts, urlencode), "/" + Join(MapSeq(urlencode, parts), "/"))
  {
    var enc := MapSeq(urlencode, parts);
    var pre := Scheme(env.https) + "://" + Authority(env) + BasePath(env.scriptName);
    assert AbsUrl(env, parts, urlencode) == pre + ("/" + Join(enc, "/"));
    EndsWithSecond(pre, "/" + Join(enc, "/"));
    var pre' := Scheme(env.https) + "://" + AuthorityAsWritten(env) + BasePath(env.scriptName);
    assert AbsUrlAsWritten(env, parts, urlencode) == pre' + ("/" + Join(enc, "/"));
    EndsWithSecond(pre', "/" + Join(enc, "/"));
  }

  /** Joining url-encoded parts at '/', splitting at '/' and decoding gives the parts back. */
  lemma EncodedPartsRoundTrip(parts: seq<string>, urlencode: string -> string, urldecode: string -> string)
    requires |parts| >= 1
    requires forall s :: '/' !in urlencode(s)
    requires forall s :: urldecode(urlencode(s)) == s
    ensures MapSeq(urldecode, Split(Join(MapSeq(urlencode, parts), "/"), '/')) == parts
  {
    var enc := MapSeq(urlencode, parts);
    forall i | 0 <= i < |enc| ensures '/' !in enc[i] {
      assert enc[i] == urlencode(parts[i]);
    }
    SplitJoin(enc, '/');
    MapSeqInverse(urlencode, urldecode, parts);
  }

  /** The first characters of a concatenation. */
  lemma ConcatHead(a: string, b: string)
    requires |b| > 0
    ensures |a + b| > |a| && (a + b)[..|a|] == a && (a + b)[|a|] == b[0]
  {
  }

  /** The path after the authority starts with a slash when the script path is absolute. */
  lemma PathHead(scriptName: string, x: string)
    requires StartsWith(scriptName, "/")
    ensures |BasePath(scriptName) + x| > 0 || x == ""
    ensures |x| > 0 && x[0] == '/' ==> (BasePath(scriptName) + x)[0] == '/'
  {
    DirnameAbsolute(scriptName);
  }

  /** For an absolute script path, the URL shows a port right after the host iff the port is not the default. */
  lemma AbsUrlPortShown(env: ServerEnv, parts: seq<string>, urlencode: string -> string)
    requires !HostHasPort(env.host)
    requires StartsWith(env.scriptName, "/")
    ensures var url := AbsUrl(env, parts, urlencode);
      var origin := Scheme(env.https) + "://" + env.host;
      |url| > |origin| && url[..|origin|] == origin
      && (url[|origin|] == ':' <==> env.port != DefaultPort(env.https))
  {
    var origin := Scheme(env.https) + "://" + env.host;
    var path := "/" + Join(MapSeq(urlencode, parts), "/");
    var rest := BasePath(env.scriptName) + path;
    var portPart := if env.port != DefaultPort(env.https) then ":" + NatToString(env.port) else "";
    var tail := portPart + rest;
    assert |tail| > 0 && tail[0] == (if env.port != DefaultPort(env.https) then ':' else '/') by {
      PathHead(env.scriptName, path);
    }
    assert AbsUrl(env, parts, urlencode) == origin + tail by {
      assert Authority(env) == env.host + portPart;
      ConcatRegroup(Scheme(env.https) + "://", env.host, portPart, BasePath(env.scriptName), path);
    }
    ConcatHead(origin, tail);
  }

  lemma ConcatRegroup(a: string, b: string, c: string, d: string, e: string)
    ensures a + (b + c) + d + e == (a + b) + (c + (d + e))
  {
  }

  // ---------------------------------------------------------------- display-name splitting

  /** The characters PCRE's \s matches. */
  const PcreSpace: set<char> := {' ', '\t', '\n', '\U{B}', '\U{C}', '\r'}

  /** The end of the longest run of \s starting at `i`. */
  function SpaceRunEnd(s: string, i: nat): (e: nat)
    requires i <= |s|
    ensures i <= e <= |s|
    ensures forall k :: i <= k < e ==> s[k] in PcreSpace
    ensures e == |s| || s[e] !in PcreSpace
    decreases |s| - i
  {
    if i < |s| && s[i] in PcreSpace then SpaceRunEnd(s, i + 1) else i
  }

  /**
   * The end of the '»' or ':' of a separator at `k`. Without the UTF-8
   * pattern flag the class [»:] is the three single bytes C2, BB and ':'
   * (`byteClass`); meant is the two-byte UTF-8 sequence C2 BB, or ':'.
   */
  function MiddleEnd(s: string, k: nat, byteClass: bool): (r: Option<nat>)
    requires k <= |s|
    ensures r.Some? ==> k < r.value <= |s|
  {
    if k == |s| then None
    else if s[k] == ':' then Some(k + 1)
    else if byteClass then (if s[k] == '\U{C2}' || s[k] == '\U{BB}' then Some(k + 1) else None)
    else if s[k] == '\U{C2}' && k + 1 < |s| && s[k + 1] == '\U{BB}' then Some(k + 2)
    else None
  }

  // The end of a match of the separator pattern `\s*/\s*|\s+[»:]\s+` that starts at `i`, if any.
  function SeparatorEnd(s: string, i: nat, byteClass: bool): (r: Option<nat>)
    requires i <= |s|
    ensures r.Some? ==> i < r.value <= |s|
  {
    var k := SpaceRunEnd(s, i);
    if k < |s| && s[k] == '/' then Some(SpaceRunEnd(s, k + 1))
    else if k > i then
      match MiddleEnd(s, k, byteClass)
      case Some(m) => var e := SpaceRunEnd(s, m); if e > m then Some(e) else None
      case None => None
    else None
  }

  /** preg_split from position `i` on, the current piece having started at `start`. */
  function SplitPieces(s: string, start: nat, i: nat, byteClass: bool): (r: seq<string>)
    requires start <= i <= |s|
    ensures |r| >= 1
    decreases |s| - i
  {
    if i == |s| then [s[start..]]
    else match SeparatorEnd(s, i, byteClass)
      case Some(e) => [s[start..i]] + SplitPieces(s, e, e, byteClass)
      case None => SplitPieces(s, start, i + 1, byteClass)
  }

  /** The folder path a display name denotes, split the way the code splits it. */
  function DisplaynamePartsAsWritten(s: string): seq<string> {
    SplitPieces(s, 0, 0, true)
  }

  /** The folder path a display name denotes, with '»' read as one UTF-8 character. */
  function DisplaynameParts(s: string): seq<string> {
    SplitPieces(s, 0, 0, false)
  }

  /** The characters that can begin a separator. */
  function Stops(byteClass: bool): set<char> {
    if byteClass then {'/', ':', '\U{C2}', '\U{BB}'} else {'/', ':', '\U{C2}'}
  }

  /** No piece contains a '/': every slash is consumed by a separator. */
  lemma {:induction false} PiecesHaveNoSlash(s: string, start: nat, i: nat, byteClass: bool)
    requires start <= i <= |s|
    requires forall k :: start <= k < i ==> s[k] != '/'
    ensures forall j :: 0 <= j < |SplitPieces(s, start, i, byteClass)| ==> '/' !in SplitPieces(s, start, i, byteClass)[j]
    decreases |s| - i
  {
    var r := SplitPieces(s, start, i, byteClass);
    if i == |s| {
      assert forall k :: 0 <= k < |s[start..]| ==> s[start..][k] == s[start + k];
    } else {
      match SeparatorEnd(s, i, byteClass)
      case Some(e) =>
        PiecesHaveNoSlash(s, e, e, byteClass);
        assert forall k :: 0 <= k < |s[start..i]| ==> s[start..i][k] == s[start + k];
        assert r == [s[start..i]] + SplitPieces(s, e, e, byteClass);
        forall j | 0 <= j < |r| ensures '/' !in r[j] {
          if j > 0 {
            assert r[j] == SplitPieces(s, e, e, byteClass)[j - 1];
          }
        }
      case None =>
        assert SpaceRunEnd(s, i) == i || s[i] != '/';
        PiecesHaveNoSlash(s, start, i + 1, byteClass);
    }
  }

  /** The folder names a display name splits into never contain the hierarchy delimiter. */
  lemma DisplaynamePartsHaveNoSlash(s: string)
    ensures forall j :: 0 <= j < |DisplaynameParts(s)| ==> '/' !in DisplaynameParts(s)[j]
  {
    PiecesHaveNoSlash(s, 0, 0, false);
  }

  /** No separator starts inside a stretch free of separator characters that does not end in a space. */
  lemma NoSeparatorIn(s: string, lo: nat, hi: nat, byteClass: bool)
    requires lo <= hi <= |s|
    requires forall k :: lo <= k < hi ==> s[k] !in Stops(byteClass)
    requires hi == |s| || (lo < hi && s[hi - 1] !in PcreSpace)
    ensures forall k :: lo <= k < hi ==> SeparatorEnd(s, k, byteClass).None?
  {
    forall k | lo <= k < hi ensures SeparatorEnd(s, k, byteClass).None? {
      var e := SpaceRunEnd(s, k);
      assert e < hi || e == |s|;
    }
  }

  /** Positions where no separator starts do not change the pieces. */
  lemma {:induction false} SkipPlain(s: string, start: nat, i: nat, j: nat, byteClass: bool)
    requires start <= i <= j <= |s|
    requires forall k :: i <= k < j ==> SeparatorEnd(s, k, byteClass).None?
    ensures SplitPieces(s, start, i, byteClass) == SplitPieces(s, start, j, byteClass)
    decreases j - i
  {
    if i < j {
      SkipPlain(s, start, i + 1, j, byteClass);
    }
  }

  /** A name free of separator characters is a single piece. */
  lemma PlainNameIsOnePiece(s: string, byteClass: bool)
    requires forall k :: 0 <= k < |s| ==> s[k] !in Stops(byteClass)
    ensures SplitPieces(s, 0, 0, byteClass) == [s]
  {
    NoSeparatorIn(s, 0, |s|, byteClass);
    SkipPlain(s, 0, 0, |s|, byteClass);
    assert s[0..] == s;
  }

  /** The separator the display name of a nested folder uses: " » " in UTF-8. */
  const Guillemet: string := " \U{C2}\U{BB} "

  /** "Parent » Child" with '»' as one character splits into parent and child. */
  lemma GuillemetSplits(a: string, b: string)
    requires |a| > 0 && |b| > 0
    requires a[|a| - 1] !in PcreSpace && b[0] !in PcreSpace
    requires forall k :: 0 <= k < |a| ==> a[k] !in Stops(false)
    requires forall k :: 0 <= k < |b| ==> b[k] !in Stops(false)
    ensures DisplaynameParts(a + Guillemet + b) == [a, b]
  {
    var s := a + Guillemet + b;
    var n := |a|;
    assert s[..n] == a && s[n + 4..] == b;
    assert SplitPieces(s, 0, 0, false) == SplitPieces(s, 0, n, false) by {
      NoSeparatorIn(s, 0, n, false);
      SkipPlain(s, 0, 0, n, false);
    }
    assert SeparatorEnd(s, n, false) == Some(n + 4) by {
      assert s[n] == ' ' && s[n + 1] == '\U{C2}' && s[n + 2] == '\U{BB}' && s[n + 3] == ' ' && s[n + 4] == b[0];
      GuillemetSeparator(s, n);
    }
    assert SplitPieces(s, n + 4, n + 4, false) == [b] by {
      NoSeparatorIn(s, n + 4, |s|, false);
      SkipPlain(s, n + 4, n + 4, |s|, false);
    }
  }

  /** A space, the two bytes of '»' and a space, followed by a non-space, form one separator. */
  lemma GuillemetSeparator(s: string, n: nat)
    requires n + 4 < |s|
    requires s[n] == ' ' && s[n + 1] == '\U{C2}' && s[n + 2] == '\U{BB}' && s[n + 3] == ' ' && s[n + 4] !in PcreSpace
    ensures SeparatorEnd(s, n, false) == Some(n + 4)
  {
    assert SpaceRunEnd(s, n) == n + 1;
    assert MiddleEnd(s, n + 1, false) == Some(n + 3);
    assert SpaceRunEnd(s, n + 3) == n + 4;
  }

  /**
   * As written, the byte class never matches the two-byte '»': "Parent » Child"
   * stays one piece, so the folder is renamed to the whole string.
   */
  lemma GuillemetKeptAsWritten(a: string, b: string)
    requires |a| > 0 && |b| > 0
    requires a[|a| - 1] !in PcreSpace && b[0] !in PcreSpace
    requires forall k :: 0 <= k < |a| ==> a[k] !in Stops(true)
    requires forall k :: 0 <= k < |b| ==> b[k] !in Stops(true)
    ensures DisplaynamePartsAsWritten(a + Guillemet + b) == [a + Guillemet + b]
  {
    var s := a + Guillemet + b;
    var n := |a|;
    NoSeparatorIn(s, 0, n, true);
    assert SpaceRunEnd(s, n) == n + 1;
    assert SpaceRunEnd(s, n + 2) == n + 2;
    assert SeparatorEnd(s, n, true).None?;
    assert SpaceRunEnd(s, n + 1) == n + 1;
    assert SeparatorEnd(s, n + 1, true).None?;
    assert SeparatorEnd(s, n + 2, true).None?;
    assert SpaceRunEnd(s, n + 3) == n + 4;
    assert SeparatorEnd(s, n + 3, true).None?;
    NoSeparatorIn(s, n + 4, |s|, true);
    SkipPlain(s, 0, 0, |s|, true);
    assert s[0..] == s;
  }

  // ---------------------------------------------------------------- folder updates

  const DisplayNameProp: string := "{DAV:}displayname"
  const CalendarColorProp: string := "{http://apple.com/ns/ical/}calendar-color"

  /** One requested property change: the property in Clark notation and its new value. */
  datatype Mutation = Mutation(prop: string, value: string)

  /** The properties this layer can change on a folder. */
  predicate Supported(prop: string) {
    prop == DisplayNameProp || prop == CalendarColorProp
  }

  /** The value of the last mutation of `prop`, the one a PHP hash keeps. */
  function LastValue(muts: seq<Mutation>, prop: string): (r: Option<string>)
    ensures r.Some? ==> exists i :: 0 <= i < |muts| && muts[i] == Mutation(prop, r.value)
    ensures r.None? <==> forall i :: 0 <= i < |muts| ==> muts[i].prop != prop
    decreases |muts|
  {
    if |muts| == 0 then None
    else if muts[|muts| - 1].prop == prop then Some(muts[|muts| - 1].value)
    else LastValue(muts[..|muts| - 1], prop)
  }

  /** The unsupported properties among the mutations, in request order. */
  function UnsupportedProps(muts: seq<Mutation>): (r: seq<string>)
    ensures forall p :: p in r <==> exists i :: 0 <= i < |muts| && muts[i].prop == p && !Supported(p)
    decreases |muts|
  {
    if |muts| == 0 then []
    else
      var n := |muts|;
      var rest := UnsupportedProps(muts[..n - 1]);
      assert forall i :: 0 <= i < n - 1 ==> muts[..n - 1][i] == muts[i];
      rest + (if Supported(muts[n - 1].prop) then [] else [muts[n - 1].prop])
  }

  /** A colour as stored: '#' marks trimmed, cut to six characters. */
  function ColorValue(v: string): string {
    Prefix(Trim(v, {'#'}), 6)
  }

  lemma TrimKeeps(x: string, cs: set<char>)
    requires |x| > 0 && x[0] !in cs && x[|x| - 1] !in cs
    ensures Trim(x, cs) == x
  {
  }

  /** One leading '#' in front of a value that neither starts nor ends with one is trimmed away. */
  lemma TrimHash(x: string)
    requires |x| > 0 && x[0] != '#' && x[|x| - 1] != '#'
    ensures Trim("#" + x, {'#'}) == x
  {
    var v := "#" + x;
    assert v[1..] == x;
    assert TrimLeft(v, {'#'}) == TrimLeft(x, {'#'});
    assert TrimLeft(x, {'#'}) == x;
    TrimKeeps(x, {'#'});
  }

  /** Apple's "#RRGGBB" and "#RRGGBBAA" are both stored as "RRGGBB". */
  lemma ColorValueOfHex(c: string, alpha: string)
    requires |c| == 6 && '#' !in c && |alpha| <= 2 && '#' !in alpha
    ensures ColorValue("#" + c + alpha) == c
  {
    var x := c + alpha;
    assert "#" + c + alpha == "#" + x;
    assert x[0] == c[0];
    assert x[|x| - 1] != '#' by {
      if |alpha| > 0 { assert x[|x| - 1] == alpha[|alpha| - 1]; } else { assert x[|x| - 1] == c[5]; }
    }
    TrimHash(x);
    assert x[..6] == c;
  }

  /** The folder properties an update sends to storage; None leaves the key unset. */
  datatype FolderChanges = FolderChanges(
    oldname: Option<string>,
    name: Option<string>,
    parent: Option<string>,
    displayname: Option<string>,
    color: Option<string>)

  const NoChanges: FolderChanges := FolderChanges(None, None, None, None, None)

  /** The update a single mutation records; unsupported properties are listed as forbidden. */
  function ApplyMutation(f: Folder, c: FolderChanges, errs: seq<string>, m: Mutation, byteClass: bool): (FolderChanges, seq<string>) {
    if m.prop == DisplayNameProp then
      if f.ns == Personal then
        var parts := SplitPieces(m.value, 0, 0, byteClass);
        (c.(oldname := Some(f.name), name := Some(Last(parts)), parent := Some(Join(AllButLast(parts), "/"))), errs)
      else (c.(displayname := Some(m.value)), errs)
    else if m.prop == CalendarColorProp then (c.(color := Some(ColorValue(m.value))), errs)
    else (c, errs + [m.prop])
  }

  /** The changes and forbidden properties after processing the mutations in order. */
  function CollectChanges(f: Folder, muts: seq<Mutation>, byteClass: bool): (FolderChanges, seq<string>)
    decreases |muts|
  {
    if |muts| == 0 then (NoChanges, [])
    else
      var (c, errs) := CollectChanges(f, muts[..|muts| - 1], byteClass);
      ApplyMutation(f, c, errs, muts[|muts| - 1], byteClass)
  }

  /** Storage requires a name and a parent: an update without a new name keeps the folder where it is. */
  function CompleteChanges(f: Folder, c: FolderChanges, fromUtf7: string -> string): FolderChanges {
    if c.name.Some? && Truthy(c.name.value) then c
    else
      var parts := Split(f.name, '/');
      c.(name := Some(fromUtf7(Last(parts))), parent := Some(Join(AllButLast(parts), "/")), oldname := Some(f.name))
  }

  /**
   * How an update ends: every change applied, refused with the forbidden
   * properties and the ones that failed because of them, or the storage
   * update failed.
   */
  datatype UpdateOutcome = Updated | Rejected(forbidden: seq<string>, dependent: seq<string>) | StoreFailed

  /** The changes sent to storage (None when nothing was sent) and the outcome. */
  datatype FolderUpdateResult = FolderUpdateResult(sent: Option<FolderChanges>, outcome: UpdateOutcome)

  /**
   * folder_update as written: the supported changes are stored even when
   * other properties of the same request are refused. `storeOk` is the
   * storage layer's answer.
   */
  function FolderUpdateAsWritten(f: Folder, muts: seq<Mutation>, fromUtf7: string -> string, storeOk: bool): FolderUpdateResult {
    var (c, errs) := CollectChanges(f, muts, true);
    var done := if errs == [] then Updated else Rejected(errs, []);
    if c == NoChanges then FolderUpdateResult(None, done)
    else if !storeOk then FolderUpdateResult(Some(CompleteChanges(f, c, fromUtf7)), StoreFailed)
    else FolderUpdateResult(Some(CompleteChanges(f, c, fromUtf7)), done)
  }

  /** The supported properties among the mutations, in request order. */
  function SupportedProps(muts: seq<Mutation>): seq<string>
    decreases |muts|
  {
    if |muts| == 0 then []
    else SupportedProps(muts[..|muts| - 1]) + (if Supported(muts[|muts| - 1].prop) then [muts[|muts| - 1].prop] else [])
  }

  /**
   * folder_update made atomic as its contract demands (section 9.2 of RFC
   * 4918): one refused property refuses the request and nothing is stored.
   */
  function FolderUpdate(f: Folder, muts: seq<Mutation>, fromUtf7: string -> string, storeOk: bool): FolderUpdateResult {
    var (c, errs) := CollectChanges(f, muts, false);
    if errs != [] then FolderUpdateResult(None, Rejected(errs, SupportedProps(muts)))
    else if c == NoChanges then FolderUpdateResult(None, Updated)
    else FolderUpdateResult(Some(CompleteChanges(f, c, fromUtf7)), if storeOk then Updated else StoreFailed)
  }

  /** The forbidden list of the fold is exactly the unsupported properties, in order. */
  lemma {:induction false} CollectErrors(f: Folder, muts: seq<Mutation>, byteClass: bool)
    ensures CollectChanges(f, muts, byteClass).1 == UnsupportedProps(muts)
    decreases |muts|
  {
    if |muts| > 0 {
      CollectErrors(f, muts[..|muts| - 1], byteClass);
    }
  }

  /** The fold of a single mutation. */
  lemma CollectOne(f: Folder, m: Mutation, byteClass: bool)
    ensures CollectChanges(f, [m], byteClass) == ApplyMutation(f, NoChanges, [], m, byteClass)
  {
    assert [m][..0] == [];
  }

  /**
   * The update refuses the request iff some property is unsupported, naming
   * exactly those; a refused request sends nothing, an accepted one sends the
   * changes and succeeds iff storage does.
   */
  lemma FolderUpdateAtomic(f: Folder, muts: seq<Mutation>, fromUtf7: string -> string, storeOk: bool)
    ensures var r := FolderUpdate(f, muts, fromUtf7, storeOk);
      && (r.outcome.Rejected? <==> exists i :: 0 <= i < |muts| && !Supported(muts[i].prop))
      && (r.outcome.Rejected? ==> r.sent.None? && r.outcome.forbidden == UnsupportedProps(muts))
      && (r.outcome.StoreFailed? <==> r.sent.Some? && !storeOk)
  {
    CollectErrors(f, muts, false);
    UnsupportedNonEmpty(muts);
  }

  /** Some property is unsupported iff the list of unsupported properties is not empty. */
  lemma UnsupportedNonEmpty(muts: seq<Mutation>)
    ensures UnsupportedProps(muts) != [] <==> exists i :: 0 <= i < |muts| && !Supported(muts[i].prop)
  {
    var u := UnsupportedProps(muts);
    if exists i :: 0 <= i < |muts| && !Supported(muts[i].prop) {
      var i :| 0 <= i < |muts| && !Supported(muts[i].prop);
      assert muts[i].prop in u;
    }
    if u != [] {
      assert u[0] in u;
    }
  }

  /**
   * As written, a request mixing a rename with an unsupported property both
   * renames the folder and reports the property as refused.
   */
  lemma FolderUpdateAsWrittenNotAtomic(f: Folder, v: string, other: string, fromUtf7: string -> string)
    requires !Supported(other)
    ensures var r := FolderUpdateAsWritten(f, [Mutation(DisplayNameProp, v), Mutation(other, "")], fromUtf7, true);
      r.sent.Some? && r.outcome == Rejected([other], [])
  {
    var muts := [Mutation(DisplayNameProp, v), Mutation(other, "")];
    assert muts[..1] == [Mutation(DisplayNameProp, v)];
    CollectOne(f, Mutation(DisplayNameProp, v), true);
    var (c, errs) := CollectChanges(f, muts, true);
    assert errs == [other];
    assert c != NoChanges by {
      if f.ns == Personal { assert c.oldname.Some?; } else { assert c.displayname.Some?; }
    }
  }

  /** The fold records a change iff some mutation names a supported property. */
  lemma {:induction false} CollectSomething(f: Folder, muts: seq<Mutation>, byteClass: bool)
    ensures CollectChanges(f, muts, byteClass).0 != NoChanges <==> SupportedProps(muts) != []
    decreases |muts|
  {
    if |muts| > 0 {
      CollectSomething(f, muts[..|muts| - 1], byteClass);
    }
  }

  /**
   * folder_update as written sends the supported changes whenever there are
   * any, refused properties or not; unless storage fails it answers success
   * when nothing was refused and the refused properties otherwise.
   */
  lemma FolderUpdateAsWrittenSpec(f: Folder, muts: seq<Mutation>, fromUtf7: string -> string, storeOk: bool)
    ensures var r := FolderUpdateAsWritten(f, muts, fromUtf7, storeOk);
      r.sent.Some? <==> SupportedProps(muts) != []
    ensures var r := FolderUpdateAsWritten(f, muts, fromUtf7, storeOk);
      r.outcome.StoreFailed? <==> r.sent.Some? && !storeOk
    ensures var r := FolderUpdateAsWritten(f, muts, fromUtf7, storeOk);
      !r.outcome.StoreFailed? ==> r.outcome == Answer(muts)
  {
    CollectSomething(f, muts, true);
    CollectErrors(f, muts, true);
  }

  /** The answer to a request storage did not fail: success, or the refused properties. */
  function Answer(muts: seq<Mutation>): (r: UpdateOutcome)
    ensures r.Rejected? <==> exists i :: 0 <= i < |muts| && !Supported(muts[i].prop)
    ensures r.Rejected? ==> r.forbidden == UnsupportedProps(muts) && r.dependent == []
    ensures !r.StoreFailed?
  {
    UnsupportedNonEmpty(muts);
    if UnsupportedProps(muts) == [] then Updated else Rejected(UnsupportedProps(muts), [])
  }

  /**
   * folder_update called without a folder: a display name calls a method on
   * null, a fatal error. Otherwise a colour is sent under the empty name and
   * parent that the missing folder's name yields, and no old name.
   */
  function FolderUpdateNoFolder(muts: seq<Mutation>, fromUtf7: string -> string, storeOk: bool): (r: Result<FolderUpdateResult>)
    ensures r.Err? <==> exists i :: 0 <= i < |muts| && muts[i].prop == DisplayNameProp
    ensures r.Ok? ==> (r.value.sent.Some? <==> exists i :: 0 <= i < |muts| && muts[i].prop == CalendarColorProp)
    ensures r.Ok? && r.value.sent.Some? ==>
      var sent := r.value.sent.value;
      && sent.oldname.None? && sent.name == Some(fromUtf7("")) && sent.parent == Some("") && sent.displayname.None?
      && sent.color.Some? && exists i :: 0 <= i < |muts| && muts[i].prop == CalendarColorProp && sent.color.value == ColorValue(muts[i].value)
    ensures r.Ok? ==> (r.value.outcome.StoreFailed? <==> r.value.sent.Some? && !storeOk)
    ensures r.Ok? && !r.value.outcome.StoreFailed? ==> r.value.outcome == Answer(muts)
  {
    if LastValue(muts, DisplayNameProp).Some? then Err(NullFolder)
    else match LastValue(muts, CalendarColorProp)
      case None => Ok(FolderUpdateResult(None, Answer(muts)))
      case Some(v) =>
        var sent := FolderChanges(None, Some(fromUtf7("")), Some(""), None, Some(ColorValue(v)));
        Ok(FolderUpdateResult(Some(sent), if storeOk then Answer(muts) else StoreFailed))
  }

  /**
   * Where an update puts the folder: the last piece of the last display name
   * and the pieces before it, for a personal folder whose new name is truthy;
   * otherwise its current place, the last component converted from UTF7-IMAP.
   */
  function Destination(f: Folder, muts: seq<Mutation>, byteClass: bool, fromUtf7: string -> string): (string, string) {
    var here := Split(f.name, '/');
    var requested := if f.ns == Personal then LastValue(muts, DisplayNameProp) else None;
    if requested.Some? && Truthy(Last(SplitPieces(requested.value, 0, 0, byteClass))) then
      var parts := SplitPieces(requested.value, 0, 0, byteClass);
      (Last(parts), Join(AllButLast(parts), "/"))
    else (fromUtf7(Last(here)), Join(AllButLast(here), "/"))
  }

  /** The colour an update sends: the last requested one, '#' trimmed and cut to six characters. */
  function RequestedColor(muts: seq<Mutation>): Option<string> {
    match LastValue(muts, CalendarColorProp)
    case Some(v) => Some(ColorValue(v))
    case None => None
  }

  /**
   * Whatever an update sends names the folder's old name, puts it at its
   * destination, carries the last requested colour and, for a folder that is
   * not personal, the last display name; as written and corrected.
   */
  lemma FolderUpdateSendsLocation(f: Folder, muts: seq<Mutation>, fromUtf7: string -> string, storeOk: bool)
    ensures var r := FolderUpdateAsWritten(f, muts, fromUtf7, storeOk);
      var (name, parent) := Destination(f, muts, true, fromUtf7);
      r.sent.Some? ==>
        && r.sent.value.oldname == Some(f.name) && r.sent.value.name == Some(name) && r.sent.value.parent == Some(parent)
        && r.sent.value.color == RequestedColor(muts)
        && r.sent.value.displayname == (if f.ns == Personal then None else LastValue(muts, DisplayNameProp))
    ensures var r := FolderUpdate(f, muts, fromUtf7, storeOk);
      var (name, parent) := Destination(f, muts, false, fromUtf7);
      r.sent.Some? ==>
        && r.sent.value.oldname == Some(f.name) && r.sent.value.name == Some(name) && r.sent.value.parent == Some(parent)
        && r.sent.value.color == RequestedColor(muts)
        && r.sent.value.displayname == (if f.ns == Personal then None else LastValue(muts, DisplayNameProp))
  {
    SentChanges(f, muts, true, fromUtf7);
    SentChanges(f, muts, false, fromUtf7);
  }

  /** The completed changes of the fold, for either reading of the separator class. */
  lemma SentChanges(f: Folder, muts: seq<Mutation>, byteClass: bool, fromUtf7: string -> string)
    ensures var sent := CompleteChanges(f, CollectChanges(f, muts, byteClass).0, fromUtf7);
      var (name, parent) := Destination(f, muts, byteClass, fromUtf7);
      && sent.oldname == Some(f.name) && sent.name == Some(name) && sent.parent == Some(parent)
      && sent.color == RequestedColor(muts)
      && sent.displayname == (if f.ns == Personal then None else LastValue(muts, DisplayNameProp))
  {
    CollectOldname(f, muts, byteClass);
    CollectLastWins(f, muts, byteClass);
  }

  /** A name set by the fold comes with the folder's old name and a parent. */
  lemma {:induction false} CollectOldname(f: Folder, muts: seq<Mutation>, byteClass: bool)
    ensures var c := CollectChanges(f, muts, byteClass).0;
      c.name.Some? ==> c.oldname == Some(f.name) && c.parent.Some?
    decreases |muts|
  {
    if |muts| > 0 {
      CollectOldname(f, muts[..|muts| - 1], byteClass);
    }
  }

  /** The fields of the fold follow the last mutation of each property. */
  lemma {:induction false} CollectLastWins(f: Folder, muts: seq<Mutation>, byteClass: bool)
    ensures var c := CollectChanges(f, muts, byteClass).0;
      && c.color == (match LastValue(muts, CalendarColorProp) case Some(v) => Some(ColorValue(v)) case None => None)
      && (f.ns == Personal ==>
            c.displayname.None?
            && c.name == (match LastValue(muts, DisplayNameProp)
                           case Some(v) => Some(Last(SplitPieces(v, 0, 0, byteClass)))
                           case None => None)
            && c.parent == (match LastValue(muts, DisplayNameProp)
                           case Some(v) => Some(Join(AllButLast(SplitPieces(v, 0, 0, byteClass)), "/"))
                           case None => None))
      && (f.ns != Personal ==> c.name.None? && c.displayname == LastValue(muts, DisplayNameProp))
    decreases |muts|
  {
    if |muts| > 0 {
      CollectLastWins(f, muts[..|muts| - 1], byteClass);
    }
  }

  /** "Parent/Child", spaces around the slash or not, splits into parent and child under either reading of the class. */
  lemma SlashSplits(a: string, b: string, byteClass: bool)
    requires |a| > 0 && |b| > 0
    requires a[|a| - 1] !in PcreSpace && b[0] !in PcreSpace
    requires forall k :: 0 <= k < |a| ==> a[k] !in Stops(byteClass)
    requires forall k :: 0 <= k < |b| ==> b[k] !in Stops(byteClass)
    ensures SplitPieces(a + "/" + b, 0, 0, byteClass) == [a, b]
  {
    var s := a + "/" + b;
    var n := |a|;
    SlashHead(a, b, byteClass);
    SlashSeparator(s, n, byteClass);
    SlashTail(a, b, byteClass);
    assert s[..n] == a;
    assert SplitPieces(s, 0, n, byteClass) == [s[0..n]] + SplitPieces(s, n + 1, n + 1, byteClass);
  }

  /** Before the slash of "Parent/Child" no separator starts. */
  lemma SlashHead(a: string, b: string, byteClass: bool)
    requires |a| > 0 && a[|a| - 1] !in PcreSpace
    requires forall k :: 0 <= k < |a| ==> a[k] !in Stops(byteClass)
    ensures SplitPieces(a + "/" + b, 0, 0, byteClass) == SplitPieces(a + "/" + b, 0, |a|, byteClass)
  {
    var s := a + "/" + b;
    assert forall k :: 0 <= k < |a| ==> s[k] == a[k];
    NoSeparatorIn(s, 0, |a|, byteClass);
    SkipPlain(s, 0, 0, |a|, byteClass);
  }

  /** A slash followed by a non-space is a separator of one character. */
  lemma SlashSeparator(s: string, n: nat, byteClass: bool)
    requires n + 1 < |s| && s[n] == '/' && s[n + 1] !in PcreSpace
    ensures SeparatorEnd(s, n, byteClass) == Some(n + 1)
  {
    assert SpaceRunEnd(s, n) == n;
    assert SpaceRunEnd(s, n + 1) == n + 1;
  }

  /** After the slash of "Parent/Child" the child is one piece. */
  lemma SlashTail(a: string, b: string, byteClass: bool)
    requires |b| > 0
    requires forall k :: 0 <= k < |b| ==> b[k] !in Stops(byteClass)
    ensures var s := a + "/" + b;
      |a| + 1 <= |s| && SplitPieces(s, |a| + 1, |a| + 1, byteClass) == [b]
  {
    var s := a + "/" + b;
    var n := |a| + 1;
    assert forall k :: n <= k < |s| ==> s[k] == b[k - n];
    NoSeparatorIn(s, n, |s|, byteClass);
    SkipPlain(s, n, n, |s|, byteClass);
    assert s[n..] == b;
  }

  /**
   * Renaming a personal folder to "Parent/Child" moves it to folder Child
   * under Parent; an update of another user's or a shared folder only sets
   * its display name and keeps it in place.
   */
  lemma FolderUpdateRename(f: Folder, a: string, b: string, fromUtf7: string -> string)
    requires |a| > 0 && |b| > 0
    requires a[|a| - 1] !in PcreSpace && b[0] !in PcreSpace
    requires forall k :: 0 <= k < |a| ==> a[k] !in Stops(true)
    requires forall k :: 0 <= k < |b| ==> b[k] !in Stops(true)
    requires Truthy(b)
    ensures var r := FolderUpdateAsWritten(f, [Mutation(DisplayNameProp, a + "/" + b)], fromUtf7, true);
      && r.outcome == Updated
      && (f.ns == Personal ==> r.sent == Some(FolderChanges(Some(f.name), Some(b), Some(a), None, None)))
      && (f.ns != Personal ==>
            var here := Split(f.name, '/');
            r.sent == Some(FolderChanges(Some(f.name), Some(fromUtf7(Last(here))), Some(Join(AllButLast(here), "/")),
                                         Some(a + "/" + b), None)))
  {
    var m := Mutation(DisplayNameProp, a + "/" + b);
    CollectOne(f, m, true);
    SlashSplits(a, b, true);
    var (c, errs) := CollectChanges(f, [m], true);
    assert errs == [];
    if f.ns == Personal {
      assert c == FolderChanges(Some(f.name), Some(b), Some(a), None, None);
    } else {
      assert c == NoChanges.(displayname := Some(a + "/" + b));
    }
  }

  /**
   * As written, renaming a personal folder to "Parent » Child" renames it to
   * the whole string and moves it to the top level.
   */
  lemma GuillemetRenameAsWritten(f: Folder, a: string, b: string, fromUtf7: string -> string)
    requires f.ns == Personal
    requires |a| > 0 && |b| > 0
    requires a[|a| - 1] !in PcreSpace && b[0] !in PcreSpace
    requires forall k :: 0 <= k < |a| ==> a[k] !in Stops(true)
    requires forall k :: 0 <= k < |b| ==> b[k] !in Stops(true)
    ensures FolderUpdateAsWritten(f, [Mutation(DisplayNameProp, a + Guillemet + b)], fromUtf7, true)
         == FolderUpdateResult(Some(FolderChanges(Some(f.name), Some(a + Guillemet + b), Some(""), None, None)), Updated)
  {
    var m := Mutation(DisplayNameProp, a + Guillemet + b);
    CollectOne(f, m, true);
    GuillemetKeptAsWritten(a, b);
    assert AllButLast([a + Guillemet + b]) == [];
  }

  /**
   * With '»' read as one character, renaming a personal folder to
   * "Parent » Child" moves it to folder Child under Parent.
   */
  lemma GuillemetRenameCorrected(f: Folder, a: string, b: string, fromUtf7: string -> string)
    requires f.ns == Personal
    requires |a| > 0 && |b| > 0
    requires a[|a| - 1] !in PcreSpace && b[0] !in PcreSpace
    requires forall k :: 0 <= k < |a| ==> a[k] !in Stops(false)
    requires forall k :: 0 <= k < |b| ==> b[k] !in Stops(false)
    requires Truthy(b)
    ensures FolderUpdate(f, [Mutation(DisplayNameProp, a + Guillemet + b)], fromUtf7, true)
         == FolderUpdateResult(Some(FolderChanges(Some(f.name), Some(b), Some(a), None, None)), Updated)
  {
    var m := Mutation(DisplayNameProp, a + Guillemet + b);
    CollectOne(f, m, false);
    GuillemetSplits(a, b);
    assert AllButLast([a, b]) == [a];
  }

  // ---------------------------------------------------------------- folder creation

  /** The properties folder_create hands to storage (besides subscribed => true). */
  datatype CreateProps = CreateProps(ftype: string, name: string, parent: Option<string>, color: Option<string>)

  /** The requested properties, processed in order; unsupported ones are ignored. */
  function CreateProperties(ftype: string, muts: seq<Mutation>): CreateProps
    decreases |muts|
  {
    if |muts| == 0 then CreateProps(ftype, "", None, None)
    else
      var p := CreateProperties(ftype, muts[..|muts| - 1]);
      var m := muts[|muts| - 1];
      if m.prop == DisplayNameProp then
        var parts := Split(m.value, '/');
        p.(name := Last(parts), parent := Some(Join(AllButLast(parts), "/")))
      else if m.prop == CalendarColorProp then p.(color := Some(ColorValue(m.value)))
      else p
  }

  /** The folder name: the requested one, else the collection uri when short, else "Untitled". */
  function NewFolderProps(ftype: string, muts: seq<Mutation>, uid: string): CreateProps {
    var p := CreateProperties(ftype, muts);
    if Truthy(p.name) then p else p.(name := if |uid| < 16 then uid else "Untitled")
  }

  /** The properties sent, the uid returned (None for failure) and the created folder with its uid written. */
  datatype CreateResult = CreateResult(props: CreateProps, uid: Option<string>, folder: Option<Folder>)

  /**
   * folder_create: `stored` is the storage layer's answer, `fetched` the new
   * folder as read back, and `sharedOk`/`privateOk` the outcomes of writing
   * the uid to it.
   */
  function FolderCreate(ftype: string, muts: seq<Mutation>, uid: string, stored: bool, fetched: Option<Folder>,
                        sharedOk: bool, privateOk: bool): CreateResult
  {
    var props := NewFolderProps(ftype, muts, uid);
    if !stored then CreateResult(props, None, None)
    else match fetched
      case None => CreateResult(props, Some(uid), None)
      case Some(f) => CreateResult(props, Some(uid), Some(f.(metadata := SetUid(f.metadata, uid, sharedOk, privateOk).0)))
  }

  /** The fold's name and parent follow the last display name. */
  lemma {:induction false} CreatePropertiesLastWins(ftype: string, muts: seq<Mutation>)
    ensures var p := CreateProperties(ftype, muts);
      && p.ftype == ftype
      && p.name == (match LastValue(muts, DisplayNameProp) case Some(v) => Last(Split(v, '/')) case None => "")
      && p.parent == (match LastValue(muts, DisplayNameProp)
                      case Some(v) => Some(Join(AllButLast(Split(v, '/')), "/")) case None => None)
      && p.color == (match LastValue(muts, CalendarColorProp) case Some(v) => Some(ColorValue(v)) case None => None)
    decreases |muts|
  {
    if |muts| > 0 {
      CreatePropertiesLastWins(ftype, muts[..|muts| - 1]);
    }
  }

  /** The name and parent come from the last display name. */
  lemma {:induction false} CreateNameFollowsLast(ftype: string, muts: seq<Mutation>, v: string)
    requires LastValue(muts, DisplayNameProp) == Some(v)
    ensures CreateProperties(ftype, muts).name == Last(Split(v, '/'))
    ensures CreateProperties(ftype, muts).parent == Some(Join(AllButLast(Split(v, '/')), "/"))
    decreases |muts|
  {
    if muts[|muts| - 1].prop != DisplayNameProp {
      CreateNameFollowsLast(ftype, muts[..|muts| - 1], v);
    }
  }

  /** Splitting a path into parent and last component, and joining them again, gives the path. */
  lemma ParentAndName(v: string)
    requires |Split(v, '/')| > 1
    ensures var parts := Split(v, '/');
      Join(Split(Join(AllButLast(parts), "/"), '/') + [Last(parts)], "/") == v
  {
    var parts := Split(v, '/');
    assert AllButLast(parts) + [Last(parts)] == parts;
    JoinSplit(v, '/');
    SplitJoin(AllButLast(parts), '/');
  }

  /** A display name ending in a usable name puts the new folder at exactly that path. */
  lemma FolderCreateNamed(ftype: string, muts: seq<Mutation>, uid: string, v: string)
    requires LastValue(muts, DisplayNameProp) == Some(v)
    requires Truthy(Last(Split(v, '/')))
    ensures var p := NewFolderProps(ftype, muts, uid);
      p.parent.Some? && p.name == Last(Split(v, '/')) && '/' !in p.name
      && ('/' in v ==> Join(Split(p.parent.value, '/') + [p.name], "/") == v)
      && ('/' !in v ==> p.parent.value == "" && p.name == v)
  {
    CreateNameFollowsLast(ftype, muts, v);
    var parts := Split(v, '/');
    var p := CreateProperties(ftype, muts);
    assert NewFolderProps(ftype, muts, uid) == p;
    CountSplit(v, '/');
    if '/' in v {
      CountCharPresent(v, '/');
      ParentAndName(v);
    } else {
      SplitNoDelimiter(v, '/');
    }
  }

  /** Without a usable display name the new folder is named after the uri when short, else "Untitled". */
  lemma FolderCreateUnnamed(ftype: string, muts: seq<Mutation>, uid: string)
    requires match LastValue(muts, DisplayNameProp) case Some(v) => !Truthy(Last(Split(v, '/'))) case None => true
    ensures NewFolderProps(ftype, muts, uid).name == (if |uid| < 16 then uid else "Untitled")
  {
    CreatePropertiesLastWins(ftype, muts);
  }

  /** A newly written uid is the one read back from the folder's annotations. */
  lemma SetUidReadBack(meta: map<string, string>, uid: string, sharedOk: bool, privateOk: bool)
    requires Truthy(uid)
    requires StoredUid(meta, UidKeys).None?
    requires sharedOk || privateOk
    ensures StoredUid(SetUid(meta, uid, sharedOk, privateOk).0, UidKeys) == Some(uid)
  {
    var m := SetUid(meta, uid, sharedOk, privateOk).0;
    if sharedOk {
      assert HasUidAt(m, UidKeys[0]);
    } else {
      assert !HasUidAt(m, UidKeys[0]) by { assert !HasUidAt(meta, UidKeys[0]); }
      assert HasUidAt(m, UidKeys[1]);
      assert StoredUid(m, UidKeys) == StoredUid(m, UidKeys[1..]);
    }
  }

  /** A folder appended after folders without the uid is the one the lookup finds. */
  lemma GetStorageFolderAppended(others: seq<Folder>, g: Folder, uid: string, md5: string -> string)
    requires forall i :: 0 <= i < |others| ==> FolderUid(others[i], md5) != uid
    requires FolderUid(g, md5) == uid
    ensures GetStorageFolder(others + [g], uid, md5) == Some(g)
  {
    var all := others + [g];
    assert FolderUid(all[|others|], md5) == uid;
    var r := GetStorageFolder(all, uid, md5);
    var i :| 0 <= i < |all| && all[i] == r.value && FolderUid(all[i], md5) == uid;
    if i < |others| {
      assert all[i] == others[i];
    }
  }

  /**
   * A created collection is found again under its uri: with the uid written
   * to the new folder, the folder lookup resolves the uri to it.
   */
  lemma FolderCreateAddressable(ftype: string, muts: seq<Mutation>, uid: string, f: Folder, sharedOk: bool, privateOk: bool,
                                others: seq<Folder>, md5: string -> string)
    requires Truthy(uid)
    requires StoredUid(f.metadata, UidKeys).None?
    requires sharedOk || privateOk
    requires forall i :: 0 <= i < |others| ==> FolderUid(others[i], md5) != uid
    ensures var r := FolderCreate(ftype, muts, uid, true, Some(f), sharedOk, privateOk);
      && r.uid == Some(uid) && r.folder.Some?
      && FolderUid(r.folder.value, md5) == uid
      && GetStorageFolder(others + [r.folder.value], uid, md5) == r.folder
  {
    var g := FolderCreate(ftype, muts, uid, true, Some(f), sharedOk, privateOk).folder.value;
    SetUidReadBack(f.metadata, uid, sharedOk, privateOk);
    assert FolderUid(g, md5) == uid;
    GetStorageFolderAppended(others, g, uid, md5);
  }

  /** A failed creation returns no uid and writes nothing. */
  lemma FolderCreateFails(ftype: string, muts: seq<Mutation>, uid: string, fetched: Option<Folder>, sharedOk: bool, privateOk: bool)
    ensures var r := FolderCreate(ftype, muts, uid, false, fetched, sharedOk, privateOk);
      r.uid.None? && r.folder.None?
  {
  }
}
