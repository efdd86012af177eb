/**
 * The WebDAV file tree: folders and files of the Kolab file storage exposed
 * under the collection `files`. A node knows its path (relative to that
 * root), its file data and, for a collection, the cached list of its
 * children. The storage backend is not modelled: what a node lists comes in
 * as the backend's answers, what it changes goes out as the backend calls it
 * makes, and whether such a call succeeded is an input.
 */
module FileTree {
  import opened Options
  import opened Strings
  import opened DavCommon
  import Tags

  /** The name of the root collection. */
  const RootDirectory := "files"

  /** The type given to the content-type detection when a node has none. */
  const DefaultType := "application/octet-stream"

  /** The file data the backend reports: size in bytes, modification and creation times, MIME type. */
  datatype FileInfo = FileInfo(size: nat, modified: nat, ctype: string, created: nat)

  datatype Kind = Dir | Doc

  /**
   * A node of the tree. `data` is None for collections built without file
   * data; `children` is the collection's cache (None until listed, and
   * after every change).
   */
  datatype Node = Node(kind: Kind, path: string, data: Option<FileInfo>, children: Option<seq<Node>>)

  /** The body of a file sent to the backend: the content and the detected MIME type. */
  datatype FileData = FileData(content: string, ctype: string)

  /** A call into the storage backend. */
  datatype Call =
    | FolderCreate(folder: string)
    | FolderDelete(folder: string)
    | FolderMove(from: string, to: string)
    | FileCreate(file: string, body: FileData)
    | FileUpdate(file: string, body: FileData)
    | FileDelete(file: string)
    | FileMove(from: string, to: string)

  // ---------------------------------------------------------------- paths and names

  /**
   * The node constructor's path normalisation: the root's own name becomes
   * the empty path and the root's prefix is dropped from any other path.
   */
  function NormalizePath(raw: string): (r: string)
    ensures raw == RootDirectory ==> r == ""
    ensures StartsWith(raw, RootDirectory + "/") ==> RootDirectory + "/" + r == raw
    ensures raw != RootDirectory && !StartsWith(raw, RootDirectory + "/") ==> r == raw
  {
    if raw == RootDirectory then ""
    else if StartsWith(raw, RootDirectory + "/") then raw[|RootDirectory + "/"|..]
    else raw
  }

  /** A child built from `files/<p>` has the path `p`. */
  lemma ChildPathNormalizes(p: string)
    ensures NormalizePath(RootDirectory + "/" + p) == p
  {
    var raw := RootDirectory + "/" + p;
    assert raw[..|RootDirectory + "/"|] == RootDirectory + "/";
    assert raw[|RootDirectory + "/"|..] == p;
  }

  /** A collection built from a path, without file data and with an empty cache. */
  function NewCollection(raw: string): (r: Node)
    ensures r.kind == Dir && r.path == NormalizePath(raw) && r.data.None? && r.children.None?
  {
    Node(Dir, NormalizePath(raw), None, None)
  }

  /** A file built from a path and its data. */
  function NewFile(raw: string, info: FileInfo): (r: Node)
    ensures r.kind == Doc && r.path == NormalizePath(raw) && r.data == Some(info) && r.children.None?
  {
    Node(Doc, NormalizePath(raw), Some(info), None)
  }

  /** getName: the root's name for the empty path, otherwise the last '/'-piece of the path. */
  function GetName(path: string): string {
    if path == "" then RootDirectory else Last(Split(path, '/'))
  }

  /** The name of `<parent>/<name>` is `name`, for a name without '/'. */
  lemma NameOfChildPath(parent: string, name: string)
    requires '/' !in name
    ensures GetName(parent + "/" + name) == name
    ensures Split(parent + "/" + name, '/') == Split(parent, '/') + [name]
  {
    SplitBeforePiece(parent, '/', name);
  }

  /** setName's target: every piece of the path but the last, joined by '/', then '/' and the new name. */
  function RenameTarget(path: string, name: string): string {
    Join(AllButLast(Split(path, '/')), "/") + "/" + name
  }

  /**
   * A renamed node stays in its parent and carries the new name: the
   * target's pieces are the old path's pieces with the last one replaced.
   */
  lemma {:induction false} RenameKeepsParent(path: string, name: string)
    requires '/' in path && '/' !in name
    ensures Split(RenameTarget(path, name), '/') == AllButLast(Split(path, '/')) + [name]
    ensures GetName(RenameTarget(path, name)) == name
  {
    var pieces := Split(path, '/');
    CountSplit(path, '/');
    CountCharPresent(path, '/');
    var parent := AllButLast(pieces);
    assert forall i :: 0 <= i < |parent| ==> '/' !in parent[i] by {
      forall i | 0 <= i < |parent| ensures '/' !in parent[i] {
        assert parent[i] == pieces[i];
      }
    }
    SplitJoin(parent, '/');
    NameOfChildPath(Join(parent, "/"), name);
  }

  /**
   * A node directly below the root has no parent pieces, so its rename
   * target is the new name behind a leading '/'.
   */
  lemma TopLevelRenameTarget(path: string, name: string)
    requires '/' !in path
    ensures RenameTarget(path, name) == "/" + name
  {
    SplitNoDelimiter(path, '/');
  }

  // ---------------------------------------------------------------- listing

  /**
   * A folder of the backend's list is a sub-collection of the collection at
   * `path`: a top-level folder for the root, otherwise a folder one level
   * deeper whose name starts with the path and '/'.
   */
  predicate IsSubCollection(path: string, folder: string) {
    || (path == "" && CountChar(folder, '/') == 0)
    || (CountChar(path, '/') == CountChar(folder, '/') - 1 && StartsWith(folder, path + "/"))
  }

  /** The collections for the sub-collections among the backend's folders, in the backend's order. */
  function SubCollections(path: string, folders: seq<string>): (r: seq<Node>)
    ensures |r| <= |folders|
    ensures forall n :: n in r <==>
      n.kind == Dir && n.data.None? && n.children.None? && n.path in folders && IsSubCollection(path, n.path)
  {
    if |folders| == 0 then []
    else
      var rest := SubCollections(path, folders[1..]);
      ChildPathNormalizes(folders[0]);
      assert forall f :: f in folders <==> f == folders[0] || f in folders[1..];
      if IsSubCollection(path, folders[0]) then [NewCollection(RootDirectory + "/" + folders[0])] + rest
      else rest
  }

  /** The files of the backend's list, in its order. */
  function FileNodes(files: seq<(string, FileInfo)>): (r: seq<Node>)
    ensures |r| == |files|
    ensures forall i :: 0 <= i < |r| ==> r[i] == Node(Doc, files[i].0, Some(files[i].1), None)
  {
    seq(|files|, i requires 0 <= i < |files| =>
      ChildPathNormalizes(files[i].0); NewFile(RootDirectory + "/" + files[i].0, files[i].1))
  }

  /**
   * The children listed from the backend: the sub-collections, then (below
   * the root only) the files. A list the backend failed to give (None) is
   * an empty one.
   */
  function ListChildren(path: string, folders: Option<seq<string>>, files: Option<seq<(string, FileInfo)>>)
    : (r: seq<Node>)
  {
    SubCollections(path, folders.GetOr([])) + (if path != "" then FileNodes(files.GetOr([])) else [])
  }

  /**
   * getChildren: the cached children when there are any, without asking the
   * backend; otherwise the children listed from the backend's answers, which
   * become the cache.
   */
  function GetChildren(c: Node, folders: Option<seq<string>>, files: Option<seq<(string, FileInfo)>>)
    : (r: (Node, seq<Node>))
    requires c.kind == Dir
    ensures c.children.Some? ==> r == (c, c.children.value)
    ensures c.children.None? ==> r.0 == c.(children := Some(r.1)) && r.1 == ListChildren(c.path, folders, files)
  {
    if c.children.Some? then (c, c.children.value)
    else
      var kids := ListChildren(c.path, folders, files);
      (c.(children := Some(kids)), kids)
  }

  /** Once listed, the children stay what they were whatever the backend answers later. */
  lemma CachedChildrenStable(c: Node, folders: Option<seq<string>>, files: Option<seq<(string, FileInfo)>>,
                             folders2: Option<seq<string>>, files2: Option<seq<(string, FileInfo)>>)
    requires c.kind == Dir
    ensures var (c1, kids) := GetChildren(c, folders, files);
      c1.kind == Dir && GetChildren(c1, folders2, files2) == (c1, kids)
  {
  }

  /**
   * What an uncached listing holds: exactly the sub-collections among the
   * backend's folders and, below the root, exactly the backend's files; the
   * root lists no file.
   */
  lemma ChildrenSelection(path: string, folders: Option<seq<string>>, files: Option<seq<(string, FileInfo)>>)
    ensures var kids := ListChildren(path, folders, files);
      && (forall f :: Node(Dir, f, None, None) in kids <==> f in folders.GetOr([]) && IsSubCollection(path, f))
      && (forall n :: n in kids && n.kind == Doc <==> path != "" && n in FileNodes(files.GetOr([])))
      && (path != "" ==> forall i :: 0 <= i < |files.GetOr([])| ==>
            Node(Doc, files.GetOr([])[i].0, Some(files.GetOr([])[i].1), None) in kids)
  {
    var fs := files.GetOr([]);
    if path != "" {
      forall i | 0 <= i < |fs| ensures Node(Doc, fs[i].0, Some(fs[i].1), None) in ListChildren(path, folders, files) {
        assert FileNodes(fs)[i] in FileNodes(fs);
      }
    }
  }

  /**
   * A sub-collection of a collection below the root is one level down: its
   * path is the collection's path, '/', and its name, which holds no '/'.
   */
  lemma {:induction false} SubCollectionOneLevelDown(path: string, folder: string)
    requires path != "" && IsSubCollection(path, folder)
    ensures '/' !in GetName(folder)
    ensures folder == path + "/" + GetName(folder)
  {
    SubCollectionShape(path, folder);
  }

  /**
   * The root's sub-collections are the top-level folders, and (from the
   * second rule) folders of the form `/<name>`, which is where a collection
   * created at the root goes.
   */
  lemma {:induction false} RootSubCollections(folder: string)
    requires IsSubCollection("", folder)
    ensures '/' !in folder || (folder == "/" + GetName(folder) && '/' !in GetName(folder))
  {
    if '/' in folder {
      CountCharPresent(folder, '/');
      SubCollectionShape("", folder);
    }
  }

  /** A folder one '/' deeper than `path` and starting with `path/` is `path/<name>`. */
  lemma {:induction false} SubCollectionShape(path: string, folder: string)
    requires CountChar(path, '/') == CountChar(folder, '/') - 1 && StartsWith(folder, path + "/")
    ensures '/' !in GetName(folder)
    ensures folder == path + "/" + GetName(folder)
  {
    var rest := folder[|path + "/"|..];
    assert folder == path + "/" + rest;
    CountCharAppend(path + "/", rest, '/');
    CountCharAppend(path, "/", '/');
    if '/' in rest {
      CountCharPresent(rest, '/');
    }
    NameOfChildPath(path, rest);
  }

  // ---------------------------------------------------------------- lookup

  /** A name the tree refuses: one that starts with '.'. */
  predicate Hidden(name: string) {
    |name| > 0 && name[0] == '.'
  }

  /** The first child carrying the name. */
  function FirstNamed(kids: seq<Node>, name: string): (r: Option<Node>)
    ensures r.Some? ==> r.value in kids && GetName(r.value.path) == name
    ensures r.None? <==> forall n :: n in kids ==> GetName(n.path) != name
  {
    if |kids| == 0 then None
    else if GetName(kids[0].path) == name then Some(kids[0])
    else
      assert forall n :: n in kids ==> n == kids[0] || n in kids[1..];
      FirstNamed(kids[1..], name)
  }

  /**
   * getChild: NotFound for a hidden name, without listing; otherwise the
   * first child with the name, or NotFound.
   */
  function GetChild(c: Node, name: string, folders: Option<seq<string>>, files: Option<seq<(string, FileInfo)>>)
    : (r: (Node, Result<Node>))
    requires c.kind == Dir
    ensures Hidden(name) ==> r == (c, Err(NotFound))
    ensures !Hidden(name) ==> r.0 == GetChildren(c, folders, files).0
    ensures r.1.Ok? ==> !Hidden(name) && r.1.value in GetChildren(c, folders, files).1 && GetName(r.1.value.path) == name
    ensures r.1 == Err(NotFound) <==>
      Hidden(name) || forall n :: n in GetChildren(c, folders, files).1 ==> GetName(n.path) != name
    ensures r.1.Ok? || r.1 == Err(NotFound)
  {
    if Hidden(name) then (c, Err(NotFound))
    else
      var (c1, kids) := GetChildren(c, folders, files);
      match FirstNamed(kids, name)
      case Some(n) => (c1, Ok(n))
      case None => (c1, Err(NotFound))
  }

  /** childExists: whether a non-hidden name names a child. */
  function ChildExists(c: Node, name: string, folders: Option<seq<string>>, files: Option<seq<(string, FileInfo)>>)
    : (r: (Node, bool))
    requires c.kind == Dir
    ensures r.1 <==> !Hidden(name) && exists n :: n in GetChildren(c, folders, files).1 && GetName(n.path) == name
  {
    var (c1, found) := GetChild(c, name, folders, files);
    (c1, found.Ok?)
  }

  /** childExists is true exactly when getChild returns a node, and both leave the same cache. */
  lemma ChildExistsAgreesWithGetChild(c: Node, name: string, folders: Option<seq<string>>,
                                      files: Option<seq<(string, FileInfo)>>)
    requires c.kind == Dir
    ensures ChildExists(c, name, folders, files).1 <==> GetChild(c, name, folders, files).1.Ok?
    ensures ChildExists(c, name, folders, files).0 == GetChild(c, name, folders, files).0
  {
  }

  // ---------------------------------------------------------------- changes

  /** The cache of the parent after a change below it: emptied, when there is a parent. */
  function ResetCache(parent: Option<Node>): (r: Option<Node>)
    ensures r.Some? <==> parent.Some?
    ensures r.Some? ==> r.value.children.None? && r.value == parent.value.(children := None)
  {
    if parent.Some? then Some(parent.value.(children := None)) else None
  }

  /** The type hint for the content-type detection: the node's own type, or the default. */
  function TypeHint(data: Option<FileInfo>): (r: string)
    ensures data.Some? && Truthy(data.value.ctype) ==> r == data.value.ctype
    ensures !(data.Some? && Truthy(data.value.ctype)) ==> r == DefaultType
  {
    if data.Some? && Truthy(data.value.ctype) then data.value.ctype else DefaultType
  }

  /** fileData: the content with the type detected from it, the name and the hint. */
  function MakeFileData(data: Option<FileInfo>, name: string, content: string,
                        detect: (string, string, string) -> string): (r: FileData)
    ensures r.content == content && r.ctype == detect(content, name, TypeHint(data))
  {
    FileData(content, detect(content, name, TypeHint(data)))
  }

  /**
   * Node delete (a folder): the backend's folder delete; a failure is
   * Forbidden and leaves the parent's cache, a success empties it.
   */
  function DeleteFolder(n: Node, parent: Option<Node>, ok: bool): (r: (Option<Node>, seq<Call>, Result<()>))
    ensures r.1 == [FolderDelete(n.path)]
    ensures r.2.Ok? <==> ok
    ensures !ok ==> r.0 == parent && r.2 == Err(Forbidden)
    ensures ok ==> r.0 == ResetCache(parent)
  {
    if ok then (ResetCache(parent), [FolderDelete(n.path)], Ok(()))
    else (parent, [FolderDelete(n.path)], Err(Forbidden))
  }

  /**
   * setName: a move of the file or folder to the rename target; a failure is
   * Forbidden and leaves the parent's cache, a success empties it. The node
   * keeps its old path.
   */
  function SetName(n: Node, parent: Option<Node>, name: string, ok: bool): (r: (Option<Node>, seq<Call>, Result<()>))
    ensures n.kind == Doc ==> r.1 == [FileMove(n.path, RenameTarget(n.path, name))]
    ensures n.kind == Dir ==> r.1 == [FolderMove(n.path, RenameTarget(n.path, name))]
    ensures r.2.Ok? <==> ok
    ensures !ok ==> r.0 == parent && r.2 == Err(Forbidden)
    ensures ok ==> r.0 == ResetCache(parent)
  {
    var target := RenameTarget(n.path, name);
    var call := if n.kind == Doc then FileMove(n.path, target) else FolderMove(n.path, target);
    if ok then (ResetCache(parent), [call], Ok(())) else (parent, [call], Err(Forbidden))
  }

  /**
   * createFile: a hidden name is Forbidden and nothing is called; otherwise
   * the file is created below the collection, a backend failure is
   * swallowed, and the cache is emptied either way.
   */
  function CreateFile(c: Node, name: string, content: string, detect: (string, string, string) -> string)
    : (r: (Node, seq<Call>, Result<()>))
    requires c.kind == Dir
    ensures Hidden(name) <==> r.2 == Err(Forbidden)
    ensures Hidden(name) ==> r.0 == c && r.1 == []
    ensures !Hidden(name) ==> (r.2.Ok? && r.0 == c.(children := None)
                               && r.1 == [FileCreate(c.path + "/" + name, MakeFileData(c.data, name, content, detect))])
  {
    if Hidden(name) then (c, [], Err(Forbidden))
    else (c.(children := None), [FileCreate(c.path + "/" + name, MakeFileData(c.data, name, content, detect))], Ok(()))
  }

  /**
   * createDirectory: a hidden name is Forbidden and nothing is called;
   * otherwise the folder is created below the collection, a backend failure
   * is Forbidden and keeps the cache, a success empties it.
   */
  function CreateDirectory(c: Node, name: string, ok: bool): (r: (Node, seq<Call>, Result<()>))
    requires c.kind == Dir
    ensures r.2.Ok? <==> !Hidden(name) && ok
    ensures r.2.Err? ==> r.2 == Err(Forbidden) && r.0 == c
    ensures Hidden(name) ==> r.1 == []
    ensures !Hidden(name) ==> r.1 == [FolderCreate(c.path + "/" + name)]
    ensures r.2.Ok? ==> r.0 == c.(children := None)
  {
    if Hidden(name) then (c, [], Err(Forbidden))
    else if ok then (c.(children := None), [FolderCreate(c.path + "/" + name)], Ok(()))
    else (c, [FolderCreate(c.path + "/" + name)], Err(Forbidden))
  }

  /**
   * A created directory is found by its name: once the backend lists the
   * folder it was asked to create, the collection (its cache emptied by the
   * creation) reports a child of that name, at the root as below it.
   */
  lemma {:induction false} CreateDirectoryThenExists(c: Node, name: string, folders: seq<string>,
                                                     files: Option<seq<(string, FileInfo)>>)
    requires c.kind == Dir && '/' !in name
    requires CreateDirectory(c, name, true).2.Ok?
    requires CreateDirectory(c, name, true).1[0].folder in folders
    ensures ChildExists(CreateDirectory(c, name, true).0, name, Some(folders), files).1
  {
    var c1 := CreateDirectory(c, name, true).0;
    var folder := c.path + "/" + name;
    CountCharAppend(c.path + "/", name, '/');
    CountCharAppend(c.path, "/", '/');
    CountCharAbsent(name, '/');
    assert StartsWith(folder, c.path + "/");
    assert IsSubCollection(c.path, folder);
    ChildrenSelection(c.path, Some(folders), files);
    var kids := GetChildren(c1, Some(folders), files).1;
    assert Node(Dir, folder, None, None) in kids;
    NameOfChildPath(c.path, name);
  }

  // ---------------------------------------------------------------- files

  /**
   * The file's entity tag: the digest of `<path>:<size>` cut to sixteen
   * characters, a dash and the modification time, in quotes. A file without
   * data has the empty size and the time 0.
   */
  function FileETag(md5: string -> string, path: string, data: Option<FileInfo>): string {
    match data
    case Some(d) => Tags.ETag(md5, path + ":" + NatToString(d.size), d.modified)
    case None => Tags.ETag(md5, path + ":", 0)
  }

  /**
   * Two versions of a file with the same path have the same tag only when
   * their modification times agree: every change of that time changes the
   * tag.
   */
  lemma FileETagReflectsModified(md5: string -> string, path: string, a: FileInfo, b: FileInfo)
    requires IsHexDigest(md5(path + ":" + NatToString(a.size))) && IsHexDigest(md5(path + ":" + NatToString(b.size)))
    requires a.modified != b.modified
    ensures FileETag(md5, path, Some(a)) != FileETag(md5, path, Some(b))
  {
    if FileETag(md5, path, Some(a)) == FileETag(md5, path, Some(b)) {
      Tags.ETagInjective(md5, path + ":" + NatToString(a.size), a.modified, path + ":" + NatToString(b.size), b.modified);
    }
  }

  /** getSize: the size from the file data; null without data. */
  function GetSize(f: Node): (r: Option<nat>)
    ensures r.Some? <==> f.data.Some?
    ensures r.Some? ==> r.value == f.data.value.size
  {
    if f.data.Some? then Some(f.data.value.size) else None
  }

  /** getContentType: the type from the file data; null without data. */
  function GetContentType(f: Node): (r: Option<string>)
    ensures r.Some? <==> f.data.Some?
    ensures r.Some? ==> r.value == f.data.value.ctype
  {
    if f.data.Some? then Some(f.data.value.ctype) else None
  }

  /** getLastModified: the modification time when set (non-zero), null otherwise. */
  function GetLastModified(n: Node): (r: Option<nat>)
    ensures r.Some? <==> n.data.Some? && n.data.value.modified != 0
    ensures r.Some? ==> r.value == n.data.value.modified
  {
    if n.data.Some? && n.data.value.modified != 0 then Some(n.data.value.modified) else None
  }

  /** updateProperties: no property of a file can be changed. */
  function UpdateProperties(f: Node, mutations: map<string, Option<string>>): (r: bool)
    ensures !r
  {
    false
  }

  /** getProperties: the creation date, formatted as an HTTP date, when the file has one. */
  function GetProperties(f: Node, httpDate: nat -> string): (r: map<string, string>)
    ensures r.Keys <= {"{DAV:}creationdate"}
    ensures "{DAV:}creationdate" in r <==> f.data.Some? && f.data.value.created != 0
    ensures "{DAV:}creationdate" in r ==> r["{DAV:}creationdate"] == httpDate(f.data.value.created)
  {
    if f.data.Some? && f.data.value.created != 0 then map["{DAV:}creationdate" := httpDate(f.data.value.created)]
    else map[]
  }

  /**
   * File delete: the backend's file delete, whose failure is swallowed; the
   * parent's cache is emptied whatever the backend did.
   */
  function DeleteFile(f: Node, parent: Option<Node>): (r: (Option<Node>, seq<Call>))
    ensures r.1 == [FileDelete(f.path)]
    ensures r.0 == ResetCache(parent)
  {
    (ResetCache(parent), [FileDelete(f.path)])
  }

  /**
   * After a successful folder delete the parent's next listing is asked of
   * the backend again, so once the backend no longer lists the folder, no
   * child collection has its path.
   */
  lemma DeleteFolderThenListing(n: Node, parent: Node, folders: seq<string>, files: Option<seq<(string, FileInfo)>>)
    requires parent.kind == Dir && n.path !in folders
    ensures var p := DeleteFolder(n, Some(parent), true).0;
      p.Some? && p.value.kind == Dir
      && GetChildren(p.value, Some(folders), files).1 == ListChildren(parent.path, Some(folders), files)
      && forall k :: k in GetChildren(p.value, Some(folders), files).1 && k.kind == Dir ==> k.path != n.path
  {
    var kids := ListChildren(parent.path, Some(folders), files);
    forall k | k in kids && k.kind == Dir ensures k.path != n.path {
      ChildrenSelection(parent.path, Some(folders), files);
      assert k !in FileNodes(files.GetOr([]));
      assert k in SubCollections(parent.path, folders);
    }
  }

  /**
   * After a file delete, whatever the backend answered, the parent's next
   * listing is asked of the backend again, so once the backend no longer
   * lists the file, no child file has its path.
   */
  lemma DeleteFileThenListing(f: Node, parent: Node, folders: Option<seq<string>>, files: seq<(string, FileInfo)>)
    requires parent.kind == Dir && forall i :: 0 <= i < |files| ==> files[i].0 != f.path
    ensures var p := DeleteFile(f, Some(parent)).0;
      p.Some? && p.value.kind == Dir
      && GetChildren(p.value, folders, Some(files)).1 == ListChildren(parent.path, folders, Some(files))
      && forall k :: k in GetChildren(p.value, folders, Some(files)).1 && k.kind == Doc ==> k.path != f.path
  {
    var kids := ListChildren(parent.path, folders, Some(files));
    forall k | k in kids && k.kind == Doc ensures k.path != f.path {
      ChildrenSelection(parent.path, folders, Some(files));
      var fs := FileNodes(files);
      assert k in fs;
      var i :| 0 <= i < |fs| && fs[i] == k;
    }
  }

  /**
   * put: the backend's file update (its failure swallowed), then the file
   * data read back (`info`, None when that fails and the old data stays);
   * the result is the entity tag of the data now held.
   */
  function Put(f: Node, content: string, detect: (string, string, string) -> string, info: Option<FileInfo>,
               md5: string -> string): (r: (Node, seq<Call>, string))
    ensures r.1 == [FileUpdate(f.path, MakeFileData(f.data, f.path, content, detect))]
    ensures r.0.path == f.path && r.0.kind == f.kind
    ensures r.0.data == (if info.Some? then info else f.data)
    ensures r.2 == FileETag(md5, f.path, r.0.data)
  {
    var f1 := if info.Some? then f.(data := info) else f;
    (f1, [FileUpdate(f.path, MakeFileData(f.data, f.path, content, detect))], FileETag(md5, f.path, f1.data))
  }

  /**
   * After a put whose read-back succeeded, the returned tag is the stored
   * file's tag, and a later modification time gives a different one.
   */
  lemma PutReturnsStoredTag(f: Node, content: string, detect: (string, string, string) -> string,
                            info: FileInfo, md5: string -> string, later: FileInfo)
    requires IsMd5(md5)
    requires later.modified != info.modified
    ensures var (f1, _, tag) := Put(f, content, detect, Some(info), md5);
      tag == FileETag(md5, f.path, Some(info)) && tag != FileETag(md5, f.path, Some(later))
  {
    FileETagReflectsModified(md5, f.path, info, later);
  }
}
