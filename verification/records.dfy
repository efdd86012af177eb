/**
 * Groupware objects as the backends see them: hash arrays of properties, in
 * which keys starting with '_' carry storage meta data (message uid, stored
 * attachments, object type), and the per-folder object store behind them.
 */
module Records {
  import opened Options
  import opened Strings
  import opened OrderedMaps
  import opened DavCommon
  import opened Tags

  datatype Attachment = Attachment(id: string, name: string, mimetype: string)

  /** An entry of an attachment list: an attachment, or `false` marking a stored one for deletion. */
  datatype Slot = Present(attachment: Attachment) | Deleted

  datatype Value =
    | Null
    | Str(s: string)
    | Num(n: int)
    | Attachments(slots: OMap<string, Slot>)
    | Other

  type Record = map<string, Value>

  /** isset($r[$k]): present and not null. */
  predicate IsSet(r: Record, k: string) {
    k in r && r[k] != Null
  }

  /** Meta data keys start with an underscore. */
  predicate IsMetaKey(k: string) {
    |k| > 0 && k[0] == '_'
  }

  /** The object's uid, when it has a string one. */
  function UidOf(r: Record): Option<string> {
    if "uid" in r && r["uid"].Str? then Some(r["uid"].s) else None
  }

  /** A parsed list of n attachments is keyed "0" .. "n-1". */
  function NumberedSlots(atts: seq<Attachment>): (m: OMap<string, Slot>)
    ensures m.Valid() && |m.keys| == |atts|
    ensures forall i :: 0 <= i < |atts| ==> m.keys[i] == NatToString(i) && m.Get(NatToString(i)) == Some(Present(atts[i]))
  {
    if |atts| == 0 then Empty()
    else
      var m0 := NumberedSlots(atts[..|atts| - 1]);
      NumberedStep(m0, atts);
      m0.Put(NatToString(|atts| - 1), Present(atts[|atts| - 1]))
  }

  lemma NumberedStep(m0: OMap<string, Slot>, atts: seq<Attachment>)
    requires |atts| > 0
    requires m0.Valid() && |m0.keys| == |atts| - 1
    requires forall i :: 0 <= i < |atts| - 1 ==> m0.keys[i] == NatToString(i) && m0.Get(NatToString(i)) == Some(Present(atts[i]))
    ensures var m := m0.Put(NatToString(|atts| - 1), Present(atts[|atts| - 1]));
      m.Valid() && |m.keys| == |atts|
      && forall i :: 0 <= i < |atts| ==> m.keys[i] == NatToString(i) && m.Get(NatToString(i)) == Some(Present(atts[i]))
  {
    var n := |atts| - 1;
    var k := NatToString(n);
    assert k !in m0.entries by {
      forall i | 0 <= i < n ensures m0.keys[i] != k {
        if m0.keys[i] == k { NatToStringInjective(i, n); }
      }
    }
    PutSpec(m0, k, Present(atts[n]));
    var m := m0.Put(k, Present(atts[n]));
    forall i | 0 <= i < |atts|
      ensures m.keys[i] == NatToString(i) && m.Get(NatToString(i)) == Some(Present(atts[i]))
    {
    }
  }

  /**
   * Copies the meta data of the stored version into an incoming object: every
   * '_' key of `stored` that the object does not set.
   */
  function CarryForward(obj: Record, stored: Record): (r: Record)
    ensures forall k :: k in r <==> k in obj || (k in stored && IsMetaKey(k))
    ensures forall k :: IsSet(obj, k) ==> r[k] == obj[k]
    ensures forall k :: k in obj && !IsMetaKey(k) ==> r[k] == obj[k]
    ensures forall k :: k in stored && IsMetaKey(k) && !IsSet(obj, k) ==> r[k] == stored[k]
  {
    map k | k in obj.Keys + stored.Keys && (k in obj || IsMetaKey(k)) ::
      if k in stored && IsMetaKey(k) && !IsSet(obj, k) then stored[k] else obj[k]
  }

  /** Carrying forward twice adds nothing, and from no stored version it changes nothing. */
  lemma CarryForwardIdempotent(obj: Record, stored: Record)
    ensures CarryForward(CarryForward(obj, stored), stored) == CarryForward(obj, stored)
    ensures CarryForward(obj, map[]) == obj
  {
  }

  /** The keys of a stored object's attachment list (none when it has no list). */
  function StoredAttachmentKeys(stored: Option<Record>): seq<string> {
    if stored.Some? && "_attachments" in stored.value && stored.value["_attachments"].Attachments?
    then stored.value["_attachments"].slots.keys
    else []
  }

  /** `$list[$key] = false` for every key in turn. */
  function MarkDeleted(m: OMap<string, Slot>, ks: seq<string>): (r: OMap<string, Slot>)
    requires m.Valid()
    ensures r.Valid()
    ensures forall k :: k in ks ==> r.Get(k) == Some(Deleted)
    ensures forall k :: k !in ks ==> r.Get(k) == m.Get(k)
    ensures |m.keys| <= |r.keys| && r.keys[..|m.keys|] == m.keys
  {
    if |ks| == 0 then m
    else
      var m1 := MarkDeleted(m, ks[..|ks| - 1]);
      MarkDeletedStep(m, m1, ks);
      m1.Put(ks[|ks| - 1], Deleted)
  }

  lemma MarkDeletedStep(m: OMap<string, Slot>, m1: OMap<string, Slot>, ks: seq<string>)
    requires |ks| > 0 && m.Valid() && m1.Valid()
    requires forall k :: k in ks[..|ks| - 1] ==> m1.Get(k) == Some(Deleted)
    requires forall k :: k !in ks[..|ks| - 1] ==> m1.Get(k) == m.Get(k)
    requires |m.keys| <= |m1.keys| && m1.keys[..|m.keys|] == m.keys
    ensures var r := m1.Put(ks[|ks| - 1], Deleted);
      r.Valid()
      && (forall k :: k in ks ==> r.Get(k) == Some(Deleted))
      && (forall k :: k !in ks ==> r.Get(k) == m.Get(k))
      && |m.keys| <= |r.keys| && r.keys[..|m.keys|] == m.keys
  {
    var last := ks[|ks| - 1];
    PutSpec(m1, last, Deleted);
    PutKeepsOrder(m1, last, Deleted);
    var r := m1.Put(last, Deleted);
    assert r.keys[..|m.keys|] == m1.keys[..|m.keys|];
    forall k | k in ks ensures r.Get(k) == Some(Deleted) {
      if k != last {
        var j :| 0 <= j < |ks| && ks[j] == k;
        assert ks[..|ks| - 1][j] == k;
      }
    }
    forall k | k !in ks ensures r.Get(k) == m.Get(k) {
      assert k != last;
      assert forall j :: 0 <= j < |ks| - 1 ==> ks[..|ks| - 1][j] == ks[j];
    }
  }

  /** Whether the object carries a non-empty attachment list. */
  predicate HasNewAttachments(obj: Record) {
    "attachments" in obj && obj["attachments"].Attachments? && obj["attachments"].slots.Valid()
    && |obj["attachments"].slots.keys| > 0
  }

  /**
   * On update: a non-empty attachment list replaces the stored one, and every
   * key of the stored list is marked for deletion (the update is absolute);
   * otherwise the object is left as it is.
   */
  function ProcessAttachments(obj: Record, stored: Option<Record>): (r: Record)
    ensures HasNewAttachments(obj) ==>
      "attachments" !in r && "_attachments" in r && r["_attachments"].Attachments?
      && r["_attachments"].slots.Valid()
      && (forall k :: k in StoredAttachmentKeys(stored) ==> r["_attachments"].slots.Get(k) == Some(Deleted))
      && (forall k :: k !in StoredAttachmentKeys(stored) ==> r["_attachments"].slots.Get(k) == obj["attachments"].slots.Get(k))
      && (forall k :: k in r && k != "_attachments" ==> k in obj && r[k] == obj[k])
      && (forall k :: k in obj && k != "attachments" ==> k in r)
    ensures !HasNewAttachments(obj) ==> r == obj
  {
    if HasNewAttachments(obj) then
      var slots := MarkDeleted(obj["attachments"].slots, StoredAttachmentKeys(stored));
      (obj - {"attachments"})["_attachments" := Attachments(slots)]
    else obj
  }

  /**
   * A new attachment at list position i survives the update exactly when the
   * stored list had no key of the same spelling; otherwise the deletion
   * marker for the stored attachment takes its place.
   */
  lemma NewAttachmentSurvives(obj: Record, stored: Option<Record>, atts: seq<Attachment>, i: nat)
    requires obj["attachments" := Attachments(NumberedSlots(atts))] == obj && i < |atts|
    ensures var r := ProcessAttachments(obj, stored);
      r["_attachments"].slots.Get(NatToString(i)) == Some(Present(atts[i]))
      <==> NatToString(i) !in StoredAttachmentKeys(stored)
  {
    assert "attachments" in obj && obj["attachments"] == Attachments(NumberedSlots(atts));
    assert HasNewAttachments(obj);
  }

  /** The object store of one folder: its objects in storage order. */
  type Objects = seq<Record>

  /** get_object($uid): the first object with the uid. */
  function GetObject(objs: Objects, uid: string): (r: Option<Record>)
    ensures r.Some? <==> exists i :: 0 <= i < |objs| && UidOf(objs[i]) == Some(uid)
    ensures r.Some? ==> r.value in objs && UidOf(r.value) == Some(uid)
  {
    if |objs| == 0 then None
    else if UidOf(objs[0]) == Some(uid) then Some(objs[0])
    else
      var r := GetObject(objs[1..], uid);
      assert forall i :: 0 < i < |objs| ==> objs[i] == objs[1..][i - 1];
      r
  }

  /** delete($uid): removes every object with the uid. */
  function Delete(objs: Objects, uid: string): (r: Objects)
    ensures forall o :: o in r <==> o in objs && UidOf(o) != Some(uid)
    ensures |r| <= |objs|
  {
    if |objs| == 0 then []
    else if UidOf(objs[0]) == Some(uid) then Delete(objs[1..], uid)
    else [objs[0]] + Delete(objs[1..], uid)
  }

  /**
   * save($object, $type, $uid): stores the object as a new message with the
   * message number the server assigned, replacing the version stored under
   * `replace`; the saved object (with its new `_msguid`) is returned too.
   */
  function Save(objs: Objects, obj: Record, replace: Option<string>, msguid: nat): (r: (Objects, Record))
    ensures r.1 == obj["_msguid" := Num(msguid)]
    ensures |r.0| > 0 && r.0[|r.0| - 1] == r.1
    ensures forall o :: o in r.0[..|r.0| - 1] <==> o in objs && (replace.None? || UidOf(o) != replace)
  {
    var saved := obj["_msguid" := Num(msguid)];
    var kept := if replace.Some? then Delete(objs, replace.value) else objs;
    assert (kept + [saved])[..|kept|] == kept;
    (kept + [saved], saved)
  }

  /** A saved object can be read back by its uid, as saved, unless an older object with the uid is kept before it. */
  lemma SaveThenGet(objs: Objects, obj: Record, uid: string, msguid: nat)
    requires UidOf(obj) == Some(uid) && GetObject(objs, uid).None?
    ensures GetObject(Save(objs, obj, Some(uid), msguid).0, uid) == Some(Save(objs, obj, Some(uid), msguid).1)
    ensures GetObject(Save(objs, obj, None, msguid).0, uid) == Some(Save(objs, obj, None, msguid).1)
  {
    GetAfterAppend(Delete(objs, uid), Save(objs, obj, Some(uid), msguid).1, uid);
    GetAfterAppend(objs, Save(objs, obj, None, msguid).1, uid);
  }

  /** Replacing by uid leaves no older version behind, so the saved one is the one read back. */
  lemma SaveReplaces(objs: Objects, obj: Record, uid: string, msguid: nat)
    requires UidOf(obj) == Some(uid)
    ensures GetObject(Save(objs, obj, Some(uid), msguid).0, uid) == Some(Save(objs, obj, Some(uid), msguid).1)
  {
    GetAfterAppend(Delete(objs, uid), Save(objs, obj, Some(uid), msguid).1, uid);
  }

  lemma {:induction false} GetAfterAppend(objs: Objects, o: Record, uid: string)
    requires UidOf(o) == Some(uid) && GetObject(objs, uid).None?
    ensures GetObject(objs + [o], uid) == Some(o)
  {
    if |objs| == 0 {
      assert objs + [o] == [o];
    } else {
      assert (objs + [o])[1..] == objs[1..] + [o];
      assert GetObject(objs[1..], uid).None?;
      GetAfterAppend(objs[1..], o, uid);
    }
  }

  /** Objects of other uids are untouched by a delete. */
  lemma DeleteKeepsOthers(objs: Objects, uid: string, other: string)
    requires other != uid
    ensures GetObject(Delete(objs, uid), other).Some? <==> GetObject(objs, other).Some?
    ensures GetObject(Delete(objs, uid), uid).None?
  {
    if GetObject(objs, other).Some? {
      var i :| 0 <= i < |objs| && UidOf(objs[i]) == Some(other);
      assert objs[i] in Delete(objs, uid);
    }
    if GetObject(Delete(objs, uid), other).Some? {
      var d := Delete(objs, uid);
      var i :| 0 <= i < |d| && UidOf(d[i]) == Some(other);
      assert d[i] in objs;
    }
    var d := Delete(objs, uid);
    forall i | 0 <= i < |d| ensures UidOf(d[i]) != Some(uid) {
      assert d[i] in d;
    }
  }

  /** The objects of every folder, by IMAP folder name. */
  type Store = map<string, Objects>

  /** The state a write touches: the store and the DAV plugin's pending redirect name. */
  datatype Io = Io(store: Store, redirect: Option<string>)

  function ObjectsOf(store: Store, f: Folder): Objects {
    if f.name in store then store[f.name] else []
  }

  /** $object['uid'] as a string: a missing uid reads as "". */
  function ObjUid(r: Record): string {
    UidOf(r).GetOr("")
  }

  /** %d of $object['_msguid']: a missing message number prints as 0. */
  function MsgUid(r: Record): nat {
    if "_msguid" in r && r["_msguid"].Num? && r["_msguid"].n >= 0 then r["_msguid"].n else 0
  }

  /** _get_etag: from the uid and the IMAP message uid only. */
  function ETagOf(md5: string -> string, r: Record): string {
    ETag(md5, ObjUid(r), MsgUid(r))
  }

  /** The tag of a just-saved object is made from its uid and the message number the server assigned. */
  lemma ETagOfSaved(md5: string -> string, objs: Objects, obj: Record, replace: Option<string>, msguid: nat)
    ensures ETagOf(md5, Save(objs, obj, replace, msguid).1) == ETag(md5, ObjUid(obj), msguid)
  {
    var saved := Save(objs, obj, replace, msguid).1;
    assert UidOf(saved) == UidOf(obj);
  }

  /** Two objects with the same uid and message number have the same tag, whatever else differs. */
  lemma ETagIgnoresContent(md5: string -> string, a: Record, b: Record)
    requires ObjUid(a) == ObjUid(b) && MsgUid(a) == MsgUid(b)
    ensures ETagOf(md5, a) == ETagOf(md5, b)
  {
  }

  /** $object['changed'] as a Unix time, when set. */
  function LastModified(r: Record): Option<int> {
    if "changed" in r && r["changed"].Num? then Some(r["changed"].n) else None
  }
}
