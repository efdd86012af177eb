/**
 * The change tags the backends hand out: entity tags of stored objects and
 * collection tags (CTags) of folders and of the aggregate address book.
 */
module Tags {
  import opened Strings
  import opened DavCommon

  /**
   * The entity tag of a stored item: in double quotes, the first sixteen
   * characters of the digest of `key`, a dash, and the number `n` (the IMAP
   * message uid of an object, the modification time of a file).
   */
  function ETag(md5: string -> string, key: string, n: nat): string {
    "\"" + Prefix(md5(key), 16) + "-" + NatToString(n) + "\""
  }

  /** An entity tag is a quoted string of fixed-width digest, dash and decimal number. */
  lemma ETagShape(md5: string -> string, key: string, n: nat)
    requires IsHexDigest(md5(key))
    ensures var t := ETag(md5, key, n);
      |t| == 19 + |NatToString(n)| && t[0] == '"' && t[|t| - 1] == '"' && t[17] == '-'
      && t[1..17] == md5(key)[..16] && t[18..|t| - 1] == NatToString(n)
  {
    var h := md5(key);
    assert Prefix(h, 16) == h[..16];
    QuotedShape(h[..16], NatToString(n));
  }

  lemma QuotedShape(h: string, d: string)
    requires |h| == 16
    ensures var t := "\"" + h + "-" + d + "\"";
      |t| == 19 + |d| && t[0] == '"' && t[|t| - 1] == '"' && t[17] == '-' && t[1..17] == h && t[18..|t| - 1] == d
  {
    var t := "\"" + h + "-" + d + "\"";
    assert t[1..17] == h;
    assert t[18..|t| - 1] == d;
  }

  /** Equal entity tags mean equal digest prefixes and equal numbers: a new message number always changes the tag. */
  lemma ETagInjective(md5: string -> string, k1: string, n1: nat, k2: string, n2: nat)
    requires IsHexDigest(md5(k1)) && IsHexDigest(md5(k2))
    requires ETag(md5, k1, n1) == ETag(md5, k2, n2)
    ensures n1 == n2 && md5(k1)[..16] == md5(k2)[..16]
  {
    ETagShape(md5, k1, n1);
    ETagShape(md5, k2, n2);
    var t := ETag(md5, k1, n1);
    assert t[18..|t| - 1] == NatToString(n1) == NatToString(n2);
    NatToStringInjective(n1, n2);
  }

  /** The CTag of a folder: UIDVALIDITY, HIGHESTMODSEQ and UIDNEXT as '%d-%d-%d'. */
  function CTag(d: ImapData): string {
    NatToString(d.uidValidity) + "-" + NatToString(d.highestModSeq) + "-" + NatToString(d.uidNext)
  }

  lemma NoDashInNumber(n: nat)
    ensures '-' !in NatToString(n) && ':' !in NatToString(n)
  {
    var s := NatToString(n);
    assert forall i :: 0 <= i < |s| ==> IsDigit(s[i]);
  }

  /** The CTag splits back into the three status numbers. */
  lemma CTagParts(d: ImapData)
    ensures Split(CTag(d), '-') == [NatToString(d.uidValidity), NatToString(d.highestModSeq), NatToString(d.uidNext)]
    ensures ':' !in CTag(d)
  {
    var parts := [NatToString(d.uidValidity), NatToString(d.highestModSeq), NatToString(d.uidNext)];
    NoDashInNumber(d.uidValidity);
    NoDashInNumber(d.highestModSeq);
    NoDashInNumber(d.uidNext);
    assert Join(parts, "-") == CTag(d) by {
      assert parts[1..][1..] == [NatToString(d.uidNext)];
      assert Join(parts[1..], "-") == NatToString(d.highestModSeq) + "-" + NatToString(d.uidNext);
    }
    SplitJoin(parts, '-');
  }

  /** Any change of the folder's IMAP status changes its CTag. */
  lemma CTagInjective(a: ImapData, b: ImapData)
    requires CTag(a) == CTag(b)
    ensures a == b
  {
    CTagParts(a);
    CTagParts(b);
    NatToStringInjective(a.uidValidity, b.uidValidity);
    NatToStringInjective(a.highestModSeq, b.highestModSeq);
    NatToStringInjective(a.uidNext, b.uidNext);
  }

  /** The CTag of the aggregate address book: the sources' CTags joined with ':'. */
  function AggregateCTag(statuses: seq<ImapData>): string {
    Join(MapSeq(CTag, statuses), ":")
  }

  /** The aggregate CTag splits back into the sources' CTags, so it changes whenever any source changes. */
  lemma AggregateCTagInjective(a: seq<ImapData>, b: seq<ImapData>)
    requires |a| >= 1 && |b| >= 1
    requires AggregateCTag(a) == AggregateCTag(b)
    ensures a == b
  {
    var ta := MapSeq(CTag, a);
    var tb := MapSeq(CTag, b);
    forall i | 0 <= i < |a| ensures ':' !in ta[i] { CTagParts(a[i]); }
    forall i | 0 <= i < |b| ensures ':' !in tb[i] { CTagParts(b[i]); }
    SplitJoin(ta, ':');
    SplitJoin(tb, ':');
    assert ta == tb;
    forall i | 0 <= i < |a| ensures a[i] == b[i] {
      assert CTag(a[i]) == ta[i] == tb[i] == CTag(b[i]);
      CTagInjective(a[i], b[i]);
    }
  }
}
