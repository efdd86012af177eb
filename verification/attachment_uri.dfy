/**
 * The resource names under which attachments of calendar objects are
 * published to clients that link rather than embed them:
 * `<uid>.ics:attachment:<id>:<name>`, recognised with the PCRE pattern
 * `^(.+).ics:attachment:(\d+):.+$` (the dot before "ics" is unescaped and
 * matches any character but a newline; `$` also matches before a final
 * newline; the greedy first group takes the longest uid that lets the rest
 * match).
 */
module AttachmentUris {
  import opened Options
  import opened Strings

  /** The literal part after the wildcard character. */
  const Marker: string := "ics:attachment:"

  /** The longest prefix of `t` made of decimal digits. */
  function DigitRun(t: string): (d: nat)
    ensures d <= |t| && (forall j :: 0 <= j < d ==> IsDigit(t[j])) && (d < |t| ==> !IsDigit(t[d]))
  {
    if |t| == 0 || !IsDigit(t[0]) then 0 else 1 + DigitRun(t[1..])
  }

  predicate NoNewline(t: string) {
    '\n' !in t
  }

  /** `.+$`: one or more non-newline characters, then the end or a final newline. */
  predicate LineRest(t: string) {
    (|t| >= 1 && NoNewline(t)) || (|t| >= 2 && t[|t| - 1] == '\n' && NoNewline(t[..|t| - 1]))
  }

  /** `(\d+):.+$` on what follows the marker. */
  predicate TailMatches(t: string) {
    var d := DigitRun(t);
    d >= 1 && d < |t| && t[d] == ':' && LineRest(t[d + 1..])
  }

  /** The whole pattern matches with the first group ending before index q. */
  predicate MatchAt(s: string, q: nat) {
    1 <= q && q + 16 <= |s| && NoNewline(s[..q + 1]) && s[q + 1..q + 16] == Marker && TailMatches(s[q + 16..])
  }

  /** Whether the pattern matches with each possible end of the first group. */
  function MatchFlags(s: string): (b: seq<bool>)
    ensures |b| == |s| + 1 && forall q :: 0 <= q <= |s| ==> b[q] == MatchAt(s, q)
  {
    seq(|s| + 1, q requires 0 <= q <= |s| => MatchAt(s, q))
  }

  /** The largest index at or below `hi` whose flag is set. */
  function LastTrue(b: seq<bool>, hi: nat): (r: Option<nat>)
    requires hi < |b|
    ensures r.Some? ==> r.value <= hi && b[r.value] && forall q :: r.value < q <= hi ==> !b[q]
    ensures r.None? ==> forall q :: 0 <= q <= hi ==> !b[q]
  {
    if b[hi] then Some(hi)
    else if hi == 0 then None
    else LastTrue(b, hi - 1)
  }

  /** The search from `hi` down stops at the first set flag it meets. */
  lemma {:induction false} LastTrueIs(b: seq<bool>, hi: nat, q: nat)
    requires q <= hi < |b| && b[q]
    requires forall q' :: q < q' <= hi ==> !b[q']
    ensures LastTrue(b, hi) == Some(q)
    decreases hi
  {
    if hi > q {
      LastTrueIs(b, hi - 1, q);
    }
  }

  /**
   * preg_match on an object resource name: the uid (first group) and the
   * attachment part number (second group), or None when the name is a plain
   * object name.
   */
  function ParseAttachmentUri(s: string): (r: Option<(string, string)>)
    ensures r.None? <==> forall q: nat :: !MatchAt(s, q)
    ensures r.Some? ==> exists q: nat :: LongestMatch(s, q) && r.value == Groups(s, q)
  {
    var m := LastTrue(MatchFlags(s), |s|);
    if m.None? then None
    else Some(Groups(s, m.value))
  }

  /** The match the greedy first group settles on. */
  ghost predicate LongestMatch(s: string, q: nat) {
    MatchAt(s, q) && forall q': nat :: q < q' ==> !MatchAt(s, q')
  }

  /** The two captured groups of the match ending the first group at q. */
  function Groups(s: string, q: nat): (string, string)
    requires MatchAt(s, q)
  {
    (s[..q], s[q + 16..q + 16 + DigitRun(s[q + 16..])])
  }

  /** The published name of an attachment. */
  function AttachmentName(uid: string, id: string, name: string): string {
    uid + ".ics:attachment:" + id + ":" + name
  }

  /** A plain `<uid>.ics` name is not an attachment name when the uid has no colon. */
  lemma PlainNameNotAttachment(uid: string)
    requires ':' !in uid
    ensures ParseAttachmentUri(uid + ".ics").None?
  {
    var s := uid + ".ics";
    forall i | 0 <= i < |s| ensures s[i] != ':' {
      if i < |uid| {
        assert s[i] == uid[i] && uid[i] in uid;
      } else {
        assert s[i] == ".ics"[i - |uid|];
      }
    }
    forall q: nat ensures !MatchAt(s, q) {
      if q + 16 <= |s| {
        assert s[q + 1..q + 16][3] == s[q + 4] && Marker[3] == ':';
      }
    }
  }

  /**
   * Parsing the published name of an attachment gives back the uid and the
   * part number, for a non-empty single-line uid, a decimal part number and
   * a single-line name without colons.
   */
  lemma AttachmentNameRoundTrip(uid: string, id: string, name: string)
    requires |uid| >= 1 && NoNewline(uid)
    requires |id| >= 1 && AllDigits(id)
    requires |name| >= 1 && NoNewline(name) && ':' !in name
    ensures ParseAttachmentUri(AttachmentName(uid, id, name)) == Some((uid, id))
  {
    var s := AttachmentName(uid, id, name);
    FlagsOfName(uid, id, name);
    LastTrueIs(MatchFlags(s), |s|, |uid|);
  }

  lemma FlagsOfName(uid: string, id: string, name: string)
    requires |uid| >= 1 && NoNewline(uid)
    requires |id| >= 1 && AllDigits(id)
    requires |name| >= 1 && NoNewline(name) && ':' !in name
    ensures var s := AttachmentName(uid, id, name); var b := MatchFlags(s);
      |uid| <= |s| && b[|uid|] && (forall q :: |uid| < q <= |s| ==> !b[q])
      && s[..|uid|] == uid && s[|uid| + 16..|uid| + 16 + DigitRun(s[|uid| + 16..])] == id
  {
    var s := AttachmentName(uid, id, name);
    var b := MatchFlags(s);
    MatchAtUid(uid, id, name);
    forall q | |uid| < q <= |s| ensures !b[q] {
      NoLaterMatch(uid, id, name, q);
    }
  }

  /** The name matches with the uid as the first group and the part number as the second. */
  lemma MatchAtUid(uid: string, id: string, name: string)
    requires |uid| >= 1 && NoNewline(uid)
    requires |id| >= 1 && AllDigits(id)
    requires |name| >= 1 && NoNewline(name) && ':' !in name
    ensures var s := AttachmentName(uid, id, name);
      MatchAt(s, |uid|) && s[..|uid|] == uid && s[|uid| + 16..|uid| + 16 + DigitRun(s[|uid| + 16..])] == id
  {
    var s := AttachmentName(uid, id, name);
    var u := |uid|;
    var rest := id + (":" + name);
    Pieces(uid, rest);
    assert s == uid + ("." + Marker) + rest;
    TailOfName(id, name);
  }

  lemma Pieces(uid: string, rest: string)
    requires NoNewline(uid)
    ensures var s := uid + ("." + Marker) + rest;
      s[..|uid|] == uid && s[|uid| + 1..|uid| + 16] == Marker && s[|uid| + 16..] == rest
      && NoNewline(s[..|uid| + 1])
  {
    var s := uid + ("." + Marker) + rest;
    assert s[..|uid| + 1] == uid + ['.'];
  }

  lemma TailOfName(id: string, name: string)
    requires |id| >= 1 && AllDigits(id)
    requires |name| >= 1 && NoNewline(name)
    ensures var t := id + (":" + name);
      DigitRun(t) == |id| && TailMatches(t) && t[..|id|] == id
  {
    var t := id + (":" + name);
    DigitRunOf(id, ":" + name);
    assert t[|id| + 1..] == name;
  }

  lemma DigitRunOf(d: string, rest: string)
    requires AllDigits(d) && |rest| > 0 && !IsDigit(rest[0])
    ensures DigitRun(d + rest) == |d|
    decreases |d|
  {
    if |d| > 0 {
      assert (d + rest)[1..] == d[1..] + rest;
      DigitRunOf(d[1..], rest);
    } else {
      assert d + rest == rest;
    }
  }

  /** No longer first group matches: the two colons of the marker cannot both fall after the uid. */
  lemma NoLaterMatch(uid: string, id: string, name: string, q: nat)
    requires AllDigits(id) && ':' !in name
    requires |uid| < q
    ensures !MatchAt(AttachmentName(uid, id, name), q)
  {
    var s := AttachmentName(uid, id, name);
    var u := |uid|;
    if q + 16 <= |s| {
      var w := s[q + 1..q + 16];
      assert Marker[0] == 'i' && Marker[3] == ':' && Marker[14] == ':';
      if s[q + 4] != ':' {
        assert w[3] != Marker[3];
      } else if s[q + 15] != ':' {
        assert w[14] != Marker[14];
      } else {
        // The colons of s after the uid sit at u + 4, u + 15 and u + 16 + |id|.
        ColonsAfterUid(uid, id, name, q + 4);
        ColonsAfterUid(uid, id, name, q + 15);
        assert q == u + 11;
        assert s[q + 1] == 'e' by {
          assert s == uid + ("." + Marker) + (id + ":" + name);
          assert s[u + 12] == ("." + Marker)[12] == Marker[11];
        }
        assert w[0] != Marker[0];
      }
    }
  }

  lemma ColonsAfterUid(uid: string, id: string, name: string, p: nat)
    requires AllDigits(id) && ':' !in name
    requires |uid| < p < |AttachmentName(uid, id, name)| && AttachmentName(uid, id, name)[p] == ':'
    ensures p == |uid| + 4 || p == |uid| + 15 || p == |uid| + 16 + |id|
  {
    var s := AttachmentName(uid, id, name);
    var u := |uid|;
    assert s == uid + ("." + Marker) + id + ":" + name;
    assert forall j :: u <= j < u + 16 ==> s[j] == ("." + Marker)[j - u];
    assert forall j :: u + 16 <= j < u + 16 + |id| ==> s[j] == id[j - u - 16];
    assert forall j :: u + 16 + |id| < j < |s| ==> s[j] == name[j - u - 17 - |id|];
  }
}
