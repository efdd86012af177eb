/**
 * The Location header both plugins send after a PUT whose resource name the
 * backend corrected to the object's UID: the request path with its last
 * segment replaced, each segment urlencoded, after the server's base URI.
 */
module WriteRedirect {
  import opened Options
  import opened Strings

  /** The header's value for request path `uri` and corrected name `basename`. */
  function Location(baseUri: string, uri: string, basename: string, urlencode: string -> string): string {
    baseUri + Join(MapSeq(urlencode, AllButLast(Split(uri, '/')) + [basename]), "/")
  }

  /**
   * afterWriteContent: with a truthy pending name, the Location header is
   * produced and the pending name consumed; otherwise nothing happens.
   * Returns the header and the pending name left behind.
   */
  function AfterWriteContent(pending: Option<string>, baseUri: string, uri: string, urlencode: string -> string)
    : (r: (Option<string>, Option<string>))
    ensures r.1.None? || r.1 == pending
    ensures r.0.Some? <==> pending.Some? && Truthy(pending.value)
    ensures r.0.Some? ==> r.1.None? && StartsWith(r.0.value, baseUri)
    ensures r.0.None? ==> r.1 == pending
  {
    if pending.Some? && Truthy(pending.value) then
      (Some(Location(baseUri, uri, pending.value, urlencode)), None)
    else (None, pending)
  }

  /**
   * The header decodes back to the request's parent path followed by the
   * corrected name, for any urlencode that escapes '/' and that urldecode
   * inverts.
   */
  lemma LocationDecodes(baseUri: string, uri: string, basename: string,
                        urlencode: string -> string, urldecode: string -> string)
    requires forall s :: '/' !in urlencode(s) && urldecode(urlencode(s)) == s
    ensures var loc := Location(baseUri, uri, basename, urlencode);
      StartsWith(loc, baseUri)
      && MapSeq(urldecode, Split(loc[|baseUri|..], '/')) == AllButLast(Split(uri, '/')) + [basename]
  {
    var segs := AllButLast(Split(uri, '/')) + [basename];
    var enc := MapSeq(urlencode, segs);
    var loc := Location(baseUri, uri, basename, urlencode);
    assert loc[|baseUri|..] == Join(enc, "/");
    SplitJoin(enc, '/');
    MapSeqInverse(urlencode, urldecode, segs);
  }

  /** The pending name is consumed: a second write in the same request sends no header. */
  lemma RedirectOnce(pending: Option<string>, baseUri: string, uri1: string, uri2: string, urlencode: string -> string)
    requires pending.Some? && Truthy(pending.value)
    ensures AfterWriteContent(AfterWriteContent(pending, baseUri, uri1, urlencode).1, baseUri, uri2, urlencode).0.None?
  {
  }
}
