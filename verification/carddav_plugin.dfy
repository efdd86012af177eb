/**
 * The CardDAV server plugin: the If-None-Match work-around for the SOGo
 * connector in Thunderbird, the Location header after a PUT whose card the
 * backend renamed, and the validation of PUT bodies with the cache of the
 * parsed card the backend may reuse.
 */
module CardDavPlugin {
  import opened Options
  import opened Strings
  import opened DavCommon
  import VCards
  import WriteRedirect
  import ContactCards
  import ContactsBackend
  import Records
  import CalendarBackend

  /**
   * The request-scoped state: the static parsed-card cache and redirect
   * name the backend reads, and the instance property `parsed_vcard` that
   * the validation writes as the code stands.
   */
  datatype PluginState = PluginState(
    parsedVcard: Option<VCards.Card>,
    instanceVcard: Option<VCards.Card>,
    redirect: Option<string>)

  // ---------------------------------------------------------------- beforeMethod

  /** The User-Agent fragment that identifies the SOGo connector in Thunderbird. */
  const ThunderbirdToken := "Thunderbird/"

  /** strpos(ua, token) > 0: the first occurrence is found after the start. */
  predicate FoundAfterStart(ua: string, token: string) {
    var i := IndexOf(ua, token);
    i.Some? && i.value > 0
  }

  /**
   * beforeMethod: the If-None-Match header left for the request. A PUT with
   * `If-None-Match: *` from a client whose User-Agent has "Thunderbird/"
   * after its first character loses the header.
   */
  function BeforeMethod(httpMethod: string, ifNoneMatch: Option<string>, ua: string): (r: Option<string>)
    ensures r.None? <==> (
      || ifNoneMatch.None?
      || (httpMethod == "PUT" && ifNoneMatch == Some("*")
          && exists i :: (0 < i <= |ua| && OccursAt(ua, ThunderbirdToken, i)
                          && forall j :: 0 <= j < i ==> !OccursAt(ua, ThunderbirdToken, j))))
    ensures r.Some? ==> r == ifNoneMatch
  {
    if httpMethod == "PUT" && ifNoneMatch == Some("*") && FoundAfterStart(ua, ThunderbirdToken) then None
    else ifNoneMatch
  }

  /**
   * strpos() returns 0 for an agent that starts with the token, and 0 is not
   * greater than 0: such a request keeps its header.
   */
  lemma AgentAtStartKeepsHeader(httpMethod: string, ifNoneMatch: Option<string>, ua: string)
    requires OccursAt(ua, ThunderbirdToken, 0)
    ensures BeforeMethod(httpMethod, ifNoneMatch, ua) == ifNoneMatch
  {
  }

  /** Only PUT requests are touched, and only the `*` form of the header. */
  lemma OtherRequestsUntouched(httpMethod: string, ifNoneMatch: Option<string>, ua: string)
    requires httpMethod != "PUT" || ifNoneMatch != Some("*")
    ensures BeforeMethod(httpMethod, ifNoneMatch, ua) == ifNoneMatch
  {
  }

  // ---------------------------------------------------------------- afterWriteContent

  /** afterWriteContent: the Location header for the renamed card, consuming the static redirect name. */
  function AfterWriteContent(st: PluginState, baseUri: string, uri: string, urlencode: string -> string)
    : (r: (PluginState, Option<string>))
    ensures r.1.Some? <==> st.redirect.Some? && Truthy(st.redirect.value)
    ensures r.1.Some? ==> r.1.value == WriteRedirect.Location(baseUri, uri, st.redirect.value, urlencode) && r.0.redirect.None?
    ensures r.1.None? ==> r.0 == st
    ensures r.0.parsedVcard == st.parsedVcard && r.0.instanceVcard == st.instanceVcard
  {
    var (header, left) := WriteRedirect.AfterWriteContent(st.redirect, baseUri, uri, urlencode);
    (st.(redirect := left), header)
  }

  /**
   * A PUT of a card whose body names another card: after the backend's
   * create, the Location header names the body's card in the request's
   * collection.
   */
  lemma CreateRedirectLocation(b: ContactsBackend.Backend, bookId: string, cardUri: string, data: string,
                               p: ContactCards.CardParser, io: Records.Io, msguid: nat,
                               sv: CalendarBackend.Services, st: PluginState, baseUri: string,
                               urlencode: string -> string, urldecode: string -> string)
    requires forall s :: '/' !in urlencode(s) && urldecode(urlencode(s)) == s
    requires var obj := ContactCards.ParseVcard(p, data, ContactCards.CardUid(cardUri));
      obj.Some? && obj.value.uid != ContactCards.CardUid(cardUri)
    requires ContactCards.CreateCard(b, bookId, cardUri, data, p, io, Some(msguid), sv).1.Ok?
    ensures var io' := ContactCards.CreateCard(b, bookId, cardUri, data, p, io, Some(msguid), sv).0;
      var ouid := ContactCards.ParseVcard(p, data, ContactCards.CardUid(cardUri)).value.uid;
      var r := AfterWriteContent(st.(redirect := io'.redirect), baseUri, cardUri, urlencode);
      r.1.Some? && r.0.redirect.None?
      && StartsWith(r.1.value, baseUri)
      && MapSeq(urldecode, Split(r.1.value[|baseUri|..], '/')) == AllButLast(Split(cardUri, '/')) + [ouid + ".vcf"]
  {
    var ouid := ContactCards.ParseVcard(p, data, ContactCards.CardUid(cardUri)).value.uid;
    ContactCards.RedirectNamesBodyUid(b, bookId, cardUri, data, p, io, msguid, sv);
    assert Truthy(ouid + ".vcf") by {
      assert |ouid + ".vcf"| > 1;
    }
    WriteRedirect.LocationDecodes(baseUri, cardUri, ouid + ".vcf", urlencode, urldecode);
  }

  // ---------------------------------------------------------------- validateVCard

  /** isset($vobj->UID) */
  predicate HasUid(card: VCards.Card) {
    VCards.FirstSelected(card.props, None, "UID").Some?
  }

  /** The verdict on a PUT body: accepted, or the exception thrown. */
  function Verdict(vobj: Option<VCards.Card>): (r: Result<()>)
    ensures r == Err(UnsupportedMedia) <==> vobj.None? || vobj.value.name != "VCARD"
    ensures r == Err(BadRequest) <==> vobj.Some? && vobj.value.name == "VCARD" && !HasUid(vobj.value)
    ensures r.Ok? <==> vobj.Some? && vobj.value.name == "VCARD" && HasUid(vobj.value)
  {
    match vobj
    case None => Err(UnsupportedMedia)
    case Some(c) =>
      if c.name != "VCARD" then Err(UnsupportedMedia)
      else if !HasUid(c) then Err(BadRequest)
      else Ok(())
  }

  /**
   * validateVCard as written: the parsed card goes to the instance property,
   * so the static cache the backend consults is left as it was.
   */
  function ValidateVCardAsWritten(st: PluginState, data: string, read: string -> Option<VCards.Card>)
    : (r: (PluginState, Result<()>))
    ensures r.1 == Verdict(read(data))
    ensures r.0.parsedVcard == st.parsedVcard && r.0.redirect == st.redirect
    ensures read(data).Some? && read(data).value.name == "VCARD" ==> r.0.instanceVcard == read(data)
  {
    var vobj := read(data);
    var st' := if vobj.Some? && vobj.value.name == "VCARD" then st.(instanceVcard := vobj) else st;
    (st', Verdict(vobj))
  }

  /**
   * validateVCard as intended: a VCARD body is kept in the static cache,
   * before the UID check, for the backend to reuse.
   */
  function ValidateVCard(st: PluginState, data: string, read: string -> Option<VCards.Card>)
    : (r: (PluginState, Result<()>))
    ensures r.1 == Verdict(read(data))
    ensures r.0.redirect == st.redirect && r.0.instanceVcard == st.instanceVcard
    ensures read(data).Some? && read(data).value.name == "VCARD" ==> r.0.parsedVcard == read(data)
    ensures !(read(data).Some? && read(data).value.name == "VCARD") ==> r.0.parsedVcard == st.parsedVcard
  {
    var vobj := read(data);
    var st' := if vobj.Some? && vobj.value.name == "VCARD" then st.(parsedVcard := vobj) else st;
    (st', Verdict(vobj))
  }

  /** The backend's parser over the request's plugin state. */
  function BackendParser(st: PluginState, read: string -> Option<VCards.Card>, codec: VCards.Codec,
                         fields: ContactCards.Fields): ContactCards.CardParser {
    ContactCards.CardParser(st.parsedVcard, read, codec, fields)
  }

  /**
   * As written, a request that starts with an empty static cache never lets
   * the backend reuse the validated card, whatever the URI's uid: the body
   * is always read a second time.
   */
  lemma CacheNeverFilledAsWritten(st: PluginState, data: string, read: string -> Option<VCards.Card>,
                                  codec: VCards.Codec, fields: ContactCards.Fields, uid: string)
    requires st.parsedVcard.None?
    ensures var st' := ValidateVCardAsWritten(st, data, read).0;
      !ContactCards.UsesCache(BackendParser(st', read, codec, fields), uid)
  {
  }

  /**
   * The body is read twice in the request above even when it is a valid
   * card whose UID is the URI's: a concrete card that shows it.
   */
  lemma ValidCardReadTwiceAsWritten(read: string -> Option<VCards.Card>, codec: VCards.Codec, fields: ContactCards.Fields)
    requires read("body") == Some(VCards.Card("VCARD", "3.0", [VCards.Prop("", "UID", [], "u1")]))
    ensures var st := ValidateVCardAsWritten(PluginState(None, None, None), "body", read);
      st.1.Ok? && !ContactCards.UsesCache(BackendParser(st.0, read, codec, fields), "u1")
  {
    var c := VCards.Card("VCARD", "3.0", [VCards.Prop("", "UID", [], "u1")]);
    assert VCards.FirstSelected(c.props, None, "UID") == Some(c.props[0]);
  }

  /**
   * With the cache filled, the backend reuses the validated card exactly for
   * the URI uid that is the card's UID, and its parse is the same as parsing
   * the body afresh, for every uid.
   */
  lemma ValidatedCardReused(st: PluginState, data: string, read: string -> Option<VCards.Card>,
                            codec: VCards.Codec, fields: ContactCards.Fields, uid: string)
    requires ValidateVCard(st, data, read).1.Ok?
    ensures var p := BackendParser(ValidateVCard(st, data, read).0, read, codec, fields);
      && (ContactCards.UsesCache(p, uid) <==> VCards.FirstValue(read(data).value.props, "UID") == uid)
      && ContactCards.ParseVcard(p, data, uid) == ContactCards.ParseVcard(p.(cache := None), data, uid)
  {
  }
}
