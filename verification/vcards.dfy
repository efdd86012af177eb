/**
 * The contacts backend's translation between vCards (RFC 6350 and its 3.0
 * predecessor) and Kolab contact records: groups and their members, the
 * EMAIL and TEL type tables, the Apple anniversary field and the custom
 * X- properties kept verbatim. The fields the translation copies one to one
 * (names, organisation, addresses, notes, dates, photo, IM) are not part of
 * this model.
 *
 * Property and group names are kept upper-cased, as the vCard library stores
 * them; TYPE parameter values are the list the reader presents, so a
 * comma-joined value written in one parameter reads back as one value.
 */
module VCards {
  import opened Options
  import opened Strings

  /** One vCard property: its group ("" for none), name, TYPE values and value. */
  datatype Prop = Prop(group: string, name: string, types: seq<string>, value: string)

  /** A parsed component: its name ("VCARD" for a vCard), the VERSION and the properties in order. */
  datatype Card = Card(name: string, version: string, props: seq<Prop>)

  /** A group member: by contact uid, or by e-mail address and display name ("" for absent). */
  datatype Member = Member(uid: string, email: string, name: string)

  datatype Email = Email(address: string, etype: string)

  datatype Phone = Phone(number: string, ptype: string)

  /** The contact record fields this model covers. */
  datatype Contact = Contact(
    ctype: string,                  // _type: "contact" or "distribution-list"
    uid: string,
    name: string,                   // the formatted name
    members: seq<Member>,
    emails: seq<Email>,
    phones: seq<Phone>,
    anniversary: Option<string>,    // the anniversary date as the record holds it
    xcustom: seq<(string, string)>) // (property key with optional "group." prefix, value)

  /**
   * The library functions the mapping relies on: the URL codec, the
   * address-list parser, the DATE value written for a stored date (None when
   * strtotime and DateTime cannot make a date of it) and the date DateTime
   * makes of a DATE value (None when its constructor throws).
   */
  datatype Codec = Codec(
    urlencode: string -> string,
    urldecode: string -> string,
    parseAddress: string -> Option<(string, string)>,  // first (address, name) of an address list
    dateValue: string -> Option<string>,
    parseDate: string -> Option<string>)

  // ---------------------------------------------------------------- array_filter

  /** Whether array_filter keeps `val`: listed (case-insensitively) or, inverted, not listed. */
  predicate Kept(val: string, values: seq<string>, inverse: bool) {
    inverse != (ToLower(val) in values)
  }

  /** array_filter(arr, values, inverse): the values kept, in their order. */
  function ArrayFilter(arr: seq<string>, values: seq<string>, inverse: bool): (r: seq<string>)
    ensures forall x :: x in r <==> x in arr && Kept(x, values, inverse)
    ensures |r| <= |arr|
    ensures |r| == 0 ==> forall i :: 0 <= i < |arr| ==> !Kept(arr[i], values, inverse)
  {
    if |arr| == 0 then []
    else
      var rest := ArrayFilter(arr[1..], values, inverse);
      assert forall i :: 1 <= i < |arr| ==> arr[i] == arr[1..][i - 1];
      if Kept(arr[0], values, inverse) then [arr[0]] + rest else rest
  }

  /** The first value kept is the first value of the array that is kept. */
  lemma {:induction false} ArrayFilterFirst(arr: seq<string>, values: seq<string>, inverse: bool)
    requires |ArrayFilter(arr, values, inverse)| > 0
    ensures exists i :: 0 <= i < |arr| && arr[i] == ArrayFilter(arr, values, inverse)[0] && Kept(arr[i], values, inverse)
                        && (forall j :: 0 <= j < i ==> !Kept(arr[j], values, inverse))
    decreases |arr|
  {
    var r := ArrayFilter(arr, values, inverse);
    if Kept(arr[0], values, inverse) {
      assert arr[0] == r[0];
    } else {
      ArrayFilterFirst(arr[1..], values, inverse);
      var i :| 0 <= i < |arr[1..]| && arr[1..][i] == r[0] && Kept(arr[1..][i], values, inverse)
               && (forall j :: 0 <= j < i ==> !Kept(arr[1..][j], values, inverse));
      assert arr[i + 1] == r[0];
      assert forall j :: 1 <= j < i + 1 ==> arr[j] == arr[1..][j - 1];
    }
  }

  /** The TYPE values every mapping ignores. */
  const IgnoredTypes: seq<string> := ["internet", "pref"]

  // ---------------------------------------------------------------- type tables

  /** The phone type table, in declaration order: Kolab type to vCard TEL type. */
  const PhoneTable: seq<(string, string)> :=
    [("main", "voice"), ("homefax", "fax"), ("workfax", "fax"), ("mobile", "cell"), ("other", "textphone")]

  /** A table as a hash array: for a repeated key, the later entry wins. */
  function TableMap(t: seq<(string, string)>): map<string, string> {
    if |t| == 0 then map[]
    else TableMap(t[..|t| - 1])[t[|t| - 1].0 := t[|t| - 1].1]
  }

  /** array_flip of a table: values become keys, and for a repeated value the later entry wins. */
  function Flip(t: seq<(string, string)>): map<string, string> {
    if |t| == 0 then map[]
    else Flip(t[..|t| - 1])[t[|t| - 1].1 := t[|t| - 1].0]
  }

  /** $map[$k] ?: $k */
  function LookupOr(m: map<string, string>, k: string): string {
    if k in m && Truthy(m[k]) then m[k] else k
  }

  /** The TYPE written for a Kolab phone type: its table entry, or the type itself, upper-cased. */
  function EncodeTelType(t: string): string {
    ToUpper(LookupOr(TableMap(PhoneTable), t))
  }

  /** The Kolab phone type read from TYPE values: the first kept one, lower-cased, through the flipped table. */
  function DecodeTelType(types: seq<string>): string {
    var kept := ArrayFilter(types, IgnoredTypes, true);
    LookupOr(Flip(PhoneTable), ToLower(if |kept| > 0 then kept[0] else ""))
  }

  /** The TYPE written for an e-mail type: "INTERNET," and the upper-cased type, without a trailing comma. */
  function EncodeEmailType(t: string): string {
    TrimRight("INTERNET," + ToUpper(t), {','})
  }

  /** The e-mail type read from TYPE values: the first kept one, or "other", lower-cased. */
  function DecodeEmailType(types: seq<string>): string {
    var kept := ArrayFilter(types, IgnoredTypes, true);
    ToLower(if |kept| > 0 && Truthy(kept[0]) then kept[0] else "other")
  }

  /** The phone table and its inverse written out: "fax" flips to "workfax", the later of its two keys. */
  lemma PhoneTables()
    ensures TableMap(PhoneTable) == map["main" := "voice", "homefax" := "fax", "workfax" := "fax", "mobile" := "cell", "other" := "textphone"]
    ensures Flip(PhoneTable) == map["voice" := "main", "fax" := "workfax", "cell" := "mobile", "textphone" := "other"]
  {
    var t1: seq<(string, string)> := [("main", "voice")];
    var t2 := t1 + [("homefax", "fax")];
    var t3 := t2 + [("workfax", "fax")];
    var t4 := t3 + [("mobile", "cell")];
    var t5 := t4 + [("other", "textphone")];
    assert t1[..0] == [] && t2[..1] == t1 && t3[..2] == t2 && t4[..3] == t3 && t5[..4] == t4;
    assert PhoneTable == t5;
    assert TableMap(t1) == map["main" := "voice"];
    assert TableMap(t2) == map["main" := "voice", "homefax" := "fax"];
    assert TableMap(t3) == map["main" := "voice", "homefax" := "fax", "workfax" := "fax"];
    assert TableMap(t4) == map["main" := "voice", "homefax" := "fax", "workfax" := "fax", "mobile" := "cell"];
    assert Flip(t1) == map["voice" := "main"];
    assert Flip(t2) == map["voice" := "main", "fax" := "homefax"];
    assert Flip(t3) == map["voice" := "main", "fax" := "workfax"];
    assert Flip(t4) == map["voice" := "main", "fax" := "workfax", "cell" := "mobile"];
  }

  /** The table's words are lower case and read back unchanged from their upper-cased form. */
  lemma TableWordsLower(w: string)
    requires w in {"main", "workfax", "mobile", "other", "voice", "fax", "cell", "textphone"}
    ensures ToLower(ToUpper(w)) == w && ToLower(w) == w
  {
    assert IsLower(w) by {
      forall i | 0 <= i < |w| ensures !('A' <= w[i] <= 'Z') {
        assert w[i] in "abcdefghijklmnopqrstuvwxyz";
      }
    }
    LowerOfUpper(w);
    LowerOfLowerString(w);
  }

  /** A single TYPE value that is not ignored is the one the phone type is read from. */
  lemma DecodeSingleTel(x: string)
    requires ToLower(x) !in IgnoredTypes
    ensures DecodeTelType([x]) == LookupOr(Flip(PhoneTable), ToLower(x))
  {
    assert ArrayFilter([x], IgnoredTypes, true) == [x];
  }

  /** Phone types that survive the trip through a TEL property unchanged. */
  predicate TelTypeRoundTrips(t: string) {
    IsLower(t) && t != "homefax" && t !in Flip(PhoneTable) && t !in IgnoredTypes
  }

  /**
   * A phone type written by the backend reads back as itself, except that
   * "homefax" shares the TEL type FAX with "workfax" and comes back as
   * "workfax".
   */
  lemma TelTypeRoundTrip(t: string)
    requires TelTypeRoundTrips(t)
    ensures DecodeTelType([EncodeTelType(t)]) == t
  {
    var m := LookupOr(TableMap(PhoneTable), t);
    EncodedTelLower(t);
    TableInverse(t);
    DecodeSingleTel(EncodeTelType(t));
  }

  /** Lower-casing the TYPE written for a phone type gives back its table entry. */
  lemma EncodedTelLower(t: string)
    requires TelTypeRoundTrips(t)
    ensures ToLower(EncodeTelType(t)) == LookupOr(TableMap(PhoneTable), t)
  {
    PhoneTables();
    var m := LookupOr(TableMap(PhoneTable), t);
    if t in TableMap(PhoneTable) {
      TableWordsLower(m);
    } else {
      LowerOfUpper(t);
      LowerOfLowerString(t);
    }
  }

  /** The flipped table undoes the table on every round-tripping type, and no entry is an ignored type. */
  lemma TableInverse(t: string)
    requires TelTypeRoundTrips(t)
    ensures LookupOr(Flip(PhoneTable), LookupOr(TableMap(PhoneTable), t)) == t
    ensures LookupOr(TableMap(PhoneTable), t) !in IgnoredTypes
  {
    PhoneTables();
  }

  /** Home and work fax numbers both come back as work fax numbers. */
  lemma HomefaxBecomesWorkfax()
    ensures EncodeTelType("homefax") == EncodeTelType("workfax")
    ensures DecodeTelType([EncodeTelType("homefax")]) == "workfax"
  {
    PhoneTables();
    TableWordsLower("fax");
    DecodeSingleTel(EncodeTelType("homefax"));
  }

  /**
   * An e-mail type sent as separate TYPE values ("INTERNET", then the type)
   * reads as the type; with only ignored values, or none, it reads as "other".
   */
  lemma EmailTypeFromParameters(t: string)
    requires IsLower(t) && Truthy(t) && t !in IgnoredTypes
    ensures DecodeEmailType(["INTERNET", ToUpper(t)]) == t
    ensures DecodeEmailType(["INTERNET", "PREF"]) == "other"
    ensures DecodeEmailType([]) == "other"
  {
    LowerOfUpper(t);
    LowerOfLowerString(t);
    assert ToLower("INTERNET") == "internet";
    assert ToLower("PREF") == "pref";
    assert ToLower(ToUpper(t)) == t;
    assert ToLower("0") == "0";
    assert ArrayFilter(["INTERNET", ToUpper(t)], IgnoredTypes, true) == [ToUpper(t)];
    assert ArrayFilter(["INTERNET", "PREF"], IgnoredTypes, true) == [];
    assert ToLower("other") == "other";
  }

  /** An e-mail address without a type is written as TYPE=INTERNET and reads back with the type "other". */
  lemma UntypedEmailReadsOther()
    ensures EncodeEmailType("") == "INTERNET"
    ensures DecodeEmailType([EncodeEmailType("")]) == "other"
  {
    assert ToUpper("") == "";
    assert "INTERNET," + "" == "INTERNET,";
    assert TrimRight("INTERNET,", {','}) == TrimRight("INTERNET", {','});
    assert ToLower("INTERNET") == "internet";
    assert ArrayFilter(["INTERNET"], IgnoredTypes, true) == [];
    assert ToLower("other") == "other";
  }

  // ---------------------------------------------------------------- group members

  /** addcslashes(s, '"'): a backslash before every double quote. */
  function EscapeQuotes(s: string): string {
    if |s| == 0 then ""
    else (if s[0] == '"' then "\\\"" else [s[0]]) + EscapeQuotes(s[1..])
  }

  /** The address list entry of a named member: "name" <email>. */
  function FormatAddress(name: string, email: string): string {
    "\"" + EscapeQuotes(name) + "\" <" + email + ">"
  }

  /** The address a member is written with: named, or the bare e-mail address. */
  function MemberAddress(m: Member): string {
    if Truthy(m.name) then FormatAddress(m.name, m.email) else m.email
  }

  /**
   * The MEMBER value written for a member: "urn:uuid:" and the uid, or the
   * whole "mailto:" URI urlencoded. A member with neither uid nor e-mail
   * repeats the value written before it.
   */
  function MemberValueAsWritten(m: Member, prev: string, urlencode: string -> string): string {
    if Truthy(m.uid) then "urn:uuid:" + m.uid
    else if Truthy(m.email) then urlencode("mailto:" + MemberAddress(m))
    else prev
  }

  /**
   * The MEMBER value as the reading side expects it, the corrected encoding:
   * a "mailto:" URI whose address part alone is urlencoded.
   */
  function MemberValue(m: Member, prev: string, urlencode: string -> string): (v: string)
    ensures Truthy(m.uid) ==> v == "urn:uuid:" + m.uid
    ensures !Truthy(m.uid) && Truthy(m.email) ==> StartsWith(v, "mailto:")
    ensures !Truthy(m.uid) && !Truthy(m.email) ==> v == prev
  {
    if Truthy(m.uid) then "urn:uuid:" + m.uid
    else if Truthy(m.email) then "mailto:" + urlencode(MemberAddress(m))
    else prev
  }

  /** The MEMBER properties of a group, under the name prefix of the client's dialect. */
  function MemberProps(ms: seq<Member>, prev: string, prefix: string, urlencode: string -> string): (r: seq<Prop>)
    ensures |r| == |ms| && forall p :: p in r ==> p.group == "" && p.name == prefix + "MEMBER" && p.types == []
    ensures forall i :: 0 <= i < |ms| && Truthy(ms[i].uid) ==> r[i].value == "urn:uuid:" + ms[i].uid
    ensures forall i :: 0 <= i < |ms| && !Truthy(ms[i].uid) && Truthy(ms[i].email) ==>
      r[i].value == urlencode("mailto:" + MemberAddress(ms[i]))
    ensures forall i :: 0 <= i < |ms| && !Truthy(ms[i].uid) && !Truthy(ms[i].email) ==>
      r[i].value == (if i == 0 then prev else r[i - 1].value)
  {
    if |ms| == 0 then []
    else
      var v := MemberValueAsWritten(ms[0], prev, urlencode);
      var rest := MemberProps(ms[1..], v, prefix, urlencode);
      var r := [Prop("", prefix + "MEMBER", [], v)] + rest;
      assert forall i :: 0 < i < |ms| ==> ms[i] == ms[1..][i - 1] && r[i] == rest[i - 1];
      r
  }

  /** The member a MEMBER value names: a "urn:uuid:" uid, or the first address of a "mailto:" list. */
  function DecodeMember(v: string, c: Codec): (r: Option<Member>)
    ensures StartsWith(v, "urn:uuid:") ==> r == Some(Member(v[9..], "", ""))
    ensures !StartsWith(v, "urn:uuid:") && !StartsWith(v, "mailto:") ==> r.None?
    ensures r.Some? && !StartsWith(v, "urn:uuid:") ==> r.value.uid == "" && Truthy(r.value.email)
  {
    if StartsWith(v, "urn:uuid:") then Some(Member(v[9..], "", ""))
    else if StartsWith(v, "mailto:") then
      match c.parseAddress(c.urldecode(v[7..]))
      case Some((addr, name)) => if Truthy(addr) then Some(Member("", addr, name)) else None
      case None => None
    else None
  }

  /** A member that the corrected encoding gives back: by uid alone, or by an address the codec and parser give back. */
  predicate MemberRoundTrips(m: Member, c: Codec) {
    || (Truthy(m.uid) && m.email == "" && m.name == "")
    || (m.uid == "" && Truthy(m.email)
        && c.urldecode(c.urlencode(MemberAddress(m))) == MemberAddress(m)
        && c.parseAddress(MemberAddress(m)) == Some((m.email, m.name)))
  }

  /** Under the corrected encoding a member's value reads back as the member. */
  lemma MemberValueDecodes(m: Member, prev: string, c: Codec)
    requires MemberRoundTrips(m, c)
    ensures DecodeMember(MemberValue(m, prev, c.urlencode), c) == Some(m)
  {
    var v := MemberValue(m, prev, c.urlencode);
    if Truthy(m.uid) {
      assert v[9..] == m.uid;
    } else {
      assert v[7..] == c.urlencode(MemberAddress(m));
      assert !StartsWith(v, "urn:uuid:") by { assert v[0] == 'm'; }
    }
  }

  /** A member as a written group names it: by uid alone, or by an e-mail address without a uid. */
  predicate MemberWritable(m: Member) {
    (Truthy(m.uid) && m.email == "" && m.name == "") || (!Truthy(m.uid) && Truthy(m.email))
  }

  /**
   * The value written for a member reads back as the member when it has a
   * uid, and as nothing when it has only an e-mail address: urlencode
   * escapes the colon of "mailto:".
   */
  lemma MemberValueAsWrittenDecodes(m: Member, prev: string, c: Codec)
    requires MemberWritable(m)
    requires forall s :: ':' !in c.urlencode(s)
    ensures Truthy(m.uid) ==> DecodeMember(MemberValueAsWritten(m, prev, c.urlencode), c) == Some(m)
    ensures !Truthy(m.uid) ==> DecodeMember(MemberValueAsWritten(m, prev, c.urlencode), c).None?
  {
    var v := MemberValueAsWritten(m, prev, c.urlencode);
    if Truthy(m.uid) {
      assert v[9..] == m.uid;
    } else {
      assert ':' !in v;
      if |v| >= 9 { assert v[..9][3] == v[3]; }
      if |v| >= 7 { assert v[..7][6] == v[6]; }
    }
  }

  /** The members with a uid, in order: those a written group reads back with. */
  function UidMembers(ms: seq<Member>): seq<Member> {
    if |ms| == 0 then [] else (if Truthy(ms[0].uid) then [ms[0]] else []) + UidMembers(ms[1..])
  }

  /** UidMembers keeps exactly the members with a uid. */
  lemma {:induction false} UidMembersKeep(ms: seq<Member>)
    ensures forall m :: m in UidMembers(ms) <==> m in ms && Truthy(m.uid)
    decreases |ms|
  {
    if |ms| > 0 {
      UidMembersKeep(ms[1..]);
      assert forall m :: m in ms <==> m == ms[0] || m in ms[1..] by {
        assert ms == [ms[0]] + ms[1..];
      }
    }
  }

  lemma SeqAssoc<T>(a: seq<T>, b: seq<T>, e: seq<T>)
    ensures a + b + e == a + (b + e)
  {
  }

  // ---------------------------------------------------------------- reading a card

  /** The names the reading switch handles itself; other "X-" and "CUSTOM" names become custom properties. */
  const HandledNames: set<string> := {
    "N", "NOTE", "TITLE", "NICKNAME", "ORG", "CATEGORY", "CATEGORIES", "EMAIL", "URL", "TEL", "ADR",
    "BDAY", "ANNIVERSARY", "X-ANNIVERSARY", "SEX", "X-GENDER", "X-PROFESSION", "X-SPOUSE",
    "X-MANAGER", "X-ASSISTANT", "X-CHILDREN", "X-JABBER", "X-ICQ", "X-MSN", "X-AIM", "X-YAHOO",
    "X-SKYPE", "IMPP", "PHOTO", "KIND", "X-ADDRESSBOOKSERVER-KIND", "MEMBER", "X-ADDRESSBOOKSERVER-MEMBER"}

  /** A property read into the contact's custom list. */
  predicate IsCustomName(n: string) {
    n !in HandledNames && (StartsWith(n, "X-") || StartsWith(n, "CUSTOM"))
  }

  /** The key a custom property is kept under: "group." before the name when the group is truthy. */
  function CustomKey(p: Prop): string {
    (if Truthy(p.group) then p.group + "." else "") + p.name
  }

  /** The contact after reading one property. */
  function ReadProp(d: Contact, p: Prop, c: Codec): (r: Contact)
    ensures r.uid == d.uid && r.name == d.name
  {
    if p.name == "EMAIL" then d.(emails := d.emails + [Email(p.value, DecodeEmailType(p.types))])
    else if p.name == "TEL" then d.(phones := d.phones + [Phone(p.value, DecodeTelType(p.types))])
    else if p.name == "ANNIVERSARY" || p.name == "X-ANNIVERSARY" then
      (match c.parseDate(p.value) case Some(date) => d.(anniversary := Some(date)) case None => d)
    else if p.name == "KIND" || p.name == "X-ADDRESSBOOKSERVER-KIND" then
      (if ToLower(p.value) == "group" then d.(ctype := "distribution-list") else d)
    else if p.name == "MEMBER" || p.name == "X-ADDRESSBOOKSERVER-MEMBER" then
      (match DecodeMember(p.value, c)
       case Some(m) => d.(members := d.members + [m])
       case None => d)
    else if IsCustomName(p.name) then d.(xcustom := d.xcustom + [(CustomKey(p), p.value)])
    else d
  }

  /** The contact after reading the properties in order. */
  function ReadProps(d: Contact, ps: seq<Prop>, c: Codec): (r: Contact)
    ensures r.uid == d.uid && r.name == d.name
    decreases |ps|
  {
    if |ps| == 0 then d else ReadProps(ReadProp(d, ps[0], c), ps[1..], c)
  }

  lemma {:induction false} ReadPropsAppend(d: Contact, a: seq<Prop>, b: seq<Prop>, c: Codec)
    ensures ReadProps(d, a + b, c) == ReadProps(ReadProps(d, a, c), b, c)
    decreases |a|
  {
    if |a| == 0 {
      assert a + b == b;
    } else {
      assert (a + b)[0] == a[0];
      assert (a + b)[1..] == a[1..] + b;
      ReadPropsAppend(ReadProp(d, a[0], c), a[1..], b, c);
    }
  }

  /** A property selected by name, and by group when one is given (Component::select). */
  predicate Selects(p: Prop, group: Option<string>, name: string) {
    p.name == name && (group.None? || p.group == group.value)
  }

  /** The first selected property. */
  function FirstSelected(ps: seq<Prop>, group: Option<string>, name: string): (r: Option<Prop>)
    ensures r.Some? ==> r.value in ps && Selects(r.value, group, name)
    ensures r.None? <==> forall i :: 0 <= i < |ps| ==> !Selects(ps[i], group, name)
  {
    if |ps| == 0 then None
    else if Selects(ps[0], group, name) then Some(ps[0])
    else
      var r := FirstSelected(ps[1..], group, name);
      assert forall i :: 1 <= i < |ps| ==> ps[i] == ps[1..][i - 1];
      r
  }

  /** The properties without the selected ones (unset on a component). */
  function RemoveSelected(ps: seq<Prop>, group: Option<string>, name: string): (r: seq<Prop>)
    ensures forall p :: p in r <==> p in ps && !Selects(p, group, name)
  {
    if |ps| == 0 then []
    else if Selects(ps[0], group, name) then RemoveSelected(ps[1..], group, name)
    else [ps[0]] + RemoveSelected(ps[1..], group, name)
  }

  lemma {:induction false} RemoveSelectedAppend(a: seq<Prop>, b: seq<Prop>, group: Option<string>, name: string)
    ensures RemoveSelected(a + b, group, name) == RemoveSelected(a, group, name) + RemoveSelected(b, group, name)
    decreases |a|
  {
    if |a| == 0 {
      assert a + b == b;
    } else {
      assert (a + b)[0] == a[0];
      assert (a + b)[1..] == a[1..] + b;
      RemoveSelectedAppend(a[1..], b, group, name);
    }
  }

  lemma {:induction false} RemoveSelectedNone(ps: seq<Prop>, group: Option<string>, name: string)
    requires forall i :: 0 <= i < |ps| ==> !Selects(ps[i], group, name)
    ensures RemoveSelected(ps, group, name) == ps
    decreases |ps|
  {
    if |ps| > 0 {
      assert forall i :: 1 <= i < |ps| ==> ps[1..][i - 1] == ps[i];
      RemoveSelectedNone(ps[1..], group, name);
      assert [ps[0]] + ps[1..] == ps;
    }
  }

  /** The characters trimmed off an Apple label. */
  const LabelChars: set<char> := {'_', '$', '!', '<', '>'}

  /** The label Apple's address book gives an anniversary date. */
  const AnniversaryLabel: string := "_$!<Anniversary>!$_"

  /** The group the label of a date property is looked up in: its own, when truthy. */
  function LabelGroup(p: Prop): Option<string> {
    if Truthy(p.group) then Some(p.group) else None
  }

  /** The first label of the group reads "anniversary" once trimmed and lower-cased. */
  predicate AnniversaryLabelled(ps: seq<Prop>, group: Option<string>) {
    var l := FirstSelected(ps, group, "X-ABLABEL");
    l.Some? && ToLower(Trim(l.value.value, LabelChars)) == "anniversary"
  }

  /**
   * The Apple anniversary pass from property i on: the first X-ABDATE
   * property labelled as an anniversary becomes a plain ANNIVERSARY and its
   * labels are removed; the pass stops there.
   */
  function AppleAnniversaryFrom(ps: seq<Prop>, i: nat): (r: seq<Prop>)
    decreases |ps| - i
  {
    if i >= |ps| then ps
    else if Selects(ps[i], None, "X-ABDATE") && AnniversaryLabelled(ps, LabelGroup(ps[i])) then
      RemoveSelected(ps[i := Prop("", "ANNIVERSARY", ps[i].types, ps[i].value)], LabelGroup(ps[i]), "X-ABLABEL")
    else AppleAnniversaryFrom(ps, i + 1)
  }

  lemma {:induction false} AppleAnniversarySkips(ps: seq<Prop>, i: nat, k: nat)
    requires i <= k <= |ps|
    requires forall j :: i <= j < k ==> ps[j].name != "X-ABDATE"
    ensures AppleAnniversaryFrom(ps, i) == AppleAnniversaryFrom(ps, k)
    decreases k - i
  {
    if i < k {
      AppleAnniversaryStep(ps, i);
      AppleAnniversarySkips(ps, i + 1, k);
    }
  }

  /** Properties without any X-ABDATE are left as they are. */
  lemma AppleAnniversaryNoDate(ps: seq<Prop>)
    requires forall j :: 0 <= j < |ps| ==> ps[j].name != "X-ABDATE"
    ensures AppleAnniversaryFrom(ps, 0) == ps
  {
    AppleAnniversarySkips(ps, 0, |ps|);
  }

  /** A property other than X-ABDATE is passed over. */
  lemma AppleAnniversaryStep(ps: seq<Prop>, i: nat)
    requires i < |ps| && ps[i].name != "X-ABDATE"
    ensures AppleAnniversaryFrom(ps, i) == AppleAnniversaryFrom(ps, i + 1)
  {
  }

  /** The first value of a property ("" when there is none): $vcard->NAME as a string. */
  function FirstValue(ps: seq<Prop>, name: string): string {
    match FirstSelected(ps, None, name)
    case Some(p) => p.value
    case None => ""
  }

  /** The contact a card reads as before any property is mapped. */
  function Initial(uid: string, name: string): Contact {
    Contact("contact", uid, name, [], [], [], None, [])
  }

  /** The properties read into a DateTime: birthday and anniversary. */
  predicate DateName(n: string) {
    n == "BDAY" || n == "ANNIVERSARY" || n == "X-ANNIVERSARY"
  }

  /** A date property whose value DateTime accepts, or a property of another name. */
  predicate DateParses(p: Prop, c: Codec) {
    DateName(p.name) ==> c.parseDate(p.value).Some?
  }

  /** Every date property of the list has a value DateTime accepts. */
  predicate DatesParse(ps: seq<Prop>, c: Codec) {
    forall p | p in ps :: DateParses(p, c)
  }

  /**
   * _to_array: the contact fields read from a vCard, after the Apple
   * anniversary pass. A date DateTime cannot parse throws out of the reading
   * loop (None).
   */
  function ToArray(card: Card, c: Codec): (r: Option<Contact>)
    ensures r.None? <==> exists p :: p in AppleAnniversaryFrom(card.props, 0) && !DateParses(p, c)
    ensures r.Some? ==> r.value.uid == FirstValue(card.props, "UID") && r.value.name == FirstValue(card.props, "FN")
  {
    var ps := AppleAnniversaryFrom(card.props, 0);
    if DatesParse(ps, c) then Some(ReadProps(Initial(FirstValue(card.props, "UID"), FirstValue(card.props, "FN")), ps, c))
    else None
  }

  // ---------------------------------------------------------------- writing a card

  function EmailProps(es: seq<Email>): (r: seq<Prop>)
    ensures |r| == |es| && forall p :: p in r ==> p.group == "" && p.name == "EMAIL"
  {
    if |es| == 0 then []
    else [Prop("", "EMAIL", [EncodeEmailType(es[0].etype)], es[0].address)] + EmailProps(es[1..])
  }

  function TelProps(ps: seq<Phone>): (r: seq<Prop>)
    ensures |r| == |ps| && forall p :: p in r ==> p.group == "" && p.name == "TEL"
  {
    if |ps| == 0 then []
    else [Prop("", "TEL", [EncodeTelType(ps[0].ptype)], ps[0].number)] + TelProps(ps[1..])
  }

  /** A property added by key: the key upper-cased, a group before its first dot. */
  function PropByKey(key: string, value: string): Prop {
    var parts := Split(ToUpper(key), '.');
    if |parts| >= 2 then Prop(parts[0], parts[1], [], value) else Prop("", parts[0], [], value)
  }

  function CustomProps(xs: seq<(string, string)>): (r: seq<Prop>)
    ensures |r| == |xs|
  {
    if |xs| == 0 then []
    else [PropByKey(xs[0].0, xs[0].1)] + CustomProps(xs[1..])
  }

  /**
   * _to_vcard: the card for a contact. Groups are vCard 4.0 KIND/MEMBER
   * cards, or for Apple clients 3.0 cards with X-ADDRESSBOOKSERVER- names;
   * for Apple clients the anniversary moves to a labelled X-ABDATE.
   */
  function ToVcard(ct: Contact, apple: bool, c: Codec): (card: Card)
    ensures card.name == "VCARD"
    ensures card.version == (if ct.ctype == "distribution-list" && !apple then "4.0" else "3.0")
  {
    var dl := ct.ctype == "distribution-list";
    var prefix := if apple then "X-ADDRESSBOOKSERVER-" else "";
    var all := Body(ct, prefix, c.urlencode) + AnniversaryProps(ct, c) + CustomProps(ct.xcustom);
    var date := AnniversaryDate(ct, c);
    var props := if apple && date.Some? then RemoveSelected(all + AppleDate(date.value), None, "ANNIVERSARY") else all;
    Card("VCARD", if dl && !apple then "4.0" else "3.0", props)
  }

  /**
   * An anniversary that converts to a date is written as ANNIVERSARY, except
   * for Apple clients, whose card carries no ANNIVERSARY but the labelled
   * X-ABDATE instead.
   */
  lemma WrittenAnniversaryForm(ct: Contact, apple: bool, c: Codec)
    ensures var props := ToVcard(ct, apple, c).props; var date := AnniversaryDate(ct, c);
      date.Some? && !apple ==> Prop("", "ANNIVERSARY", [], date.value) in props
    ensures var props := ToVcard(ct, apple, c).props; var date := AnniversaryDate(ct, c);
      date.Some? && apple ==>
        && (forall p :: p in props ==> p.name != "ANNIVERSARY")
        && Prop("IRONY", "X-ABDATE", [], date.value) in props
        && Prop("IRONY", "X-ABLABEL", [], AnniversaryLabel) in props
  {
    var prefix := if apple then "X-ADDRESSBOOKSERVER-" else "";
    var body := Body(ct, prefix, c.urlencode);
    var all := body + AnniversaryProps(ct, c) + CustomProps(ct.xcustom);
    var date := AnniversaryDate(ct, c);
    if date.Some? {
      if apple {
        var dated := all + AppleDate(date.value);
        assert dated[|all|] == Prop("IRONY", "X-ABDATE", [], date.value);
        assert dated[|all| + 1] == Prop("IRONY", "X-ABLABEL", [], AnniversaryLabel);
      } else {
        assert all[|body|] == Prop("", "ANNIVERSARY", [], date.value);
      }
    }
  }

  /** UID, FN, the group or name part, e-mail addresses and phone numbers. */
  function Body(ct: Contact, prefix: string, urlencode: string -> string): (r: seq<Prop>)
    ensures |r| >= 2 && r[0] == Prop("", "UID", [], ct.uid) && r[1] == Prop("", "FN", [], ct.name)
  {
    [Prop("", "UID", [], ct.uid), Prop("", "FN", [], ct.name)]
    + (if ct.ctype == "distribution-list" then [Prop("", prefix + "KIND", [], "group")] + MemberProps(ct.members, "", prefix, urlencode)
       else [Prop("", "N", [], "")])
    + EmailProps(ct.emails) + TelProps(ct.phones)
  }

  /** The DATE value an anniversary is written as; None when there is none or it cannot be made a date. */
  function AnniversaryDate(ct: Contact, c: Codec): (r: Option<string>)
    ensures r.Some? ==> ct.anniversary.Some? && r == c.dateValue(ct.anniversary.value)
    ensures ct.anniversary.Some? && c.dateValue(ct.anniversary.value).Some? ==> r.Some?
  {
    if ct.anniversary.Some? then c.dateValue(ct.anniversary.value) else None
  }

  /** The ANNIVERSARY property, written only when the anniversary converts to a date. */
  function AnniversaryProps(ct: Contact, c: Codec): seq<Prop> {
    match AnniversaryDate(ct, c)
    case Some(date) => [Prop("", "ANNIVERSARY", [], date)]
    case None => []
  }

  /** The Apple form of an anniversary: a date and its label in the "IRONY" group. */
  function AppleDate(date: string): seq<Prop> {
    [Prop("IRONY", "X-ABDATE", [], date), Prop("IRONY", "X-ABLABEL", [], AnniversaryLabel)]
  }

  // ---------------------------------------------------------------- reading back what was written

  /** The e-mail addresses as they read back: same addresses, each type through its TYPE value. */
  function EmailsReadBack(es: seq<Email>): (r: seq<Email>)
    ensures |r| == |es| && forall i :: 0 <= i < |es| ==> r[i].address == es[i].address
  {
    if |es| == 0 then []
    else [Email(es[0].address, DecodeEmailType([EncodeEmailType(es[0].etype)]))] + EmailsReadBack(es[1..])
  }

  lemma ReadOne(d: Contact, p: Prop, rest: seq<Prop>, c: Codec)
    ensures ReadProps(d, [p] + rest, c) == ReadProps(ReadProp(d, p, c), rest, c)
  {
    assert ([p] + rest)[0] == p && ([p] + rest)[1..] == rest;
  }

  lemma ReadEmailProp(d: Contact, e: Email, c: Codec)
    ensures ReadProp(d, Prop("", "EMAIL", [EncodeEmailType(e.etype)], e.address), c)
      == d.(emails := d.emails + [Email(e.address, DecodeEmailType([EncodeEmailType(e.etype)]))])
  {
  }

  lemma ReadTelProp(d: Contact, ph: Phone, c: Codec)
    requires TelTypeRoundTrips(ph.ptype)
    ensures ReadProp(d, Prop("", "TEL", [EncodeTelType(ph.ptype)], ph.number), c) == d.(phones := d.phones + [ph])
  {
    TelTypeRoundTrip(ph.ptype);
  }

  lemma ReadMemberProp(d: Contact, m: Member, v: string, prefix: string, c: Codec)
    requires prefix == "" || prefix == "X-ADDRESSBOOKSERVER-"
    requires DecodeMember(v, c) == Some(m)
    ensures ReadProp(d, Prop("", prefix + "MEMBER", [], v), c) == d.(members := d.members + [m])
  {
    var n := prefix + "MEMBER";
    assert n == "MEMBER" || n == "X-ADDRESSBOOKSERVER-MEMBER";
  }

  lemma ReadKindProp(d: Contact, prefix: string, c: Codec)
    requires prefix == "" || prefix == "X-ADDRESSBOOKSERVER-"
    ensures ReadProp(d, Prop("", prefix + "KIND", [], "group"), c) == d.(ctype := "distribution-list")
  {
    var n := prefix + "KIND";
    assert n == "KIND" || n == "X-ADDRESSBOOKSERVER-KIND";
    assert ToLower("group") == "group";
  }

  lemma ReadAnniversaryProp(d: Contact, date: string, c: Codec)
    requires c.parseDate(date).Some?
    ensures ReadProp(d, Prop("", "ANNIVERSARY", [], date), c) == d.(anniversary := c.parseDate(date))
  {
  }

  lemma SnocThenAppend<T>(a: seq<T>, x: T, b: seq<T>)
    ensures a + [x] + b == a + ([x] + b)
  {
  }

  lemma ReadMemberDropped(d: Contact, v: string, prefix: string, c: Codec)
    requires prefix == "" || prefix == "X-ADDRESSBOOKSERVER-"
    requires DecodeMember(v, c).None?
    ensures ReadProp(d, Prop("", prefix + "MEMBER", [], v), c) == d
  {
    var n := prefix + "MEMBER";
    assert n == "MEMBER" || n == "X-ADDRESSBOOKSERVER-MEMBER";
  }

  /** The first MEMBER property adds its member when it has a uid, and nothing otherwise. */
  lemma MembersHead(d: Contact, ms: seq<Member>, prev: string, prefix: string, c: Codec)
    requires |ms| > 0 && MemberWritable(ms[0]) && forall s :: ':' !in c.urlencode(s)
    requires prefix == "" || prefix == "X-ADDRESSBOOKSERVER-"
    ensures ReadProps(d, MemberProps(ms, prev, prefix, c.urlencode), c)
      == ReadProps(d.(members := d.members + (if Truthy(ms[0].uid) then [ms[0]] else [])),
                   MemberProps(ms[1..], MemberValueAsWritten(ms[0], prev, c.urlencode), prefix, c.urlencode), c)
  {
    var v := MemberValueAsWritten(ms[0], prev, c.urlencode);
    var p := Prop("", prefix + "MEMBER", [], v);
    MemberValueAsWrittenDecodes(ms[0], prev, c);
    if Truthy(ms[0].uid) {
      ReadMemberProp(d, ms[0], v, prefix, c);
    } else {
      ReadMemberDropped(d, v, prefix, c);
      assert d.members + [] == d.members;
    }
    assert MemberProps(ms, prev, prefix, c.urlencode) == [p] + MemberProps(ms[1..], v, prefix, c.urlencode);
    ReadOne(d, p, MemberProps(ms[1..], v, prefix, c.urlencode), c);
  }

  /** The MEMBER properties of a group read back as its members with a uid, in order. */
  lemma {:induction false} ReadMembers(d: Contact, ms: seq<Member>, prev: string, prefix: string, c: Codec)
    requires prefix == "" || prefix == "X-ADDRESSBOOKSERVER-"
    requires forall s :: ':' !in c.urlencode(s)
    requires forall i :: 0 <= i < |ms| ==> MemberWritable(ms[i])
    ensures ReadProps(d, MemberProps(ms, prev, prefix, c.urlencode), c) == d.(members := d.members + UidMembers(ms))
    decreases |ms|
  {
    if |ms| == 0 {
      assert d.members + UidMembers(ms) == d.members;
    } else {
      var head := if Truthy(ms[0].uid) then [ms[0]] else [];
      MembersHead(d, ms, prev, prefix, c);
      ReadMembers(d.(members := d.members + head), ms[1..], MemberValueAsWritten(ms[0], prev, c.urlencode), prefix, c);
      SeqAssoc(d.members, head, UidMembers(ms[1..]));
    }
  }

  lemma EmailsHead(d: Contact, es: seq<Email>, c: Codec)
    requires |es| > 0
    ensures var e := Email(es[0].address, DecodeEmailType([EncodeEmailType(es[0].etype)]));
      ReadProps(d, EmailProps(es), c) == ReadProps(d.(emails := d.emails + [e]), EmailProps(es[1..]), c)
      && EmailsReadBack(es) == [e] + EmailsReadBack(es[1..])
  {
    var p := Prop("", "EMAIL", [EncodeEmailType(es[0].etype)], es[0].address);
    ReadEmailProp(d, es[0], c);
    assert EmailProps(es) == [p] + EmailProps(es[1..]);
    ReadOne(d, p, EmailProps(es[1..]), c);
  }

  lemma {:induction false} ReadEmails(d: Contact, es: seq<Email>, c: Codec)
    ensures ReadProps(d, EmailProps(es), c) == d.(emails := d.emails + EmailsReadBack(es))
    decreases |es|
  {
    if |es| == 0 {
      assert d.emails + EmailsReadBack(es) == d.emails;
    } else {
      var e := Email(es[0].address, DecodeEmailType([EncodeEmailType(es[0].etype)]));
      EmailsHead(d, es, c);
      ReadEmails(d.(emails := d.emails + [e]), es[1..], c);
      SnocThenAppend(d.emails, e, EmailsReadBack(es[1..]));
    }
  }

  lemma TelsHead(d: Contact, ps: seq<Phone>, c: Codec)
    requires |ps| > 0 && TelTypeRoundTrips(ps[0].ptype)
    ensures ReadProps(d, TelProps(ps), c) == ReadProps(d.(phones := d.phones + [ps[0]]), TelProps(ps[1..]), c)
  {
    var p := Prop("", "TEL", [EncodeTelType(ps[0].ptype)], ps[0].number);
    ReadTelProp(d, ps[0], c);
    assert TelProps(ps) == [p] + TelProps(ps[1..]);
    ReadOne(d, p, TelProps(ps[1..]), c);
  }

  lemma {:induction false} ReadTels(d: Contact, ps: seq<Phone>, c: Codec)
    requires forall i :: 0 <= i < |ps| ==> TelTypeRoundTrips(ps[i].ptype)
    ensures ReadProps(d, TelProps(ps), c) == d.(phones := d.phones + ps)
    decreases |ps|
  {
    if |ps| == 0 {
      assert d.phones + ps == d.phones;
    } else {
      TelsHead(d, ps, c);
      ReadTels(d.(phones := d.phones + [ps[0]]), ps[1..], c);
      SnocThenAppend(d.phones, ps[0], ps[1..]);
      assert [ps[0]] + ps[1..] == ps;
    }
  }

  /** A custom name the Apple anniversary pass leaves alone. */
  predicate PlainCustomName(n: string) {
    IsCustomName(n) && n != "X-ABDATE" && n != "X-ABLABEL"
  }

  /**
   * A custom property key that reads back as itself: upper case, a plain
   * custom name, after at most one truthy group and a dot.
   */
  predicate CustomKeyRoundTrips(key: string) {
    var parts := Split(key, '.');
    ToUpper(key) == key
    && ((|parts| == 1 && PlainCustomName(parts[0])) || (|parts| == 2 && Truthy(parts[0]) && PlainCustomName(parts[1])))
  }

  lemma ReadCustomProp(d: Contact, p: Prop, c: Codec)
    requires IsCustomName(p.name)
    ensures ReadProp(d, p, c) == d.(xcustom := d.xcustom + [(CustomKey(p), p.value)])
  {
  }

  /** A custom property written by key reads back under the same key. */
  lemma CustomPropReads(d: Contact, key: string, value: string, c: Codec)
    requires CustomKeyRoundTrips(key)
    ensures PlainCustomName(PropByKey(key, value).name)
    ensures ReadProp(d, PropByKey(key, value), c) == d.(xcustom := d.xcustom + [(key, value)])
  {
    var parts := Split(key, '.');
    var p := PropByKey(key, value);
    JoinSplit(key, '.');
    assert Split(ToUpper(key), '.') == parts;
    if |parts| == 1 {
      assert p == Prop("", parts[0], [], value);
      assert key == parts[0];
      assert CustomKey(p) == key;
    } else {
      assert p == Prop(parts[0], parts[1], [], value);
      assert Join(parts, ".") == parts[0] + "." + Join(parts[1..], ".");
      assert CustomKey(p) == key;
    }
    ReadCustomProp(d, p, c);
  }

  lemma {:induction false} ReadCustom(d: Contact, xs: seq<(string, string)>, c: Codec)
    requires forall i :: 0 <= i < |xs| ==> CustomKeyRoundTrips(xs[i].0)
    ensures ReadProps(d, CustomProps(xs), c) == d.(xcustom := d.xcustom + xs)
    decreases |xs|
  {
    if |xs| == 0 {
      assert d.xcustom + xs == d.xcustom;
    } else {
      var p := PropByKey(xs[0].0, xs[0].1);
      CustomPropReads(d, xs[0].0, xs[0].1, c);
      assert CustomProps(xs) == [p] + CustomProps(xs[1..]);
      ReadOne(d, p, CustomProps(xs[1..]), c);
      ReadCustom(d.(xcustom := d.xcustom + [xs[0]]), xs[1..], c);
      SnocThenAppend(d.xcustom, xs[0], xs[1..]);
      assert [xs[0]] + xs[1..] == xs;
    }
  }

  /** Custom properties written from round-tripping keys carry plain custom names. */
  lemma {:induction false} CustomNames(xs: seq<(string, string)>)
    requires forall i :: 0 <= i < |xs| ==> CustomKeyRoundTrips(xs[i].0)
    ensures forall i :: 0 <= i < |CustomProps(xs)| ==> PlainCustomName(CustomProps(xs)[i].name)
    decreases |xs|
  {
    if |xs| > 0 {
      CustomPropReads(Initial("", ""), xs[0].0, xs[0].1, Codec(s => s, s => s, s => None, s => None, s => None));
      CustomNames(xs[1..]);
      assert CustomProps(xs) == [PropByKey(xs[0].0, xs[0].1)] + CustomProps(xs[1..]);
    }
  }

  /** A written anniversary date that DateTime reads back as the stored anniversary. */
  predicate AnniversaryRoundTrips(ct: Contact, c: Codec) {
    AnniversaryDate(ct, c).Some? ==> c.parseDate(AnniversaryDate(ct, c).value) == ct.anniversary
  }

  /**
   * What the written contact and the library functions must satisfy for the
   * contact's fields to read back: urlencode escapes ':', as PHP's does.
   */
  ghost predicate RoundTrips(ct: Contact, c: Codec) {
    && (ct.ctype == "contact" || ct.ctype == "distribution-list")
    && (ct.ctype == "contact" ==> ct.members == [])
    && (forall s :: ':' !in c.urlencode(s))
    && (forall i :: 0 <= i < |ct.members| ==> MemberWritable(ct.members[i]))
    && AnniversaryRoundTrips(ct, c)
    && (forall i :: 0 <= i < |ct.phones| ==> TelTypeRoundTrips(ct.phones[i].ptype))
    && (forall i :: 0 <= i < |ct.xcustom| ==> CustomKeyRoundTrips(ct.xcustom[i].0))
  }

  /** The group part of a written card: KIND and MEMBER properties for a group, an empty N otherwise. */
  function GroupProps(ct: Contact, prefix: string, urlencode: string -> string): seq<Prop> {
    if ct.ctype == "distribution-list" then [Prop("", prefix + "KIND", [], "group")] + MemberProps(ct.members, "", prefix, urlencode)
    else [Prop("", "N", [], "")]
  }

  lemma BodyParts(ct: Contact, prefix: string, urlencode: string -> string)
    ensures Body(ct, prefix, urlencode)
      == [Prop("", "UID", [], ct.uid), Prop("", "FN", [], ct.name)] + GroupProps(ct, prefix, urlencode)
         + EmailProps(ct.emails) + TelProps(ct.phones)
  {
  }

  /** A name that starts with neither "X" nor "C" is not custom. */
  lemma NotCustom(n: string)
    requires |n| > 0 && n[0] != 'X' && n[0] != 'C'
    ensures !IsCustomName(n)
  {
    if |n| >= 2 { assert n[..2][0] == n[0]; }
    if |n| >= 6 { assert n[..6][0] == n[0]; }
  }

  lemma ReadHead(d: Contact, uid: string, name: string, c: Codec)
    ensures ReadProps(d, [Prop("", "UID", [], uid), Prop("", "FN", [], name)], c) == d
  {
    var head := [Prop("", "UID", [], uid), Prop("", "FN", [], name)];
    NotCustom("UID");
    NotCustom("FN");
    assert head == [head[0]] + [head[1]];
    ReadOne(d, head[0], [head[1]], c);
    ReadOne(d, head[1], [], c);
  }

  lemma ReadGroup(ct: Contact, d: Contact, prefix: string, c: Codec)
    requires RoundTrips(ct, c)
    requires prefix == "" || prefix == "X-ADDRESSBOOKSERVER-"
    requires d.ctype == "contact" && d.members == []
    ensures ReadProps(d, GroupProps(ct, prefix, c.urlencode), c) == d.(ctype := ct.ctype, members := UidMembers(ct.members))
  {
    if ct.ctype == "distribution-list" {
      var kind := Prop("", prefix + "KIND", [], "group");
      ReadKindProp(d, prefix, c);
      ReadOne(d, kind, MemberProps(ct.members, "", prefix, c.urlencode), c);
      ReadMembers(d.(ctype := "distribution-list"), ct.members, "", prefix, c);
      assert [] + UidMembers(ct.members) == UidMembers(ct.members);
    } else {
      ReadOne(d, Prop("", "N", [], ""), [], c);
    }
  }

  /** Reading four consecutive runs of properties is reading each in turn. */
  lemma ReadFour(d: Contact, a: seq<Prop>, b: seq<Prop>, e: seq<Prop>, f: seq<Prop>, c: Codec)
    ensures ReadProps(d, a + b + e + f, c) == ReadProps(ReadProps(ReadProps(ReadProps(d, a, c), b, c), e, c), f, c)
  {
    ReadPropsAppend(d, a + b + e, f, c);
    ReadPropsAppend(d, a + b, e, c);
    ReadPropsAppend(d, a, b, c);
  }

  /**
   * The properties before the anniversary read back as the contact's type,
   * its members with a uid, its addresses and its numbers.
   */
  lemma ReadBody(ct: Contact, prefix: string, c: Codec)
    requires RoundTrips(ct, c)
    requires prefix == "" || prefix == "X-ADDRESSBOOKSERVER-"
    ensures ReadProps(Initial(ct.uid, ct.name), Body(ct, prefix, c.urlencode), c)
      == ct.(members := UidMembers(ct.members), emails := EmailsReadBack(ct.emails), anniversary := None, xcustom := [])
  {
    var d0 := Initial(ct.uid, ct.name);
    var head := [Prop("", "UID", [], ct.uid), Prop("", "FN", [], ct.name)];
    var group := GroupProps(ct, prefix, c.urlencode);
    BodyParts(ct, prefix, c.urlencode);
    ReadFour(d0, head, group, EmailProps(ct.emails), TelProps(ct.phones), c);
    ReadHead(d0, ct.uid, ct.name, c);
    ReadGroup(ct, d0, prefix, c);
    var d1 := d0.(ctype := ct.ctype, members := UidMembers(ct.members));
    ReadEmails(d1, ct.emails, c);
    assert [] + EmailsReadBack(ct.emails) == EmailsReadBack(ct.emails);
    var d2 := d1.(emails := EmailsReadBack(ct.emails));
    ReadTels(d2, ct.phones, c);
    assert [] + ct.phones == ct.phones;
  }

  /** A name that is neither a date, an Apple date or label, nor custom. */
  predicate PlainName(n: string) {
    !DateName(n) && n != "X-ABDATE" && n != "X-ABLABEL" && !IsCustomName(n)
  }

  lemma HandledPlain(n: string)
    requires n in HandledNames && !DateName(n)
    ensures PlainName(n)
  {
  }

  lemma GroupNames(ct: Contact, prefix: string, urlencode: string -> string)
    requires prefix == "" || prefix == "X-ADDRESSBOOKSERVER-"
    ensures forall p :: p in GroupProps(ct, prefix, urlencode) ==> PlainName(p.name)
  {
    var n := prefix + "MEMBER";
    assert n == "MEMBER" || n == "X-ADDRESSBOOKSERVER-MEMBER";
    HandledPlain(n);
    var k := prefix + "KIND";
    assert k == "KIND" || k == "X-ADDRESSBOOKSERVER-KIND";
    HandledPlain(k);
    HandledPlain("N");
  }

  /** Two runs of plain-named properties make a plain-named run. */
  lemma PlainAppend(a: seq<Prop>, b: seq<Prop>)
    requires forall p :: p in a ==> PlainName(p.name)
    requires forall p :: p in b ==> PlainName(p.name)
    ensures forall p :: p in a + b ==> PlainName(p.name)
  {
  }

  /** The uid and name properties are plain. */
  lemma HeadNames(uid: string, name: string)
    ensures forall p :: p in [Prop("", "UID", [], uid), Prop("", "FN", [], name)] ==> PlainName(p.name)
  {
    NotCustom("UID");
    NotCustom("FN");
  }

  /** E-mail and telephone properties are plain. */
  lemma EmailTelNames(es: seq<Email>, ps: seq<Phone>)
    ensures forall p :: p in EmailProps(es) ==> PlainName(p.name)
    ensures forall p :: p in TelProps(ps) ==> PlainName(p.name)
  {
    HandledPlain("EMAIL");
    HandledPlain("TEL");
  }

  /** No property of the body is an anniversary, an Apple date or label, or a custom property. */
  lemma BodyNames(ct: Contact, prefix: string, urlencode: string -> string)
    requires prefix == "" || prefix == "X-ADDRESSBOOKSERVER-"
    ensures forall p :: p in Body(ct, prefix, urlencode) ==> PlainName(p.name)
  {
    var head := [Prop("", "UID", [], ct.uid), Prop("", "FN", [], ct.name)];
    var group := GroupProps(ct, prefix, urlencode);
    BodyParts(ct, prefix, urlencode);
    HeadNames(ct.uid, ct.name);
    GroupNames(ct, prefix, urlencode);
    EmailTelNames(ct.emails, ct.phones);
    PlainAppend(head, group);
    PlainAppend(head + group, EmailProps(ct.emails));
    PlainAppend(head + group + EmailProps(ct.emails), TelProps(ct.phones));
  }

  /** The Apple label reads as "anniversary" once trimmed and lower-cased. */
  /** Trimming removes a prefix of trimmed characters up to a character that is kept. */
  lemma {:induction false} TrimLeftPrefix(l: string, w: string, cs: set<char>)
    requires forall i :: 0 <= i < |l| ==> l[i] in cs
    requires |w| > 0 && w[0] !in cs
    ensures TrimLeft(l + w, cs) == w
    decreases |l|
  {
    if |l| == 0 {
      assert l + w == w;
    } else {
      assert (l + w)[0] == l[0];
      assert (l + w)[1..] == l[1..] + w;
      TrimLeftPrefix(l[1..], w, cs);
    }
  }

  /** Trimming removes a suffix of trimmed characters back to a character that is kept. */
  lemma {:induction false} TrimRightSuffix(w: string, r: string, cs: set<char>)
    requires forall i :: 0 <= i < |r| ==> r[i] in cs
    requires |w| > 0 && w[|w| - 1] !in cs
    ensures TrimRight(w + r, cs) == w
    decreases |r|
  {
    if |r| == 0 {
      assert w + r == w;
    } else {
      var s := w + r;
      assert s[|s| - 1] == r[|r| - 1];
      assert s[..|s| - 1] == w + r[..|r| - 1];
      TrimRightSuffix(w, r[..|r| - 1], cs);
    }
  }

  lemma TrimBetween(l: string, w: string, r: string, cs: set<char>)
    requires forall i :: 0 <= i < |l| ==> l[i] in cs
    requires forall i :: 0 <= i < |r| ==> r[i] in cs
    requires |w| > 0 && w[0] !in cs && w[|w| - 1] !in cs
    ensures Trim(l + (w + r), cs) == w
  {
    TrimLeftPrefix(l, w + r, cs);
    TrimRightSuffix(w, r, cs);
  }

  lemma LowerAnniversary(w: string)
    requires w == "Anniversary"
    ensures ToLower(w) == "anniversary"
  {
    var tail := w[1..];
    assert IsLower(tail) by {
      forall i | 0 <= i < |tail| ensures !('A' <= tail[i] <= 'Z') {
        assert tail[i] in "abcdefghijklmnopqrstuvwxyz";
      }
    }
    LowerOfLowerString(tail);
    assert ToLower(w) == [LowerChar(w[0])] + ToLower(tail);
  }

  lemma AnniversaryLabelReads(text: string)
    requires text == AnniversaryLabel
    ensures ToLower(Trim(text, LabelChars)) == "anniversary"
  {
    var l, w, r := "_$!<", "Anniversary", ">!$_";
    assert text == l + (w + r);
    assert Trim(text, LabelChars) == w by {
      TrimBetween(l, w, r, LabelChars);
    }
    LowerAnniversary(w);
  }

  /** Unsetting removes the one selected property between unselected ones. */
  lemma RemoveOne(a: seq<Prop>, x: Prop, b: seq<Prop>, group: Option<string>, name: string)
    requires NoneSelected(a, group, name) && NoneSelected(b, group, name)
    requires Selects(x, group, name)
    ensures RemoveSelected(a + [x] + b, group, name) == a + b
  {
    RemoveSelectedAppend(a + [x], b, group, name);
    RemoveSelectedAppend(a, [x], group, name);
    RemoveSelectedNone(a, group, name);
    RemoveSelectedNone(b, group, name);
    assert RemoveSelected([x], group, name) == RemoveSelected([x][1..], group, name);
    assert [x][1..] == [];
    assert a + [] == a;
  }

  /** The pass stops at a labelled anniversary date. */
  lemma AppleAnniversaryAt(ps: seq<Prop>, i: nat)
    requires i < |ps| && ps[i].name == "X-ABDATE" && AnniversaryLabelled(ps, LabelGroup(ps[i]))
    ensures AppleAnniversaryFrom(ps, i)
      == RemoveSelected(ps[i := Prop("", "ANNIVERSARY", ps[i].types, ps[i].value)], LabelGroup(ps[i]), "X-ABLABEL")
  {
  }

  /** The label written after an Apple date is the first of its group, and reads as an anniversary. */
  lemma AppleDateLabelled(base: seq<Prop>, date: string)
    requires forall p :: p in base ==> p.name != "X-ABLABEL"
    ensures AnniversaryLabelled(base + AppleDate(date), Some("IRONY"))
  {
    var ps := base + AppleDate(date);
    FirstSelectedAfter(base, AppleDate(date), Some("IRONY"), "X-ABLABEL");
    assert FirstSelected(AppleDate(date), Some("IRONY"), "X-ABLABEL") == Some(AppleDate(date)[1]) by {
      assert !Selects(AppleDate(date)[0], Some("IRONY"), "X-ABLABEL");
      assert AppleDate(date)[1..][0] == AppleDate(date)[1];
    }
    AnniversaryLabelReads(AppleDate(date)[1].value);
  }

  /** The Apple form of the anniversary, after the other properties, reads back as a plain ANNIVERSARY. */
  lemma AppleDateReads(base: seq<Prop>, date: string)
    requires forall p :: p in base ==> p.name != "X-ABDATE" && p.name != "X-ABLABEL"
    ensures AppleAnniversaryFrom(base + AppleDate(date), 0) == base + [Prop("", "ANNIVERSARY", [], date)]
  {
    var ps := base + AppleDate(date);
    var k := |base|;
    var ann := Prop("", "ANNIVERSARY", [], date);
    var lab := Prop("IRONY", "X-ABLABEL", [], AnniversaryLabel);
    assert AppleAnniversaryFrom(ps, 0) == AppleAnniversaryFrom(ps, k) by {
      assert forall j :: 0 <= j < k ==> ps[j] in base;
      AppleAnniversarySkips(ps, 0, k);
    }
    assert AppleAnniversaryFrom(ps, k) == RemoveSelected(ps[k := ann], Some("IRONY"), "X-ABLABEL") by {
      assert ps[k] == Prop("IRONY", "X-ABDATE", [], date);
      assert LabelGroup(ps[k]) == Some("IRONY");
      AppleDateLabelled(base, date);
      AppleAnniversaryAt(ps, k);
    }
    assert ps[k := ann] == base + [ann] + [lab];
    assert forall i :: 0 <= i < |base| ==> !Selects(base[i], Some("IRONY"), "X-ABLABEL") by {
      assert forall i :: 0 <= i < |base| ==> base[i] in base;
    }
    RemoveSelectedAppend(base + [ann], [lab], Some("IRONY"), "X-ABLABEL");
    RemoveSelectedNone(base + [ann], Some("IRONY"), "X-ABLABEL");
    assert RemoveSelected([lab], Some("IRONY"), "X-ABLABEL") == [] by {
      assert [lab][1..] == [];
    }
  }

  /** Past properties of other names, the first selected one is found in what follows. */
  lemma {:induction false} FirstSelectedAfter(a: seq<Prop>, b: seq<Prop>, group: Option<string>, name: string)
    requires forall p :: p in a ==> p.name != name
    ensures FirstSelected(a + b, group, name) == FirstSelected(b, group, name)
    decreases |a|
  {
    if |a| > 0 {
      assert (a + b)[1..] == a[1..] + b;
      assert a[0] in a;
      FirstSelectedAfter(a[1..], b, group, name);
    } else {
      assert a + b == b;
    }
  }

  lemma ToVcardApple(ct: Contact, c: Codec)
    requires AnniversaryDate(ct, c).Some?
    ensures var date := AnniversaryDate(ct, c).value;
      ToVcard(ct, true, c).props
      == RemoveSelected(Body(ct, "X-ADDRESSBOOKSERVER-", c.urlencode) + [Prop("", "ANNIVERSARY", [], date)]
                        + (CustomProps(ct.xcustom) + AppleDate(date)), None, "ANNIVERSARY")
  {
    var date := AnniversaryDate(ct, c).value;
    var body := Body(ct, "X-ADDRESSBOOKSERVER-", c.urlencode);
    var x := Prop("", "ANNIVERSARY", [], date);
    var cust := CustomProps(ct.xcustom);
    var tail := AppleDate(date);
    assert AnniversaryProps(ct, c) == [x];
    assert body + AnniversaryProps(ct, c) + cust + tail == body + [x] + (cust + tail);
  }

  /** None of the properties is selected. */
  predicate NoneSelected(ps: seq<Prop>, group: Option<string>, name: string) {
    forall i :: 0 <= i < |ps| ==> !Selects(ps[i], group, name)
  }

  lemma NoneSelectedAppend(a: seq<Prop>, b: seq<Prop>, group: Option<string>, name: string)
    requires NoneSelected(a, group, name) && NoneSelected(b, group, name)
    ensures NoneSelected(a + b, group, name)
  {
    assert forall i :: |a| <= i < |a + b| ==> (a + b)[i] == b[i - |a|];
  }

  /** Around the plain ANNIVERSARY of an Apple card, no property is an anniversary. */
  lemma AppleNoAnniversary(ct: Contact, date: string, urlencode: string -> string)
    requires forall i :: 0 <= i < |ct.xcustom| ==> CustomKeyRoundTrips(ct.xcustom[i].0)
    ensures NoneSelected(Body(ct, "X-ADDRESSBOOKSERVER-", urlencode), None, "ANNIVERSARY")
    ensures NoneSelected(CustomProps(ct.xcustom) + AppleDate(date), None, "ANNIVERSARY")
  {
    var body := Body(ct, "X-ADDRESSBOOKSERVER-", urlencode);
    BodyNames(ct, "X-ADDRESSBOOKSERVER-", urlencode);
    assert forall i :: 0 <= i < |body| ==> body[i] in body;
    CustomNames(ct.xcustom);
    NoneSelectedAppend(CustomProps(ct.xcustom), AppleDate(date), None, "ANNIVERSARY");
  }

  /** For Apple clients the plain ANNIVERSARY is dropped and the labelled date follows the custom properties. */
  lemma AppleFormKeepsOrder(ct: Contact, c: Codec)
    requires AnniversaryDate(ct, c).Some?
    requires forall i :: 0 <= i < |ct.xcustom| ==> CustomKeyRoundTrips(ct.xcustom[i].0)
    ensures var body := Body(ct, "X-ADDRESSBOOKSERVER-", c.urlencode);
      ToVcard(ct, true, c).props == body + CustomProps(ct.xcustom) + AppleDate(AnniversaryDate(ct, c).value)
  {
    var date := AnniversaryDate(ct, c).value;
    var body := Body(ct, "X-ADDRESSBOOKSERVER-", c.urlencode);
    var cust := CustomProps(ct.xcustom);
    var tail := AppleDate(date);
    var x := Prop("", "ANNIVERSARY", [], date);
    ToVcardApple(ct, c);
    AppleNoAnniversary(ct, date, c.urlencode);
    RemoveOne(body, x, cust + tail, None, "ANNIVERSARY");
    assert body + (cust + tail) == body + cust + tail;
  }

  /** The Apple pass turns the labelled date of an Apple card back into a plain ANNIVERSARY after the custom properties. */
  lemma AppleCardRewritten(ct: Contact, c: Codec)
    requires AnniversaryDate(ct, c).Some?
    requires forall i :: 0 <= i < |ct.xcustom| ==> CustomKeyRoundTrips(ct.xcustom[i].0)
    ensures AppleAnniversaryFrom(ToVcard(ct, true, c).props, 0)
      == Body(ct, "X-ADDRESSBOOKSERVER-", c.urlencode) + CustomProps(ct.xcustom)
         + [Prop("", "ANNIVERSARY", [], AnniversaryDate(ct, c).value)]
  {
    var body := Body(ct, "X-ADDRESSBOOKSERVER-", c.urlencode);
    var cust := CustomProps(ct.xcustom);
    AppleFormKeepsOrder(ct, c);
    BodyNames(ct, "X-ADDRESSBOOKSERVER-", c.urlencode);
    CustomNames(ct.xcustom);
    assert forall p :: p in body + cust ==> p in body || exists i :: 0 <= i < |cust| && cust[i] == p;
    AppleDateReads(body + cust, AnniversaryDate(ct, c).value);
  }

  /** The anniversary a written card reads back with: the stored one when it could be written, none otherwise. */
  function WrittenAnniversary(ct: Contact, c: Codec): Option<string> {
    if AnniversaryDate(ct, c).Some? then ct.anniversary else None
  }

  /**
   * The contact a written card reads back as: members known only by e-mail
   * address are lost, e-mail types are re-read from the TYPE written, and an
   * anniversary that is not a date is lost.
   */
  function ReadBack(ct: Contact, c: Codec): (r: Contact)
    ensures r.(members := ct.members, emails := ct.emails, anniversary := ct.anniversary) == ct
  {
    ct.(members := UidMembers(ct.members), emails := EmailsReadBack(ct.emails), anniversary := WrittenAnniversary(ct, c))
  }

  /** A card written for Apple clients with an anniversary reads back as the contact. */
  lemma ReadAppleAnniversary(ct: Contact, c: Codec)
    requires RoundTrips(ct, c) && AnniversaryDate(ct, c).Some?
    ensures ReadProps(Initial(ct.uid, ct.name), AppleAnniversaryFrom(ToVcard(ct, true, c).props, 0), c) == ReadBack(ct, c)
  {
    var body := Body(ct, "X-ADDRESSBOOKSERVER-", c.urlencode);
    var cust := CustomProps(ct.xcustom);
    var date := AnniversaryDate(ct, c).value;
    var x := Prop("", "ANNIVERSARY", [], date);
    var d0 := Initial(ct.uid, ct.name);
    var d1 := ct.(members := UidMembers(ct.members), emails := EmailsReadBack(ct.emails), anniversary := None, xcustom := []);
    AppleCardRewritten(ct, c);
    ReadPropsAppend(d0, body + cust, [x], c);
    ReadPropsAppend(d0, body, cust, c);
    ReadBody(ct, "X-ADDRESSBOOKSERVER-", c);
    ReadCustom(d1, ct.xcustom, c);
    assert [] + ct.xcustom == ct.xcustom;
    ReadOne(d1.(xcustom := ct.xcustom), x, [], c);
    ReadAnniversaryProp(d1.(xcustom := ct.xcustom), date, c);
  }

  /** Without the Apple date form no written property is an X-ABDATE, so the Apple pass changes nothing. */
  lemma PlainCardUnchanged(ct: Contact, apple: bool, c: Codec)
    requires !(apple && AnniversaryDate(ct, c).Some?)
    requires forall i :: 0 <= i < |ct.xcustom| ==> CustomKeyRoundTrips(ct.xcustom[i].0)
    ensures var prefix := if apple then "X-ADDRESSBOOKSERVER-" else "";
      ToVcard(ct, apple, c).props == Body(ct, prefix, c.urlencode) + AnniversaryProps(ct, c) + CustomProps(ct.xcustom)
    ensures AppleAnniversaryFrom(ToVcard(ct, apple, c).props, 0) == ToVcard(ct, apple, c).props
  {
    var prefix := if apple then "X-ADDRESSBOOKSERVER-" else "";
    var body := Body(ct, prefix, c.urlencode);
    var ann := AnniversaryProps(ct, c);
    var cust := CustomProps(ct.xcustom);
    assert NoneSelected(body, None, "X-ABDATE") by {
      BodyNames(ct, prefix, c.urlencode);
      assert forall j :: 0 <= j < |body| ==> body[j] in body;
    }
    assert NoneSelected(cust, None, "X-ABDATE") by {
      CustomNames(ct.xcustom);
    }
    NoneSelectedAppend(body, ann, None, "X-ABDATE");
    NoneSelectedAppend(body + ann, cust, None, "X-ABDATE");
    var props := body + ann + cust;
    assert forall j :: 0 <= j < |props| ==> !Selects(props[j], None, "X-ABDATE");
    AppleAnniversaryNoDate(props);
  }

  /** A card written without the Apple date form reads back as the contact. */
  lemma ReadPlainCard(ct: Contact, apple: bool, c: Codec)
    requires RoundTrips(ct, c) && !(apple && AnniversaryDate(ct, c).Some?)
    ensures ReadProps(Initial(ct.uid, ct.name), AppleAnniversaryFrom(ToVcard(ct, apple, c).props, 0), c) == ReadBack(ct, c)
  {
    var prefix := if apple then "X-ADDRESSBOOKSERVER-" else "";
    var body := Body(ct, prefix, c.urlencode);
    var ann := AnniversaryProps(ct, c);
    var cust := CustomProps(ct.xcustom);
    var d0 := Initial(ct.uid, ct.name);
    var d1 := ct.(members := UidMembers(ct.members), emails := EmailsReadBack(ct.emails), anniversary := None, xcustom := []);
    PlainCardUnchanged(ct, apple, c);
    ReadPropsAppend(d0, body + ann, cust, c);
    ReadPropsAppend(d0, body, ann, c);
    ReadBody(ct, prefix, c);
    ReadTail(ct, c);
  }

  /** After the body, the anniversary and the custom properties complete the read-back contact. */
  lemma ReadTail(ct: Contact, c: Codec)
    requires RoundTrips(ct, c)
    ensures var d1 := ct.(members := UidMembers(ct.members), emails := EmailsReadBack(ct.emails), anniversary := None, xcustom := []);
      ReadProps(ReadProps(d1, AnniversaryProps(ct, c), c), CustomProps(ct.xcustom), c) == ReadBack(ct, c)
  {
    var d1 := ct.(members := UidMembers(ct.members), emails := EmailsReadBack(ct.emails), anniversary := None, xcustom := []);
    var ann := AnniversaryProps(ct, c);
    match AnniversaryDate(ct, c)
    case Some(date) =>
      assert ann == [Prop("", "ANNIVERSARY", [], date)];
      ReadOne(d1, ann[0], [], c);
      ReadAnniversaryProp(d1, date, c);
      ReadCustom(d1.(anniversary := ct.anniversary), ct.xcustom, c);
      assert [] + ct.xcustom == ct.xcustom;
    case None =>
      ReadCustom(d1, ct.xcustom, c);
      assert [] + ct.xcustom == ct.xcustom;
  }

  /** With UID and FN first, those are the values a card's uid and name are read from. */
  lemma FirstValueAtHead(ps: seq<Prop>, uid: string, name: string)
    requires |ps| >= 2 && ps[0] == Prop("", "UID", [], uid) && ps[1] == Prop("", "FN", [], name)
    ensures FirstValue(ps, "UID") == uid && FirstValue(ps, "FN") == name
  {
    assert FirstSelected(ps, None, "UID") == Some(ps[0]);
    assert FirstSelected(ps, None, "FN") == FirstSelected(ps[1..], None, "FN");
    assert ps[1..][0] == ps[1];
  }

  /** The first two properties of a written card are its UID and FN. */
  lemma WrittenHead(ct: Contact, apple: bool, c: Codec)
    requires RoundTrips(ct, c)
    ensures var props := ToVcard(ct, apple, c).props;
      |props| >= 2 && props[0] == Prop("", "UID", [], ct.uid) && props[1] == Prop("", "FN", [], ct.name)
  {
    var prefix := if apple then "X-ADDRESSBOOKSERVER-" else "";
    var body := Body(ct, prefix, c.urlencode);
    var props := ToVcard(ct, apple, c).props;
    if apple && AnniversaryDate(ct, c).Some? {
      AppleFormKeepsOrder(ct, c);
      assert props == body + CustomProps(ct.xcustom) + AppleDate(AnniversaryDate(ct, c).value);
    } else {
      assert props == body + AnniversaryProps(ct, c) + CustomProps(ct.xcustom);
    }
  }

  /** The reading switch handles the date names itself, so no custom name is a date. */
  lemma CustomIsNoDate(n: string)
    requires IsCustomName(n)
    ensures !DateName(n)
  {
    assert "BDAY" in HandledNames && "ANNIVERSARY" in HandledNames && "X-ANNIVERSARY" in HandledNames;
  }

  /** Date properties are accepted in each of three runs, hence in all three. */
  lemma DatesParseThree(a: seq<Prop>, b: seq<Prop>, e: seq<Prop>, c: Codec)
    requires DatesParse(a, c) && DatesParse(b, c) && DatesParse(e, c)
    ensures DatesParse(a + b + e, c)
  {
  }

  /** The body and the custom properties of a written card carry no date. */
  lemma BodyAndCustomNoDates(ct: Contact, prefix: string, c: Codec)
    requires prefix == "" || prefix == "X-ADDRESSBOOKSERVER-"
    requires forall i :: 0 <= i < |ct.xcustom| ==> CustomKeyRoundTrips(ct.xcustom[i].0)
    ensures DatesParse(Body(ct, prefix, c.urlencode), c)
    ensures DatesParse(CustomProps(ct.xcustom), c)
  {
    BodyNames(ct, prefix, c.urlencode);
    var cust := CustomProps(ct.xcustom);
    CustomNames(ct.xcustom);
    forall p | p in cust ensures DateParses(p, c) {
      var i :| 0 <= i < |cust| && cust[i] == p;
      CustomIsNoDate(p.name);
    }
  }

  /** The only date a written card carries, after the Apple pass, is its anniversary, which DateTime reads. */
  lemma WrittenDatesParse(ct: Contact, apple: bool, c: Codec)
    requires RoundTrips(ct, c)
    ensures DatesParse(AppleAnniversaryFrom(ToVcard(ct, apple, c).props, 0), c)
  {
    var prefix := if apple then "X-ADDRESSBOOKSERVER-" else "";
    var body := Body(ct, prefix, c.urlencode);
    var cust := CustomProps(ct.xcustom);
    var ann := AnniversaryProps(ct, c);
    BodyAndCustomNoDates(ct, prefix, c);
    assert DatesParse(ann, c) by {
      if AnniversaryDate(ct, c).Some? {
        assert ann == [Prop("", "ANNIVERSARY", [], AnniversaryDate(ct, c).value)];
      }
    }
    if apple && AnniversaryDate(ct, c).Some? {
      AppleCardRewritten(ct, c);
      assert ann == [Prop("", "ANNIVERSARY", [], AnniversaryDate(ct, c).value)];
      DatesParseThree(body, cust, ann, c);
    } else {
      PlainCardUnchanged(ct, apple, c);
      DatesParseThree(body, ann, cust, c);
    }
  }

  /**
   * Reading back a written card gives the contact again, for Apple clients
   * and others alike: its type, uid, name, phone numbers and custom
   * properties; its members with a uid; its anniversary when that could be
   * written as a date; and its e-mail addresses in order, each type re-read
   * from the single TYPE value written.
   */
  lemma ReadWrittenCard(ct: Contact, apple: bool, c: Codec)
    requires RoundTrips(ct, c)
    ensures ToArray(ToVcard(ct, apple, c), c) == Some(ReadBack(ct, c))
    ensures var r := ToArray(ToVcard(ct, apple, c), c).value;
      && r.members == UidMembers(ct.members)
      && (r.anniversary == ct.anniversary <==> ct.anniversary.None? || c.dateValue(ct.anniversary.value).Some?)
      && |r.emails| == |ct.emails| && forall i :: 0 <= i < |ct.emails| ==> r.emails[i].address == ct.emails[i].address
  {
    var props := ToVcard(ct, apple, c).props;
    WrittenHead(ct, apple, c);
    FirstValueAtHead(props, ct.uid, ct.name);
    WrittenDatesParse(ct, apple, c);
    if apple && AnniversaryDate(ct, c).Some? {
      ReadAppleAnniversary(ct, c);
    } else {
      ReadPlainCard(ct, apple, c);
    }
  }

  // ---------------------------------------------------------------- the e-mail member as written

  /**
   * A member known only by e-mail address, written as the backend writes it,
   * reads back as nothing: urlencode escapes the colon of "mailto:", so the
   * value starts with neither "urn:uuid:" nor "mailto:".
   */
  lemma EmailMemberDroppedAsWritten(d: Contact, m: Member, prev: string, c: Codec)
    requires !Truthy(m.uid) && Truthy(m.email)
    requires forall s :: ':' !in c.urlencode(s)
    ensures ReadProp(d, Prop("", "MEMBER", [], MemberValueAsWritten(m, prev, c.urlencode)), c) == d
  {
    var v := MemberValueAsWritten(m, prev, c.urlencode);
    assert ':' !in v;
    if |v| >= 9 { assert v[..9][3] == v[3]; }
    if |v| >= 7 { assert v[..7][6] == v[6]; }
  }

  /** The same member written as the reading side expects comes back. */
  lemma EmailMemberKept(d: Contact, m: Member, prev: string, c: Codec)
    requires MemberRoundTrips(m, c) && !Truthy(m.uid)
    ensures ReadProp(d, Prop("", "MEMBER", [], MemberValue(m, prev, c.urlencode)), c) == d.(members := d.members + [m])
  {
    MemberValueDecodes(m, prev, c);
  }
}
