# iRony in Dafny

A model of the core of Kolab iRony, the CalDAV, CardDAV and WebDAV server that
publishes the groupware folders of a Kolab IMAP store. Each model states its
properties in the server's own terms:

- **Folder layer** (`DavBackend`). A folder's uid lives in an IMAP
  annotation, and a digest-based uid is generated when the folder has none.
  Absolute URLs are built from the server environment. PROPPATCH
  (`folder_update`) and MKCALENDAR (`folder_create`) turn into folder
  renames and creations.
- **CalDAV** (`CalendarBackend`, `CalendarObjects`, `CalendarWrites`,
  `CalendarQuery`, `AttachmentUris`, `CalDavPlugin`, `UserCalendars`). The
  calendar list is read once per request and published under folder uids,
  with folder names as aliases. Objects are read, written and deleted by the
  uid in their resource name, with entity tags. Time-range queries are
  translated into storage conditions. Attachment links are given to
  Lightning. The plugin validates PUT bodies and keeps a parse cache for the
  backend. The calendar home lists the calendars and an outbox.
- **CardDAV** (`ContactsBackend`, `ContactCards`, `VCards`, `CardDavPlugin`,
  `CollectionNodes`). The address-book list, cards addressed by uid, and the
  conversion between a vCard and the contact hash, including the Apple
  address-book dialect: X-ABLabel groups, the Apple anniversary, and group
  cards with members. The plugin validates vCards.
- **Principals** (`Principals`). Only the authenticated user is a principal,
  and the user's two calendar proxy groups are its groups.
- **Scheduling** (`IMip`). iTIP messages go out by e-mail, one per recipient.
- **File storage** (`FileTree`, `Locks`). WebDAV collections and files over
  the file storage backend, and the per-user lock list.
- **Shared pieces** (`Tags`, `Records`, `WriteRedirect`, `VObjectUtils`).
  Entity tags and CTags, groupware object hashes with their `_` meta data,
  the Location header after a PUT whose name was corrected, and the key
  mapping of the VObject helpers.

Everything outside the core is an input to the model:

- storage (the folder list, the object store, the file backend);
- the VObject reader and the libkolab converters;
- md5, urlencode and html_entity_decode;
- the clock and SMTP.

These are plain values or function-typed parameters. A property that needs
something from them takes it as a precondition of the lemma; for example
"urldecode inverts urlencode", or "md5 yields 32 lower-case hex digits".
`Options`, `Strings` and `OrderedMaps` are helpers: `Strings` holds PHP's
string built-ins, and `OrderedMaps` models PHP arrays with insertion order.

The operations follow the code as written, including its defects. Where a
defect is listed under Findings, a corrected definition sits beside the
as-written one (`FolderUpdate` beside `FolderUpdateAsWritten`, `AbsUrl`
beside `AbsUrlAsWritten`, `MemberValue` beside `MemberValueAsWritten`), and
the intended property is proved about it.

## Model

| member | source | states |
|---|---|---|
| DavBackend.StoredUid | lib/Kolab/Utils/DAVBackend.php:66-72 | the uid is the first annotation, in the order shared, private, Cyrus, whose value is truthy; none when no key holds one |
| DavBackend.GeneratedUidShape | lib/Kolab/Utils/DAVBackend.php:75 | a generated uid is the md5 digest of name and owner cut into dash-separated groups of 12, 12 and 8 characters, with no trailing dash |
| DavBackend.GetUidFrame | lib/Kolab/Utils/DAVBackend.php:63-79 | resolving a uid changes nothing about the folder except its uid annotations, and it never overwrites a stored uid |
| DavBackend.GetUidPersists | lib/Kolab/Utils/DAVBackend.php:74-78 | once a generated uid is written, resolving the folder again reads the same uid and writes nothing: a folder's uid is stable |
| DavBackend.SetUidReadBack | lib/Kolab/Utils/DAVBackend.php:88-94 | when no uid is stored and the shared or the private write succeeds, the uid set_uid wrote is the one read back from the annotations |
| DavBackend.GetStorageFolder | lib/Kolab/Utils/DAVBackend.php:47-55 | none iff no folder of the requested type carries the uid; otherwise the folder found carries the uid and no earlier folder does: the first match wins |
| DavBackend.GetStorageFolderUnique | lib/Kolab/Utils/DAVBackend.php:47-55 | when uids are distinct, the lookup returns exactly the folder that carries the uid |
| DavBackend.GetStorageFolderAppended | lib/Kolab/Utils/DAVBackend.php:49-52 | a folder placed after folders without the uid is the one found |
| DavBackend.DirnameAbsolute | lib/Kolab/Utils/DAVBackend.php:112-113 | the dirname of an absolute script path is itself absolute |
| DavBackend.AuthorityPort | lib/Kolab/Utils/DAVBackend.php:101-110 | with the port check corrected, a port follows the host exactly when needed: a bare host gets the server port iff it is not the scheme's default (80 or 443), and a host that carries a port is kept unchanged |
| DavBackend.AbsUrlPortShown | lib/Kolab/Utils/DAVBackend.php:107-113 | for an absolute script path, the corrected URL shows a port after the host iff the port is not the default |
| DavBackend.AbsUrlAsWrittenDoublesPort | lib/Kolab/Utils/DAVBackend.php:107-110 | as written, a Host header that already names a non-default port gets the port appended a second time |
| DavBackend.PortNamedTwice | lib/Kolab/Utils/DAVBackend.php:107-110 | as written, Host `h:8080` on server port 8080 yields the authority `h:8080:8080` |
| DavBackend.ScriptAtRoot | lib/Kolab/Utils/DAVBackend.php:112-113 | a script directly under `/`, such as `/x`, adds no base path |
| DavBackend.TopLevelScriptNoBase | lib/Kolab/Utils/DAVBackend.php:112-113 | any script path `/name` with no further slash adds no base path, because its dirname is `/` |
| DavBackend.AbsUrlEndsWithPath | lib/Kolab/Utils/DAVBackend.php:115 | the URL, as written and with the port check corrected, ends with `/` followed by the url-encoded parts joined with `/` |
| DavBackend.AbsUrlParts | lib/Kolab/Utils/DAVBackend.php:99-118 | the path of the URL, as written and corrected, ends in the encoded parts; splitting them at `/` and url-decoding gives the parts back (for an urlencode that escapes `/` and that urldecode inverts) |
| DavBackend.EncodedPartsRoundTrip | lib/Kolab/Utils/DAVBackend.php:115 | joining url-encoded parts with `/`, then splitting and decoding, gives the parts back |
| DavBackend.PiecesHaveNoSlash | lib/Kolab/Utils/DAVBackend.php:148 | no piece contains `/`, because every slash is consumed by a separator |
| DavBackend.DisplaynamePartsHaveNoSlash | lib/Kolab/Utils/DAVBackend.php:148-151 | the folder name and the parent components taken from a display name never contain the hierarchy delimiter |
| DavBackend.PlainNameIsOnePiece | lib/Kolab/Utils/DAVBackend.php:148-150 | a display name with no separator character is a single piece, so the folder is renamed to exactly that name |
| DavBackend.GuillemetSplits | lib/Kolab/Utils/DAVBackend.php:148-151 | with `»` matched as one UTF-8 character, "Parent » Child" splits into parent `Parent` and name `Child` |
| DavBackend.GuillemetSeparator | lib/Kolab/Utils/DAVBackend.php:148 | a space, the two bytes of `»` and a space, followed by a non-space, form exactly one separator |
| DavBackend.GuillemetKeptAsWritten | lib/Kolab/Utils/DAVBackend.php:148 | as written (a byte class without the `u` flag), the two-byte `»` is never matched, so "Parent » Child" stays one piece |
| DavBackend.SlashSplits | lib/Kolab/Utils/DAVBackend.php:148-151 | "Parent/Child", with or without spaces around the slash, splits into exactly `Parent` and `Child`, under either reading of the separator class |
| DavBackend.LastValue | lib/Kolab/Utils/DAVBackend.php:143 | a property's value is the one from its last mutation, the one a PHP hash keeps |
| DavBackend.UnsupportedProps | lib/Kolab/Utils/DAVBackend.php:162-165 | the refused properties are exactly the mutations other than display name and color, in request order |
| DavBackend.ColorValueOfHex | lib/Kolab/Utils/DAVBackend.php:159 | Apple's `#RRGGBB` and `#RRGGBBAA` are both stored as `RRGGBB` |
| DavBackend.CollectErrors | lib/Kolab/Utils/DAVBackend.php:143-167 | the forbidden list collected by the loop is exactly the unsupported properties, in order |
| DavBackend.CollectLastWins | lib/Kolab/Utils/DAVBackend.php:143-160 | the name, parent, display name and color collected follow each property's last mutation |
| DavBackend.CollectOldname | lib/Kolab/Utils/DAVBackend.php:147-151 | whenever the loop sets a name, it also records the folder's old name and a parent |
| DavBackend.FolderUpdateSendsLocation | lib/Kolab/Utils/DAVBackend.php:139-177 | whatever an update sends, as written and in the atomic version, names the old name; its name and parent are the pieces of the last display name of a personal folder when the new name is truthy, and otherwise the current path with the last component converted from UTF7-IMAP; it carries the last colour, and for a folder that is not personal the last display name |
| DavBackend.FolderUpdateRename | lib/Kolab/Utils/DAVBackend.php:145-177 | as written, renaming a personal folder to "Parent/Child" sends exactly name `Child`, parent `Parent` and the old name, and answers success; for another user's or a shared folder it sends exactly the display name, with the folder's current name and parent |
| DavBackend.GuillemetRenameAsWritten | lib/Kolab/Utils/DAVBackend.php:145-155 | as written, renaming a personal folder to "Parent » Child" sends the whole string as the name, with an empty parent: the folder moves to the top level |
| DavBackend.GuillemetRenameCorrected | lib/Kolab/Utils/DAVBackend.php:145-155 | with `»` read as one character, the same rename sends name `Child` under parent `Parent` |
| DavBackend.FolderUpdateAtomic | lib/Kolab/Utils/DAVBackend.php:162-189 | the corrected update refuses the request iff some property is unsupported, and names exactly those; a refused request sends nothing; an accepted one sends the changes and succeeds iff storage does |
| DavBackend.FolderUpdateAsWrittenNotAtomic | lib/Kolab/Utils/DAVBackend.php:162-189 | as written, a request that mixes a rename with an unsupported property both renames the folder and reports the property as refused |
| DavBackend.FolderUpdateAsWrittenSpec | lib/Kolab/Utils/DAVBackend.php:139-189 | as written, changes are sent iff some mutation names display name or colour, even when other properties are refused; the answer is a storage failure iff something was sent and storage failed, and otherwise `Answer` |
| DavBackend.Answer | lib/Kolab/Utils/DAVBackend.php:162-189 | the answer is the refused list iff some property is unsupported, and that list is exactly the unsupported properties in request order; otherwise `true` |
| DavBackend.CollectSomething | lib/Kolab/Utils/DAVBackend.php:143-160 | the loop records a change iff some mutation names display name or colour |
| DavBackend.FolderUpdateNoFolder | lib/Kolab/Utils/DAVBackend.php:139-189 | for a missing folder, a display name is a fatal error; otherwise a colour is sent iff one is requested, under the empty name and parent that the missing name yields, with no old name, and the answer is as for an existing folder |
| DavBackend.UnsupportedNonEmpty | lib/Kolab/Utils/DAVBackend.php:189 | the list of refused properties is empty iff every mutation names display name or color, so the result is `true` exactly then |
| DavBackend.CreatePropertiesLastWins | lib/Kolab/Utils/DAVBackend.php:211-227 | the new folder's name and parent come from the last display name |
| DavBackend.CreateNameFollowsLast | lib/Kolab/Utils/DAVBackend.php:213-217 | a display name `a/b/c` gives name `c` and parent `a/b` |
| DavBackend.ParentAndName | lib/Kolab/Utils/DAVBackend.php:214-216 | splitting a path into its parent and last component and joining them again gives the path back |
| DavBackend.FolderCreateNamed | lib/Kolab/Utils/DAVBackend.php:203-250 | a display name whose last component is truthy becomes the new folder's path: the name is that slash-free component, and the parent and name joined again give the display name back |
| DavBackend.FolderCreateUnnamed | lib/Kolab/Utils/DAVBackend.php:231-233 | without a usable display name, the folder is named after the uri when it is shorter than 16, and "Untitled" otherwise |
| DavBackend.FolderCreateAddressable | lib/Kolab/Utils/DAVBackend.php:244-249 | after a successful creation, the uid is written to the new folder and the folder lookup resolves the uri to it |
| DavBackend.FolderCreateFails | lib/Kolab/Utils/DAVBackend.php:235-242 | a failed creation returns no uid and writes no annotation |
| Tags.ETagShape | lib/Kolab/CalDAV/CalendarBackend.php:674-677 | an entity tag is `"`, the first 16 hex digits of md5 of the uid, `-`, the decimal message number, `"`, with each part at a fixed position |
| Tags.ETagInjective | lib/Kolab/CardDAV/ContactsBackend.php:967-970 | equal tags mean equal digest prefixes and equal message numbers, so a new message number always changes the tag |
| Tags.CTagParts | lib/Kolab/CalDAV/CalendarBackend.php:68-74 | the CTag `UIDVALIDITY-HIGHESTMODSEQ-UIDNEXT` splits at `-` back into the three numbers, and it holds no `:` |
| Tags.CTagInjective | lib/Kolab/CardDAV/ContactsBackend.php:63-69 | any change in a folder's IMAP status changes its CTag |
| Tags.AggregateCTagInjective | lib/Kolab/CardDAV/ContactsBackend.php:147-157 | the CTag of the aggregate address book (the sources' CTags joined with `:`) splits back into the sources' CTags, so it changes whenever any source changes |
| Records.CarryForward | lib/Kolab/CalDAV/CalendarBackend.php:460-465 | the updated object keeps every key it sets, and gains each `_` meta key of the stored version that it leaves unset, with the stored value |
| Records.CarryForwardIdempotent | lib/Kolab/CardDAV/ContactsBackend.php:438-442 | carrying meta data forward twice adds nothing, and with no stored version it changes nothing |
| Records.MarkDeleted | lib/Kolab/CalDAV/CalendarBackend.php:473-475 | every stored attachment key is set to `false`; other keys are kept, and the key order of the list is preserved |
| Records.ProcessAttachments | lib/Kolab/CalDAV/CalendarBackend.php:467-476 | non-empty new attachments move to `_attachments`, with every stored key marked deleted and the other new entries kept; otherwise the object is untouched |
| Records.NewAttachmentSurvives | lib/Kolab/CalDAV/CalendarBackend.php:467-476 | a new attachment at list position i survives iff the stored list had no key `i`; otherwise the stored attachment's deletion marker takes its place |
| Records.GetObject | lib/Kolab/CalDAV/CalendarBackend.php:461 | get_object finds an object iff some stored object has the uid, and what it finds has that uid |
| Records.Delete | lib/Kolab/CalDAV/CalendarBackend.php:508 | delete removes exactly the objects with the uid |
| Records.Save | lib/Kolab/CalDAV/CalendarBackend.php:479 | save stores the object with its new message number as the newest message, and drops the version it replaces |
| Records.SaveThenGet | lib/Kolab/CalDAV/CalendarBackend.php:401 | a saved new object is read back by its uid, as saved |
| Records.SaveReplaces | lib/Kolab/CalDAV/CalendarBackend.php:479 | saving in place of a uid leaves no older version with that uid, so the saved one is read back |
| Records.DeleteKeepsOthers | lib/Kolab/CalDAV/CalendarBackend.php:506-509 | after a delete the uid is gone, and objects with other uids are found exactly as before |
| Records.ETagOfSaved | lib/Kolab/CalDAV/CalendarBackend.php:491-492 | the tag returned after a save is made from the uid and the message number the server assigned |
| Records.ETagIgnoresContent | lib/Kolab/CalDAV/CalendarBackend.php:674-677 | two objects with the same uid and message number have the same tag, whatever their content |
| WriteRedirect.AfterWriteContent | lib/Kolab/CalDAV/Plugin.php:61-71 | a header is sent iff a truthy corrected name is pending; it starts with the base URI, and sending it consumes the pending name; otherwise the pending name is unchanged |
| WriteRedirect.LocationDecodes | lib/Kolab/CalDAV/Plugin.php:64-68 | the Location header decodes back to the request's parent path followed by the corrected name |
| WriteRedirect.RedirectOnce | lib/Kolab/CardDAV/Plugin.php:77-87 | a second write in the same request sends no header |
| VObjectUtils.DatetimeProp | lib/Kolab/Utils/VObjectUtils.php:40-45 | the property is a DATE iff the value is date-only; otherwise it is UTC iff the utc flag is set, and local time when it is not |
| VObjectUtils.MapKeysSpec | lib/Kolab/Utils/VObjectUtils.php:50-58 | a key is in the output iff it is the target of an entry whose source is set; its value comes from the last such entry |
| VObjectUtils.MapKeysInverse | lib/Kolab/Utils/VObjectUtils.php:50-58 | mapping with an injective key map and back with its flip restores every mapped key whose value was set |
| VObjectUtils.LastSetSourceUnique | lib/Kolab/Utils/VObjectUtils.php:53-56 | with distinct targets, the value of a target comes from its own entry |
| CalendarBackend.CalendarOf | lib/Kolab/CalDAV/CalendarBackend.php:66-77 | a folder is published with its uid as both id and uri, its html-decoded name as display name, its colour, the CTag of its IMAP status, the component `VEVENT` for an event folder and `VTODO` for a task folder (an unmapped type gives an empty entry), transparency `opaque`, and no owner yet |
| CalendarBackend.Register | lib/Kolab/CalDAV/CalendarBackend.php:65-87 | after the loop, the calendar keys are the folder uids; the last folder listed with each uid is published under it; the last folder listed with each name gives that name's alias, and no other alias appears |
| CalendarBackend.ReadCalendars | lib/Kolab/CalDAV/CalendarBackend.php:55-90 | the folders are read once per backend: a second read returns the cached state unchanged, and the user agent is never touched |
| CalendarBackend.ReadCalendarsOnce | lib/Kolab/CalDAV/CalendarBackend.php:57-59 | reading twice is reading once, whatever folders the second read would list |
| CalendarBackend.ReadCalendarsPublishes | lib/Kolab/CalDAV/CalendarBackend.php:65-78 | after the first read, every listed folder that is last with its uid is published under that uid with its CTag, and is the folder kept for the uid |
| CalendarBackend.GetStorageFolder | lib/Kolab/CalDAV/CalendarBackend.php:98-111 | an alias is resolved first; a known uid yields its folder; otherwise a folder is found iff some folder of any type carries the uid |
| CalendarBackend.StorageFolderByUid | lib/Kolab/CalDAV/CalendarBackend.php:98-111 | once the calendars are read, a listed folder is found by its uid, provided no folder is named like that uid |
| CalendarBackend.StorageFolderByName | lib/Kolab/CalDAV/CalendarBackend.php:100-107 | the same folder is found by its IMAP name, through the alias of its uid |
| CalendarBackend.WithPrincipal | lib/Kolab/CalDAV/CalendarBackend.php:137-140 | every calendar gets the given owner, and the calendar order is kept |
| CalendarBackend.GetCalendarsForUser | lib/Kolab/CalDAV/CalendarBackend.php:130-143 | after reading the calendars, the i-th entry returned is the i-th calendar read, in key order, with the requesting principal as owner; the cached calendars keep their keys and now all carry that owner, and the folders and aliases are left as read |
| CalendarBackend.GetCalendarByName | lib/Kolab/CalDAV/CalendarBackend.php:151-168 | a calendar is found, by id or by folder-name alias, iff it was read; a calendar without an owner gets the authenticated user's principal, and an existing owner is kept |
| CalendarBackend.ForUserThenByName | lib/Kolab/CalDAV/CalendarBackend.php:137-165 | after the calendars are listed for a principal, looking one up by id reports that principal as its owner |
| CalendarBackend.CreateCalendar | lib/Kolab/CalDAV/CalendarBackend.php:181-186 | a new calendar is an event folder created under the requested uri; the uri is returned iff storage created the folder |
| CalendarBackend.UpdateCalendar | lib/Kolab/CalDAV/CalendarBackend.php:224-230 | the resolved folder gets folder_update as written: changes are sent iff some property is supported, with the folder's old name, its destination and the last colour, and the answer is `Answer` unless storage fails; a missing folder is fatal iff a display name is requested, and a colour alone is then sent under an empty name |
| CalendarBackend.DeleteCalendar | lib/Kolab/CalDAV/CalendarBackend.php:238-250 | exactly the resolved folder's IMAP name is deleted, and nothing is deleted when no folder resolves |
| CalendarBackend.DeleteListedCalendar | lib/Kolab/CalDAV/CalendarBackend.php:151-250 | for a listed folder that is the last with its uid, looking its calendar up by uid finds it, with that id and its decoded display name, and deleting that calendar deletes exactly that folder's IMAP name |
| CalendarBackend.TokenDigitFrom | lib/Kolab/CalDAV/CalendarBackend.php:593 | the search finds the token followed by a decimal digit iff such an occurrence starts at or after the position |
| CalendarBackend.MatchesToken | lib/Kolab/CalDAV/CalendarBackend.php:586-593 | the pattern `<token>\d` matches iff the agent string contains the token followed by a digit |
| CalendarBackend.SetUserAgent | lib/Kolab/CalDAV/CalendarBackend.php:584-598 | the first class whose pattern matches wins, in the order iCal, Outlook, Lightning; when none matches, the previous class is kept; nothing else changes |
| CalendarBackend.OutlookIsNotICal | lib/Kolab/CalDAV/CalendarBackend.php:587-588 | the Outlook connector's `iCal4OL/2` is not taken for Apple's `iCal/<digit>` |
| CalendarObjects.GetCalendarObjects | lib/Kolab/CalDAV/CalendarBackend.php:275-296 | one entry per stored object, in storage order, with uri `<uid>.ics`, the calendar id, the object's tag and its modification time; nothing without a folder |
| CalendarObjects.FindAttachment | lib/Kolab/CalDAV/CalendarBackend.php:325-333 | the attachment found has the requested part number and is stored with the object; none is found when no stored attachment has that id |
| CalendarObjects.ToIcal | lib/Kolab/CalDAV/CalendarBackend.php:648-666 | the export names the Apple agent iff the client is iCal; a link template based on the object's URI is set iff the client is Lightning; attachments are embedded for every other client |
| CalendarObjects.GetCalendarObject | lib/Kolab/CalDAV/CalendarBackend.php:311-359 | nothing is returned iff there is no folder or no object with the URI's uid, or with the uid of an attachment link; attachment content only for an attachment link and its part; otherwise the object under `<uid>.ics` with its tag |
| CalendarObjects.ListingThenGet | lib/Kolab/CalDAV/CalendarBackend.php:275-359 | every listed object is read back under its listed URI with the listed tag, for a uid that is non-empty, has no `/` or `:`, and is not shared with an earlier object |
| CalendarObjects.FirstWithUid | lib/Kolab/CalDAV/CalendarBackend.php:323 | the first stored object carrying a uid is the one get_object finds |
| CalendarObjects.AttachmentLinkServed | lib/Kolab/CalDAV/CalendarBackend.php:318-332 | the attachment link given to Lightning, once filled in with a part number and a file name, is served as that attachment's content |
| CalendarObjects.LightningLinkNamesObject | lib/Kolab/CalDAV/CalendarBackend.php:339-345 | Lightning's link template starts with the object's absolute URI, whose path decodes to `calendars`, the owner without `principals/`, the calendar and `<uid>.ics` |
| CalendarWrites.ParseCalendarData | lib/Kolab/CalDAV/CalendarBackend.php:609-636 | the result is the first imported object, taken from the plugin's parsed calendar when its event has the uid and from the text otherwise; none for a parse error or an empty import |
| CalendarWrites.StaleCacheIgnored | lib/Kolab/CalDAV/CalendarBackend.php:614-620 | a cache left by a body with another UID has no effect: the request body itself is parsed |
| CalendarWrites.ValidatedBodyReused | lib/Kolab/CalDAV/Plugin.php:96-105 | once the plugin has validated a body whose first event or to-do has the URI's uid, the backend imports the plugin's parsed calendar instead of the text |
| CalendarWrites.WithStoredAttachments | lib/Kolab/CalDAV/CalendarBackend.php:397-399 | creating moves `attachments` to `_attachments` (null when there were none) and leaves every other key, including the uid, as it was |
| CalendarWrites.UpdateCalendarObject | lib/Kolab/CalDAV/CalendarBackend.php:437-493 | the errors, each leaving the store as it was: a parse error, a UID that does not match the URI, a missing folder, a failed save (which also clears the pending redirect). On success the tag is made from the uid and the new message number, and only that folder's objects change |
| CalendarWrites.UpdatedObjectKeeps | lib/Kolab/CalDAV/CalendarBackend.php:460-476 | the stored object keeps the new content, apart from the attachment list, plus every meta key of the stored version that the new content leaves unset |
| CalendarWrites.StoredObjectKeeps | lib/Kolab/CalDAV/CalendarBackend.php:460-479 | the same keys survive once the new message number is set |
| CalendarWrites.UpdateStores | lib/Kolab/CalDAV/CalendarBackend.php:478-479 | a successful update stores the updated object in place of the stored version with the uid |
| CalendarWrites.UpdateThenRead | lib/Kolab/CalDAV/CalendarBackend.php:437-493 | after an update, the object is read back by its uid with the new message number, the new content and the carried-forward meta data |
| CalendarWrites.CreateCalendarObject | lib/Kolab/CalDAV/CalendarBackend.php:378-419 | a body without a uid is a parse error, and a missing folder is an error. A body naming another existing object becomes an update of that object, with a redirect to it. Otherwise the object is saved as new, with its attachments moved; the tag is returned, with a redirect iff the names differ. A failed save changes nothing |
| CalendarWrites.CreateThenGet | lib/Kolab/CalDAV/CalendarBackend.php:378-419 | a new object PUT under its own name `<uid>.ics` is read back under that name with the tag the PUT returned, and no redirect is set |
| CalendarWrites.CreateFresh | lib/Kolab/CalDAV/CalendarBackend.php:397-418 | a create under the body's own name appends the object as new and returns its tag |
| CalendarWrites.RedirectNamesBodyUid | lib/Kolab/CalDAV/CalendarBackend.php:390-415 | a successful PUT whose body names another uid is redirected to `<body uid>.ics` |
| CalendarWrites.FailedWriteKeepsStore | lib/Kolab/CalDAV/CalendarBackend.php:401-410 | a failed create or update leaves the store as it was |
| CalendarWrites.DeleteCalendarObject | lib/Kolab/CalDAV/CalendarBackend.php:502-510 | after the delete, no object has the URI's uid, and objects with other uids are found exactly as before; without a folder nothing changes |
| CalendarWrites.DeleteThenGet | lib/Kolab/CalDAV/CalendarBackend.php:502-510 | after a DELETE of `<uid>.ics`, a GET of it finds nothing |
| CalendarQuery.BuildQuery | lib/Kolab/CalDAV/CalendarBackend.php:555-568 | the query holds only `dtstart <= end` and `dtend >= start` conditions, and it is empty when no filter is on VEVENT |
| CalendarQuery.Select | lib/Kolab/CalDAV/CalendarBackend.php:572 | the objects selected are exactly those that satisfy every condition |
| CalendarQuery.Query | lib/Kolab/CalDAV/CalendarBackend.php:551-579 | one resource name `<uid>.ics` per selected object, in storage order; none without a calendar |
| CalendarQuery.QueryMeansTimeRanges | lib/Kolab/CalDAV/CalendarBackend.php:557-568 | the built query holds of an object exactly when the object passes every VEVENT filter's time range |
| CalendarQuery.FilterCondsMean | lib/Kolab/CalDAV/CalendarBackend.php:560-567 | one filter's conditions hold exactly when the object passes its time range, an absent bound being no condition |
| CalendarQuery.OverlappingEventFound | lib/Kolab/CalDAV/CalendarBackend.php:551-579 | every stored event whose `[dtstart, dtend)` overlaps every VEVENT time range in the sense of section 9.9 of RFC 4791 is among the results |
| CalendarQuery.NonEventFiltersSelectAll | lib/Kolab/CalDAV/CalendarBackend.php:557-559 | filters on to-dos, journals or other components select every stored object |
| AttachmentUris.DigitRun | lib/Kolab/CalDAV/CalendarBackend.php:319 | `\d+` matches the longest run of decimal digits |
| AttachmentUris.ParseAttachmentUri | lib/Kolab/CalDAV/CalendarBackend.php:318-321 | the name is an attachment link iff the pattern matches somewhere; then the uid is the greedy first group and the part number the second |
| AttachmentUris.PlainNameNotAttachment | lib/Kolab/CalDAV/CalendarBackend.php:315-321 | a plain `<uid>.ics` with no colon in the uid is not taken for an attachment link |
| AttachmentUris.AttachmentNameRoundTrip | lib/Kolab/CalDAV/CalendarBackend.php:318-321 | parsing a published link `<uid>.ics:attachment:<id>:<name>` gives back the uid and the part number |
| AttachmentUris.MatchAtUid | lib/Kolab/CalDAV/CalendarBackend.php:319 | the published link matches with the uid as first group and the part number as second |
| AttachmentUris.NoLaterMatch | lib/Kolab/CalDAV/CalendarBackend.php:319 | no longer first group matches, because the two colons of the marker cannot both fall after the uid |
| CalDavPlugin.FirstNonTimezone | lib/Kolab/CalDAV/Plugin.php:122-126 | the position of the first component that is not a time zone, with every earlier one a time zone |
| CalDavPlugin.FirstNonTimezoneAt | lib/Kolab/CalDAV/Plugin.php:122-131 | the first component reached that is not a time zone is the first non-time-zone component |
| CalDavPlugin.BaseComponents | lib/Kolab/CalDAV/Plugin.php:99 | the base components are exactly the sub-components that are not recurrence exceptions |
| CalDavPlugin.FirstEventOrTodo | lib/Kolab/CalDAV/Plugin.php:99-104 | the first event or to-do among the components; none when there is none |
| CalDavPlugin.CacheParsed | lib/Kolab/CalDAV/Plugin.php:96-105 | a VCALENDAR is remembered, along with its first base event or to-do; the previous event stays when the calendar has none; other objects leave the cache unchanged |
| CalDavPlugin.ValidateICalendar | lib/Kolab/CalDAV/Plugin.php:82-156 | an unparsable body or a non-VCALENDAR is unsupported media; an unsupported first type is InvalidComponentType; success iff the object is well formed, returning the UID; every other failure is a bad request; the cache is updated as the reader left it |
| CalDavPlugin.CheckComponents | lib/Kolab/CalDAV/Plugin.php:120-155 | time zones are skipped; the first event, to-do or journal must be supported and have a UID; every later one must have the same type and UID; anything else, or no object component, is a bad request |
| CollectionNodes.RightsAcl | lib/Kolab/CalDAV/Calendar.php:84-115 | with falsy or missing MYRIGHTS, the parent's default rules apply; otherwise a protected read entry for the collection's principal comes first, followed by at most a protected write entry for the same principal |
| CollectionNodes.RightsAclGrants | lib/Kolab/CardDAV/AddressBook.php:113-144 | with usable rights, the principal may always read, and may write iff it owns the folder or the rights contain `i`; no other principal gets anything |
| CollectionNodes.NewCalendar | lib/Kolab/CalDAV/Calendar.php:46-53 | a calendar node holds the folder its id resolves to, and is ready iff there is one |
| CollectionNodes.CalendarOwner | lib/Kolab/CalDAV/Calendar.php:63-71 | the owner of a personal folder is the calendar's principal; for another namespace it is `principals/<folder owner>`; without a folder, the call on null is an error |
| CollectionNodes.CalendarAcl | lib/Kolab/CalDAV/Calendar.php:84-115 | the calendar's ACL is the rights ACL of its folder, computed with the calendar's owner; without a folder it is an error |
| CollectionNodes.PersonalCalendarWritable | lib/Kolab/CalDAV/Calendar.php:98-107 | a personal calendar with usable rights grants write to its principal |
| CollectionNodes.NewAddressBook | lib/Kolab/CardDAV/AddressBook.php:48-55 | an address-book node holds the folder its id resolves to, and is ready iff it is the aggregate book or has a folder |
| CollectionNodes.BookOwner | lib/Kolab/CardDAV/AddressBook.php:78-86 | without a folder, or with a personal folder, the owner is the book's principal; otherwise it is `principals/<folder owner>` |
| CollectionNodes.BookAcl | lib/Kolab/CardDAV/AddressBook.php:113-144 | without a folder the parent's default rules apply; otherwise the ACL is the rights ACL of the folder, computed with the book's owner |
| CollectionNodes.WriteableBookGrantsWrite | lib/Kolab/CardDAV/AddressBook.php:127-136 | a book whose folder the backend considers writeable (rights containing `i`, or a personal folder) grants write to its principal |
| CollectionNodes.SetBookName | lib/Kolab/CardDAV/AddressBook.php:64-68 | renaming an address book is always refused as not allowed |
| CollectionNodes.SetBookAcl | lib/Kolab/CardDAV/AddressBook.php:154-158 | changing an address book's ACL is always refused as not allowed |
| UserCalendars.CalendarNodes | lib/Kolab/CalDAV/UserCalendars.php:49-62 | one calendar node per calendar, in order |
| UserCalendars.GetChildren | lib/Kolab/CalDAV/UserCalendars.php:45-73 | the children are one calendar node per calendar the backend lists for the home's principal, in order, followed by exactly one outbox |
| UserCalendars.ChildrenBelongToHome | lib/Kolab/CalDAV/UserCalendars.php:45-73 | every calendar child names the home's principal as its owner, and only the last child is the outbox |
| UserCalendars.GetChild | lib/Kolab/CalDAV/UserCalendars.php:81-92 | `outbox` is served without asking the backend; any other name yields the calendar the backend finds, given the home's principal, and NotFound iff it finds none |
| UserCalendars.ChildExists | lib/Kolab/CalDAV/UserCalendars.php:100-106 | a child exists iff the backend finds a calendar by that name |
| UserCalendars.ChildExistsAgreesWithGetChild | lib/Kolab/CalDAV/UserCalendars.php:81-106 | childExists agrees with getChild for every name except `outbox`, which getChild serves while childExists reports it only when a calendar has that name |
| UserCalendars.HomeAcl | lib/Kolab/CalDAV/UserCalendars.php:118-150 | the home grants its principal read and write, through exactly two protected entries and nothing for anyone else |
| UserCalendars.SetHomeAcl | lib/Kolab/CalDAV/UserCalendars.php:160-164 | changing the home's ACL is always refused as not allowed |
| Principals.GetCurrentUser | lib/Kolab/DAVACL/PrincipalBackend.php:47-62 | a record exists iff a user is authenticated; it has uri `principals/<user>`, the user name as display name and the user's e-mail |
| Principals.GetPrincipalsByPrefix | lib/Kolab/DAVACL/PrincipalBackend.php:81-97 | at most one principal, the current user, listed iff the prefix is `principals` and someone is authenticated |
| Principals.GetPrincipalByPath | lib/Kolab/DAVACL/PrincipalBackend.php:107-118 | the current user's record iff the path's first two `/`-pieces are `principals` and the user name; nothing otherwise |
| Principals.UserPathResolves | lib/Kolab/DAVACL/PrincipalBackend.php:107-118 | the path `principals/<user>` names the current user |
| Principals.SubPathResolves | lib/Kolab/DAVACL/PrincipalBackend.php:111-117 | only the first two pieces are compared, so a path below the user's principal, such as one of its proxy groups, also yields the user's record |
| Principals.GetGroupMemberSet | lib/Kolab/DAVACL/PrincipalBackend.php:126-137 | a group's only member is its parent path when that path is a known principal; otherwise the principal is not found |
| Principals.GetGroupMembership | lib/Kolab/DAVACL/PrincipalBackend.php:145-165 | a principal directly under `principals` belongs to its two calendar proxy groups (not found when it is unknown); any other path belongs to no group |
| Principals.ProxyGroupsListUser | lib/Kolab/DAVACL/PrincipalBackend.php:126-165 | membership and member sets agree: the user belongs to exactly its two proxy groups, and each of them lists the user as its only member |
| Principals.ScanSearch | lib/Kolab/DAVACL/PrincipalBackend.php:216-233 | the search stops early iff some property neither matches the user nor is the e-mail search; otherwise it reports a match iff some property matched |
| Principals.SearchPrincipals | lib/Kolab/DAVACL/PrincipalBackend.php:210-241 | the result is the current user's uri, exactly once, when the scan reports a match, and is empty otherwise |
| Principals.SearchFindsOnlyUser | lib/Kolab/DAVACL/PrincipalBackend.php:210-241 | the result holds at most the current user's uri; a non-e-mail property that does not match the user empties it, wherever it stands |
| Principals.SearchByDisplayname | lib/Kolab/DAVACL/PrincipalBackend.php:218-233 | a search for the user's own display name finds the user |
| Locks.GetLocks | lib/Kolab/DAV/Locks/File.php:72-96 | a lock is returned iff it is stored, is on the URI, is a deep lock on an ancestor, or (when child locks are asked for) is on a descendant, and has not expired |
| Locks.DeepLockCoversDescendants | lib/Kolab/DAV/Locks/File.php:79-87 | a live deep lock on a collection applies to everything below it; a depth-0 lock does not |
| Locks.NewLock | lib/Kolab/DAV/Locks/File.php:109-113 | the stored lock gets the fixed 30-minute timeout, the creation time, the URI and the request's token |
| Locks.Lock | lib/Kolab/DAV/Locks/File.php:105-127 | the new lock is appended last; the locks kept before it are exactly the stored ones with another token that have not expired; the result is always true |
| Locks.LockThenGetLocks | lib/Kolab/DAV/Locks/File.php:105-127 | after a lock, the URI's lookup finds it until its 30 minutes have passed, and it is the only stored lock with its token |
| Locks.FirstWithToken | lib/Kolab/DAV/Locks/File.php:140-141 | the first stored lock with the token; none iff no lock has it |
| Locks.Unlock | lib/Kolab/DAV/Locks/File.php:136-150 | unlock succeeds iff some stored lock has the token, and then exactly the first such lock is removed; otherwise the store is unchanged |
| Locks.LockThenUnlock | lib/Kolab/DAV/Locks/File.php:105-150 | locking and then unlocking with the same token succeeds and leaves no lock with that token |
| Locks.DataDir | lib/Kolab/DAV/Locks/File.php:184-185 | the directory, once computed, is kept for the backend's lifetime |
| Locks.LocksFile | lib/Kolab/DAV/Locks/File.php:182-192 | the lock file is `<base>/<user with @ replaced by _>/locks` |
| Locks.LocksFilePerUser | lib/Kolab/DAV/Locks/File.php:184-191 | the user's path piece contains no `@`, and distinct users without `_` in their names get distinct lock files |
| IMip.MethodOfSubject | lib/Kolab/CalDAV/IMip.php:75-86 | a subject announces one of REPLY, REQUEST or CANCEL, or none |
| IMip.SubjectNamesMethod | lib/Kolab/CalDAV/IMip.php:75-86 | reading the method back from the subject gives the upper-cased method for a reply, a request and a cancellation, and nothing for any other method, whatever the summary |
| IMip.LowerCaseRequestInvites | lib/Kolab/CalDAV/IMip.php:75-80 | methods are compared in upper case, so a lower-case `request` is an invitation |
| IMip.SubjectIgnoresCase | lib/Kolab/CalDAV/IMip.php:75-86 | for every method and summary, the subject does not depend on the case the method is written in |
| IMip.SenderOf | lib/Kolab/CalDAV/IMip.php:71-72 | the sender's address and name are the identity's, each falling back to the user's when empty |
| IMip.Compose | lib/Kolab/CalDAV/IMip.php:88-114 | the message goes to the IDN-converted recipient, with the originator as Reply-To, the method's subject, the sender as From and X-Sender, and a User-Agent iff one is configured |
| IMip.SendMessage | lib/Kolab/CalDAV/IMip.php:64-125 | one message per recipient, in order, each composed for that recipient; a failed delivery is reported among the failures, and the remaining recipients are still served |
| ContactsBackend.RegisterSpec | lib/Kolab/CardDAV/ContactsBackend.php:61-77 | after the loop, the books and folders are exactly those of the listed uids; the last folder listed with each uid is published under it; each name's alias and the `__all__` alias of the last default folder are set, and no other alias appears |
| ContactsBackend.RegisterOrder | lib/Kolab/CardDAV/ContactsBackend.php:61-71 | with distinct uids, the address books appear in listing order, one per folder |
| ContactsBackend.ReadSources | lib/Kolab/CardDAV/ContactsBackend.php:51-80 | the folders are read once per backend: a second read returns the cached state unchanged, and the user agent is never touched |
| ContactsBackend.ReadSourcesOnce | lib/Kolab/CardDAV/ContactsBackend.php:53-55 | reading twice is reading once, whatever folders the second read would list |
| ContactsBackend.ReadSourcesPublishes | lib/Kolab/CardDAV/ContactsBackend.php:61-77 | after the first read, every listed folder that is last with its uid is published with its CTag; the last default folder is the one `__all__` stands for |
| ContactsBackend.GetStorageFolder | lib/Kolab/CardDAV/ContactsBackend.php:89-102 | an alias is resolved first; a known uid yields its folder; otherwise a folder is found iff some contact folder carries the uid |
| ContactsBackend.AllBookIsDefaultFolder | lib/Kolab/CardDAV/ContactsBackend.php:74-76 | the folder behind `__all__` is the last default contact folder |
| ContactsBackend.CTags | lib/Kolab/CardDAV/ContactsBackend.php:148-151 | the CTags of the sources, in source order |
| ContactsBackend.AddressBooksForUser | lib/Kolab/CardDAV/ContactsBackend.php:111-131 | every book listed is owned by the requesting principal. For the Mac OS X address book with more than one source, the list is the single aggregate book; otherwise it is one entry per source, in order |
| ContactsBackend.AppleSeesOneBook | lib/Kolab/CardDAV/ContactsBackend.php:117-122 | the Mac OS X address book with several sources sees only the aggregate book, owned by the principal |
| ContactsBackend.ListedBookFound | lib/Kolab/CardDAV/ContactsBackend.php:111-168 | every book listed for a client other than Mac OS X is found again by its id |
| ContactsBackend.GetAddressBookByName | lib/Kolab/CardDAV/ContactsBackend.php:139-168 | `__all__` yields the aggregate book; any other name yields the source its alias resolves to, if there is one |
| ContactsBackend.AllBookCTag | lib/Kolab/CardDAV/ContactsBackend.php:147-157 | the aggregate book's CTag is the sources' CTags, in listing order, joined with `:` |
| ContactsBackend.AllBookCTagTracksChanges | lib/Kolab/CardDAV/ContactsBackend.php:147-157 | two listings that give the aggregate book the same CTag have the same IMAP status folder by folder, so any change in any source changes it |
| ContactsBackend.UpdateAddressBook | lib/Kolab/CardDAV/ContactsBackend.php:181-190 | `__all__` and an unknown book are refused; otherwise the folder gets folder_update as written: changes are sent iff some property is supported, with the folder's old name, its destination and the last colour, and the answer is `Answer` unless storage fails |
| ContactsBackend.CreateAddressBook | lib/Kolab/CardDAV/ContactsBackend.php:200-205 | a new book is a contact folder created under the requested url; the url is returned iff storage created the folder |
| ContactsBackend.DeleteAddressBook | lib/Kolab/CardDAV/ContactsBackend.php:213-228 | `__all__` is never deleted; otherwise exactly the resolved folder's IMAP name is deleted, and nothing when none resolves |
| ContactsBackend.DeleteListedBook | lib/Kolab/CardDAV/ContactsBackend.php:139-228 | for a listed folder that is the last with its uid, looking its book up by uid finds that folder's source, and deleting the book deletes exactly that folder's IMAP name |
| ContactsBackend.SetUserAgent | lib/Kolab/CardDAV/ContactsBackend.php:496-510 | the first class whose pattern matches wins, in the order Thunderbird, Mac OS X address book, iOS; when none matches, the previous class is kept; nothing else changes |
| ContactsBackend.DataAccessdIsIos | lib/Kolab/CardDAV/ContactsBackend.php:501 | an iOS agent string such as `iOS/8.1 (12B411) dataaccessd/1.0` is recognised as iOS |
| ContactsBackend.DataAccessdSelectsIos | lib/Kolab/CardDAV/ContactsBackend.php:498-509 | `DataAccessd/1` selects the iOS class |
| ContactsBackend.IosAgentByPrefix | lib/Kolab/CardDAV/ContactsBackend.php:496-509 | any agent string that starts with `iOS/` or a dataaccessd token followed by a digit matches the iOS pattern |
| ContactCards.SelectTypes | lib/Kolab/CardDAV/ContactsBackend.php:260-264 | the selection keeps exactly the objects whose type is among those asked for, and never grows |
| ContactCards.FolderCards | lib/Kolab/CardDAV/ContactsBackend.php:260-273 | one entry per listed object, in order, each with the object's uid as id, the uid plus `.vcf` as uri, the object's ETag and its change time |
| ContactCards.AllCards | lib/Kolab/CardDAV/ContactsBackend.php:252-257 | the merged listing holds every card of every source and nothing else |
| ContactCards.GetCards | lib/Kolab/CardDAV/ContactsBackend.php:247-276 | a single book lists its own folder's cards; the aggregate book lists nothing before the sources are read |
| ContactCards.AllBookListsEverySource | lib/Kolab/CardDAV/ContactsBackend.php:252-257 | the aggregate book lists every card any source lists, and only such cards |
| ContactCards.GroupsHiddenFromThunderbird | lib/Kolab/CardDAV/ContactsBackend.php:260-261 | Thunderbird sees only contacts; every other client also sees every distribution list of the folder |
| ContactCards.GetCardByUid | lib/Kolab/CardDAV/ContactsBackend.php:520-529 | a card found by uid comes with a folder that holds it; none is found iff no folder holds the uid |
| ContactCards.FindCard | lib/Kolab/CardDAV/ContactsBackend.php:292-301 | for a single book, a missing folder is an error (a call on null); the aggregate book searches all folders; a card found carries the uid asked for |
| ContactCards.GetCard | lib/Kolab/CardDAV/ContactsBackend.php:288-314 | the card is returned iff the lookup finds it, with the requested uid as id, `<uid>.vcf` as uri, its ETag, and its vCard as written for the current client with its dates converted; no card gives the empty answer, and a missing folder stays an error |
| ContactCards.ParseVcard | lib/Kolab/CardDAV/ContactsBackend.php:571-599 | a contact results iff the text (or the cached parse with the same UID) is a VCARD whose dates all convert and whose UID is truthy; the contact is its conversion, and a cached parse is used only for that uid. A date that does not convert is not a parse error: the exception escapes |
| ContactCards.StaleCardIgnored | lib/Kolab/CardDAV/ContactsBackend.php:575-581 | a cached parse of another card has no effect: the text is parsed afresh |
| ContactCards.UpdateTarget | lib/Kolab/CardDAV/ContactsBackend.php:416-422 | a single book updates in its own folder; the aggregate book finds a folder iff some folder holds the uid; a prior card found is the one stored under the uid |
| ContactCards.UpdateCard | lib/Kolab/CardDAV/ContactsBackend.php:398-459 | the errors in order, each an iff: a date that does not convert (an uncaught exception), a uid that differs from the uri, no folder, a folder that is not writeable, a failed save; an error leaves the store unchanged and only a failed save clears the redirect; success returns the new ETag and changes only the target folder |
| ContactCards.UpdatedCard | lib/Kolab/CardDAV/ContactsBackend.php:439-442 | copying metadata from the old card keeps the uid |
| ContactCards.UpdatedCardKeeps | lib/Kolab/CardDAV/ContactsBackend.php:438-445 | every set or non-metadata field of the new card is kept; every metadata field the new card leaves unset comes from the old card |
| ContactCards.UpdateStores | lib/Kolab/CardDAV/ContactsBackend.php:438-458 | a successful update saves the parsed card, with the old card's metadata, into the target folder under the uri's uid |
| ContactCards.UpdateThenRead | lib/Kolab/CardDAV/ContactsBackend.php:398-459 | after a successful update, reading the uid back finds the card with the new message uid, the new card's fields and the old card's unset metadata |
| ContactCards.CreateCard | lib/Kolab/CardDAV/ContactsBackend.php:339-376 | a date that does not convert is the uncaught exception, and other unparseable data a parse error; a body uid that names an existing card becomes an update of it with a redirect; otherwise the card is saved in the book's folder, the ETag is returned, and the redirect names the body uid when it differs from the uri |
| ContactCards.FailedWriteKeepsStore | lib/Kolab/CardDAV/ContactsBackend.php:347-366 | a create that fails leaves the store as it was |
| ContactCards.CreateOwnName | lib/Kolab/CardDAV/ContactsBackend.php:358-375 | a card whose body uid matches its uri is saved as a new object in the book's folder and its ETag is returned, without a redirect |
| ContactCards.CreateThenGet | lib/Kolab/CardDAV/ContactsBackend.php:288-376 | a new card created under its own uid is then read back under that uid, with the ETag the create returned and the vCard of the parsed contact |
| ContactCards.PutThenGetReadsBack | lib/Kolab/CardDAV/ContactsBackend.php:288-376 | for a contact whose vCard round-trips, reading the created card back and parsing it gives exactly `ReadBack` of the stored contact: the same contact without e-mail types, without members lacking a uid, and without an anniversary the date conversion dropped |
| ContactCards.RedirectNamesBodyUid | lib/Kolab/CardDAV/ContactsBackend.php:351-372 | when the body's uid differs from the uri, a successful create redirects to the body uid's uri |
| ContactCards.DeleteCard | lib/Kolab/CardDAV/ContactsBackend.php:468-490 | a missing or read-only folder is refused with MethodNotAllowed; otherwise the card is gone from its folder, every other card of that folder stays, and no other folder changes |
| ContactCards.DeleteThenGet | lib/Kolab/CardDAV/ContactsBackend.php:288-314 | after a delete, reading the card gives the empty answer |
| VCards.ArrayFilter | lib/Kolab/CardDAV/ContactsBackend.php:941-959 | the values kept are exactly those of the array whose lower-cased form is listed (or, inverted, not listed); an empty result means no value is kept |
| VCards.ArrayFilterFirst | lib/Kolab/CardDAV/ContactsBackend.php:941-959 | the first value of a non-empty result is the first value of the array that is kept, so `$types[0]` is the first TYPE not filtered out |
| VCards.PhoneTables | lib/Kolab/CardDAV/ContactsBackend.php:552-558 | the phone type table, and its `array_flip` in which "fax" maps to "workfax", the later of its two keys |
| VCards.TableWordsLower | lib/Kolab/CardDAV/ContactsBackend.php:552-558 | the words of the phone table are lower case and survive upper-casing and lower-casing |
| VCards.DecodeSingleTel | lib/Kolab/CardDAV/ContactsBackend.php:831-834 | a single TEL type that is neither "internet" nor "pref" is lower-cased and mapped through the flipped table, or kept when the table lacks it |
| VCards.TelTypeRoundTrip | lib/Kolab/CardDAV/ContactsBackend.php:674-676 | a phone type written as a TEL TYPE reads back as itself, for every type other than "homefax" whose table entry is not an ignored TYPE |
| VCards.EncodedTelLower | lib/Kolab/CardDAV/ContactsBackend.php:675-676 | lower-casing the TYPE written for a phone type gives its table entry, or the type itself when the table lacks it |
| VCards.TableInverse | lib/Kolab/CardDAV/ContactsBackend.php:552-558 | the flipped table undoes the table for every phone type that round-trips, and the table never produces "internet" or "pref" |
| VCards.HomefaxBecomesWorkfax | lib/Kolab/CardDAV/ContactsBackend.php:552-558 | home and work fax numbers are both written as TYPE=FAX, and that reads back as "workfax" |
| VCards.EmailTypeFromParameters | lib/Kolab/CardDAV/ContactsBackend.php:821-823 | the e-mail type is the first TYPE other than "internet" or "pref", lower-cased; with none it is "other" |
| VCards.UntypedEmailReadsOther | lib/Kolab/CardDAV/ContactsBackend.php:670-672 | an address without a type is written as TYPE=INTERNET, the trailing comma trimmed, and reads back with the type "other" |
| VCards.MemberValue | lib/Kolab/CardDAV/ContactsBackend.php:901-911 | the corrected member value, the one the reader accepts: `urn:uuid:` and the uid for a member with a uid; `mailto:` followed by the url-encoded address for one with only an e-mail address; one with neither repeats the value written before it |
| VCards.MemberProps | lib/Kolab/CardDAV/ContactsBackend.php:629-639 | as written, one ungrouped MEMBER property per member under the client's name prefix, without TYPE; a member with a uid is written `urn:uuid:<uid>`, one with only an e-mail address as the whole url-encoded `mailto:` string, and one with neither repeats the previous value |
| VCards.DecodeMember | lib/Kolab/CardDAV/ContactsBackend.php:901-911 | a `urn:uuid:` value names the member by the rest of the value; a `mailto:` value by the first address it lists; any other value names nobody |
| VCards.MemberValueDecodes | lib/Kolab/CardDAV/ContactsBackend.php:901-911 | the corrected value written for a member reads back as that member, for an address urldecode restores and the address parser splits into e-mail and name |
| VCards.MemberValueAsWrittenDecodes | lib/Kolab/CardDAV/ContactsBackend.php:629-639 | as written, a member with a uid reads back as itself, and a member known only by e-mail address reads back as nobody when urlencode escapes `:` |
| VCards.UidMembersKeep | lib/Kolab/CardDAV/ContactsBackend.php:901-911 | the members read back are exactly the written members that have a uid |
| VCards.ReadProp | lib/Kolab/CardDAV/ContactsBackend.php:794-924 | reading one property never changes the uid or the name, which come only from UID and FN |
| VCards.FirstSelected | lib/Kolab/CardDAV/ContactsBackend.php:782-783 | the first property with the name in the group, if any; none exactly when no property is selected |
| VCards.RemoveSelected | lib/Kolab/CardDAV/ContactsBackend.php:786 | unsetting keeps exactly the properties that are not selected |
| VCards.AppleAnniversaryNoDate | lib/Kolab/CardDAV/ContactsBackend.php:780-789 | a card without X-ABDATE is left as it is by the anniversary pass |
| VCards.AppleAnniversaryAt | lib/Kolab/CardDAV/ContactsBackend.php:780-789 | an X-ABDATE whose group's first label reads "anniversary" becomes an ungrouped ANNIVERSARY, its label is removed and the pass stops |
| VCards.ToArray | lib/Kolab/CardDAV/ContactsBackend.php:762-930 | no contact iff some date property of the card (after the Apple anniversary pass) does not convert, the exception `new DateTime` throws; otherwise the contact's uid and name are the first UID and FN values |
| VCards.ToVcard | lib/Kolab/CardDAV/ContactsBackend.php:608-622 | a VCARD, version 4.0 for a group sent to a client other than Apple's and 3.0 otherwise |
| VCards.WrittenAnniversaryForm | lib/Kolab/CardDAV/ContactsBackend.php:702-747 | an anniversary that converts to a date is written as ANNIVERSARY, except for Apple clients, whose card has no ANNIVERSARY but the labelled X-ABDATE instead |
| VCards.AnniversaryDate | lib/Kolab/CardDAV/ContactsBackend.php:702-721 | a date is written only for an anniversary, and exactly when the date conversion accepts it |
| VCards.Body | lib/Kolab/CardDAV/ContactsBackend.php:614-615 | every written card starts with UID and FN carrying the contact's uid and name |
| VCards.CustomPropReads | lib/Kolab/CardDAV/ContactsBackend.php:738-741 | a custom property written by key carries a plain custom name and reads back under the same key and value |
| VCards.CustomNames | lib/Kolab/CardDAV/ContactsBackend.php:739-741 | every custom property written from round-tripping keys carries a plain custom name |
| VCards.ReadBody | lib/Kolab/CardDAV/ContactsBackend.php:614-676 | the properties written before the anniversary read back as the contact's type, the group members that have a uid, the e-mail addresses with their types re-read from TYPE, and the phone numbers |
| VCards.AppleDateLabelled | lib/Kolab/CardDAV/ContactsBackend.php:743-747 | the label written after an Apple date is the first label of its group |
| VCards.AppleDateReads | lib/Kolab/CardDAV/ContactsBackend.php:743-747 | the Apple date and label, read by the anniversary pass, become a plain ANNIVERSARY and the label is gone |
| VCards.AppleFormKeepsOrder | lib/Kolab/CardDAV/ContactsBackend.php:719-747 | for Apple clients the plain ANNIVERSARY is dropped and the labelled date follows the custom properties |
| VCards.AppleCardRewritten | lib/Kolab/CardDAV/ContactsBackend.php:743-789 | the anniversary pass turns an Apple card's labelled date back into a plain ANNIVERSARY after the custom properties |
| VCards.ReadAppleAnniversary | lib/Kolab/CardDAV/ContactsBackend.php:608-930 | a card written for Apple clients with an anniversary that converts reads back as `ReadBack` of the contact |
| VCards.PlainCardUnchanged | lib/Kolab/CardDAV/ContactsBackend.php:719-747 | without the Apple date form, the anniversary stays a plain property before the custom ones, and the anniversary pass changes nothing |
| VCards.ReadPlainCard | lib/Kolab/CardDAV/ContactsBackend.php:608-930 | a card written without the Apple date form reads back as `ReadBack` of the contact |
| VCards.WrittenHead | lib/Kolab/CardDAV/ContactsBackend.php:614-615 | the first two properties of a written card are UID and FN with the contact's values |
| VCards.ReadWrittenCard | lib/Kolab/CardDAV/ContactsBackend.php:608-930 | for every client, reading a written card gives exactly `ReadBack` of the contact: the members kept are those with a uid, the anniversary comes back iff there was none or it converts to a date, and the e-mail addresses come back in order with their addresses |
| VCards.ReadBack | lib/Kolab/CardDAV/ContactsBackend.php:608-930 | the contact a written card reads back as differs from the contact at most in its members, e-mail addresses and anniversary |
| VCards.WrittenDatesParse | lib/Kolab/CardDAV/ContactsBackend.php:702-721 | for a contact whose anniversary date reads back as itself, every date property of the written card converts again on reading, so such a card never trips the date exception |
| VCards.EmailMemberDroppedAsWritten | lib/Kolab/CardDAV/ContactsBackend.php:634-637 | a member known only by e-mail address, written as the code writes it, reads back as nothing when urlencode escapes ':' |
| VCards.EmailMemberKept | lib/Kolab/CardDAV/ContactsBackend.php:901-910 | the same member written with only its address part urlencoded reads back as the member |
| CardDavPlugin.BeforeMethod | lib/Kolab/CardDAV/Plugin.php:60-72 | the If-None-Match header is dropped exactly for a PUT with `If-None-Match: *` whose User-Agent first contains "Thunderbird/" at a position after the first character; every other request keeps it |
| CardDavPlugin.AgentAtStartKeepsHeader | lib/Kolab/CardDAV/Plugin.php:68 | an agent that starts with "Thunderbird/" keeps its header, since position 0 is not greater than 0 |
| CardDavPlugin.OtherRequestsUntouched | lib/Kolab/CardDAV/Plugin.php:62 | a request that is not a PUT, or carries another If-None-Match, keeps its header |
| CardDavPlugin.AfterWriteContent | lib/Kolab/CardDAV/Plugin.php:77-87 | a Location header is sent iff a redirect name is pending; it names the redirect within the request's collection and clears the name; without one nothing changes |
| CardDavPlugin.CreateRedirectLocation | lib/Kolab/CardDAV/Plugin.php:77-87 | after a create whose body names another uid, the Location starts with the base URI and its decoded pieces are the request's collection followed by the body uid's card name |
| CardDavPlugin.Verdict | lib/Kolab/CardDAV/Plugin.php:107-124 | a body that does not parse or is not a VCARD is unsupported media; a VCARD without UID is a bad request; only a VCARD with a UID is accepted |
| CardDavPlugin.ValidateVCardAsWritten | lib/Kolab/CardDAV/Plugin.php:97-125 | the verdict on the body; the parsed VCARD goes to the instance property and the static cache is untouched |
| CardDavPlugin.CacheNeverFilledAsWritten | lib/Kolab/CardDAV/Plugin.php:112 | as written, a request that starts without a cached card never lets the backend reuse the validated one, whatever the uid |
| CardDavPlugin.ValidCardReadTwiceAsWritten | lib/Kolab/CardDAV/Plugin.php:112 | a concrete valid card whose UID is the uri's is accepted and is still parsed a second time by the backend |
| CardDavPlugin.ValidateVCard | lib/Kolab/CardDAV/Plugin.php:97-125 | the same verdict; a parsed VCARD is kept in the static cache, and any other body leaves the cache as it was |
| CardDavPlugin.ValidatedCardReused | lib/Kolab/CardDAV/ContactsBackend.php:575-581 | with the cache filled by validation, the backend reuses the card exactly for the uid that is the card's UID, and reusing it gives the same contact as parsing the body again |
| FileTree.NormalizePath | lib/Kolab/DAV/Node.php:79-84 | the root's own name becomes the empty path; a path below the root loses exactly the root prefix; any other path is kept |
| FileTree.ChildPathNormalizes | lib/Kolab/DAV/Collection.php:62 | a child built from `files/<p>` has the path `p` |
| FileTree.NewCollection | lib/Kolab/DAV/Node.php:72-85 | a collection carries the normalised path, no file data and no cached children |
| FileTree.NewFile | lib/Kolab/DAV/Collection.php:74-76 | a file carries the normalised path and the backend's data for it |
| FileTree.NameOfChildPath | lib/Kolab/DAV/Node.php:152-159 | the name of `<parent>/<name>` is `name`, and its pieces are the parent's pieces followed by the name |
| FileTree.RenameKeepsParent | lib/Kolab/DAV/Node.php:127-131 | the rename target keeps every piece of the old path but the last, which becomes the new name |
| FileTree.TopLevelRenameTarget | lib/Kolab/DAV/Node.php:129-131 | a node directly below the root is renamed to the new name behind a leading '/' |
| FileTree.SubCollections | lib/Kolab/DAV/Collection.php:56-64 | the sub-collections are exactly the listed folders one level below the collection, each fresh, in the backend's order |
| FileTree.FileNodes | lib/Kolab/DAV/Collection.php:74-76 | one file node per listed file, in order, with its path and data |
| FileTree.GetChildren | lib/Kolab/DAV/Collection.php:38-80 | cached children are returned as they are; otherwise the children are listed from the backend's answers and become the cache |
| FileTree.CachedChildrenStable | lib/Kolab/DAV/Collection.php:41-43 | once listed, the children stay what they were whatever the backend answers later |
| FileTree.ChildrenSelection | lib/Kolab/DAV/Collection.php:45-77 | an uncached listing holds exactly the sub-collections among the backend's folders and, below the root, exactly the backend's files; the root lists no file; a failed backend call lists nothing |
| FileTree.SubCollectionOneLevelDown | lib/Kolab/DAV/Collection.php:57-60 | a sub-collection of a collection below the root is the collection's path, '/', and a name without '/' |
| FileTree.RootSubCollections | lib/Kolab/DAV/Collection.php:57-60 | the root's sub-collections are the top-level folders and the folders of the form `/<name>` |
| FileTree.SubCollectionShape | lib/Kolab/DAV/Collection.php:57-60 | a folder one '/' deeper than a path and starting with `path/` is `path/<name>` |
| FileTree.FirstNamed | lib/Kolab/DAV/Collection.php:104-108 | the child found carries the name; none is found exactly when no child does |
| FileTree.GetChild | lib/Kolab/DAV/Collection.php:96-111 | a name starting with '.' is not found, without listing; otherwise the child found is a listed child with the name, and not found means no listed child has it |
| FileTree.ChildExists | lib/Kolab/DAV/Collection.php:121-130 | true exactly when the name is not hidden and some listed child carries it |
| FileTree.ChildExistsAgreesWithGetChild | lib/Kolab/DAV/Collection.php:121-130 | the existence test answers true exactly when the lookup returns a node, and both leave the same cache |
| FileTree.ResetCache | lib/Kolab/DAV/Node.php:114-117 | a parent, when there is one, loses its cached children and nothing else |
| FileTree.TypeHint | lib/Kolab/DAV/Node.php:166-171 | the node's own content type when it has one, otherwise `application/octet-stream` |
| FileTree.MakeFileData | lib/Kolab/DAV/Node.php:164-199 | the content as given, with the type detected from the content, the name and the hint |
| FileTree.DeleteFolder | lib/Kolab/DAV/Node.php:105-118 | the backend is asked to delete the folder; a failure is Forbidden and keeps the parent's cache; a success empties it |
| FileTree.DeleteFolderThenListing | lib/Kolab/DAV/Node.php:105-118 | after a successful folder delete, listing the parent asks the backend again and shows exactly what it now answers; when the backend no longer lists the folder, no child collection has its path |
| FileTree.SetName | lib/Kolab/DAV/Node.php:127-146 | a file is moved with the file move and a folder with the folder move, to the rename target; a failure is Forbidden and keeps the parent's cache; a success empties it |
| FileTree.CreateFile | lib/Kolab/DAV/Collection.php:156-175 | a hidden name is Forbidden and calls nothing; otherwise the file is created below the collection with its detected type, a backend failure is swallowed, and the cache is emptied |
| FileTree.CreateDirectory | lib/Kolab/DAV/Collection.php:184-202 | a hidden name is Forbidden and calls nothing; otherwise the folder is created below the collection; a backend failure is Forbidden and keeps the cache; a success empties it |
| FileTree.CreateDirectoryThenExists | lib/Kolab/DAV/Collection.php:38-202 | once the backend lists the folder a creation asked for, the collection reports a child of that name, at the root as below it |
| FileTree.FileETagReflectsModified | lib/Kolab/DAV/File.php:137-140 | two versions of a file at the same path with different modification times have different tags |
| FileTree.GetSize | lib/Kolab/DAV/File.php:122-125 | the size from the file data, and null without data |
| FileTree.GetContentType | lib/Kolab/DAV/File.php:149-152 | the type from the file data, and null without data |
| FileTree.GetLastModified | lib/Kolab/DAV/Node.php:94-97 | the modification time when it is set and not zero, null otherwise |
| FileTree.UpdateProperties | lib/Kolab/DAV/File.php:189-193 | no property change is ever accepted |
| FileTree.GetProperties | lib/Kolab/DAV/File.php:210-219 | only the creation date is returned, as an HTTP date, and only when the file has a non-zero creation time |
| FileTree.DeleteFile | lib/Kolab/DAV/File.php:102-115 | the backend is asked to delete the file, its failure is swallowed, and the parent's cache is emptied either way |
| FileTree.DeleteFileThenListing | lib/Kolab/DAV/File.php:102-115 | after a file delete, listing the parent asks the backend again and shows exactly what it now answers; when the backend no longer lists the file, no child file has its path |
| FileTree.Put | lib/Kolab/DAV/File.php:56-74 | the backend is asked to update the file with the detected content type; the file then holds the data read back, or its old data when that fails, and the result is the tag of what it holds |
| FileTree.PutReturnsStoredTag | lib/Kolab/DAV/File.php:56-74 | after a put whose read-back succeeds, the tag returned is the stored file's tag, and a later modification time gives a different one |

## Left out

- Storage, IMAP and the network are inputs: the folder list, the objects a folder holds, the outcome of a save, delete, create or rename, folder rights and namespaces, and annotation writes. The model shows what the code asks storage for and what it does with the answers, not how `kolab_storage` answers.
- Foreign code is reduced to parameters: the VObject reader and serialiser, the libkolab and libcalendaring converters, md5, urlencode and urldecode, base64, `rcube_mime` address parsing and content-type detection, and Sabre's `splitPath` and HTTP date formatting. Properties that need something of them, such as "urldecode inverts urlencode", are preconditions of the lemmas that use them.
- The clock is a parameter. `now` and `created` in the lock backend, and the change times of objects and files, are given, not read.
- Records.GetObject: the storage lookup of an object by uid is the first object in the folder carrying it. The IMAP search order behind `get_object` belongs to storage.
- PHP's loose `==` is modelled as equality of strings. The numeric-string comparisons PHP would also make are not.
- A method called on a folder lookup that returned null is a PHP fatal error. The model returns the error result `NullFolder` in its place; this covers creating and updating calendar objects, reading a card, creating a card, renaming a calendar, and a calendar's owner and ACL, whenever the folder does not resolve. A colour-only PROPPATCH on a calendar that does not resolve is not fatal in the code, and the model follows it: the colour is sent under an empty name and parent.
- CollectionNodes.RightsAcl: the ACL a node falls back to when rights are missing or unreadable is the parent class's default. It is represented by the marker `ParentDefault`, not by its entries.
- VCards.ReadWrittenCard: group members with neither uid nor e-mail address are excluded from the round trip by a precondition. The code writes the previous member's value again for them, so what they read back as depends on the order of the list; `MemberProps` states the repetition.
- The vCard fields copied one to one are not modelled: N, NICKNAME, TITLE, ORG, the X- relations, URL, IM, ADR, NOTE, SEX, CATEGORIES, FBURL, PHOTO and REV. Only groups, members, e-mail addresses, phone numbers, the anniversary and the custom properties are. The birthday is not written, and of BDAY on reading only one thing is modelled: a value `DateTime` rejects makes the card unreadable.
- Date conversion is a parameter of the codec: `dateValue` stands for `strtotime`, `new DateTime` and the DATE formatting of `datetime_prop`, and `parseDate` for `new DateTime` on reading. A date it rejects on reading raises an exception that `parse_vcard` does not catch, since it catches only `ParseException`. The model returns the error result `DateError` in its place.
- VCards.ReadWrittenCard: e-mail types are not claimed to round-trip. The vCard 3 reader of the library in use keeps a comma-joined TYPE as one value, so `INTERNET,HOME` is not read back as two types; the lemma states that the addresses come back, in order.
- The calendar sharing branch is not modelled. It sits behind `if (false && ...)` in `_read_calendars` and can never run.
- The SharingSupport and notification branches of the calendar home's child list are not modelled. The backend implements neither interface.
- Free/busy lookups (`getFreeBusyForEmail`) are not modelled. They make an HTTP request with a retry after 401, which is network I/O.
- Attachment downloads in `getCalendarObject` are not modelled. They stream the attachment with `header()` and `exit` instead of returning a value.
- `File.get` is not modelled, because it only streams the backend's content into a temporary stream.
- Lock file reading and writing is not modelled: `getData`, `putData`, `flock` and `mkdir` are file I/O. The lock list is passed in and returned.
- The iMIP Date and Message-ID headers and the multipart MIME body are not modelled; they are built by the mail library. Delivery is the `deliver` parameter, and SMTP is not modelled.
- `setGroupMemberSet` and `updatePrincipal` in the principal backend are not modelled, because they are empty stubs.
- Authentication and bootstrap are not modelled: HTTP Basic login against IMAP, the user cache, the server setup in `index.php`, logging and the temp-files plugin.

## Findings

| source | as written | input that shows it | evidently intended | confidence | as-written member | corrected member |
|---|---|---|---|---|---|---|
| lib/Kolab/Utils/DAVBackend.php:148 | the separator class `[»:]` has no `u` flag, so it matches one of the bytes C2, BB or ':' | the display name "Parent » Child", with `»` encoded as C2 BB, stays one piece, and the folder is renamed to the whole string | `»` is matched as one UTF-8 character, so the name splits into parent "Parent" and name "Child" | medium, not executed | DavBackend.GuillemetKeptAsWritten | DavBackend.GuillemetSplits |
| lib/Kolab/Utils/DAVBackend.php:162-189 | supported properties are applied even when another property is refused | a PROPPATCH that sets the display name and also an unsupported property renames the folder and still answers 403 for the other property | nothing is applied when any property is refused, as section 9.2 of RFC 4918 requires | high, not executed | DavBackend.FolderUpdateAsWrittenNotAtomic | DavBackend.FolderUpdateAtomic |
| lib/Kolab/Utils/DAVBackend.php:107-110 | the server port is appended after the Host header, which may already carry a port | Host `h:8080` on server port 8080, over plain HTTP, gives `http://h:8080:8080/` | the port is named once: after a Host without a port, and only when it is not the scheme's default | medium, not executed | DavBackend.AbsUrlAsWrittenDoublesPort | DavBackend.AbsUrlPortShown |
| lib/Kolab/CardDAV/ContactsBackend.php:634-637 | the whole `mailto:` value of a member is urlencoded, so its colon becomes `%3A` | a group member with only an e-mail address is written as `mailto%3A...`; reading the card back drops it, since the value starts with neither `urn:uuid:` nor `mailto:` | only the address part is encoded, so the member reads back | high, not executed | VCards.EmailMemberDroppedAsWritten | VCards.EmailMemberKept |
| lib/Kolab/CardDAV/Plugin.php:112 | the validated card is stored in an instance property, while the backend reads the static `$parsed_vcard` declared at line 37 | a valid card with UID `u1` PUT to `u1.vcf` is accepted, and the backend parses the body a second time | the static cache is filled, so the backend reuses the validated card for its own uid | high, not executed | CardDavPlugin.ValidCardReadTwiceAsWritten | CardDavPlugin.ValidatedCardReused |
