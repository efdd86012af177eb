/**
 * The data model shared by the Kolab DAV backends: the outcome of an
 * operation, the errors it reports to the DAV server, and the Kolab storage
 * folder (an IMAP folder with Kolab annotations) that every collection maps to.
 */
module DavCommon {
  import opened Options

  /** The exceptions and error statuses a backend reports to the DAV server. */
  datatype DavError =
    | NotFound          // Sabre\DAV\Exception\NotFound (404)
    | Forbidden         // 403
    | MethodNotAllowed  // 405
    | BadRequest        // 400
    | InvalidComponentType  // CalDAV precondition supported-calendar-component (403)
    | UnsupportedMedia  // 415, a body of the wrong content type
    | ParseError        // DAV\Exception 'Parse error: not a valid ... object'
    | SaveError         // DAV\Exception 'Error saving ... object to backend'
    | UidMismatch       // NotFound "UID doesn't match object URI"
    | NullFolder        // a method called on a folder lookup that returned null (a PHP fatal error)
    | DateError         // an exception DateTime throws on an unparsable date, which nothing catches

  /** The outcome of an operation that either yields a value or fails with an error. */
  datatype Result<+T> = Ok(value: T) | Err(error: DavError) {
    predicate IsFailure() { Err? }
  }

  /** The IMAP namespace a folder lives in. */
  datatype Namespace = Personal | OtherUsers | Shared

  /** The IMAP status values used for collection change tags. */
  datatype ImapData = ImapData(uidValidity: nat, highestModSeq: nat, uidNext: nat)

  /** A Kolab storage folder, as the storage layer reports it. */
  datatype Folder = Folder(
    name: string,                   // full IMAP folder name, '/'-separated
    owner: string,                  // get_owner()
    ns: Namespace,                  // get_namespace()
    ftype: string,                  // Kolab folder type: "event", "task", "contact", ...
    isDefault: bool,                // the user's default folder of its type
    metadata: map<string, string>,  // IMAP METADATA annotations
    status: ImapData,               // get_imap_data()
    rights: Option<string>,         // get_myrights(); None stands for a storage error
    displayName: string,            // get_name()
    color: string)                  // get_color()

  /** A lower-case hexadecimal MD5 digest. */
  predicate IsHexDigest(h: string) {
    |h| == 32 && forall i :: 0 <= i < |h| ==> h[i] in "0123456789abcdef"
  }

  /** md5() as a parameter: any function returning hexadecimal digests. */
  ghost predicate IsMd5(md5: string -> string) {
    forall s :: IsHexDigest(md5(s))
  }
}
