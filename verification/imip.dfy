/**
 * The iMIP handler (RFC 6047): every scheduling message of an iTIP exchange
 * (RFC 5546) goes out by e-mail, one message per recipient, with a subject
 * chosen by the iTIP method. Message composition, address conversion and
 * SMTP delivery are collaborators given as functions; the message date and
 * Message-ID are left to them as well.
 */
module IMip {
  import opened Options
  import opened Strings

  const ReplyPrefix := "Response for: "
  const RequestPrefix := "Invitation for: "
  const CancelPrefix := "Cancelled event: "
  const DefaultSubject := "KolabDAV iTIP message"

  /**
   * The subject for an iTIP method (section 1.4 of RFC 5546), compared in
   * upper case: a reply, a request and a cancellation name the event's
   * summary; any other method gets the fixed subject.
   */
  function Subject(itipMethod: string, summary: string): string {
    var m := ToUpper(itipMethod);
    if m == "REPLY" then ReplyPrefix + summary
    else if m == "REQUEST" then RequestPrefix + summary
    else if m == "CANCEL" then CancelPrefix + summary
    else DefaultSubject
  }

  /** The iTIP method a subject announces, read back from its fixed text: the reader of `Subject`. */
  function MethodOfSubject(subject: string): (r: Option<string>)
    ensures r.Some? ==> r.value in ["REPLY", "REQUEST", "CANCEL"]
  {
    if StartsWith(subject, ReplyPrefix) then Some("REPLY")
    else if StartsWith(subject, RequestPrefix) then Some("REQUEST")
    else if StartsWith(subject, CancelPrefix) then Some("CANCEL")
    else None
  }

  /** `p + s` starts with `p` and with no string whose first character differs from `p`'s. */
  lemma PrefixedStarts(p: string, s: string, q: string)
    requires |p| > 0 && |q| > 0 && p[0] != q[0]
    ensures StartsWith(p + s, p) && !StartsWith(p + s, q)
  {
    assert (p + s)[..|p|] == p;
    if |q| <= |p + s| {
      assert (p + s)[..|q|][0] == p[0];
    }
  }

  /**
   * The subject names the method: reading the method back from the subject
   * gives the upper-cased method for a reply, a request and a
   * cancellation, and nothing for every other method, whatever the summary.
   */
  lemma SubjectNamesMethod(itipMethod: string, summary: string)
    ensures var m := ToUpper(itipMethod);
      MethodOfSubject(Subject(itipMethod, summary)) == (if m in ["REPLY", "REQUEST", "CANCEL"] then Some(m) else None)
  {
    var m := ToUpper(itipMethod);
    assert ReplyPrefix[0] == 'R' && RequestPrefix[0] == 'I' && CancelPrefix[0] == 'C' && DefaultSubject[0] == 'K';
    if m == "REPLY" {
      PrefixedStarts(ReplyPrefix, summary, RequestPrefix);
    } else if m == "REQUEST" {
      PrefixedStarts(RequestPrefix, summary, ReplyPrefix);
    } else if m == "CANCEL" {
      PrefixedStarts(CancelPrefix, summary, ReplyPrefix);
      PrefixedStarts(CancelPrefix, summary, RequestPrefix);
    } else {
      PrefixedStarts(DefaultSubject, "", ReplyPrefix);
      PrefixedStarts(DefaultSubject, "", RequestPrefix);
      PrefixedStarts(DefaultSubject, "", CancelPrefix);
      assert DefaultSubject + "" == DefaultSubject;
    }
  }

  /** The method is compared in upper case: a lower-case "request" is an invitation. */
  lemma LowerCaseRequestInvites(summary: string)
    ensures Subject("request", summary) == RequestPrefix + summary
  {
    assert ToUpper("request") == "REQUEST";
  }

  /** The method is compared in upper case: any capitalisation of a method gives the same subject. */
  lemma SubjectIgnoresCase(itipMethod: string, summary: string)
    ensures Subject(itipMethod, summary) == Subject(ToUpper(itipMethod), summary)
  {
    assert ToUpper(ToUpper(itipMethod)) == ToUpper(itipMethod);
  }

  /** The sender: the identity's address and name, each falling back to the user's when empty. */
  datatype Sender = Sender(email: string, name: string)

  function SenderOf(identityEmail: string, identityName: string, userEmail: string, userName: string): (r: Sender)
    ensures Truthy(identityEmail) ==> r.email == identityEmail
    ensures !Truthy(identityEmail) ==> r.email == userEmail
    ensures Truthy(identityName) ==> r.name == identityName
    ensures !Truthy(identityName) ==> r.name == userName
  {
    Sender(if Truthy(identityEmail) then identityEmail else userEmail,
           if Truthy(identityName) then identityName else userName)
  }

  /** The headers and body of one composed message. */
  datatype Message = Message(
    to: string,
    from: string,
    replyTo: string,
    xSender: string,
    subject: string,
    userAgent: Option<string>,
    itipMethod: string,
    body: string)

  /** The mail helpers the handler calls. */
  datatype Mailer = Mailer(
    idnToAscii: string -> string,               // rcube_utils::idn_to_ascii
    formatRecipient: (string, string) -> string, // format_email_recipient
    deliver: Message -> bool)                   // deliver_message: whether SMTP accepted it

  /** The message for one recipient. */
  function Compose(mailer: Mailer, originator: string, recipient: string, sender: Sender, itipMethod: string,
                   summary: string, ics: string, useragent: string): (r: Message)
    ensures r.to == mailer.idnToAscii(recipient) && r.replyTo == originator && r.subject == Subject(itipMethod, summary)
    ensures r.xSender == mailer.idnToAscii(sender.email)
    ensures r.from == mailer.formatRecipient(mailer.idnToAscii(sender.email), sender.name)
    ensures r.userAgent.Some? <==> Truthy(useragent)
  {
    var from := mailer.idnToAscii(sender.email);
    Message(mailer.idnToAscii(recipient), mailer.formatRecipient(from, sender.name), originator, from,
            Subject(itipMethod, summary), if Truthy(useragent) then Some(useragent) else None, itipMethod, ics)
  }

  /**
   * sendMessage: one message per recipient, in order, each to that
   * recipient, all with the originator as Reply-To and the subject of the
   * method; a failed delivery is logged (its address is returned among the
   * failures) and the remaining recipients are still served.
   */
  method SendMessage(mailer: Mailer, originator: string, recipients: seq<string>, itipMethod: string,
                     summary: string, ics: string, sender: Sender, useragent: string)
    returns (sent: seq<Message>, failures: seq<string>)
    ensures |sent| == |recipients|
    ensures forall i :: 0 <= i < |sent| ==>
      sent[i] == Compose(mailer, originator, recipients[i], sender, itipMethod, summary, ics, useragent)
    ensures forall i :: 0 <= i < |sent| ==>
      sent[i].to == mailer.idnToAscii(recipients[i]) && sent[i].replyTo == originator
      && sent[i].subject == Subject(itipMethod, summary)
    ensures |failures| <= |recipients|
    ensures forall a :: a in failures <==> exists i :: 0 <= i < |sent| && !mailer.deliver(sent[i]) && sent[i].to == a
  {
    sent := [];
    failures := [];
    for k := 0 to |recipients|
      invariant |sent| == k && |failures| <= k
      invariant forall i :: 0 <= i < k ==>
        sent[i] == Compose(mailer, originator, recipients[i], sender, itipMethod, summary, ics, useragent)
      invariant forall a :: a in failures <==> exists i :: 0 <= i < k && !mailer.deliver(sent[i]) && sent[i].to == a
    {
      var msg := Compose(mailer, originator, recipients[k], sender, itipMethod, summary, ics, useragent);
      sent := sent + [msg];
      if !mailer.deliver(msg) {
        failures := failures + [msg.to];
      }
    }
  }
}
