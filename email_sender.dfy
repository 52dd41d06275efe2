/** The e-mail object the report is sent with: its recipient lists and
    attachment list are edited in place, `CreateEmail` composes the headers
    and `SendEmail` picks the recipients.

    The SMTP server, the terminal prompt and the attachment files are not
    modelled: the login result and the typed answer are parameters, and an
    attachment is only its descriptor. */
module EmailSender {
  import opened Common
  import opened Strings
  import opened Lists

  /** The placeholders the constructor stores until the caller sets real values. */
  const PlaceholderHost: string := "insira seu serviço SMTP"
  const PlaceholderSender: string := "insira seu e-mail"
  const PlaceholderPassword: string := "insira sua senha"

  /** The SMTP submission port set by the constructor. */
  const DefaultPort: int := 587

  /** The MIME main type of an attachment whose caller gives none. */
  const DefaultMainType: string := "application"

  /** What the address headers are joined with. */
  const Separator: string := ", "

  /** One entry of the attachment list: `{path, name, main_type, sub_type}`. */
  datatype Attachment = Attachment(path: string, name: string, mainType: string, subType: string)

  /** The composed message: its headers, its HTML body and the files attached
      to it so far. */
  datatype Message = Message(
    fromAddr: string, subject: string, to: string, cc: string, bcc: string,
    html: string, files: seq<Attachment>)

  /** The exceptions that escape the object's methods. `NoBody`: the body was
      never set, so setting the content raises. `NoMessage`: the message was
      never composed, so attaching to it or serialising it raises. */
  datatype EmailError = NoBody | NoMessage

  /** How a call to `SendEmail` ends: a message handed to the server for the
      listed recipients, a declined confirmation, a rejected login (reported,
      not raised), or an escaping exception. */
  datatype SendOutcome =
    | Sent(fromAddr: string, recipients: seq<string>, message: Message)
    | Declined
    | LoginRejected
    | Raised(error: EmailError)

  /** The message `CreateEmail` builds: `To` and `Cc` join the two lists,
      and `Bcc` is built from `cc` as well. */
  function Compose(sender: string, subject: string, destination: seq<string>, cc: seq<string>, html: string): Message {
    Message(sender, subject, Join(Separator, destination), Join(Separator, cc), Join(Separator, cc), html, [])
  }

  /** Whether the typed answer confirms sending: Python's `upper()` turns
      exactly "s", "S" and the long s "ſ" into "S". */
  predicate Confirms(answer: string) {
    answer == "s" || answer == "S" || answer == "\U{017F}"
  }

  /** Who the message goes to: with confirmation on, all three lists when the
      answer confirms and nobody (`None`) otherwise; with confirmation off,
      `destination` alone. */
  function Recipients(destination: seq<string>, cc: seq<string>, bcc: seq<string>, confirm: bool, answer: string): Option<seq<string>> {
    if !confirm then Some(destination)
    else if Confirms(answer) then Some(destination + cc + bcc)
    else None
  }

  /** The outcome of `SendEmail` once the attachments are on the message:
      a rejected login stops everything, a declined confirmation sends
      nothing, and sending an uncomposed message raises. */
  function Dispatch(sender: string, destination: seq<string>, cc: seq<string>, bcc: seq<string>,
                    message: Option<Message>, confirm: bool, answer: string, loginOk: bool): SendOutcome
  {
    if !loginOk then LoginRejected
    else
      match Recipients(destination, cc, bcc, confirm, answer)
      case None => Declined
      case Some(to) =>
        if message.None? then Raised(NoMessage) else Sent(sender, to, message.value)
  }

  class Email {
    var subject: string
    var destination: seq<string>
    var cc: seq<string>
    var bcc: seq<string>
    var body: Option<string>
    var message: Option<Message>
    var smtpHost: string
    var smtpPort: int
    var sender: string
    var password: string
    var attachments: seq<Attachment>

    /** A new e-mail titled `title`: empty recipient and attachment lists,
        placeholder server settings, and the placeholder sender as the only
        blind-copy recipient (it is copied before any caller can set the
        real sender). */
    constructor(title: string)
      ensures subject == title
      ensures destination == [] && cc == [] && attachments == []
      ensures body == None && message == None
      ensures smtpHost == PlaceholderHost && smtpPort == DefaultPort
      ensures sender == PlaceholderSender && password == PlaceholderPassword
      ensures bcc == [PlaceholderSender]
    {
      subject := title;
      destination := [];
      cc := [];
      bcc := [];
      body := None;
      message := None;
      smtpHost := PlaceholderHost;
      smtpPort := DefaultPort;
      sender := PlaceholderSender;
      password := PlaceholderPassword;
      bcc := bcc + [sender];
      attachments := [];
    }

    /** Drops the first copy of the sender from `destination` and from `cc`,
        then composes the message from the edited lists. Without a body the
        list edits have happened but no message is stored. `bcc` is never
        touched. */
    method CreateEmail() returns (raised: Option<EmailError>)
      modifies this`destination, this`cc, this`message
      ensures destination == RemoveFirst(old(destination), sender)
      ensures cc == RemoveFirst(old(cc), sender)
      ensures body.None? ==> raised == Some(NoBody) && message == old(message)
      ensures body.Some? ==> raised == None && message == Some(Compose(sender, subject, destination, cc, body.value))
    {
      if sender in destination {
        destination := RemoveFirst(destination, sender);
      } else {
        RemoveFirstSpec(destination, sender);
      }
      if sender in cc {
        cc := RemoveFirst(cc, sender);
      } else {
        RemoveFirstSpec(cc, sender);
      }
      if body.None? {
        return Some(NoBody);
      }
      message := Some(Compose(sender, subject, destination, cc, body.value));
      return None;
    }

    /** Appends one attachment descriptor at the end of the list. */
    method AddAttachment(attachment: string, attachmentName: string, typeFile: string, mainType: string := DefaultMainType)
      modifies this`attachments
      ensures attachments == old(attachments) + [Attachment(attachment, attachmentName, mainType, typeFile)]
    {
      attachments := attachments + [Attachment(attachment, attachmentName, mainType, typeFile)];
    }

    /** Adds every listed attachment to the composed message, in list order.
        Without a composed message the first attachment raises; with no
        attachments nothing happens. */
    method AttachFiles() returns (raised: Option<EmailError>)
      modifies this`message
      ensures old(message).None? ==> message == None && (raised == Some(NoMessage) <==> attachments != [])
      ensures old(message).None? ==> raised == None || raised == Some(NoMessage)
      ensures old(message).Some? ==>
        raised == None && message == Some(old(message).value.(files := old(message).value.files + attachments))
    {
      if message.None? {
        if attachments != [] {
          return Some(NoMessage);
        }
        return None;
      }
      ghost var m0 := message.value;
      var i := 0;
      assert m0.files + attachments[..0] == m0.files;
      while i < |attachments|
        invariant 0 <= i <= |attachments|
        invariant message == Some(m0.(files := m0.files + attachments[..i]))
      {
        var m := message.value;
        assert m0.files + attachments[..i + 1] == (m0.files + attachments[..i]) + [attachments[i]];
        message := Some(m.(files := m.files + [attachments[i]]));
        i := i + 1;
      }
      assert attachments[..i] == attachments;
      return None;
    }

    /** Attaches the files, logs in, and sends to the recipients the
        confirmation branch selects. Each call attaches the files again. */
    method SendEmail(loginOk: bool, answer: string, confirm: bool := true) returns (outcome: SendOutcome)
      modifies this`message
      ensures old(message).None? && attachments != [] ==> outcome == Raised(NoMessage) && message == None
      ensures old(message).None? && attachments == [] ==> message == None
      ensures old(message).Some? ==>
        message == Some(old(message).value.(files := old(message).value.files + attachments))
      ensures !(old(message).None? && attachments != []) ==>
        outcome == Dispatch(sender, destination, cc, bcc, message, confirm, answer, loginOk)
    {
      var raised := AttachFiles();
      if raised.Some? {
        return Raised(raised.value);
      }
      if !loginOk {
        return LoginRejected;
      }
      if confirm {
        if Confirms(answer) {
          if message.None? {
            return Raised(NoMessage);
          }
          return Sent(sender, destination + cc + bcc, message.value);
        }
        return Declined;
      } else {
        if message.None? {
          return Raised(NoMessage);
        }
        return Sent(sender, destination, message.value);
      }
    }
  }

  // ---------------------------------------------------------------------
  // Properties

  /** Self-removal takes out exactly one copy of the sender when there is
      one: a list without the sender is unchanged, a single copy disappears,
      a second copy survives, and every other address keeps its place count. */
  lemma SelfRemoval(list: seq<string>, sender: string)
    ensures sender !in list ==> RemoveFirst(list, sender) == list
    ensures multiset(list)[sender] == 1 ==> sender !in RemoveFirst(list, sender)
    ensures multiset(list)[sender] >= 2 ==> sender in RemoveFirst(list, sender)
    ensures forall a :: a != sender ==> multiset(RemoveFirst(list, sender))[a] == multiset(list)[a]
  {
    RemoveFirstSpec(list, sender);
    RemoveFirstCount(list, sender);
  }

  /** The headers of a composed message: the blind-copy header repeats the
      carbon-copy header whatever the `bcc` list holds, and the `To` header
      holds every remaining address with one separator between neighbours. */
  lemma ComposedHeaders(sender: string, subject: string, destination: seq<string>, cc: seq<string>, html: string)
    ensures var m := Compose(sender, subject, RemoveFirst(destination, sender), RemoveFirst(cc, sender), html);
      var to := RemoveFirst(destination, sender);
      && m.bcc == m.cc
      && m.fromAddr == sender && m.subject == subject && m.html == html && m.files == []
      && (to == [] ==> m.to == [])
      && (to != [] ==> |m.to| == SumLengths(to) + (|to| - 1) * |Separator|)
  {
    var to := RemoveFirst(destination, sender);
    if to != [] {
      JoinLength(Separator, to);
    }
  }

  /** Under confirmation every address of the three lists receives the
      message, once per listing; without it only `destination` does. */
  lemma RecipientsSpec(destination: seq<string>, cc: seq<string>, bcc: seq<string>, confirm: bool, answer: string)
    ensures Recipients(destination, cc, bcc, confirm, answer).Some? <==> !confirm || Confirms(answer)
    ensures confirm && Confirms(answer) ==>
      var to := Recipients(destination, cc, bcc, confirm, answer).value;
      && (forall a :: a in to <==> a in destination || a in cc || a in bcc)
      && multiset(to) == multiset(destination) + multiset(cc) + multiset(bcc)
    ensures !confirm ==>
      var to := Recipients(destination, cc, bcc, confirm, answer).value;
      forall a :: a in to <==> a in destination
  {
    if confirm && Confirms(answer) {
      var to := destination + cc + bcc;
      assert multiset(to) == multiset(destination) + multiset(cc) + multiset(bcc);
    }
  }

  /** A message goes out exactly when the login succeeds, the message was
      composed, and either no confirmation is asked or the answer confirms. */
  lemma DispatchSends(sender: string, destination: seq<string>, cc: seq<string>, bcc: seq<string>,
                      message: Option<Message>, confirm: bool, answer: string, loginOk: bool)
    ensures var out := Dispatch(sender, destination, cc, bcc, message, confirm, answer, loginOk);
      && (out.Sent? <==> loginOk && message.Some? && (!confirm || Confirms(answer)))
      && (out.Sent? ==> out.fromAddr == sender && out.message == message.value)
      && (out.Declined? <==> loginOk && confirm && !Confirms(answer))
  {
  }
}
