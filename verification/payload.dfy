/**
 * The WhatsApp Cloud API webhook payload, as far as the server reads it, and
 * the flat inbound-message record the webhook queues and the engine consumes.
 */
module Payload {
  import opened Wrappers

  datatype Reply = Reply(id: string, title: string)

  datatype Interactive = Interactive(kind: string, buttonReply: Option<Reply>, listReply: Option<Reply>)

  datatype Media = Media(id: string, mimeType: string)

  datatype Document = Document(id: string, mimeType: string, filename: string)

  datatype Button = Button(text: string, payload: string)

  /** One element of `value.messages`; `text` is `text.body`. */
  datatype WaMessage = WaMessage(
    from: string,
    id: string,
    timestamp: string,
    kind: string,
    text: Option<string>,
    image: Option<Media>,
    document: Option<Document>,
    button: Option<Button>,
    interactive: Option<Interactive>)

  datatype Profile = Profile(name: string)

  datatype Contact = Contact(profile: Option<Profile>, waId: string)

  datatype ChangeValue = ChangeValue(messages: Option<seq<WaMessage>>, contacts: Option<seq<Contact>>)

  /** One element of `entry[].changes`; a missing `value` is a `None`. */
  datatype Change = Change(value: Option<ChangeValue>)

  datatype Entry = Entry(changes: Option<seq<Change>>)

  datatype WebhookPayload = WebhookPayload(entry: Option<seq<Entry>>)

  /**
   * The flat record built for each inbound message.  `timestamp` is `None`
   * when the seconds string does not parse (JavaScript's `NaN`).
   */
  datatype Inbound = Inbound(
    messageId: string,
    from: string,
    timestamp: Option<int>,
    kind: string,
    text: string,
    mediaId: Option<string>,
    mediaType: Option<string>,
    filename: Option<string>,
    buttonPayload: Option<string>,
    interactiveType: Option<string>,
    replyId: Option<string>,
    replyTitle: Option<string>,
    contactName: Option<string>,
    contactWaId: Option<string>)
}
