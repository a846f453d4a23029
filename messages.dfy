/** The chat message record exchanged between the page and the API route. */
module Messages {

  datatype Sender = User | Bot

  /** `{ id, text, sender }`; the optional `file` field is never set by the page. */
  datatype Message = Message(id: int, text: string, sender: Sender)

  function Last(ms: seq<Message>): Message
    requires ms != []
  {
    ms[|ms| - 1]
  }
}
