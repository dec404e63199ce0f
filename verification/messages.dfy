/** The stored form of a conversation: turns of user content and bot answer. */
module Messages {

  /** One element of a list-of-parts user content; only the text part occurs in this model. */
  datatype Part = TextPart(text: string)

  /** A message body: plain text, or the list-of-parts form the controller stores for user turns. */
  datatype Content = Plain(text: string) | Parts(parts: seq<Part>)

  /** One completed exchange of a dialog, `{"user": ..., "bot": ..., "date": ...}`;
      `date` is in whole seconds. */
  datatype Turn = Turn(user: Content, bot: string, date: int)
}
