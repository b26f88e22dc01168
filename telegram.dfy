/**
 * The parts of a Telegram update that the bot's logic reads. Every field the
 * transport may leave unset (`None` in Python) is an `Option`.
 */
module Telegram {
  import opened Wrappers

  /** A Telegram handle; `None` for an account that has no username. */
  type Username = Option<string>

  datatype User = User(username: Username)

  /**
   * A message: its text (absent for voice notes, photos, ...), whether it
   * carries a voice note, the type of the chat it was sent in ("private",
   * "group", "supergroup", "channel"), its author and the message it replies
   * to.
   */
  datatype Message = Message(
    text: Option<string>,
    hasVoice: bool,
    chatType: string,
    fromUser: Option<User>,
    replyTo: Option<Message>)

  /** An update; `message` is absent for edits, channel posts, callbacks, ... */
  datatype Update = Update(message: Option<Message>)
}
