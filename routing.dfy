/**
 * `DirectOrMentionInGroup`: the filter that decides which text and voice
 * updates reach the handlers. Outside group chats every message with text is
 * handled; inside a group only messages that mention the bot or reply to it.
 */
module Routing {
  import opened Wrappers
  import opened Strings
  import opened Telegram

  /** Python truthiness of an optional string: `None` and `""` are false. */
  function Truthy(s: Option<string>): (r: bool)
    ensures r <==> s.Some? && |s.value| > 0
  {
    s.Some? && s.value != ""
  }

  /** `f"{name}"` for an optional string: `None` formats as "None". */
  function Format(name: Option<string>): (r: string)
    ensures name.Some? ==> r == name.value
    ensures name.None? ==> r == "None"
  {
    if name.Some? then name.value else "None"
  }

  /** `"@" + name`, the mention token looked for in the text. */
  function MentionToken(name: Option<string>): (r: string)
    ensures |r| >= 1 && r[0] == '@'
    ensures name.Some? ==> r[1..] == name.value
  {
    "@" + Format(name)
  }

  /** Group and supergroup chats; private chats and channels are not groups. */
  function IsGroupChat(m: Message): (r: bool)
    ensures m.chatType == "private" || m.chatType == "channel" ==> !r
    ensures m.chatType == "group" || m.chatType == "supergroup" ==> r
  {
    m.chatType == "group" || m.chatType == "supergroup"
  }

  /** The message replies to a message whose author's handle is `name`. */
  function IsReplyTo(m: Message, name: Option<string>): (r: bool)
    ensures r ==> m.replyTo.Some? && m.replyTo.value.fromUser.Some?
    ensures r && name.None? ==> m.replyTo.value.fromUser.value.username.None?
    ensures r && name.Some? ==> m.replyTo.value.fromUser.value.username == name
  {
    m.replyTo.Some? && m.replyTo.value.fromUser.Some? && m.replyTo.value.fromUser.value.username == name
  }

  /** The update carries a message with non-empty text (the early `return False`). */
  function HasText(u: Update): (r: bool)
    ensures r ==> u.message.Some? && u.message.value.text.Some? && |u.message.value.text.value| >= 1
    ensures u.message.Some? && u.message.value.hasVoice && u.message.value.text.None? ==> !r
  {
    u.message.Some? && Truthy(u.message.value.text)
  }

  /**
   * The value of `filter` once the bot's handle is `name`: false without text;
   * otherwise true for a chat that is not a group, a text that mentions the
   * bot, or a reply to one of the bot's messages.
   */
  function ShouldRoute(u: Update, name: Option<string>): (r: bool)
    ensures r ==> HasText(u)
    ensures HasText(u) && IsReplyTo(u.message.value, name) ==> r
    ensures HasText(u) && !r ==> IsGroupChat(u.message.value)
  {
    if !HasText(u) then false
    else
      var m := u.message.value;
      var isGroupChat := IsGroupChat(m);
      var mentioned := Contains(m.text.value, MentionToken(name));
      var isReplyToBot := IsReplyTo(m, name);
      !isGroupChat || mentioned || isReplyToBot
  }

  /** Updates without a message or without text are never routed. */
  lemma NoTextNotRouted(u: Update, name: Option<string>)
    requires u.message.None? || u.message.value.text.None? || u.message.value.text == Some("")
    ensures !ShouldRoute(u, name)
  {
  }

  /**
   * A voice note has no text, so no update carrying one is ever routed, even
   * in a private chat: the voice handler behind this filter never runs.
   */
  lemma VoiceNeverRouted(u: Update, name: Option<string>)
    requires u.message.Some? && u.message.value.hasVoice && u.message.value.text.None?
    ensures !ShouldRoute(u, name)
  {
  }

  /**
   * The filter as evidently intended for the voice handler: a message with
   * text is decided as before; a voice note, which has no text to mention the
   * bot in, is routed outside groups and, in a group, when it replies to the
   * bot.
   */
  function ShouldRouteCorrected(u: Update, name: Option<string>): (r: bool)
    ensures HasText(u) ==> (r <==> ShouldRoute(u, name))
    ensures r ==> HasText(u) || (u.message.Some? && u.message.value.hasVoice)
    ensures u.message.Some? && u.message.value.hasVoice && !HasText(u) ==>
      (r <==> !IsGroupChat(u.message.value) || IsReplyTo(u.message.value, name))
  {
    if HasText(u) then ShouldRoute(u, name)
    else
      u.message.Some? && u.message.value.hasVoice
      && (!IsGroupChat(u.message.value) || IsReplyTo(u.message.value, name))
  }

  /**
   * With the corrected filter, a voice note outside a group chat is routed,
   * and so is one in a group that replies to a message by `name`.
   */
  lemma DirectVoiceRoutedCorrected(m: Message, name: Option<string>)
    requires m.hasVoice && m.text.None?
    requires (m.chatType != "group" && m.chatType != "supergroup")
      || (m.replyTo.Some? && m.replyTo.value.fromUser.Some? && m.replyTo.value.fromUser.value.username == name)
    ensures ShouldRouteCorrected(Update(Some(m)), name) && !ShouldRoute(Update(Some(m)), name)
  {
  }

  /** Outside group and supergroup chats every message with text is routed. */
  lemma DirectChatRouted(m: Message, name: Option<string>)
    requires m.text.Some? && m.text.value != ""
    requires m.chatType != "group" && m.chatType != "supergroup"
    ensures ShouldRoute(Update(Some(m)), name)
  {
  }

  /**
   * In a group or supergroup chat a message with text is routed exactly when
   * `@name` occurs in its text at some position, or it replies to a message
   * whose author's handle is `name`.
   */
  lemma {:induction false} GroupChatRoutedIffAddressed(m: Message, name: string)
    requires m.text.Some? && m.text.value != ""
    requires m.chatType == "group" || m.chatType == "supergroup"
    ensures ShouldRoute(Update(Some(m)), Some(name)) <==>
      (exists i :: OccursAt(m.text.value, "@" + name, i))
      || (m.replyTo.Some? && m.replyTo.value.fromUser.Some? && m.replyTo.value.fromUser.value.username == Some(name))
  {
  }

  /** A text that holds `@name` from index `i` mentions the bot, whatever the chat. */
  lemma {:induction false} MentionAnywhereRouted(m: Message, name: string, i: nat)
    requires m.text.Some? && m.text.value != ""
    requires OccursAt(m.text.value, "@" + name, i)
    ensures ShouldRoute(Update(Some(m)), Some(name))
  {
  }

  /**
   * The filter object: `username` is the bot's handle, unresolved
   * until the first update with text arrives.
   */
  class DirectOrMentionInGroup {
    var username: Option<string>

    constructor ()
      ensures username == None
    {
      username := None;
    }

    /**
     * `filter`. `botUsername` is what `self.bot.username` reads at this call.
     * The handle is looked up only while the memoized one is falsy and the
     * update has text; a non-empty handle, once stored, is never replaced.
     */
    method Filter(update: Update, botUsername: Option<string>) returns (route: bool)
      modifies this
      ensures username == if HasText(update) && !Truthy(old(username)) then botUsername else old(username)
      ensures Truthy(old(username)) ==> username == old(username)
      ensures route == ShouldRoute(update, username)
    {
      if update.message.None? || !Truthy(update.message.value.text) {
        return false;
      }
      if !Truthy(username) {
        username := botUsername;
      }
      var m := update.message.value;
      var isGroupChat := m.chatType == "group" || m.chatType == "supergroup";
      var mentioned := Contains(m.text.value, "@" + Format(username));
      var isReplyToBot := m.replyTo.Some? && m.replyTo.value.fromUser.Some?
        && m.replyTo.value.fromUser.value.username == username;
      route := !isGroupChat || mentioned || isReplyToBot;
    }
  }
}
