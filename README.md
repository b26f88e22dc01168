# Telegram relay bot: conversation state and message gating

This project models the logic of a Telegram bot that relays chats to a
language-model completion service (`bot/gpt_telegram_bot.py`), and proves
properties of that model. The model covers:

- **History store** (`History`): the process-wide table `messages_list` from a
  user's handle to that user's list of `{role, content}` turns. The class
  `HistoryStore` holds the table as a `map`. `AppendHistory` and
  `ClearHistory` change it as `append_history` and `clear_history` do. After
  an append, the oldest turns are popped, whatever their role, until the total
  content length is at most 4096. The spec function `Evict` describes what
  that eviction leaves. The lemmas show it keeps the longest suffix that fits.
- **Access control** (`AccessControl`): the allow-list parsed from the
  comma-separated `ALLOWED_USERNAMES` setting. The setting is split on `,`,
  each piece is stripped, and empty pieces are dropped. `IsAllowedUser` is then
  true when the list is empty or holds the user's handle.
- **Routing** (`Routing`): the `DirectOrMentionInGroup` filter. It stores the
  bot's handle the first time it sees an update with text. It then routes a
  message with text when the chat is not a group, when the text contains
  `@handle`, or when the message replies to the bot.
- **Replies** (`Replies`): the text recorded for a message that replies to
  another message (`"> " + quoted + " \n\n" + text`), and
  `generate_gpt_response`. The remote call's outcome is a parameter to that
  function. On failure it returns one of the fifteen fixed apologies.
- **Python primitives** (`Strings`): the whitespace of `str.isspace`,
  `str.strip()`, `str.split(',')` and the substring test `in`.

A Telegram account can lack a handle, so a handle is `Option<string>`
(`Telegram.Username`). Python's `None` keeps its behaviour: `None in list` is
false, `f"@{None}"` is `"@None"`, and `None == None` is true. A Dafny `char` is
a Unicode scalar value, so for a string without lone surrogates `|s|` counts
code points as Python's `len` does.

Three members are plain definitions, with no property beyond their body, and
so have no row below. `AccessControl.StripAll` is the comprehension
`[x.strip() for x in ...]` of line 23. `Routing.Truthy` is Python truthiness of
an optional string: present and non-empty. `Routing.Format` is `f"{x}"` of an
optional string: `None` formats as `"None"`. The contracts of `ParseAllowList`,
`HasText` and `MentionToken` are written in their terms.

## Model

| member | source | states |
|---|---|---|
| `Strings.IsSpace` | bot/gpt_telegram_bot.py:23 | the whitespace that `strip()` removes takes in the plain space, and excludes the comma, `@`, `_`, ASCII letters and digits |
| `Strings.StripLeft` | bot/gpt_telegram_bot.py:23 | the result is a suffix of the input and does not start with whitespace |
| `Strings.StripLeftRemovesSpace` | bot/gpt_telegram_bot.py:23 | everything `StripLeft` removes is whitespace |
| `Strings.StripRight` | bot/gpt_telegram_bot.py:23 | the result is a prefix of the input and does not end with whitespace |
| `Strings.StripRightRemovesSpace` | bot/gpt_telegram_bot.py:23 | everything `StripRight` removes is whitespace |
| `Strings.Strip` | bot/gpt_telegram_bot.py:23 | `x.strip()` is no longer than `x` and has no whitespace at either end |
| `Strings.StripRemovesOnlySpace` | bot/gpt_telegram_bot.py:23 | the input is the stripped string with only whitespace around it |
| `Strings.StripFixesStripped` | bot/gpt_telegram_bot.py:23 | stripping a string with no whitespace at either end changes nothing |
| `Strings.StripEmptyIffAllSpace` | bot/gpt_telegram_bot.py:23 | `x.strip()` is empty exactly when `x` is all whitespace, which is when the `if x.strip()` filter drops it |
| `Strings.Split` | bot/gpt_telegram_bot.py:23 | `split(',')` gives at least one piece, no piece holds the separator, and joining the pieces with the separator gives back the input |
| `Strings.SplitUnique` | bot/gpt_telegram_bot.py:23 | splitting a join of separator-free pieces gives back exactly those pieces, so split and join are inverses |
| `Strings.SplitNoSep` | bot/gpt_telegram_bot.py:23 | a string without the separator is a single piece |
| `Strings.Contains` | bot/gpt_telegram_bot.py:168 | `token in text` holds exactly when the token occurs at some index of the text |
| `AccessControl.DropEmpty` | bot/gpt_telegram_bot.py:23 | every entry kept is non-empty and comes from the input, and every non-empty input entry is kept |
| `AccessControl.ParseAllowList` | bot/gpt_telegram_bot.py:23 | a handle is on the allow-list exactly when it is non-empty and some comma-separated piece of the setting strips to it |
| `AccessControl.AllowListEntriesWellFormed` | bot/gpt_telegram_bot.py:23 | every allow-list entry is non-empty, has no whitespace at either end and holds no comma |
| `AccessControl.IsAllowedUser` | bot/gpt_telegram_bot.py:29-30 | an empty list lets everyone in; an account without a handle gets in only then; otherwise a user who gets in has a handle equal to some entry |
| `AccessControl.AllowedByDropEmpty` | bot/gpt_telegram_bot.py:29-30 | after dropping empty entries, a user is allowed exactly when all entries were empty or the user's handle is a non-empty entry |
| `AccessControl.DropEmptyIsOpenIffBlank` | bot/gpt_telegram_bot.py:23 | the list is empty exactly when every stripped piece is empty |
| `AccessControl.AllowedIffOpenOrListed` | bot/gpt_telegram_bot.py:23-30 | with the parsed setting, `is_allowed_user` holds exactly when every piece is blank, or the user has a non-empty handle that some piece strips to |
| `AccessControl.BlankSettingAllowsEveryone` | bot/gpt_telegram_bot.py:23-30 | a setting made only of commas and whitespace, the empty one included, yields an empty list and lets every user in |
| `AccessControl.NamelessUsersRejected` | bot/gpt_telegram_bot.py:29-30 | a non-empty allow-list rejects an account without a handle and the empty handle |
| `AccessControl.PaddedHandleRejected` | bot/gpt_telegram_bot.py:23-30 | a handle with whitespace at either end never matches a non-empty allow-list |
| `History.TotalLength` | bot/gpt_telegram_bot.py:52 | the total content length is at least the length of every single turn |
| `History.TotalLengthConcat` | bot/gpt_telegram_bot.py:52 | the total content length of two lists put together is the sum of their totals |
| `History.Evict` | bot/gpt_telegram_bot.py:52-56 | what front-only eviction leaves is a suffix of the list, and its total length is at most 4096 |
| `History.EvictKeepsLongestFit` | bot/gpt_telegram_bot.py:52-56 | eviction is minimal: every longer suffix of the list is over 4096 |
| `History.EvictIsLongestFit` | bot/gpt_telegram_bot.py:52-56 | the longest suffix that fits is exactly what eviction leaves |
| `History.EvictKeepsFitting` | bot/gpt_telegram_bot.py:52-56 | a list that already fits loses nothing |
| `History.OversizedTurnEmptiesHistory` | bot/gpt_telegram_bot.py:50-56 | appending one turn longer than 4096 evicts everything, that turn included, leaving an empty list |
| `History.FittingTurnIsKept` | bot/gpt_telegram_bot.py:50-56 | a new turn of at most 4096 characters survives eviction as the last turn |
| `History.SumContentLengths` | bot/gpt_telegram_bot.py:52 | the running sum over the list is its total content length |
| `History.PopOldestWhileOver` | bot/gpt_telegram_bot.py:54-56 | the pop-while-over-budget loop leaves exactly what `Evict` leaves |
| `History.HistoryStore.Get` | bot/gpt_telegram_bot.py:48 | `messages_list.get(username, [])`: the stored history for a known user and `[]` for an unknown one; with the invariant, it fits the budget |
| `History.HistoryStore.constructor` | bot/gpt_telegram_bot.py:25 | the table starts empty, and every history in it fits |
| `History.HistoryStore.AppendHistory` | bot/gpt_telegram_bot.py:45-60 | the user's new history, also the returned one, is the eviction of the old history (empty if absent) plus the new turn; every other user's entry is unchanged; the budget invariant is kept |
| `History.HistoryStore.ClearHistory` | bot/gpt_telegram_bot.py:63-64 | an existing entry becomes empty and keeps its key; an absent user gets no entry; nothing else changes |
| `Routing.MentionToken` | bot/gpt_telegram_bot.py:168 | the token is `@` followed by the handle |
| `Routing.IsGroupChat` | bot/gpt_telegram_bot.py:167 | chats of type `"group"` and `"supergroup"` are group chats; private chats and channels are not |
| `Routing.IsReplyTo` | bot/gpt_telegram_bot.py:169-173 | a match needs a replied-to message with an author whose handle equals the stored one, so with no handle stored only replies to handle-less authors match; the other direction is stated by `GroupChatRoutedIffAddressed` |
| `Routing.HasText` | bot/gpt_telegram_bot.py:160-161 | a passing update's message has non-empty text, so a voice note, which has none, never passes; that every message with text passes is stated by `DirectChatRouted` and `MentionAnywhereRouted` |
| `Routing.ShouldRoute` | bot/gpt_telegram_bot.py:159-175 | a routed update has text; a reply to the bot is always routed; a message with text that is not routed is in a group chat |
| `Routing.NoTextNotRouted` | bot/gpt_telegram_bot.py:160-161 | an update with no message, no text or empty text is never routed |
| `Routing.DirectChatRouted` | bot/gpt_telegram_bot.py:167-175 | for a message whose text is present and non-empty, in a chat whose type is neither `"group"` nor `"supergroup"`, the update is routed |
| `Routing.GroupChatRoutedIffAddressed` | bot/gpt_telegram_bot.py:167-175 | in a `"group"` or `"supergroup"` chat, a message with non-empty text is routed exactly when `@handle` occurs in it at some index, or it replies to a message whose author's handle is the bot's |
| `Routing.MentionAnywhereRouted` | bot/gpt_telegram_bot.py:168 | a message with non-empty text that holds `@handle` at any index is routed, whatever the chat |
| `Routing.VoiceNeverRouted` | bot/gpt_telegram_bot.py:160-161 | an update carrying a voice note, which has no text, is never routed, so the voice handler behind this filter never runs |
| `Routing.ShouldRouteCorrected` | bot/gpt_telegram_bot.py:159-175 | agrees with `ShouldRoute` on every update with text; routes a voice note exactly when it is outside a group or replies to the bot; routes nothing else |
| `Routing.DirectVoiceRoutedCorrected` | bot/gpt_telegram_bot.py:189 | the corrected filter routes a voice note outside group chats, and in a group when it replies to the bot, where the filter as written rejects both |
| `Routing.DirectOrMentionInGroup.constructor` | bot/gpt_telegram_bot.py:154-157 | the handle starts unresolved |
| `Routing.DirectOrMentionInGroup.Filter` | bot/gpt_telegram_bot.py:159-175 | the handle is read from the bot only for an update with text while the stored one is falsy; a stored non-empty handle is never replaced; the answer is the routing decision for the stored handle |
| `Replies.Quote` | bot/gpt_telegram_bot.py:77 | the quoted text is `"> "`, the quoted message, `" \n\n"` and then the new text, at these positions |
| `Replies.QuoteInjective` | bot/gpt_telegram_bot.py:77 | given the length of the quoted part, the quoted message and the new text can both be read back |
| `Replies.QuoteIsAmbiguous` | bot/gpt_telegram_bot.py:77 | without that length they cannot: a quote holding the separator reads like a shorter quote with a longer new text |
| `Replies.UserText` | bot/gpt_telegram_bot.py:75-77 | the recorded text is the raw text when there is no reply; for a reply to a message with text it is exactly `Quote` of that text and the new text (`"> "`, the quote, `" \n\n"`, the text); it always ends with the new text; it fails exactly when the replied-to message has no text |
| `Replies.ReplyToPhotoFails` | bot/gpt_telegram_bot.py:77 | replying to a message without text makes the composition fail |
| `Replies.UserTextCorrected` | bot/gpt_telegram_bot.py:75-77 | never fails, ends with the new text, agrees with `UserText` where that succeeds, and uses the raw text when there is nothing to quote |
| `Replies.FallbackRepliesNonEmpty` | bot/gpt_telegram_bot.py:114-130 | the fallback pool holds fifteen replies, none of them empty |
| `Replies.GenerateResponse` | bot/gpt_telegram_bot.py:103-131 | the first choice's content when the call returns one; otherwise, on an exception or an empty list of choices, a reply from the fallback pool |

## Left out

- Telegram transport is not modelled. This covers sending and deleting messages, the thinking emoji, downloading voice notes, polling and handler registration (lines 33-42 send side, 67-100 apart from the reply text at 75-77, 141-149, 178-192). It is I/O through a library whose code is not part of this model. The handlers' sequence is also left out: gate, append user turn, complete, append assistant turn.
- The completion and transcription calls (lines 103-112, 134-138) are remote services. `GenerateResponse` takes the call's outcome as a parameter. The model name, `n=1` and the timeouts are not modelled.
- `random.choice` (line 131) is the parameter `pick` of `GenerateResponse`.
- Audio conversion (`convert_audio_to_wav`, from `helpers`) is not part of this model.
- Environment loading and logging (lines 17-26) are not modelled, except the parse of line 23. The setting is the parameter `raw` of `ParseAllowList`. `IsAllowedUser` takes the list as a parameter instead of reading the global.
- Concurrency is not modelled. Handlers are async and may interleave appends for the same user. Each operation here is atomic.
- `History.HistoryStore.AppendHistory`: the model does not capture aliasing. Python returns the very list object held in the table, so later changes to the table show through it. The model returns the history's value.
- `History.HistoryStore.AppendHistory`: the pop loop runs on a local list (`PopOldestWhileOver`), and the table is written once after it. Python pops the list inside the table in place, but no other code runs in between, so the end state is the same.
- `Routing.DirectOrMentionInGroup.Filter`: `self.bot.username` is the parameter `botUsername`. In Python it is a property of the bot object, which is not part of this model.
- `Routing.DirectOrMentionInGroup.Filter`: Python's `filter` may return `None` in place of `False`, when the message replies to nothing or to a message without an author. Only its truth value counts, and the model returns a `bool`.
- `Routing.HasText` states one direction only: a passing update has non-empty text. The other direction would repeat its body, and `Routing.DirectChatRouted` and `Routing.MentionAnywhereRouted` state it over the message's fields.
- `Routing.IsReplyTo` states one direction only: a match has a replied-to author with the stored handle. The other direction would repeat its body, and `Routing.GroupChatRoutedIffAddressed` states it over the message's fields.
- Lone surrogates (U+D800 to U+DFFF) are left out. A Python `str` can hold them and a Dafny `char` cannot, so the model covers only strings without them.
- The fallback pool `Replies.FallbackReplies` (lines 114-130) is a constant, which cannot carry a contract. `Replies.FallbackRepliesNonEmpty` states what is known about it.

## Findings

| source | as written | input that shows it | evidently intended | confidence | as-written member | corrected member |
|---|---|---|---|---|---|---|
| bot/gpt_telegram_bot.py:160-161, 189 | the voice handler is guarded by `filters.VOICE & direct_or_mention_in_group`, but the filter returns `False` for every message without text, and a voice note has none, so `process_audio_message` never runs | a voice note sent in a private chat | route voice notes in private chats, and in groups when they reply to the bot | high, not executed | `Routing.VoiceNeverRouted` | `Routing.ShouldRouteCorrected` with `Routing.DirectVoiceRoutedCorrected` |
| bot/gpt_telegram_bot.py:76-77 | a reply is quoted as `"> " + reply_to_message.text + ...`, which raises `TypeError` when the replied-to message has no text | a text message that replies to a photo, sticker or voice note, whose `text` is `None` | quote the original when it has text, and otherwise use the new text unchanged | medium, not executed | `Replies.UserText` with `Replies.ReplyToPhotoFails` | `Replies.UserTextCorrected` |
