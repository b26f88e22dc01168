/**
 * The text the bot hands to the history: what the user's message becomes when
 * it replies to another message, and the reply `generate_gpt_response`
 * produces from the outcome of the remote completion call.
 */
module Replies {
  import opened Wrappers
  import opened Telegram

  /** `"> " + quoted + " \n\n" + text`: the quoted message, a blank line, the new text. */
  function Quote(quoted: string, text: string): (r: string)
    ensures |r| == |quoted| + |text| + 5
    ensures r[..2] == "> " && r[2..2 + |quoted|] == quoted
    ensures r[2 + |quoted|..5 + |quoted|] == " \n\n" && r[5 + |quoted|..] == text
  {
    var r := "> " + quoted + " \n\n" + text;
    assert r[2..2 + |quoted|] == quoted;
    assert r[5 + |quoted|..] == text;
    r
  }

  /** Knowing the length of the quoted part, both parts can be read back. */
  lemma {:induction false} QuoteInjective(q1: string, t1: string, q2: string, t2: string)
    requires |q1| == |q2| && Quote(q1, t1) == Quote(q2, t2)
    ensures q1 == q2 && t1 == t2
  {
    var r := Quote(q1, t1);
    assert q1 == r[2..2 + |q1|] == q2;
    assert t1 == r[5 + |q1|..] == t2;
  }

  /**
   * Without that length the quoting is ambiguous: a quoted text that holds the
   * separator reads the same as a shorter quote with a longer new text.
   */
  lemma QuoteIsAmbiguous()
    ensures Quote("a \n\nb", "c") == Quote("a", "b \n\nc")
  {
  }

  /**
   * The text that `process_text_message` records for a message with text
   * `text`: the raw text, or the quotation of the replied-to message followed
   * by the text. Replying to a message without text (a photo, a sticker)
   * makes the concatenation fail, which is `None` here.
   */
  function UserText(text: string, replyTo: Option<Message>): (r: Option<string>)
    ensures r.None? <==> replyTo.Some? && replyTo.value.text.None?
    ensures replyTo.None? ==> r == Some(text)
    ensures r.Some? ==> |r.value| >= |text| && r.value[|r.value| - |text|..] == text
    ensures replyTo.Some? && replyTo.value.text.Some? ==>
      var q := replyTo.value.text.value;
      r.Some? && |r.value| == |q| + |text| + 5 && r.value[..2] == "> " && r.value[2..2 + |q|] == q
      && r.value[2 + |q|..5 + |q|] == " \n\n"
    ensures replyTo.Some? && replyTo.value.text.Some? ==> r == Some(Quote(replyTo.value.text.value, text))
  {
    match replyTo
    case None => Some(text)
    case Some(original) =>
      if original.text.None? then None else Some(Quote(original.text.value, text))
  }

  /** A reply to a message that has no text, such as a photo. */
  lemma ReplyToPhotoFails(text: string, photo: Message)
    requires photo.text.None?
    ensures UserText(text, Some(photo)).None?
  {
  }

  /**
   * `UserText` as evidently intended: quote the replied-to message when it has
   * text, and otherwise use the new text unchanged. It never fails, always
   * ends with the new text, and agrees with `UserText` wherever that succeeds.
   */
  function UserTextCorrected(text: string, replyTo: Option<Message>): (r: string)
    ensures |r| >= |text| && r[|r| - |text|..] == text
    ensures UserText(text, replyTo).Some? ==> r == UserText(text, replyTo).value
    ensures replyTo.None? || replyTo.value.text.None? ==> r == text
  {
    if replyTo.Some? && replyTo.value.text.Some? then Quote(replyTo.value.text.value, text) else text
  }

  /**
   * What the remote completion call gives back: the contents of the returned
   * choices, or an exception (timeout, network or service error).
   */
  datatype Completion = Choices(contents: seq<string>) | Raised

  /** The fixed pool of apologies used when the completion call fails. */
  const FallbackReplies: seq<string> := [
      "Oops, I must've tripped over my own code. Give me a moment to untangle myself! \U{1F643}",
      "Error 404: Witty response not found. Stand by for reboot. \U{1F680}",
      "Hold on, I think I've misplaced my 1s and 0s. Let me find them and get back to you! \U{1F50D}",
      "My circuits are overheating from all the awesomeness. Give me a second to cool down! \U{2744}\U{FE0F}",
      "Hold on, I'm buffering\U{2026} just like the good ol' days of dial-up internet. \U{1F570}\U{FE0F}",
      "I've got a case of digital hiccups! Bear with me while I sip some virtual water. \U{1F964}",
      "I'd tell you a joke, but I think I just forgot the punchline. Hang on while I remember it. \U{1F605}",
      "I'm experiencing a minor glitch in the matrix. Let me reboot and we'll be back to normal. \U{1F504}",
      "Seems like I accidentally hit the snooze button on my internal clock. Let me wake up and get back to you! \U{23F0}",
      "I'm currently lost in the cloud, but don't worry, I'll navigate my way back to you shortly! \U{2601}\U{FE0F}",
      "Hold tight, I'm just taking a quick coffee break to recharge my bytes. Be right back! \U{2615}",
      "Apologies, I'm temporarily stuck in the emoji dimension. I'll escape shortly! \U{1F635}\U{200D}\U{1F4AB}",
      "I think I just blue-screened myself laughing. Let me reboot and I'll be right with you. \U{1F300}",
      "One moment please, I'm currently in a heated debate with my firewall. \U{1F525}",
      "Hang on, I'm in the middle of a software update: 'Installing Humor 2.0.' Should be done soon! \U{1F4F2}"
    ]

  /** The pool holds fifteen replies, none of them empty. */
  lemma FallbackRepliesNonEmpty(i: nat)
    requires i < |FallbackReplies|
    ensures |FallbackReplies| == 15 && FallbackReplies[i] != ""
  {
  }

  /**
   * `generate_gpt_response`: the first choice's content when the call returns
   * one; otherwise (an exception, or no choice so that `choices[0]` raises)
   * one of the fallback replies. `pick` stands for `random.choice`.
   */
  function GenerateResponse(outcome: Completion, pick: nat): (r: string)
    requires pick < |FallbackReplies|
    ensures outcome.Choices? && |outcome.contents| > 0 ==> r == outcome.contents[0]
    ensures !(outcome.Choices? && |outcome.contents| > 0) ==> r in FallbackReplies
  {
    if outcome.Choices? && |outcome.contents| > 0 then outcome.contents[0]
    else FallbackReplies[pick]
  }
}
