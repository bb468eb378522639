/** The decision `MyClient.on_message` takes for one chat message
    (yomiage.py:90-113), ending in the request handed to the speech engine.
    The model describes a message that arrives while nothing is playing: the
    wait for earlier playback (lines 105-106) hands `sleep_until` a function
    where the library expects a point in time, and is not modelled. The HTTP
    call and FFmpeg playback (lines 115-117) are outside the model. */
module Relay {
  import opened Text
  import opened Settings
  import Redaction
  import Markup
  import Synthesis

  /** What `on_message` reads of an incoming message. */
  datatype Message = Message(authorIsBot: bool, guild: GuildId, content: string)

  /** The four early returns, in the order the code tries them. */
  datatype SkipReason =
    | FromBot              // line 91
    | NotInVoice           // line 95: no voice client, or not connected
    | BlankContent         // line 96
    | BlankAfterRedaction  // line 100

  datatype Decision = Skip(reason: SkipReason) | Speak(query: Synthesis.Query)

  /** The text that reaches the engine: URL redaction first (line 99), then
      markup stripping inside `talk` (line 37). */
  function SpokenText(content: string): string {
    Markup.StripMarkup(Redaction.ProcessMessage(content))
  }

  /** `on_message`. `voiceConnected` is `voice_client and
      voice_client.is_connected()` for the message's guild. The message is
      skipped exactly when it comes from a bot, the guild has no connected
      voice client, or its content is blank: the check after redaction
      never fires, because redaction never blanks a non-blank message.
      Otherwise the request carries the spoken text and the guild's
      settings, or the defaults when the guild has none. */
  function OnMessage(m: Message, voiceConnected: bool, store: Store): (d: Decision)
    ensures d.Skip? <==> m.authorIsBot || !voiceConnected || Blank(m.content)
    ensures m.authorIsBot ==> d == Skip(FromBot)
    ensures !m.authorIsBot && !voiceConnected ==> d == Skip(NotInVoice)
    ensures !m.authorIsBot && voiceConnected && Blank(m.content) ==> d == Skip(BlankContent)
    ensures d != Skip(BlankAfterRedaction)
    ensures d.Speak? ==> Synthesis.HasFixedVoice(d.query)
    ensures d.Speak? ==> Synthesis.ScalesOf(d.query) == Lookup(store, m.guild)
    ensures d.Speak? ==> d.query.text == SpokenText(m.content)
  {
    if m.authorIsBot then Skip(FromBot)
    else if !voiceConnected then Skip(NotInVoice)
    else if Blank(m.content) then Skip(BlankContent)
    else
      var processed := Redaction.ProcessMessage(m.content);
      Redaction.ProcessMessageNeverBlank(m.content);
      if Blank(processed) then Skip(BlankAfterRedaction)
      else
        var settings := Lookup(store, m.guild);
        Speak(Synthesis.TalkQuery(processed, settings))
  }

  /** A `setting` in one guild never changes what another guild's messages
      turn into. */
  lemma OnMessageIsolated(m: Message, voiceConnected: bool, store: Store, g: GuildId, p: Patch)
    requires g != m.guild
    ensures OnMessage(m, voiceConnected, SetSettings(store, g, p).0) == OnMessage(m, voiceConnected, store)
  {
    SetSettingsIsolated(store, g, p, m.guild);
  }

  /** A message with no URL is spoken exactly as written precisely when it
      holds no `<...>` span on one line. */
  lemma PlainMessageSpokenVerbatim(m: Message, store: Store)
    requires !m.authorIsBot && !Blank(m.content)
    requires Redaction.NoUrl(m.content)
    ensures OnMessage(m, true, store).Speak?
    ensures OnMessage(m, true, store).query.text == m.content <==> Markup.TagFree(m.content)
  {
    Redaction.ProcessMessageUnchangedIff(m.content);
    Markup.StripMarkupFixedIff(m.content);
  }

  /** The spoken text has no markup left and only deletes characters from
      the redacted message. */
  lemma SpokenTextIsSubsequence(content: string)
    ensures IsSubsequence(SpokenText(content), Redaction.ProcessMessage(content))
    ensures Markup.TagFree(SpokenText(content))
  {
    Markup.StripMarkupSubsequence(Redaction.ProcessMessage(content));
    Markup.StripMarkupTagFree(Redaction.ProcessMessage(content));
  }

  /** A message that is a single `<...>` token without a URL (a mention, a
      custom emoji) passes both blank checks and is sent to the engine with
      empty text: the only blank checks run before markup is stripped. */
  lemma TagOnlyMessageSpeaksEmpty(g: GuildId, inner: string, store: Store)
    requires '>' !in inner && '\n' !in inner
    requires Redaction.NoUrl("<" + inner + ">")
    ensures OnMessage(Message(false, g, "<" + inner + ">"), true, store).Speak?
    ensures OnMessage(Message(false, g, "<" + inner + ">"), true, store).query.text == []
  {
    var c := "<" + inner + ">";
    BlankIffAllSpace(c);
    assert !IsSpace(c[0]);
    Redaction.ProcessMessageUnchangedIff(c);
    Markup.StripMarkupSingleTag(inner);
  }

  /** A link wrapped in angle brackets is read as `<` followed by the
      placeholder, because redaction runs before markup stripping and its
      run takes the closing `>` along. */
  lemma BracketedLinkSpoken(g: GuildId, u: string, store: Store)
    requires Redaction.IsUrlToken(u)
    ensures OnMessage(Message(false, g, "<" + u + ">"), true, store).Speak?
    ensures OnMessage(Message(false, g, "<" + u + ">"), true, store).query.text == "<" + Redaction.Placeholder
  {
    var c := "<" + u + ">";
    BlankIffAllSpace(c);
    assert !IsSpace(c[0]);
    Redaction.ProcessBracketedLink(u);
    Redaction.PlaceholderVisible();
    assert '<' !in Redaction.Placeholder;
    assert Markup.TagFree("<" + Redaction.Placeholder);
    Markup.StripMarkupTagFreeFixed("<" + Redaction.Placeholder);
  }
}
