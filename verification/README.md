# Text and settings core of the COEIROINK read-aloud bot

`yomiage.py` is a Discord bot that reads chat messages aloud in a voice
channel through a local COEIROINK speech engine. Around the Discord and HTTP
plumbing sits a small deterministic core, modelled here in Dafny:

- **URL redaction** (`process_message`): a message that is one URL as a
  whole becomes the placeholder `リンク省略` ("link omitted"); otherwise every
  URL run (`http://`, `https://` or `www.` up to the next whitespace) is
  replaced by the placeholder in place. Modelled as a left-to-right scanner
  (`Redaction.Redact`) and checked against a declarative cut of the message
  into kept characters and links (`Redaction.Segments`).
- **Markup stripping** (first line of `talk`): `re.sub(r'<.*?>', '', text)`,
  modelled as a scanner that drops each `<` ... first `>` span that stays on
  one line (`Markup.StripMarkup`).
- **Per-guild voice settings**: a map from guild id to
  `{speed, pitch, intonation}`, read with a fallback to the defaults and
  patched by the `setting` command (`Settings`).
- **The synthesis request** `talk` builds (`Synthesis.TalkQuery`).
- **The decision `on_message` takes** for one message: skip, or send a
  request with the spoken text and the guild's settings (`Relay.OnMessage`).

Whitespace is Python's `str.isspace()` set (`Text.IsSpace`), which is also
what `\s`/`\S` mean in a `re` pattern over `str`; one predicate serves both
`\S+` and `strip()`.

Files: `wrappers.dfy` (Option), `text.dfy` (whitespace, strip, filter,
subsequence), `markup.dfy`, `redaction.dfy`, `settings.dfy`,
`synthesis.dfy`, `relay.dfy`.

Behaviour of the code worth knowing, each stated by a lemma:

- URL redaction runs before markup stripping (line 99, then line 37 inside
  `talk`), so `<https://...>` is read as `<` followed by the placeholder
  (`Relay.BracketedLinkSpoken`).
- Both blank checks (lines 96 and 100) run before markup is stripped, so a
  message that is only a mention or custom emoji passes them and is sent to
  the engine with empty text (`Relay.TagOnlyMessageSpeaksEmpty`).
- The blank check after redaction (line 100) can never fire:
  `Redaction.ProcessMessageNeverBlank` proves redaction never blanks a
  non-blank message, and `Relay.OnMessage` states that the corresponding
  skip never happens.
- The `setting` command rejects nothing itself: the ranges of its arguments
  are declared to Discord (lines 167-169), which enforces them before the
  command runs.

## Model

| member | source | states |
|---|---|---|
| Text.Strip | yomiage.py:71 | the stripped text is empty or starts and ends with a non-whitespace character |
| Text.LeadingSpaces | yomiage.py:71 | the count is the index of the first non-whitespace character, or the length of the text when every character is whitespace |
| Text.TrailingSpaces | yomiage.py:71 | the count is the number of characters after the last non-whitespace character, or the length of the text when every character is whitespace |
| Text.StripSlice | yomiage.py:71 | every text is a whitespace head, its stripped form, and a whitespace tail |
| Text.StripUnique | yomiage.py:71 | stripping is determined by that shape: whatever lies between whitespace head and tail and starts and ends visibly is the result |
| Text.StripVisibleHead | yomiage.py:71 | a text that starts with a visible character keeps that first character after stripping |
| Text.BlankIffAllSpace | yomiage.py:96 | `not text.strip()` holds exactly when every character is whitespace |
| Markup.FindClose | yomiage.py:37 | the lazy `.*?>` reaches the first `>` when no line break comes before it, and finds nothing exactly when a line break or the end comes first |
| Markup.StripMarkup | yomiage.py:37 | stripping never lengthens the text |
| Markup.StripMarkupSubsequence | yomiage.py:37 | stripping only deletes characters: the result is a subsequence of the input |
| Markup.StripMarkupNoOpen | yomiage.py:37 | text containing no `<` is returned unchanged |
| Markup.StripMarkupKeepsNewlines | yomiage.py:37 | every line break survives in order, because `.` does not match a line break |
| Markup.SpanOnOneLine | yomiage.py:37 | a deleted `<...>` span holds no line break |
| Markup.StripKeepsNoClose | yomiage.py:37 | when no `>` follows on the line, the stripped rest offers none either, so a kept `<` stays unmatched |
| Markup.StripMarkupTagFree | yomiage.py:37 | after stripping, no `<` is followed by a `>` without a line break between them |
| Markup.StripMarkupTagFreeFixed | yomiage.py:37 | text without such a pair is a fixed point of stripping |
| Markup.StripMarkupFixedIff | yomiage.py:37 | stripping leaves a text unchanged exactly when it holds no span |
| Markup.StripMarkupIdempotent | yomiage.py:37 | stripping twice equals stripping once |
| Markup.FindCloseAt | yomiage.py:37 | the closing `>` is the first `>` that has no line break before it |
| Markup.StripMarkupSingleTag | yomiage.py:37 | a one-line `<...>` token, such as a mention, strips to the empty text |
| Markup.StripMarkupDropsSpan | yomiage.py:37 | at a `<` the span removed ends at the first `>` of the line and the scan resumes right after it |
| Markup.StripMarkupKeepsChar | yomiage.py:37 | a character that opens no span on its line is kept and the scan moves on by one character |
| Markup.StripMarkupIsLazy | yomiage.py:37 | `<a>b>` becomes `b>`: only the shortest span is removed |
| Redaction.SchemeLength | yomiage.py:70 | the literal start of the pattern is 4, 7 or 8 characters long, or absent |
| Redaction.SchemeLiterals | yomiage.py:70 | those lengths stand for exactly the literals `www.`, `http://` and `https://` |
| Redaction.SchemeVisible | yomiage.py:70 | each literal start begins with `h` or `w` and holds no whitespace |
| Redaction.RunLength | yomiage.py:70 | the greedy `\S+` reaches up to the first whitespace or the end |
| Redaction.RunStopsAtSpace | yomiage.py:70 | the `\S+` run never reaches past a whitespace character |
| Redaction.StartsUrlHead | yomiage.py:70 | a URL match starts with `h` or `w`, never with whitespace |
| Redaction.RunIsMaximalToken | yomiage.py:70-73 | the run replaced at a URL start is a whole URL token that whitespace or the end stops |
| Redaction.TokenIsRun | yomiage.py:70-73 | conversely, a URL token at the front stopped by whitespace or the end is exactly that run |
| Redaction.UrlTokenNoSpace | yomiage.py:70-71 | a text matching the pattern as a whole holds no whitespace |
| Redaction.SegmentsCoverText | yomiage.py:73 | the pieces of a message concatenate back to it: every character outside URL runs is kept in order |
| Redaction.SegmentsHead | yomiage.py:73 | the first piece is forced: a link where a URL starts, the character itself elsewhere |
| Redaction.SegmentsUnique | yomiage.py:73 | the leftmost-first, non-overlapping cut into kept characters and URL runs is unique |
| Redaction.SegmentationOf | yomiage.py:73 | every message has such a cut |
| Redaction.RedactRendersSegments | yomiage.py:73 | `re.sub` output is the cut with each URL run replaced by the placeholder and every other character kept |
| Redaction.RedactKeepsSpaces | yomiage.py:70-73 | the whitespace of the input appears in the output unchanged and in order |
| Redaction.RedactUnchangedIff | yomiage.py:73 | `re.sub` leaves a text unchanged exactly when no URL match begins in it |
| Redaction.RedactSpacePrefix | yomiage.py:73 | leading whitespace passes through `re.sub` untouched |
| Redaction.RedactSpaceStep | yomiage.py:73 | a whitespace character is never the start of a match and is copied |
| Redaction.RedactLoneToken | yomiage.py:73 | one URL token between whitespace becomes the placeholder between the same whitespace |
| Redaction.SingleUrlIsPlaceholder | yomiage.py:70-73 | when the stripped message is one URL token the result is exactly the placeholder, which is the `re.sub` result with the surrounding whitespace discarded |
| Redaction.ProcessMessageUnchangedIff | yomiage.py:70-73 | `process_message` returns its input exactly when no URL match begins in it |
| Redaction.StrippedTokenIsUrl | yomiage.py:71-72 | when the full-match shortcut fires a URL match begins in the message and the message is not the placeholder, so the shortcut always changes it |
| Redaction.ProcessMessageKeepsSpaces | yomiage.py:70-73 | outside the single-URL case all whitespace of the message is kept in order |
| Redaction.RedactKeepsVisible | yomiage.py:73 | a text with a visible character keeps one after `re.sub` |
| Redaction.ProcessMessageNeverBlank | yomiage.py:96-101 | `process_message` of a non-blank message is never blank |
| Redaction.TokenStartsUrl | yomiage.py:70-71 | a full-match URL token is also a URL start |
| Redaction.StartsUrlExtends | yomiage.py:70 | whether a URL starts depends only on the leading characters |
| Redaction.TokenExtends | yomiage.py:70 | a visible character appended to a URL token keeps it a URL token |
| Redaction.RedactBracketedLink | yomiage.py:73 | `re.sub` turns `<` + URL + `>` into `<` followed by the placeholder: the run swallows the `>` |
| Redaction.ProcessBracketedLink | yomiage.py:70-73 | so does `process_message`: the stripped text starts with `<`, so the full-match shortcut does not apply |
| Settings.Overwrite | yomiage.py:176-181 | each supplied argument replaces its field; an omitted one keeps the prior value |
| Settings.SetSettings | yomiage.py:171-183 | the guild gains an entry whose supplied fields are the arguments and whose other fields are what a read gave before (the defaults on first use); other guilds' entries are untouched; the reported settings are the new entry |
| Settings.SetSettingsIsUpdate | yomiage.py:171-181 | the new store is the old one with only the guild's entry replaced by the patched prior read |
| Settings.SetSettingsReadBack | yomiage.py:103 | a read after `setting` gives the patched values over the previous read |
| Settings.SetSettingsIsolated | yomiage.py:174 | a `setting` on one guild changes no read of another guild, including guilds still on the defaults |
| Settings.EmptyPatchKeepsReads | yomiage.py:171-181 | `setting` with no arguments changes no read |
| Settings.SetSettingsIdempotent | yomiage.py:171-181 | repeating the same `setting` changes nothing further |
| Settings.SetSettingsCompose | yomiage.py:171-181 | two `setting` calls equal one in which the later supplied fields win |
| Settings.SetSettingsCommute | yomiage.py:171-181 | `setting` calls on different guilds commute |
| Settings.SetSettingsKeepsRange | yomiage.py:167-169 | if every argument is within the declared ranges, every read stays within them |
| Synthesis.TalkQuery | yomiage.py:37-51 | the request has the fixed speaker, style, volume, padding and sample rate, carries the settings as its scales, and its text is markup-free and a subsequence of the input |
| Synthesis.TalkQueryPlainText | yomiage.py:37-42 | markup-free text reaches the engine verbatim |
| Relay.OnMessage | yomiage.py:90-113 | a message is skipped exactly when it is from a bot, the guild has no connected voice client, or its content is blank; the reason is the first of these in that order (bot, then voice, then blank); the post-redaction skip never happens; otherwise the request carries the redacted-then-stripped text and the guild's settings or the defaults |
| Relay.OnMessageIsolated | yomiage.py:103 | a `setting` in another guild does not change the decision |
| Relay.PlainMessageSpokenVerbatim | yomiage.py:96-113 | a non-blank message with no URL is spoken, and its spoken text equals the message exactly when no `<` in it is followed by a `>` on the same line |
| Relay.SpokenTextIsSubsequence | yomiage.py:99-112 | the spoken text is markup-free and a subsequence of the redacted message |
| Relay.TagOnlyMessageSpeaksEmpty | yomiage.py:96-112 | a message that is one URL-free `<...>` token is sent to the engine with empty text |
| Relay.BracketedLinkSpoken | yomiage.py:99-112 | a message `<` + URL + `>` is spoken as `<` followed by the placeholder |

## Left out

- The HTTP POST to the engine, its 30-second timeout and its exception handling (yomiage.py:53-64): network I/O. The model stops at the request record; the engine's answer is not modelled.
- Relay.OnMessage: assumes that no audio is playing when the message arrives. During playback the loop at yomiage.py:105-106 passes a function to `discord.utils.sleep_until`, whose documented parameter is a `datetime`, so the handler would raise there before `talk` runs and the message would not be spoken. The playback state is not modelled, so the skip conditions of `Relay.OnMessage` describe only a message that arrives while nothing is playing.
- FFmpeg playback (yomiage.py:115-117): asynchronous audio output.
- The Discord client, `on_ready`, slash-command registration, `join`, `leave`, the settings embed and the `__main__` start-up (yomiage.py:79-88, 119-152, 184-195): platform glue. `voice_client and voice_client.is_connected()` becomes the boolean parameter `voiceConnected` of `Relay.OnMessage`.
- A message outside a guild: line 94 reads `message.guild.voice_client` and would fail on a direct message; the model always has a guild id.
- Python floats: the settings are copied, never computed with, so they are modelled as `real`.
- The declared ranges of the `setting` arguments (yomiage.py:167-169) are enforced by Discord, not by this code; they appear only as the precondition of `Settings.SetSettingsKeepsRange`, not as a rejection.
- Unicode: `Text.IsSpace` lists Python's whitespace code points; strings are sequences of code points with no normalisation.
