/** The request `talk` builds for the speech engine (yomiage.py:33-51). The
    POST itself, its 30-second timeout and its error handling are outside
    the model; only the request record is. */
module Synthesis {
  import opened Text
  import opened Settings
  import Markup

  /** The fixed speaker and style (lines 40-41). */
  const SpeakerUuid: string := "697e0e2c-fda8-11ef-b33b-0242ac1c000c"
  const StyleId: int := 379136521

  /** The JSON body of the request. `prosodyDetail` is always the empty list
      here; its element type is never used, so it is modelled as strings. */
  datatype Query = Query(
    speakerUuid: string,
    styleId: int,
    text: string,
    speedScale: real,
    pitchScale: real,
    intonationScale: real,
    volumeScale: real,
    prosodyDetail: seq<string>,
    prePhonemeLength: real,
    postPhonemeLength: real,
    outputSamplingRate: int)

  /** The fields that do not depend on the message or the guild (lines
      40-41 and 46-50). */
  predicate HasFixedVoice(q: Query) {
    && q.speakerUuid == SpeakerUuid && q.styleId == StyleId
    && q.volumeScale == 1.0 && q.prosodyDetail == []
    && q.prePhonemeLength == 0.1 && q.postPhonemeLength == 0.5
    && q.outputSamplingRate == 24000
  }

  /** The voice settings a request carries. */
  function ScalesOf(q: Query): VoiceSettings {
    VoiceSettings(q.speedScale, q.pitchScale, q.intonationScale)
  }

  /** `talk(text, speed, pitch, intonation)` up to the POST: markup is
      stripped from the text (line 37), the three scales are copied from the
      settings and everything else is fixed. */
  function TalkQuery(text: string, s: VoiceSettings): (q: Query)
    ensures HasFixedVoice(q)
    ensures ScalesOf(q) == s
    ensures Markup.TagFree(q.text) && IsSubsequence(q.text, text)
  {
    Markup.StripMarkupTagFree(text);
    Markup.StripMarkupSubsequence(text);
    Query(SpeakerUuid, StyleId, Markup.StripMarkup(text),
          s.speed, s.pitch, s.intonation, 1.0, [], 0.1, 0.5, 24000)
  }

  /** Two messages produce the same request exactly when they read the same
      after markup stripping and use the same settings. */
  lemma TalkQueryInjective(t1: string, s1: VoiceSettings, t2: string, s2: VoiceSettings)
    ensures TalkQuery(t1, s1) == TalkQuery(t2, s2)
        <==> Markup.StripMarkup(t1) == Markup.StripMarkup(t2) && s1 == s2
  {
  }

  /** Text with no markup reaches the engine verbatim. */
  lemma TalkQueryPlainText(text: string, s: VoiceSettings)
    requires Markup.TagFree(text)
    ensures TalkQuery(text, s).text == text
  {
    Markup.StripMarkupTagFreeFixed(text);
  }
}
