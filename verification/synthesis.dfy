/** `generateTTS`: validating the request, finding the chosen voice,
    calling the speech service and recording the synthesis. */
module Synthesis {
  import opened Options
  import opened Strings
  import opened Voices

  /** Some voice in the list has the id. */
  predicate HasVoice(voices: seq<Voice>, id: string)
  {
    exists i :: 0 <= i < |voices| && voices[i].id == id
  }

  /** `v` is the first voice in the list with the id. */
  predicate FirstWithId(voices: seq<Voice>, id: string, v: Voice)
  {
    exists i :: && 0 <= i < |voices| && voices[i] == v && v.id == id
                && forall j :: 0 <= j < i ==> voices[j].id != id
  }

  /** `voices.find(v => v.id === id)`: the first voice with that id. */
  function FindVoice(voices: seq<Voice>, id: string): (r: Option<Voice>)
    ensures r.None? <==> !HasVoice(voices, id)
    ensures r.Some? ==> FirstWithId(voices, id, r.value)
  {
    if |voices| == 0 then None
    else if voices[0].id == id then
      assert FirstWithId(voices, id, voices[0]) by {
        assert voices[0] == voices[0] && voices[0].id == id;
      }
      Some(voices[0])
    else
      var r := FindVoice(voices[1..], id);
      assert forall i :: 1 <= i < |voices| ==> voices[i] == voices[1..][i - 1];
      assert r.Some? ==> FirstWithId(voices, id, r.value) by {
        if r.Some? {
          var i :| && 0 <= i < |voices[1..]| && voices[1..][i] == r.value && r.value.id == id
                   && forall j :: 0 <= j < i ==> voices[1..][j].id != id;
          assert voices[i + 1] == r.value;
        }
      }
      assert HasVoice(voices, id) ==> HasVoice(voices[1..], id) by {
        if HasVoice(voices, id) {
          var i :| 0 <= i < |voices| && voices[i].id == id;
          assert voices[1..][i - 1].id == id;
        }
      }
      r
  }

  datatype SpeechOutcome =
    | MissingInput
    | VoiceNotFound
    | SpeechFailed
    | RecordFailed(url: Url)
    | Generated(synthesis: SynthesisRecord)

  /** What one press of the generate button did: the calls made, the audio
      loaded into the player, and the notice shown. */
  datatype SpeechRun = SpeechRun(outcome: SpeechOutcome, calls: seq<Call>, loaded: Option<Url>, notice: Notice)

  /** The request sent to the speech service for the given inputs. */
  function Request(text: string, speed: string, pitch: string): TtsRequest
  {
    TtsRequest(Trim(text), speed, pitch)
  }

  /** The synthesis record written for `voice`: its id and name, the text
      sent, the audio URL returned, the speed and pitch, and the timestamp. */
  predicate RecordsSpeech(s: SynthesisRecord, voice: Voice, text: string, url: Url,
                          speed: string, pitch: string, now: string)
  {
    && s.voiceId == voice.id && s.voiceName == voice.record.name
    && s.text == text && s.audioUrl == url
    && s.speed == speed && s.pitch == pitch && s.createdAt == now
  }

  /** The part of `generateTTS` after the voice was found: the speech call
      with the trimmed text, then, once it answered, the player and the
      synthesis record naming `voice`. */
  function SpeakWith(voice: Voice, text: string, speed: string, pitch: string,
                     now: string, speech: Option<Url>, stored: bool): (run: SpeechRun)
    ensures run.calls != [] && run.calls[0] == SpeechCall(TtsRequest(text, speed, pitch))
    ensures forall i :: 0 <= i < |run.calls| && run.calls[i].CreateSynthesisCall? ==>
              i == 1 && speech.Some? && run.calls[i].synthesis.audioUrl == speech.value
    ensures run.outcome.SpeechFailed? <==> speech.None?
    ensures run.outcome.SpeechFailed? ==>
              run.calls == [SpeechCall(TtsRequest(text, speed, pitch))] && run.loaded == None
              && run.notice == SpeechError
    // once the speech call answered, the record for `voice` is written
    ensures speech.Some? ==>
              && |run.calls| == 2 && run.calls[1].CreateSynthesisCall?
              && RecordsSpeech(run.calls[1].synthesis, voice, text, speech.value, speed, pitch, now)
              && run.loaded == speech
    ensures run.outcome.RecordFailed? <==> speech.Some? && !stored
    ensures run.outcome.RecordFailed? ==>
              run.outcome.url == speech.value && run.notice == SpeechError
    ensures run.outcome.Generated? <==> speech.Some? && stored
    ensures run.outcome.Generated? ==>
              && run.calls[1] == CreateSynthesisCall(run.outcome.synthesis)
              && run.notice == SpeechGenerated
  {
    var request := SpeechCall(TtsRequest(text, speed, pitch));
    match speech
    case None => SpeechRun(SpeechFailed, [request], None, SpeechError)
    case Some(url) =>
      var synthesis := SynthesisRecord(voice.id, text, url, speed, pitch, voice.record.name, now);
      var calls := [request, CreateSynthesisCall(synthesis)];
      if stored then SpeechRun(Generated(synthesis), calls, Some(url), SpeechGenerated)
      else SpeechRun(RecordFailed(url), calls, Some(url), SpeechError)
  }

  /** The guard of `generateTTS`: a chosen voice and text left after trimming. */
  predicate CanSpeak(voiceId: string, text: string)
  {
    voiceId != "" && Trim(text) != ""
  }

  /** `generateTTS`. `speech` is the speech service's answer (`None` when it
      throws), `stored` whether the store accepted the synthesis record,
      `now` the creation timestamp. The voice list is only read. */
  function GenerateSpeech(app: App, voiceId: string, text: string, speed: string, pitch: string,
                          now: string, speech: Option<Url>, stored: bool): (run: SpeechRun)
    // the guard: empty voice id or empty trimmed text, no call
    ensures run.outcome.MissingInput? <==> !CanSpeak(voiceId, text)
    ensures run.outcome.MissingInput? ==>
              run.calls == [] && run.loaded == None && run.notice == MissingVoiceOrText
    // the lookup: an unknown voice id, no call
    ensures run.outcome.VoiceNotFound? <==> CanSpeak(voiceId, text) && !HasVoice(app.voices, voiceId)
    ensures run.outcome.VoiceNotFound? ==>
              run.calls == [] && run.loaded == None && run.notice == SpeechError
    // the speech call is made only for a known voice, and comes first
    ensures run.calls != [] ==>
              run.calls[0] == SpeechCall(Request(text, speed, pitch)) && HasVoice(app.voices, voiceId)
    // a record is written only after the speech call succeeded
    ensures forall i :: 0 <= i < |run.calls| && run.calls[i].CreateSynthesisCall? ==>
              i == 1 && speech.Some? && run.calls[i].synthesis.audioUrl == speech.value
    ensures run.outcome.SpeechFailed? <==>
              CanSpeak(voiceId, text) && HasVoice(app.voices, voiceId) && speech.None?
    ensures run.outcome.SpeechFailed? ==>
              run.calls == [SpeechCall(Request(text, speed, pitch))] && run.loaded == None
              && run.notice == SpeechError
    // once the speech call answered, the record for the first voice with
    // that id is written, whether or not the store accepts it
    ensures run.outcome.RecordFailed? || run.outcome.Generated? ==>
              && speech.Some? && |run.calls| == 2
              && run.calls[0] == SpeechCall(Request(text, speed, pitch))
              && run.calls[1].CreateSynthesisCall?
              && (exists v :: FirstWithId(app.voices, voiceId, v)
                    && RecordsSpeech(run.calls[1].synthesis, v, Trim(text), speech.value, speed, pitch, now))
              && run.loaded == speech
    ensures run.outcome.RecordFailed? <==>
              CanSpeak(voiceId, text) && HasVoice(app.voices, voiceId) && speech.Some? && !stored
    ensures run.outcome.RecordFailed? ==>
              run.outcome.url == speech.value && run.notice == SpeechError
    ensures run.outcome.Generated? <==>
              CanSpeak(voiceId, text) && HasVoice(app.voices, voiceId) && speech.Some? && stored
    ensures run.outcome.Generated? ==>
              && run.calls[1] == CreateSynthesisCall(run.outcome.synthesis)
              && run.notice == SpeechGenerated
  {
    if !CanSpeak(voiceId, text) then
      SpeechRun(MissingInput, [], None, MissingVoiceOrText)
    else
      match FindVoice(app.voices, voiceId)
      case None => SpeechRun(VoiceNotFound, [], None, SpeechError)
      case Some(voice) => SpeakWith(voice, Trim(text), speed, pitch, now, speech, stored)
  }
}
