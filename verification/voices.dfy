/** The records the application handles and the state the `VoiceLabs` class
    keeps between events. */
module Voices {
  import opened Options

  type Url = string

  /** A file chosen in the upload area; `mimeType` is the browser's `File.type`. */
  datatype AudioFile = AudioFile(name: string, mimeType: string)

  /** The fields the application sends to the `voices` collection. */
  datatype VoiceRecord = VoiceRecord(
    name: string,
    description: Option<string>,
    language: string,
    audioFiles: seq<Url>,
    samplesCount: int,
    createdAt: string,
    isPublic: bool,
    creatorUsername: Option<string>)

  /** A stored voice: the record plus the identifier the store assigned. */
  datatype Voice = Voice(id: string, record: VoiceRecord)

  /** The text-to-speech request; `speed` and `pitch` are the slider values. */
  datatype TtsRequest = TtsRequest(text: string, speed: string, pitch: string)

  /** The fields the application sends to the `tts_syntheses` collection. */
  datatype SynthesisRecord = SynthesisRecord(
    voiceId: string,
    text: string,
    audioUrl: Url,
    speed: string,
    pitch: string,
    voiceName: string,
    createdAt: string)

  /** One call into the platform, in the order the application issues them. */
  datatype Call =
    | UploadCall(file: AudioFile)
    | CreateVoiceCall(voice: VoiceRecord)
    | SpeechCall(request: TtsRequest)
    | CreateSynthesisCall(synthesis: SynthesisRecord)

  /** The notifications the application shows. */
  datatype Notice =
    | NoAudioFiles
    | FilesLoaded(count: nat)
    | MissingNameOrFiles
    | VoiceCloned
    | CloneError
    | MissingVoiceOrText
    | SpeechGenerated
    | SpeechError

  /** The signed-in user, if the identity lookup succeeded. */
  datatype User = User(username: Option<string>)

  /** The fields of the `VoiceLabs` instance that outlive one event:
      the voice list, the community cache (undefined until the first
      successful load), the stored file selection (undefined or reset to
      null until files are chosen) and the current user. */
  datatype App = App(
    voices: seq<Voice>,
    community: Option<seq<Voice>>,
    selection: Option<seq<AudioFile>>,
    currentUser: Option<User>)
}
