# VoiceLabs catalog and workflow model

A Dafny model of the logic inside `app.js`, the single browser file of the
VoiceLabs voice-cloning front end. The `VoiceLabs` class keeps three lists:
every voice in the shared `voices` collection (fetched with no filter), the
community list of public voices, and the stored
selection of audio files. On top of them it runs three workflows. Cloning
uploads the samples and creates a voice record. Speech generation calls the
text-to-speech service and records a synthesis. Browsing projects and
filters the community list.

The model keeps the DOM out. Every value the code reads from a form field
becomes a parameter: the voice name, description, language and publish box,
the search box and language filter, the voice select, the text and the
sliders. Every call into the platform becomes an explicit answer passed in:

- the upload service is a function `nat -> Option<Url>`, giving its answer
  to the k-th upload of one clone (`None` when the call throws);
- the store's answer to a create call is the assigned id or `None`;
- the speech service's answer is a URL or `None`;
- the store's answer to a synthesis record is a boolean;
- a fetch of the voice collection is the list of records or `None`.

Each workflow returns the calls it made, in order, as a trace of `Call`
values. This is how "no upload and no create" and "a record only after the
speech call" are stated.

Modules, one file each:

- `Options` (`options.dfy`): the optional value.
- `Lists` (`lists.dfy`): order-preserving filter (`Keep`), its subsequence
  characterisation, and reversal.
- `Strings` (`strings.dfy`): ASCII `toLowerCase`, `startsWith`, `includes`
  with a search method proved against an occurrence-based definition, and
  `trim` over the ECMAScript white-space set.
- `Voices` (`voices.dfy`): voice, synthesis and file records, the call
  trace, the notices and the application state.
- `Catalog` (`catalog.dfy`): `loadVoices`, `loadCommunityVoices` and
  `filterCommunityVoices`.
- `Cloning` (`cloning.dfy`): `handleFiles`, the upload loop and `cloneVoice`.
- `Synthesis` (`synthesis.dfy`): the voice lookup and `generateTTS`.
- `Scenarios` (`scenarios.dfy`): two concrete cases.

Behaviours of the code the model keeps:

- The clone guard tests the trimmed name. The speech guard tests the trimmed
  text and the untrimmed voice id.
- The community cache is undefined until the first successful load. Filtering
  before that throws inside the event handler, modelled as `None`.
- A description is always stored, as the trimmed field, possibly empty. An
  empty or absent description never matches a search.
- When the speech call succeeds but the synthesis record is refused, the
  generated audio is still loaded into the player, and the error notice is
  shown (`RecordFailed`).
- The synthesis record stores the slider values as strings, not parsed numbers.

## Model

| member | source | states |
|---|---|---|
| Catalog.ProjectCommunity | app.js:133 | the community list has min(n, cap) entries, and entry i is fetched entry n-1-i, so the last one fetched comes first |
| Catalog.LoadCommunity | app.js:125-138 | a successful fetch replaces the cache with the reversed list capped at 50, leaving the other state alone; a failed fetch changes nothing |
| Catalog.LoadVoices | app.js:281-290 | a successful fetch replaces the voice list; a failed fetch changes nothing |
| Catalog.EmptyFilterKeepsAll | app.js:140-150 | with an empty search term and no language every voice passes both tests, so filtering keeps the whole list |
| Catalog.FilterVoices | app.js:140-150 | every kept voice has a lower-cased name containing the lower-cased term, or a non-empty description that does; with a non-empty language filter every kept voice has exactly that language; empty term and empty language return the list unchanged; never longer than the input |
| Catalog.FilterSelects | app.js:144-150 | the filtered list is read off the community list at strictly increasing positions, and a position is among them exactly when its voice matches |
| Catalog.FilterMembership | app.js:144-150 | a voice is in the filtered list if and only if it is in the community list and matches both filters |
| Catalog.FilterCommunity | app.js:140-153 | filtering fails exactly when the community cache is still undefined; otherwise every result matches, empty filters return the cache itself, and the cache is not changed |
| Lists.Keep | app.js:144-150 | the order-preserving filter returns no more elements than it was given, and every element it returns satisfies the predicate |
| Lists.KeepSelects | app.js:144 | the order-preserving filter keeps exactly the positions whose element satisfies the predicate, in increasing order |
| Lists.KeepAll | app.js:144-150 | when every element satisfies the predicate, the filter returns the whole sequence |
| Lists.KeepEmptyIff | app.js:198-199 | the filter comes back empty exactly when no element satisfies the predicate |
| Lists.Reverse | app.js:133 | the reversal has the same length, and position i holds input position n-1-i |
| Strings.ContainsIffOccurs | app.js:145-146 | `includes` holds exactly when the term occurs at some position of the string |
| Strings.Includes | app.js:145-146 | the left-to-right search answers true exactly when the term occurs in the string |
| Strings.ContainsEmpty | app.js:141-145 | the empty search term is included in every name |
| Strings.TrimStart | app.js:210 | the result is a suffix of the input, what was cut is all white space, and it does not start with white space |
| Strings.TrimEnd | app.js:210 | the result is a prefix of the input, what was cut is all white space, and it does not end with white space |
| Strings.Trim | app.js:210-211 | the result is a slice of the input with only white space outside it, and it neither starts nor ends with white space |
| Strings.TrimEmptyIff | app.js:215 | a field trims to the empty string exactly when it consists only of white space |
| Strings.TrimKeepsTrimmed | app.js:210-211 | a string with no white space at either end is its own trim |
| Strings.TrimIdempotent | app.js:210-211 | trimming an already trimmed name or text changes nothing: `trim` is idempotent on every string |
| Cloning.HandleFiles | app.js:197-207 | with no audio file among the input the selection is unchanged and the invalid-files notice is shown; otherwise the selection becomes the audio files and the notice reports their count |
| Cloning.HandleFilesSelects | app.js:198-205 | the stored selection is the input files at increasing positions, and a position is kept exactly when its MIME type starts with `audio/` |
| Cloning.UploadAll | app.js:232-238 | all uploads succeed exactly when every answer is a URL, and then the URLs are the answers in file order and each file is uploaded once in order; otherwise the loop stops at the first failed upload, after uploading exactly the files up to and including it |
| Cloning.CloneRecord | app.js:241-250 | the record sent to the store carries the trimmed name and description, the language, the upload URLs in file order, samples_count equal to the number of files and of URLs, the publish flag, the timestamp and the current user's name when there is one |
| Cloning.CloneVoice | app.js:209-279 | an empty trimmed name or no selection makes no call and changes nothing; a failed upload is the first one that threw, only the files up to it were uploaded, no create follows and nothing changes; a refused create comes after one upload per file and changes nothing; success holds exactly when the guard passes and every upload and the create answered, and then the uploads are in file order followed by one create whose record has samples_count equal to the number of files and the URLs in file order, the stored voice is appended at the end of the list, the selection is cleared, and the community list is refreshed exactly when publishing |
| Synthesis.FindVoice | app.js:360 | the lookup fails exactly when no voice has the id; otherwise it returns the first voice with that id |
| Synthesis.SpeakWith | app.js:366-392 | the speech call with the given text comes first; a failed call ends there with nothing loaded into the player; once it answers, the audio is loaded into the player and exactly one create call follows, whose record carries this voice's id and name, the text sent, the answered URL, the speed, the pitch and the timestamp, whether or not the store then accepts it; the run succeeds exactly when the store accepts it |
| Synthesis.GenerateSpeech | app.js:339-404 | an empty voice id or empty trimmed text, or an id absent from the voice list, makes no call; the speech call comes first and only for a known voice; a synthesis record is written only after the speech call answered, carrying its URL; for a valid request and known voice, a failed speech call makes that one call and loads nothing into the player; once the speech call answers, the audio is loaded into the player and the one record written carries the id and name of the first voice with that id, the trimmed text, the answered URL, the speed, the pitch and the timestamp, both when the store refuses it (error notice) and when it accepts it; success holds exactly when both services accept |
| Scenarios.EchoNovaFilter | app.js:140-150 | with the list [Echo (en), Nova (fr)], the term "ec" keeps only Echo and the language "fr" keeps only Nova |
| Scenarios.SecondOfThreeUploadsFails | app.js:232-238 | with three selected files and the second upload refused, exactly two uploads are made, no create follows, and the state is unchanged |

## Left out

- Rendering and wiring are not modelled: `setupTabs`, `switchTab`, `setupEventListeners`, `renderCommunityVoices`, `updateVoiceLibrary`, `updateVoiceSelect`, `downloadAudio`, `showNotification`. They are presentation only. Notices are modelled as values naming which notification is shown.
- The form reset after a clone is not modelled: clearing the name and description fields and re-checking the publish box are DOM writes. The reset of the stored selection is modelled.
- `debounce` and the notification auto-dismiss timer are not modelled: they are timing concerns.
- The delayed append after a clone (a one-second `setTimeout`) is taken as immediate. The community reload it triggers when publishing is reported as a flag, not performed.
- Overlapping runs are not modelled. An example: files dropped while a clone is still uploading replace the stored selection, and `samples_count` reads that selection's length after the uploads. The model treats each workflow as one uninterrupted step.
- Platform calls are not modelled: `getCurrentUser`, `websim.upload`, `websim.textToSpeech` and the collection store's `getList`, `filter` and `create`. They appear only through the answers passed in. The server-side `is_public` filter is assumed to have been applied by the store.
- `parseFloat` of the sliders and the `Date` timestamps are not modelled: the speech request carries the slider strings where the code sends `parseFloat(speed)` and `parseFloat(pitch)`, and the timestamp is an opaque parameter.
- Strings.LowerChar: covers ASCII letters only, not the full Unicode case mapping of `toLowerCase`.
- The hard-coded `'en-male'` voice sent to the speech service is not modelled, because it is constant and does not depend on the chosen clone. The unused `fetchLimit` and `loadTimeout` settings are not modelled either.
