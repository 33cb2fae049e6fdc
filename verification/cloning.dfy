/** Choosing sample files and cloning a voice from them: validation, the
    sequential uploads, the record creation and the append to the voice list. */
module Cloning {
  import opened Options
  import opened Lists
  import opened Strings
  import opened Voices

  predicate IsAudio(f: AudioFile)
  {
    StartsWith(f.mimeType, "audio/")
  }

  /** `handleFiles`: the audio files among those dropped or picked become the
      selection; when there are none, the selection stays as it was. */
  function HandleFiles(app: App, files: seq<AudioFile>): (r: (App, Notice))
    ensures r.1 == NoAudioFiles <==> forall i :: 0 <= i < |files| ==> !IsAudio(files[i])
    ensures r.1 == NoAudioFiles ==> r.0 == app
    ensures r.1 != NoAudioFiles ==>
              && r.0.selection.Some? && r.0 == app.(selection := r.0.selection)
              && r.1 == FilesLoaded(|r.0.selection.value|)
              && 0 < |r.0.selection.value| <= |files|
              && forall i :: 0 <= i < |r.0.selection.value| ==> IsAudio(r.0.selection.value[i])
  {
    var kept := Keep(files, IsAudio);
    KeepEmptyIff(files, IsAudio);
    if |kept| == 0 then (app, NoAudioFiles)
    else (app.(selection := Some(kept)), FilesLoaded(|kept|))
  }

  /** The selection `handleFiles` stores is exactly the audio files, in input order. */
  lemma HandleFilesSelects(app: App, files: seq<AudioFile>) returns (idx: seq<int>)
    requires exists i :: 0 <= i < |files| && IsAudio(files[i])
    ensures HandleFiles(app, files).0.selection.Some?
    ensures SelectsAt(HandleFiles(app, files).0.selection.value, files, idx)
    ensures forall j :: 0 <= j < |files| ==> (IsAudio(files[j]) <==> j in idx)
  {
    idx := KeepSelects(files, IsAudio);
    var i :| 0 <= i < |files| && IsAudio(files[i]);
    assert i in idx;
  }

  /** The upload calls for `files`, one per file, in order. */
  function UploadCalls(files: seq<AudioFile>): seq<Call>
  {
    seq(|files|, i requires 0 <= i < |files| => UploadCall(files[i]))
  }

  datatype UploadRun = AllUploaded(urls: seq<Url>) | UploadFailedAt(index: nat)

  /** The `for ... of` loop of `cloneVoice`: each file is uploaded in turn and
      its URL collected; `upload(k)` is the media service's answer to the
      k-th upload, `None` when it throws, which ends the loop. */
  method UploadAll(files: seq<AudioFile>, upload: nat -> Option<Url>) returns (run: UploadRun, calls: seq<Call>)
    ensures run.AllUploaded? <==> forall i :: 0 <= i < |files| ==> upload(i).Some?
    ensures run.AllUploaded? ==> |run.urls| == |files| && calls == UploadCalls(files)
    ensures run.AllUploaded? ==> forall i :: 0 <= i < |files| ==> upload(i) == Some(run.urls[i])
    ensures run.UploadFailedAt? ==>
              && run.index < |files| && upload(run.index).None?
              && (forall i :: 0 <= i < run.index ==> upload(i).Some?)
              && calls == UploadCalls(files[..run.index + 1])
  {
    var urls: seq<Url> := [];
    calls := [];
    var i := 0;
    while i < |files|
      invariant 0 <= i <= |files|
      invariant |urls| == i
      invariant forall k :: 0 <= k < i ==> upload(k) == Some(urls[k])
      invariant calls == UploadCalls(files[..i])
    {
      calls := calls + [UploadCall(files[i])];
      assert calls == UploadCalls(files[..i + 1]);
      var answer := upload(i);
      if answer.None? {
        return UploadFailedAt(i), calls;
      }
      urls := urls + [answer.value];
      i := i + 1;
    }
    assert files[..i] == files;
    return AllUploaded(urls), calls;
  }

  datatype CloneOutcome =
    | Invalid
    | UploadFailed(index: nat)
    | CreateFailed
    | Cloned(voice: Voice)

  /** What one press of the clone button did: the resulting state, the calls
      made, the notice shown, and whether the community list is reloaded. */
  datatype CloneRun = CloneRun(
    outcome: CloneOutcome,
    app: App,
    calls: seq<Call>,
    notice: Notice,
    refreshCommunity: bool)

  /** The guard of `cloneVoice`: a name left after trimming and a non-empty selection. */
  predicate CanClone(app: App, name: string)
  {
    Trim(name) != "" && app.selection.Some? && |app.selection.value| > 0
  }

  /** Every selected file's upload answered with a URL. */
  predicate AllUploadsAnswer(files: seq<AudioFile>, upload: nat -> Option<Url>)
  {
    forall i :: 0 <= i < |files| ==> upload(i).Some?
  }

  /** Upload `k` is the first one that threw. */
  predicate FirstFailedUpload(files: seq<AudioFile>, upload: nat -> Option<Url>, k: nat)
  {
    k < |files| && upload(k).None? && forall i :: 0 <= i < k ==> upload(i).Some?
  }

  /** One upload per selected file, in order, followed by one create. */
  predicate UploadsThenCreate(files: seq<AudioFile>, calls: seq<Call>)
  {
    && |calls| == |files| + 1
    && calls[..|files|] == UploadCalls(files)
    && calls[|files|].CreateVoiceCall?
  }

  /** The record sent to the store: the trimmed fields, the URLs the uploads
      answered in file order, one sample per file, and the user's name. */
  predicate DescribesClone(record: VoiceRecord, files: seq<AudioFile>, upload: nat -> Option<Url>,
                           name: string, description: string, language: string, publish: bool,
                           now: string, user: Option<User>)
  {
    && record.samplesCount == |files| == |record.audioFiles|
    && (forall i :: 0 <= i < |files| ==> upload(i) == Some(record.audioFiles[i]))
    && record.name == Trim(name)
    && record.description == Some(Trim(description))
    && record.language == language
    && record.isPublic == publish
    && record.createdAt == now
    && record.creatorUsername == (if user.Some? then user.value.username else None)
  }

  /** The record `cloneVoice` sends once every upload answered. */
  function CloneRecord(files: seq<AudioFile>, upload: nat -> Option<Url>, urls: seq<Url>,
                       name: string, description: string, language: string, publish: bool,
                       now: string, user: Option<User>): (r: VoiceRecord)
    requires |urls| == |files| && forall i :: 0 <= i < |files| ==> upload(i) == Some(urls[i])
    ensures DescribesClone(r, files, upload, name, description, language, publish, now, user)
  {
    VoiceRecord(Trim(name), Some(Trim(description)), language, urls, |files|, now, publish,
                if user.Some? then user.value.username else None)
  }

  /** `cloneVoice`. `now` is the creation timestamp, `upload` the media
      service's answers, `created` the store's answer to the create call (the
      assigned id, or `None` when it throws). The deferred append is taken as
      immediate. */
  method CloneVoice(app: App, name: string, description: string, language: string, publish: bool,
                    now: string, upload: nat -> Option<Url>, created: Option<string>)
    returns (run: CloneRun)
    // validation: no call and no change
    ensures run.outcome.Invalid? <==> !CanClone(app, name)
    ensures run.outcome.Invalid? ==> run.calls == [] && run.app == app && run.notice == MissingNameOrFiles
    // all or nothing: a failed upload stops the loop, with no create and no change
    ensures run.outcome.UploadFailed? ==>
              && run.app == app && run.notice == CloneError && app.selection.Some?
              && FirstFailedUpload(app.selection.value, upload, run.outcome.index)
              && run.calls == UploadCalls(app.selection.value[..run.outcome.index + 1])
    ensures run.outcome.Invalid? || run.outcome.UploadFailed? ==>
              forall i :: 0 <= i < |run.calls| ==> run.calls[i].UploadCall?
    ensures run.outcome.CreateFailed? ==>
              && run.app == app && run.notice == CloneError && app.selection.Some?
              && AllUploadsAnswer(app.selection.value, upload)
              && UploadsThenCreate(app.selection.value, run.calls)
    ensures !run.outcome.Cloned? ==> !run.refreshCommunity && run.app == app
    // success: uploads in file order, then one create, then the append
    ensures run.outcome.Cloned? <==>
              CanClone(app, name) && created.Some? && AllUploadsAnswer(app.selection.value, upload)
    ensures run.outcome.Cloned? ==>
              && app.selection.Some?
              && UploadsThenCreate(app.selection.value, run.calls)
              && run.calls[|app.selection.value|] == CreateVoiceCall(run.outcome.voice.record)
              && run.outcome.voice.id == created.value
              && DescribesClone(run.outcome.voice.record, app.selection.value, upload,
                                name, description, language, publish, now, app.currentUser)
              && run.app == app.(voices := app.voices + [run.outcome.voice], selection := None)
              && run.notice == VoiceCloned
              && run.refreshCommunity == publish
  {
    if Trim(name) == "" || app.selection.None? || |app.selection.value| == 0 {
      return CloneRun(Invalid, app, [], MissingNameOrFiles, false);
    }
    var files := app.selection.value;
    var uploaded, calls := UploadAll(files, upload);
    if uploaded.UploadFailedAt? {
      assert FirstFailedUpload(files, upload, uploaded.index);
      assert forall i :: 0 <= i < |calls| ==> calls[i].UploadCall?;
      return CloneRun(UploadFailed(uploaded.index), app, calls, CloneError, false);
    }
    assert AllUploadsAnswer(files, upload);
    var record := CloneRecord(files, upload, uploaded.urls, name, description, language, publish,
                              now, app.currentUser);
    calls := calls + [CreateVoiceCall(record)];
    assert calls[..|files|] == UploadCalls(files);
    assert UploadsThenCreate(files, calls);
    if created.None? {
      return CloneRun(CreateFailed, app, calls, CloneError, false);
    }
    var voice := Voice(created.value, record);
    var next := app.(voices := app.voices + [voice], selection := None);
    return CloneRun(Cloned(voice), next, calls, VoiceCloned, publish);
  }
}
